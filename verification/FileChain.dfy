/** `_chain_by_filename` (revision_resolver.py): files of one volume name, ordered by the number of their
    revision mark and linked into one chain. */
module FileChain {
  import opened Options
  import opened Documents

  datatype Refusal = MixedMarks | TwoScales | NumberUnread | SameNumber

  datatype Chain = Linked(docs: seq<Doc>) | Refused(why: Refusal)

  predicate HasKind(docs: seq<Doc>, kind: MarkKind) {
    exists d :: d in docs && d.mark.kind == kind
  }

  function Numbers(docs: seq<Doc>): set<nat> {
    set d | d in docs && d.mark.number.Some? :: d.mark.number.value
  }

  /** The file that stays for a number: the last one that has it. */
  function LastWith(docs: seq<Doc>, n: nat): (r: Doc)
    requires n in Numbers(docs)
    ensures r in docs && r.mark.number == Some(n)
  {
    var last := docs[|docs| - 1];
    assert forall d :: d in docs <==> d in docs[..|docs| - 1] || d == last;
    if last.mark.number == Some(n) then last else LastWith(docs[..|docs| - 1], n)
  }

  /** Two files with one number and different content. */
  predicate Clash(docs: seq<Doc>) {
    exists c, d :: c in docs && d in docs && c.mark.number.Some? && c.mark.number == d.mark.number && c.hash != d.hash
  }

  predicate Unread(docs: seq<Doc>) {
    exists d :: d in docs && d.mark.number == None
  }

  // ----- the numbers in ascending order -----------------------------------------------------------------

  lemma NumbersSnoc(docs: seq<Doc>, last: Doc)
    ensures Numbers(docs + [last]) == Numbers(docs) + if last.mark.number.Some? then {last.mark.number.value} else {}
  {
    assert forall d :: d in docs + [last] <==> d in docs || d == last;
  }

  function Ceiling(docs: seq<Doc>): (r: nat)
    ensures forall n | n in Numbers(docs) :: n < r
  {
    if docs == [] then 0
    else
      var last, before := docs[|docs| - 1], Ceiling(docs[..|docs| - 1]);
      NumbersSnoc(docs[..|docs| - 1], last);
      assert docs == docs[..|docs| - 1] + [last];
      if last.mark.number.Some? && last.mark.number.value >= before then last.mark.number.value + 1 else before
  }

  /** The members of s below n, ascending. */
  function Ascending(s: set<nat>, n: nat): seq<nat> {
    if n == 0 then [] else Ascending(s, n - 1) + if n - 1 in s then [n - 1] else []
  }

  ghost predicate Increasing(s: seq<nat>) {
    forall i, j | 0 <= i < j < |s| :: s[i] < s[j]
  }

  lemma {:induction false} AscendingLists(s: set<nat>, n: nat)
    ensures forall x :: x in Ascending(s, n) <==> x in s && x < n
    ensures Increasing(Ascending(s, n))
  {
    if n > 0 {
      AscendingLists(s, n - 1);
      var before := Ascending(s, n - 1);
      forall i | 0 <= i < |before| ensures before[i] < n - 1 {
        assert before[i] in before;
      }
    }
  }

  /** `sorted(by_number)` */
  function Order(docs: seq<Doc>): seq<nat> {
    Ascending(Numbers(docs), Ceiling(docs))
  }

  lemma OrderLists(docs: seq<Doc>)
    ensures forall n :: n in Order(docs) <==> n in Numbers(docs)
    ensures Increasing(Order(docs))
  {
    AscendingLists(Numbers(docs), Ceiling(docs));
  }

  // ----- the chain ------------------------------------------------------------------------------------------

  function Chosen(docs: seq<Doc>, order: seq<nat>): (r: seq<Doc>)
    requires forall n | n in order :: n in Numbers(docs)
  {
    seq(|order|, i requires 0 <= i < |order| => assert order[i] in order; LastWith(docs, order[i]))
  }

  function Relinked(ordered: seq<Doc>, i: nat): Doc
    requires i < |ordered|
  {
    ordered[i].(
      pred := if i == 0 then None else Some(ordered[i - 1].id),
      succ := if i + 1 < |ordered| then Some(ordered[i + 1].id) else None)
  }

  function LinkAll(ordered: seq<Doc>): seq<Doc> {
    seq(|ordered|, i requires 0 <= i < |ordered| => Relinked(ordered, i))
  }

  function OrderedFiles(docs: seq<Doc>): seq<Doc> {
    OrderLists(docs);
    Chosen(docs, Order(docs))
  }

  /** The loop over the marks stops at the first file that has no number or clashes with an earlier one. */
  function FirstFault(docs: seq<Doc>): Option<Refusal> {
    if docs == [] then None
    else
      var init, last := docs[..|docs| - 1], docs[|docs| - 1];
      var earlier := FirstFault(init);
      if earlier.Some? then earlier
      else if last.mark.number == None then Some(NumberUnread)
      else if last.mark.number.value in Numbers(init) && LastWith(init, last.mark.number.value).hash != last.hash then
        Some(SameNumber)
      else None
  }

  function ChainOf(docs: seq<Doc>): Chain {
    if HasKind(docs, Mixed) then Refused(MixedMarks)
    else if HasKind(docs, Change) && HasKind(docs, Correction) then Refused(TwoScales)
    else match FirstFault(docs)
      case Some(why) => Refused(why)
      case None => Linked(LinkAll(OrderedFiles(docs)))
  }

  // ----- when a chain exists, and which -------------------------------------------------------------------

  lemma {:induction false} NoFaultExactly(docs: seq<Doc>)
    ensures FirstFault(docs) == None <==> !Unread(docs) && !Clash(docs)
  {
    if docs != [] {
      var init, last := docs[..|docs| - 1], docs[|docs| - 1];
      NoFaultExactly(init);
      assert forall d :: d in docs <==> d in init || d == last;
      assert Unread(docs) <==> Unread(init) || last.mark.number == None;
      if !Unread(docs) {
        ClashSnoc(docs, init, last);
      }
    }
  }

  lemma ClashSnoc(docs: seq<Doc>, init: seq<Doc>, last: Doc)
    requires docs == init + [last] && !Unread(docs) && last.mark.number.Some?
    ensures Clash(docs) <==>
            Clash(init) || (last.mark.number.value in Numbers(init)
                            && LastWith(init, last.mark.number.value).hash != last.hash)
  {
    assert forall d :: d in docs <==> d in init || d == last;
    var n := last.mark.number.value;
    if n in Numbers(init) {
      var same := LastWith(init, n);
      if same.hash != last.hash {
        assert same in docs && last in docs;
      }
      if !Clash(init) && same.hash == last.hash {
        forall c, d | c in docs && d in docs && c.mark.number == d.mark.number ensures c.hash == d.hash {
          assert c.mark.number.Some?;
          if c.mark.number == Some(n) {
            assert c == last || c.hash == same.hash;
            assert d == last || d.hash == same.hash;
          }
        }
      }
    } else if Clash(docs) {
      var c, d :| c in docs && d in docs && c.mark.number.Some? && c.mark.number == d.mark.number && c.hash != d.hash;
      assert c in init && d in init;
    }
  }

  /** A chain is refused exactly for marks on two scales or mixed, an unread number, or one number on
      files with different content. */
  lemma RefusedExactly(docs: seq<Doc>)
    ensures ChainOf(docs).Refused? <==>
            HasKind(docs, Mixed) || (HasKind(docs, Change) && HasKind(docs, Correction)) || Unread(docs) || Clash(docs)
  {
    NoFaultExactly(docs);
  }

  /** Linked end to end, in both directions. */
  ghost predicate DoublyLinked(docs: seq<Doc>) {
    forall i | 0 <= i < |docs| ::
      && docs[i].pred == (if i == 0 then None else Some(docs[i - 1].id))
      && docs[i].succ == (if i + 1 < |docs| then Some(docs[i + 1].id) else None)
  }

  ghost predicate StrictlyNumbered(docs: seq<Doc>) {
    && (forall i | 0 <= i < |docs| :: docs[i].mark.number.Some?)
    && forall i, j | 0 <= i < j < |docs| :: docs[i].mark.number.value < docs[j].mark.number.value
  }

  /** The same file but for its links. */
  predicate SameFile(a: Doc, b: Doc) {
    a.(pred := b.pred, succ := b.succ) == b
  }

  /** No later file has the number of this one. */
  ghost predicate LastOfNumber(docs: seq<Doc>, k: nat)
    requires k < |docs|
  {
    forall j | k < j < |docs| :: docs[j].mark.number != docs[k].mark.number
  }

  lemma {:induction false} LastWithIsLast(docs: seq<Doc>, n: nat)
    requires n in Numbers(docs)
    ensures exists k :: 0 <= k < |docs| && docs[k] == LastWith(docs, n) && LastOfNumber(docs, k)
  {
    var init, last := docs[..|docs| - 1], docs[|docs| - 1];
    assert docs == init + [last];
    if last.mark.number == Some(n) {
      assert LastOfNumber(docs, |docs| - 1);
    } else {
      NumbersSnoc(init, last);
      LastWithIsLast(init, n);
      var k :| 0 <= k < |init| && init[k] == LastWith(init, n) && LastOfNumber(init, k);
      assert LastOfNumber(docs, k) by {
        forall j | k < j < |docs| ensures docs[j].mark.number != docs[k].mark.number {
          assert j < |init| ==> init[j].mark.number != init[k].mark.number;
        }
      }
    }
  }

  ghost predicate StandsFor(docs: seq<Doc>, c: Doc) {
    exists k :: 0 <= k < |docs| && SameFile(docs[k], c) && LastOfNumber(docs, k)
  }

  ghost predicate Covered(chain: seq<Doc>, d: Doc) {
    exists c :: c in chain && c.mark.number == d.mark.number && c.hash == d.hash
  }

  /** A conflict-free chain: every number of the group once, ascending, linked end to end; each link is the
      last file of its number, and files that gave way to it have the same content. */
  lemma ChainShape(docs: seq<Doc>)
    requires ChainOf(docs).Linked?
    ensures StrictlyNumbered(ChainOf(docs).docs) && DoublyLinked(ChainOf(docs).docs)
    ensures forall c | c in ChainOf(docs).docs :: StandsFor(docs, c)
    ensures forall d | d in docs :: Covered(ChainOf(docs).docs, d)
  {
    ChosenFacts(docs);
    NoFaultExactly(docs);
    hide FirstFault; hide OrderedFiles; hide Order; hide StandsFor; hide Covered;
    hide StrictlyNumbered; hide DoublyLinked; hide SameFile; hide Clash; hide Unread; hide HasKind;
    LinkedShape(OrderedFiles(docs), Order(docs));
    var chain, files := ChainOf(docs).docs, OrderedFiles(docs);
    forall c | c in chain ensures StandsFor(docs, c) {
      var i :| 0 <= i < |chain| && chain[i] == c;
      Standing(docs, files, i);
    }
    forall d | d in docs ensures Covered(chain, d) {
      Covering(docs, chain, d);
    }
  }

  lemma Standing(docs: seq<Doc>, files: seq<Doc>, i: nat)
    requires i < |files| && files == OrderedFiles(docs)
    ensures StandsFor(docs, Relinked(files, i))
  {
    ChosenFacts(docs);
    hide OrderedFiles; hide Order;
    var n := Order(docs)[i];
    LastWithIsLast(docs, n);
    hide LastWith;
    var k :| 0 <= k < |docs| && docs[k] == LastWith(docs, n) && LastOfNumber(docs, k);
    assert SameFile(docs[k], Relinked(files, i));
  }

  lemma Covering(docs: seq<Doc>, chain: seq<Doc>, d: Doc)
    requires !Unread(docs) && !Clash(docs) && d in docs && chain == LinkAll(OrderedFiles(docs))
    ensures Covered(chain, d)
  {
    OrderLists(docs);
    ChosenFacts(docs);
    hide OrderedFiles; hide Order;
    var order, files := Order(docs), OrderedFiles(docs);
    assert d.mark.number.Some?;
    assert d.mark.number.value in Numbers(docs);
    var k :| 0 <= k < |order| && order[k] == d.mark.number.value;
    hide LastWith;
    assert chain[k] in chain && chain[k].mark.number == d.mark.number && chain[k].hash == files[k].hash;
    assert files[k] in docs;
  }

  lemma LinkedShape(files: seq<Doc>, order: seq<nat>)
    requires |files| == |order| && Increasing(order)
    requires forall i | 0 <= i < |files| :: files[i].mark.number == Some(order[i])
    ensures StrictlyNumbered(LinkAll(files)) && DoublyLinked(LinkAll(files))
  {
    var chain := LinkAll(files);
    assert DoublyLinked(chain);
    forall i | 0 <= i < |chain| ensures chain[i].mark.number == Some(order[i]) {
      hide DoublyLinked;
      assert chain[i] == Relinked(files, i);
    }
    hide LinkAll; hide DoublyLinked;
  }

  /** The files picked for the numbers in order. */
  lemma ChosenFacts(docs: seq<Doc>)
    ensures var files, order := OrderedFiles(docs), Order(docs);
            && |files| == |order| && Increasing(order)
            && (forall i | 0 <= i < |files| :: files[i] in docs && files[i].mark.number == Some(order[i]))
            && forall i | 0 <= i < |files| :: order[i] in Numbers(docs) && files[i] == LastWith(docs, order[i])
  {
    OrderLists(docs);
    var order := Order(docs);
    hide Order; hide LastWith;
    forall i | 0 <= i < |order| ensures order[i] in Numbers(docs) {
      assert order[i] in order;
    }
  }

  /** Chaining a chain again finds nothing to refuse. */
  lemma RechainAccepted(docs: seq<Doc>)
    requires ChainOf(docs).Linked?
    ensures ChainOf(ChainOf(docs).docs).Linked?
  {
    ChainShape(docs);
    RefusedExactly(docs);
    var chain := ChainOf(docs).docs;
    RefusedExactly(chain);
    NumberedIsClean(chain);
    hide *;
    KindStays(docs, chain, Mixed);
    KindStays(docs, chain, Change);
    KindStays(docs, chain, Correction);
  }

  lemma NumberedIsClean(chain: seq<Doc>)
    requires StrictlyNumbered(chain)
    ensures !Unread(chain) && !Clash(chain)
  {
    forall c, d | c in chain && d in chain && c.mark.number == d.mark.number ensures c.hash == d.hash {
      var i :| 0 <= i < |chain| && chain[i] == c;
      var j :| 0 <= j < |chain| && chain[j] == d;
      assert i == j;
    }
  }

  lemma KindStays(docs: seq<Doc>, chain: seq<Doc>, kind: MarkKind)
    requires forall c | c in chain :: StandsFor(docs, c)
    ensures HasKind(chain, kind) ==> HasKind(docs, kind)
  {
    hide LastOfNumber;
    if c :| c in chain && c.mark.kind == kind {
      var k :| 0 <= k < |docs| && SameFile(docs[k], c) && LastOfNumber(docs, k);
      assert docs[k] in docs;
    }
  }

  // ----- the method --------------------------------------------------------------------------------------

  ghost predicate Indexed(docs: seq<Doc>, byNumber: map<nat, Doc>) {
    && byNumber.Keys == Numbers(docs)
    && forall n | n in byNumber :: byNumber[n] == LastWith(docs, n)
  }

  lemma IndexedSnoc(docs: seq<Doc>, byNumber: map<nat, Doc>, d: Doc)
    requires Indexed(docs, byNumber) && d.mark.number.Some?
    ensures Indexed(docs + [d], byNumber[d.mark.number.value := d])
  {
    NumbersSnoc(docs, d);
    assert (docs + [d])[..|docs|] == docs;
  }

  lemma FaultSnoc(docs: seq<Doc>, d: Doc)
    requires FirstFault(docs) == None
    ensures FirstFault(docs + [d]) ==
            if d.mark.number == None then Some(NumberUnread)
            else if d.mark.number.value in Numbers(docs) && LastWith(docs, d.mark.number.value).hash != d.hash then
              Some(SameNumber)
            else None
  {
    assert (docs + [d])[..|docs|] == docs;
  }

  lemma {:induction false} FaultStays(docs: seq<Doc>, n: nat)
    requires n <= |docs| && FirstFault(docs[..n]).Some?
    ensures FirstFault(docs) == FirstFault(docs[..n])
  {
    if n < |docs| {
      var init := docs[..|docs| - 1];
      assert init[..n] == docs[..n];
      FaultStays(init, n);
    } else {
      assert docs[..n] == docs;
    }
  }

  /** The loop that fills the dict of numbers, or the first reason to stop it. */
  method IndexNumbers(group: seq<Doc>) returns (byNumber: map<nat, Doc>, fault: Option<Refusal>)
    ensures fault == FirstFault(group)
    ensures fault == None ==> Indexed(group, byNumber)
  {
    byNumber := map[];
    for i := 0 to |group|
      invariant FirstFault(group[..i]) == None && Indexed(group[..i], byNumber)
    {
      var doc := group[i];
      FaultSnoc(group[..i], doc);
      assert group[..i + 1] == group[..i] + [doc];
      hide FirstFault; hide LastWith; hide Numbers;
      if doc.mark.number == None {
        FaultStays(group, i + 1);
        return byNumber, Some(NumberUnread);
      }
      var number := doc.mark.number.value;
      if number in byNumber && byNumber[number].hash != doc.hash {
        FaultStays(group, i + 1);
        return byNumber, Some(SameNumber);
      }
      IndexedSnoc(group[..i], byNumber, doc);
      byNumber := byNumber[number := doc];
    }
    assert group[..|group|] == group;
    fault := None;
  }

  /** `_chain_by_filename` */
  method ChainByFilename(group: seq<Doc>) returns (chain: Chain)
    ensures chain == ChainOf(group)
  {
    if HasKind(group, Mixed) {
      return Refused(MixedMarks);
    }
    if HasKind(group, Change) && HasKind(group, Correction) {
      return Refused(TwoScales);
    }
    var byNumber, fault := IndexNumbers(group);
    if fault.Some? {
      return Refused(fault.value);
    }
    hide FirstFault; hide OrderedFiles; hide LinkAll;
    var linked := LinkNumbers(group, byNumber);
    chain := Linked(linked);
  }

  /** The last two loops: the files in the order of their numbers, then linked to their neighbours. */
  method LinkNumbers(group: seq<Doc>, byNumber: map<nat, Doc>) returns (linked: seq<Doc>)
    requires Indexed(group, byNumber)
    ensures linked == LinkAll(OrderedFiles(group))
  {
    hide LastWith; hide Numbers; hide Ascending; hide Ceiling; hide OrderedFiles;
    ChosenFacts(group);
    var order := Order(group);
    var ordered: seq<Doc> := [];
    for i := 0 to |order|
      invariant ordered == OrderedFiles(group)[..i]
    {
      ordered := ordered + [byNumber[order[i]]];
    }
    assert ordered == OrderedFiles(group);
    linked := [];
    for i := 0 to |ordered|
      invariant linked == LinkAll(ordered)[..i]
    {
      linked := linked + [Relinked(ordered, i)];
    }
  }
}
