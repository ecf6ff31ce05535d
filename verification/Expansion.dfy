/** What a run of the worklist amounts to: which documents come out of the zips, whose content a file is read
    from, and which files get a page. */
module Expansion {
  import opened Options
  import opened Archive
  import opened Worklist

  // ----- the log, position by position --------------------------------------------------------------------------

  lemma {:induction false} BornPrefix(log: seq<Taken>, k: nat)
    requires k <= |log|
    ensures Born(log[..k]) <= Born(log)
    decreases |log|
  {
    if k < |log| {
      var init := log[..|log| - 1];
      assert init[..k] == log[..k];
      BornPrefix(init, k);
      hide ChildrenOf;
    } else {
      assert log[..k] == log;
    }
  }

  lemma {:induction false} FollowsAt(files: seq<Item>, blobs: map<string, Blob>, reader: Reader, log: seq<Taken>,
                                     k: nat)
    requires Follows(files, blobs, reader, log) && k <= |log|
    ensures Follows(files, blobs, reader, log[..k])
    ensures k < |log| ==> Step(files, blobs, reader, log[..k], log[k])
    decreases |log|
  {
    hide Step;
    if k < |log| - 1 {
      var init := log[..|log| - 1];
      assert init[..k] == log[..k];
      FollowsAt(files, blobs, reader, init, k);
    } else if k == |log| {
      assert log[..k] == log;
    }
  }

  lemma QueuePrefix(files: seq<Item>, log: seq<Taken>, k: nat)
    requires k <= |log|
    ensures Queue(files, log[..k]) <= Queue(files, log)
  {
    BornPrefix(log, k);
    hide Born;
    var a, b := Born(log[..k]), Born(log);
    assert Items(a) == Items(b)[..|a|];
  }

  lemma QueueChild(files: seq<Item>, log: seq<Taken>, k: nat)
    requires |files| <= k < |Queue(files, log)|
    ensures k - |files| < |Born(log)| && Queue(files, log)[k] == Born(log)[k - |files|].item
  {
    hide Born;
  }

  lemma QueueGiven(files: seq<Item>, log: seq<Taken>, k: nat)
    requires k < |files|
    ensures k < |Queue(files, log)| && Queue(files, log)[k] == files[k]
  {
    hide Born;
  }

  /** The k-th file taken is the k-th of all the files. */
  lemma TakenAt(files: seq<Item>, blobs: map<string, Blob>, reader: Reader, log: seq<Taken>, k: nat)
    requires Follows(files, blobs, reader, log) && k < |log|
    ensures k < |Queue(files, log[..k])| <= |Queue(files, log)|
    ensures log[k].item == Queue(files, log)[k] == Queue(files, log[..k])[k]
    ensures log[k].fate ==
            FateOf(log[k].item, log[k].item.id in Ids(log[..k]), Lookup(Stored(blobs, Born(log[..k])), log[k].item.id),
                   reader)
  {
    FollowsAt(files, blobs, reader, log, k);
    QueuePrefix(files, log, k);
    hide Born; hide Queue; hide FateOf; hide Stored;
  }

  lemma SeenBefore(log: seq<Taken>, k: nat, id: string)
    requires k <= |log|
    ensures id in Ids(log[..k]) <==> exists j :: 0 <= j < k && log[j].item.id == id
  {
    if id in Ids(log[..k]) {
      var t :| t in log[..k] && t.item.id == id;
      var j :| 0 <= j < k && log[..k][j] == t;
      assert log[j] == t;
    }
    if j :| 0 <= j < k && log[j].item.id == id {
      assert log[..k][j] in log[..k];
    }
  }

  /** Files, contents and readers leave one log only. */
  lemma {:induction false} LogIsDetermined(
    files: seq<Item>, blobs: map<string, Blob>, reader: Reader, a: seq<Taken>, b: seq<Taken>)
    requires Complete(files, blobs, reader, a) && Complete(files, blobs, reader, b)
    ensures a == b
  {
    hide Queue; hide Follows;
    if |a| <= |b| {
      SharedPrefix(files, blobs, reader, a, b, |a|);
      Stops(files, blobs, reader, a, b);
    } else {
      SharedPrefix(files, blobs, reader, b, a, |b|);
      Stops(files, blobs, reader, b, a);
    }
  }

  lemma {:induction false} SharedPrefix(
    files: seq<Item>, blobs: map<string, Blob>, reader: Reader, a: seq<Taken>, b: seq<Taken>, n: nat)
    requires Follows(files, blobs, reader, a) && Follows(files, blobs, reader, b) && n <= |a| && n <= |b|
    ensures a[..n] == b[..n]
    decreases n
  {
    hide *;
    if n > 0 {
      SharedPrefix(files, blobs, reader, a, b, n - 1);
      SameNext(files, blobs, reader, a, b, n - 1);
      assert a[..n] == a[..n - 1] + [a[n - 1]] && b[..n] == b[..n - 1] + [b[n - 1]];
    }
  }

  lemma SameNext(files: seq<Item>, blobs: map<string, Blob>, reader: Reader, a: seq<Taken>, b: seq<Taken>, n: nat)
    requires Follows(files, blobs, reader, a) && Follows(files, blobs, reader, b) && n < |a| && n < |b|
    requires a[..n] == b[..n]
    ensures a[n] == b[n]
  {
    hide *;
    TakenAt(files, blobs, reader, a, n);
    TakenAt(files, blobs, reader, b, n);
  }

  lemma Stops(files: seq<Item>, blobs: map<string, Blob>, reader: Reader, a: seq<Taken>, b: seq<Taken>)
    requires Complete(files, blobs, reader, a) && Complete(files, blobs, reader, b)
    requires |a| <= |b| && b[..|a|] == a[..|a|]
    ensures a == b
  {
    assert a[..|a|] == a;
    hide Queue; hide Follows;
    if |a| < |b| {
      TakenAt(files, blobs, reader, b, |a|);
    }
  }

  // ----- names of the documents of a zip ------------------------------------------------------------------------

  predicate Digits(s: string) {
    forall i | 0 <= i < |s| :: '0' <= s[i] <= '9'
  }

  lemma {:induction false} NumeralDigits(n: nat)
    ensures |Numeral(n)| >= 1 && Digits(Numeral(n))
  {
    if n >= 10 {
      NumeralDigits(n / 10);
    }
  }

  lemma {:induction false} NumeralInjective(m: nat, n: nat)
    requires Numeral(m) == Numeral(n)
    ensures m == n
  {
    NumeralDigits(m / 10);
    NumeralDigits(n / 10);
    var a, b := Numeral(m), Numeral(n);
    assert a[|a| - 1] == (48 + m % 10) as char && b[|b| - 1] == (48 + n % 10) as char;
    if m >= 10 && n >= 10 {
      assert a[..|a| - 1] == Numeral(m / 10) && b[..|b| - 1] == Numeral(n / 10);
      NumeralInjective(m / 10, n / 10);
    }
  }

  lemma NoShorterTail(a: string, x: string, b: string, y: string)
    requires Digits(y) && |x| < |y|
    ensures a + "__" + x != b + "__" + y
  {
    var left, right := a + "__" + x, b + "__" + y;
    assert left[|left| - 1 - |x|] == '_';
    assert right[|right| - 1 - |x|] == y[|y| - 1 - |x|];
  }

  /** The id of a document out of a zip gives back the zip and the place in it. */
  lemma ChildIdInjective(a: string, m: nat, b: string, n: nat)
    requires ChildId(a, m) == ChildId(b, n)
    ensures a == b && m == n
  {
    NumeralDigits(m);
    NumeralDigits(n);
    var x, y := Numeral(m), Numeral(n);
    hide Numeral;
    if |x| < |y| {
      NoShorterTail(a, x, b, y);
    }
    if |y| < |x| {
      NoShorterTail(b, y, a, x);
    }
    assert (a + "__" + x)[|a|..] == "__" + x && (b + "__" + y)[|b|..] == "__" + y;
    assert (a + "__" + x)[..|a|] == a && (b + "__" + y)[..|b|] == b;
    assert ("__" + x)[2..] == x && ("__" + y)[2..] == y;
    NumeralInjective(m, n);
  }

  // ----- what comes out of the zips -----------------------------------------------------------------------------

  /** The documents of the k-th file taken lie together, after those of the earlier ones. */
  lemma ComesOutTogether(log: seq<Taken>, k: nat)
    requires k < |log|
    ensures var at := |Born(log[..k])|;
            at + |ChildrenOf(log[k])| <= |Born(log)|
            && Born(log)[at..at + |ChildrenOf(log[k])|] == ChildrenOf(log[k])
  {
    hide *;
    BornPrefix(log, k + 1);
    BornNext(log, k);
    MiddleOf(Born(log[..k]), ChildrenOf(log[k]), Born(log));
  }

  lemma MiddleOf(a: seq<Child>, b: seq<Child>, all: seq<Child>)
    requires a + b <= all
    ensures |a| + |b| <= |all| && all[|a|..|a| + |b|] == b
  {
    assert all[..|a + b|] == a + b;
  }

  /** Every document that came out is one of these. */
  lemma {:induction false} ComesFrom(log: seq<Taken>, j: nat) returns (k: nat, i: nat)
    requires j < |Born(log)|
    ensures k < |log| && i < |ChildrenOf(log[k])| && j == |Born(log[..k])| + i && Born(log)[j] == ChildrenOf(log[k])[i]
    decreases |log|
  {
    hide ChildrenOf;
    var init := log[..|log| - 1];
    if j < |Born(init)| {
      k, i := ComesFrom(init, j);
      assert init[..k] == log[..k];
    } else {
      k, i := |log| - 1, j - |Born(init)|;
    }
  }

  /** Documents of zips are taken as documents, so every zip that opens was given. */
  lemma OpenedIsGiven(files: seq<Item>, blobs: map<string, Blob>, reader: Reader, log: seq<Taken>, k: nat)
    requires Follows(files, blobs, reader, log) && k < |log| && log[k].fate.Opened?
    ensures k < |files| && log[k].item == files[k] && KindOf(files[k].name) == Zip
    ensures log[k].item.id !in Ids(log[..k])
    ensures var raw := Lookup(Stored(blobs, Born(log[..k])), files[k].id);
            raw.Some? && reader.open(raw.value).Some?
            && Expand(reader.open(raw.value).value) == Some(log[k].fate.members)
  {
    hide *;
    TakenAt(files, blobs, reader, log, k);
    OpenedFacts(log[k].item, log[k].item.id in Ids(log[..k]), Lookup(Stored(blobs, Born(log[..k])), log[k].item.id),
                reader);
    if k >= |files| {
      QueueChild(files, log, k);
      BornIsDocument(files, blobs, reader, log, k - |files|);
    } else {
      QueueGiven(files, log, k);
    }
  }

  lemma BornIsDocument(files: seq<Item>, blobs: map<string, Blob>, reader: Reader, log: seq<Taken>, j: nat)
    requires Follows(files, blobs, reader, log) && j < |Born(log)|
    ensures KindOf(Born(log)[j].item.name) in {Xml, Docx, Pdf}
  {
    var k, i := ComesFrom(log, j);
    TakenAt(files, blobs, reader, log, k);
    hide KindOf; hide FateOf; hide Follows; hide Born; hide Stored; hide Ids;
    ChildrenAreDocuments(log[k].item, log[k].item.id in Ids(log[..k]),
                         Lookup(Stored(blobs, Born(log[..k])), log[k].item.id), reader, Born(log)[j]);
  }

  lemma ChildAt(t: Taken, i: nat)
    requires i < |ChildrenOf(t)|
    ensures t.fate.Opened? && i < |t.fate.members|
    ensures ChildrenOf(t)[i] ==
            Child(Item(ChildId(t.item.id, i + 1), t.fate.members[i].name, t.item.origin), t.fate.members[i].content)
  {
  }

  /** No two documents out of zips have one id. */
  lemma BornIdsDiffer(files: seq<Item>, blobs: map<string, Blob>, reader: Reader, log: seq<Taken>, j: nat, h: nat)
    requires Follows(files, blobs, reader, log) && j < |Born(log)| && h < |Born(log)|
    requires Born(log)[j].item.id == Born(log)[h].item.id
    ensures j == h
  {
    hide *;
    var k, i := ComesFrom(log, j);
    var l, m := ComesFrom(log, h);
    ChildAt(log[k], i);
    ChildAt(log[l], m);
    ChildIdInjective(log[k].item.id, i + 1, log[l].item.id, m + 1);
    if k < l {
      OpensOnce(files, blobs, reader, log, k, l);
    } else if l < k {
      OpensOnce(files, blobs, reader, log, l, k);
    }
  }

  lemma OpensOnce(files: seq<Item>, blobs: map<string, Blob>, reader: Reader, log: seq<Taken>, k: nat, l: nat)
    requires Follows(files, blobs, reader, log) && k < l < |log| && log[l].fate.Opened?
    ensures log[k].item.id != log[l].item.id
  {
    hide *;
    OpenedIsGiven(files, blobs, reader, log, l);
    SeenBefore(log, l, log[k].item.id);
  }

  // ----- whose content a file is read from ----------------------------------------------------------------------

  lemma {:induction false} StoredIs(blobs: map<string, Blob>, born: seq<Child>, id: string)
    requires forall i, j | 0 <= i < |born| && 0 <= j < |born| && born[i].item.id == born[j].item.id :: i == j
    ensures forall j | 0 <= j < |born| && born[j].item.id == id ::
              Lookup(Stored(blobs, born), id) == Some(born[j].content)
    ensures (forall j | 0 <= j < |born| :: born[j].item.id != id) ==>
              Lookup(Stored(blobs, born), id) == Lookup(blobs, id)
    decreases |born|
  {
    if born != [] {
      var init := born[..|born| - 1];
      StoredIs(blobs, init, id);
      forall j | 0 <= j < |born| && born[j].item.id == id
        ensures Lookup(Stored(blobs, born), id) == Some(born[j].content)
      {
        if j < |born| - 1 {
          assert init[j] == born[j];
        }
      }
    }
  }

  /** The content a file came with. */
  function Own(files: seq<Item>, blobs: map<string, Blob>, log: seq<Taken>, k: nat): Option<Blob>
    requires k < |Queue(files, log)|
  {
    if k < |files| then Lookup(blobs, files[k].id) else Some(Born(log)[k - |files|].content)
  }

  /** The content a file is taken with. */
  function Reading(blobs: map<string, Blob>, log: seq<Taken>, k: nat): Option<Blob>
    requires k < |log|
  {
    Lookup(Stored(blobs, Born(log[..k])), log[k].item.id)
  }

  ghost predicate First(all: seq<Item>, k: nat)
    requires k < |all|
  {
    forall j | 0 <= j < k :: all[j].id != all[k].id
  }

  ghost predicate TakenFirst(log: seq<Taken>, k: nat)
    requires k < |log|
  {
    forall j | 0 <= j < k :: log[j].item.id != log[k].item.id
  }

  /** A document of the zips opened before the k-th file was taken has this id. */
  ghost predicate Supplants(log: seq<Taken>, k: nat, c: Child)
    requires k < |log|
  {
    c in Born(log[..k]) && c.item.id == log[k].item.id
  }

  lemma FirstFate(files: seq<Item>, blobs: map<string, Blob>, reader: Reader, log: seq<Taken>, k: nat)
    requires Follows(files, blobs, reader, log) && k < |log| && TakenFirst(log, k)
    ensures log[k].fate == FateOf(log[k].item, false, Reading(blobs, log, k), reader)
  {
    TakenAt(files, blobs, reader, log, k);
    SeenBefore(log, k, log[k].item.id);
    hide FateOf; hide Born; hide Stored; hide Follows;
  }

  lemma StoredAt(files: seq<Item>, blobs: map<string, Blob>, reader: Reader, log: seq<Taken>, k: nat)
    requires Follows(files, blobs, reader, log) && k < |log|
    ensures forall c | Supplants(log, k, c) :: Reading(blobs, log, k) == Some(c.content)
    ensures (forall c :: !Supplants(log, k, c)) ==> Reading(blobs, log, k) == Lookup(blobs, log[k].item.id)
  {
    var born, id := Born(log[..k]), log[k].item.id;
    FollowsAt(files, blobs, reader, log, k);
    hide Born; hide Follows; hide Stored;
    forall i, j | 0 <= i < |born| && 0 <= j < |born| && born[i].item.id == born[j].item.id ensures i == j {
      BornIdsDiffer(files, blobs, reader, log[..k], i, j);
    }
    StoredIs(blobs, born, id);
    forall c | Supplants(log, k, c) ensures Lookup(Stored(blobs, born), id) == Some(c.content) {
      var j :| 0 <= j < |born| && born[j] == c;
    }
    if forall c :: !Supplants(log, k, c) {
      forall j | 0 <= j < |born| ensures born[j].item.id != id {
        assert born[j] in born && !Supplants(log, k, born[j]);
      }
    }
  }

  lemma ChildReadsItself(files: seq<Item>, blobs: map<string, Blob>, reader: Reader, log: seq<Taken>, k: nat)
    requires Complete(files, blobs, reader, log) && |files| <= k < |log|
    ensures Reading(blobs, log, k) == Own(files, blobs, log, k)
  {
    BornBefore(files, blobs, reader, log, k);
    hide *;
    StoredAt(files, blobs, reader, log, k);
    IsSupplanted(log, k, Born(log)[k - |files|]);
  }

  lemma BornBefore(files: seq<Item>, blobs: map<string, Blob>, reader: Reader, log: seq<Taken>, k: nat)
    requires Complete(files, blobs, reader, log) && |files| <= k < |log|
    ensures k - |files| < |Born(log)| && Own(files, blobs, log, k) == Some(Born(log)[k - |files|].content)
    ensures Born(log)[k - |files|] in Born(log[..k]) && Born(log)[k - |files|].item == log[k].item
  {
    TakenAt(files, blobs, reader, log, k);
    hide Follows; hide FateOf; hide Stored; hide Born;
    BornPrefix(log, k);
    QueueChild(files, log[..k], k);
    QueueChild(files, log, k);
  }

  lemma IsSupplanted(log: seq<Taken>, k: nat, c: Child)
    requires k < |log| && c in Born(log[..k]) && c.item.id == log[k].item.id
    ensures Supplants(log, k, c)
  {
  }

  /** A given file is taken with the content it came with exactly as long as every document with its id that an earlier
      zip yielded has that content; otherwise with the content of such a document. */
  lemma GivenReads(files: seq<Item>, blobs: map<string, Blob>, reader: Reader, log: seq<Taken>, k: nat)
    requires Complete(files, blobs, reader, log) && k < |files| && k < |log|
    ensures Reading(blobs, log, k) == Lookup(blobs, files[k].id) <==>
            forall c | Supplants(log, k, c) :: Lookup(blobs, files[k].id) == Some(c.content)
    ensures forall c | Supplants(log, k, c) :: Reading(blobs, log, k) == Some(c.content)
  {
    TakenAt(files, blobs, reader, log, k);
    QueueGiven(files, log, k);
    hide *;
    StoredAt(files, blobs, reader, log, k);
  }

  lemma FirstTaken(files: seq<Item>, blobs: map<string, Blob>, reader: Reader, log: seq<Taken>, k: nat)
    requires Follows(files, blobs, reader, log) && k < |log| <= |Queue(files, log)|
    ensures TakenFirst(log, k) <==> First(Queue(files, log), k)
  {
    hide Follows; hide Queue; hide FateOf; hide Stored;
    TakenAt(files, blobs, reader, log, k);
    forall j | 0 <= j < k ensures log[j].item == Queue(files, log)[j] {
      TakenAt(files, blobs, reader, log, j);
    }
  }

  /** The first file of an id, given or out of a zip, is treated by the content it is taken with; for a document out of
      a zip that is its own. Every later one of the id is a repeat. */
  lemma FirstReads(files: seq<Item>, blobs: map<string, Blob>, reader: Reader, log: seq<Taken>, k: nat)
    requires Complete(files, blobs, reader, log) && k < |log|
    ensures var item := Queue(files, log)[k];
            log[k] == Taken(item, FateOf(item, !First(Queue(files, log), k), Reading(blobs, log, k), reader))
    ensures k >= |files| ==> Reading(blobs, log, k) == Own(files, blobs, log, k)
  {
    hide FateOf; hide Follows; hide Own; hide Reading; hide First; hide TakenFirst; hide Queue;
    TakenAt(files, blobs, reader, log, k);
    SeenBefore(log, k, log[k].item.id);
    FirstTaken(files, blobs, reader, log, k);
    ReadingIs(blobs, log, k);
    SeenOrFirst(log, k);
    if k >= |files| {
      ChildReadsItself(files, blobs, reader, log, k);
    }
  }

  lemma ReadingIs(blobs: map<string, Blob>, log: seq<Taken>, k: nat)
    requires k < |log|
    ensures Reading(blobs, log, k) == Lookup(Stored(blobs, Born(log[..k])), log[k].item.id)
  {
  }

  lemma SeenOrFirst(log: seq<Taken>, k: nat)
    requires k < |log|
    ensures TakenFirst(log, k) <==> log[k].item.id !in Ids(log[..k])
  {
    SeenBefore(log, k, log[k].item.id);
  }

  lemma GivenFirst(files: seq<Item>, log: seq<Taken>, k: nat)
    requires k < |files|
    ensures k < |Queue(files, log)| && (First(Queue(files, log), k) <==> First(files, k))
  {
    QueueGiven(files, log, k);
    hide Queue;
    forall j | 0 <= j < k ensures j < |Queue(files, log)| && Queue(files, log)[j] == files[j] {
      QueueGiven(files, log, j);
    }
  }

  /** A given zip, the first of its id, that can be read puts precisely its documents among the expanded files, together
      and in their order, with their contents. */
  lemma ZipComesOut(files: seq<Item>, blobs: map<string, Blob>, reader: Reader, log: seq<Taken>, k: nat,
                    raw: Blob, members: seq<Member>)
    requires Complete(files, blobs, reader, log) && k < |files| && k < |log| && First(files, k)
    requires KindOf(files[k].name) == Zip && Reading(blobs, log, k) == Some(raw)
    requires reader.open(raw).Some? && Expand(reader.open(raw).value) == Some(members)
    ensures log[k].fate == Opened(members)
    ensures var at := |Born(log[..k])|;
            at + |members| <= |Born(log)| && Born(log)[at..at + |members|] == Children(files[k], members)
  {
    GivenFirst(files, log, k);
    QueueGiven(files, log, k);
    FirstReads(files, blobs, reader, log, k);
    ComesOutTogether(log, k);
    OpenedFate(files[k], raw, reader, members);
    hide Born; hide Follows; hide Expand; hide FateOf; hide KindOf; hide First; hide Reading;
  }

  lemma OpenedFate(zip: Item, raw: Blob, reader: Reader, members: seq<Member>)
    requires KindOf(zip.name) == Zip
    requires reader.open(raw).Some? && Expand(reader.open(raw).value) == Some(members)
    ensures FateOf(zip, false, Some(raw), reader) == Opened(members)
    ensures ChildrenOf(Taken(zip, Opened(members))) == Children(zip, members)
  {
    hide KindOf; hide Expand;
  }

  /** A given zip that yields c from what was stored under its id when it was taken. */
  ghost predicate YieldedBy(
    files: seq<Item>, blobs: map<string, Blob>, reader: Reader, log: seq<Taken>, k: nat, c: Child) {
    && k < |files| && k < |log| && KindOf(files[k].name) == Zip
    && var raw := Lookup(Stored(blobs, Born(log[..k])), files[k].id);
    && raw.Some? && reader.open(raw.value).Some?
    && var members := Expand(reader.open(raw.value).value);
    && members.Some? && c in Children(files[k], members.value)
  }

  /** Nothing else is among them: every expanded file is a document of a given zip. */
  lemma OnlyMembersComeOut(files: seq<Item>, blobs: map<string, Blob>, reader: Reader, log: seq<Taken>, j: nat)
    requires Complete(files, blobs, reader, log) && j < |Born(log)|
    ensures exists k: nat :: YieldedBy(files, blobs, reader, log, k, Born(log)[j])
    ensures KindOf(Born(log)[j].item.name) in {Xml, Docx, Pdf}
  {
    IsFollows(files, blobs, reader, log);
    BornIsDocument(files, blobs, reader, log, j);
    hide Born; hide Follows; hide KindOf; hide Expand; hide Stored; hide Complete;
    var k, i := ComesFrom(log, j);
    ChildAt(log[k], i);
    OpenedIsGiven(files, blobs, reader, log, k);
    assert YieldedBy(files, blobs, reader, log, k, Born(log)[j]);
  }

  // ----- size ---------------------------------------------------------------------------------------------------

  lemma BornNext(log: seq<Taken>, k: nat)
    requires k < |log|
    ensures Born(log[..k + 1]) == Born(log[..k]) + ChildrenOf(log[k])
  {
    assert log[..k + 1][..k] == log[..k];
  }

  lemma ZipsSnoc(items: seq<Item>, n: nat)
    requires n < |items|
    ensures Zips(items[..n + 1]) == Zips(items[..n]) + if KindOf(items[n].name) == Zip then 1 else 0
  {
    assert items[..n + 1] == items[..n] + [items[n]];
    ZipsConcat(items[..n], [items[n]]);
  }

  function ZipsAmong(files: seq<Item>, n: nat): nat {
    Zips(if n <= |files| then files[..n] else files)
  }

  lemma ZipsAmongNext(files: seq<Item>, n: nat)
    ensures ZipsAmong(files, n + 1)
            == ZipsAmong(files, n) + if n < |files| && KindOf(files[n].name) == Zip then 1 else 0
  {
    hide KindOf; hide Zips;
    if n < |files| {
      ZipsSnoc(files, n);
    } else {
      assert files[..|files|] == files;
    }
  }

  lemma BornStart(log: seq<Taken>)
    ensures Born(log[..0]) == []
  {
  }

  lemma Times(z: nat)
    ensures MAX_MEMBERS * (z + 1) == MAX_MEMBERS * z + MAX_MEMBERS && MAX_MEMBERS * z >= 0
  {
  }

  lemma {:induction false} BornBound(files: seq<Item>, blobs: map<string, Blob>, reader: Reader, log: seq<Taken>,
                                     n: nat)
    requires Follows(files, blobs, reader, log) && n <= |log|
    ensures |Born(log[..n])| <= MAX_MEMBERS * ZipsAmong(files, n)
    decreases n
  {
    hide *;
    BornStart(log);
    Times(ZipsAmong(files, n));
    if n > 0 {
      BornBound(files, blobs, reader, log, n - 1);
      BornNext(log, n - 1);
      OpensFew(files, blobs, reader, log, n - 1);
      ZipsAmongNext(files, n - 1);
      Times(ZipsAmong(files, n - 1));
    }
  }

  lemma OpensFew(files: seq<Item>, blobs: map<string, Blob>, reader: Reader, log: seq<Taken>, k: nat)
    requires Follows(files, blobs, reader, log) && k < |log|
    ensures |ChildrenOf(log[k])| <= if k < |files| && KindOf(files[k].name) == Zip then MAX_MEMBERS else 0
  {
    hide Born; hide Follows; hide KindOf; hide Stored; hide Expand;
    if log[k].fate.Opened? {
      OpenedIsGiven(files, blobs, reader, log, k);
      ExpandBound(reader, Lookup(Stored(blobs, Born(log[..k])), files[k].id), log[k].fate.members);
    }
  }

  lemma ExpandBound(reader: Reader, raw: Option<Blob>, members: seq<Member>)
    requires raw.Some? && reader.open(raw.value).Some? && Expand(reader.open(raw.value).value) == Some(members)
    ensures |members| <= MAX_MEMBERS
  {
  }

  /** However the archives are built, a run takes the given files and at most forty documents for each given zip. */
  lemma RunIsBounded(files: seq<Item>, blobs: map<string, Blob>, reader: Reader, log: seq<Taken>)
    requires Complete(files, blobs, reader, log)
    ensures |files| <= |log| <= |files| + MAX_MEMBERS * Zips(files)
  {
    hide Born; hide Follows; hide Zips;
    BornBound(files, blobs, reader, log, |log|);
    assert log[..|log|] == log && files[..|files|] == files;
  }

  // ----- pages --------------------------------------------------------------------------------------------------

  lemma {:induction false} PageAt(log: seq<Taken>, page: (string, Blob))
    ensures page in Pages(log) <==>
            exists k :: 0 <= k < |log| && log[k].fate.Page? && page == (log[k].item.id, log[k].fate.content)
  {
    if log != [] {
      var init, last := log[..|log| - 1], log[|log| - 1];
      PageAt(init, page);
      assert forall k | 0 <= k < |init| :: log[k] == init[k];
      assert page in PageOf(last) <==> last.fate.Page? && page == (last.item.id, last.fate.content);
      hide PageOf;
      assert log[|log| - 1] == last;
    }
  }

  /** Taken files that gave a page were not repeats. */
  lemma PageIsFirst(files: seq<Item>, blobs: map<string, Blob>, reader: Reader, log: seq<Taken>, k: nat)
    requires Follows(files, blobs, reader, log) && k < |log| && log[k].fate != Failed(Repeated)
    ensures TakenFirst(log, k)
  {
    hide *;
    TakenAt(files, blobs, reader, log, k);
    SeenBefore(log, k, log[k].item.id);
    RepeatedExactly(log[k].item, log[k].item.id in Ids(log[..k]),
                    Lookup(Stored(blobs, Born(log[..k])), log[k].item.id), reader);
    IsFirst(log, k);
  }

  lemma IsFirst(log: seq<Taken>, k: nat)
    requires k < |log| && !exists j :: 0 <= j < k && log[j].item.id == log[k].item.id
    ensures TakenFirst(log, k)
  {
  }

  ghost predicate DistinctPages(pages: seq<(string, Blob)>) {
    forall i, j | 0 <= i < j < |pages| :: pages[i].0 != pages[j].0
  }

  lemma {:induction false} PagesDiffer(files: seq<Item>, blobs: map<string, Blob>, reader: Reader, log: seq<Taken>)
    requires Follows(files, blobs, reader, log)
    ensures DistinctPages(Pages(log))
    decreases |log|
  {
    hide *;
    if log == [] {
      NoPages();
    } else {
      var init, last := log[..|log| - 1], log[|log| - 1];
      FollowsAt(files, blobs, reader, log, |log| - 1);
      PagesDiffer(files, blobs, reader, init);
      assert log == init + [last];
      LogSnoc([], init, last);
      OutputsOf(last);
      if last.fate.Page? {
        PageIsFirst(files, blobs, reader, log, |log| - 1);
        forall p | p in Pages(init) ensures p.0 != last.item.id {
          PageAt(init, p);
          FirstIsNew(log, p.0);
        }
        DistinctPagesSnoc(Pages(init), (last.item.id, last.fate.content));
      } else {
        assert Pages(init) + [] == Pages(init);
      }
    }
  }

  lemma NoPages()
    ensures Pages([]) == [] && DistinctPages([])
  {
  }

  lemma FirstIsNew(log: seq<Taken>, id: string)
    requires log != [] && TakenFirst(log, |log| - 1)
    ensures (exists k :: 0 <= k < |log| - 1 && log[k].item.id == id) ==> id != log[|log| - 1].item.id
  {
  }

  lemma DistinctPagesSnoc(pages: seq<(string, Blob)>, page: (string, Blob))
    requires DistinctPages(pages) && forall p | p in pages :: p.0 != page.0
    ensures DistinctPages(pages + [page])
  {
    assert forall i | 0 <= i < |pages| :: pages[i] in pages;
  }

  /** Every page bears the id of one file, given or expanded; no id has two pages; and an id has a page exactly when the
      first file that bears it is a document by its name, has a content and is read from it. */
  lemma PagesExactly(files: seq<Item>, blobs: map<string, Blob>, reader: Reader, log: seq<Taken>, k: nat,
                     content: Blob)
    requires Complete(files, blobs, reader, log)
    ensures DistinctPages(Pages(log))
    ensures forall p | p in Pages(log) :: exists j :: 0 <= j < |log| && Queue(files, log)[j].id == p.0
    ensures k < |log| && First(Queue(files, log), k) ==>
              var item := Queue(files, log)[k];
              ((item.id, content) in Pages(log) <==>
               && KindOf(item.name) in {Xml, Docx, Pdf} && Reading(blobs, log, k) == Some(content)
               && reader.read(KindOf(item.name), content).Read?)
  {
    PagesDiffer(files, blobs, reader, log);
    forall p | p in Pages(log) ensures exists j :: 0 <= j < |log| && Queue(files, log)[j].id == p.0 {
      PageAt(log, p);
      var j :| 0 <= j < |log| && log[j].fate.Page? && p == (log[j].item.id, log[j].fate.content);
      TakenAt(files, blobs, reader, log, j);
    }
    if k < |log| && First(Queue(files, log), k) {
      FirstPage(files, blobs, reader, log, k, content);
    }
  }

  lemma FirstPage(files: seq<Item>, blobs: map<string, Blob>, reader: Reader, log: seq<Taken>, k: nat, content: Blob)
    requires Complete(files, blobs, reader, log) && k < |log| && First(Queue(files, log), k)
    ensures var item := Queue(files, log)[k];
            ((item.id, content) in Pages(log) <==>
             && KindOf(item.name) in {Xml, Docx, Pdf} && Reading(blobs, log, k) == Some(content)
             && reader.read(KindOf(item.name), content).Read?)
  {
    hide FateOf; hide Follows; hide Pages; hide KindOf; hide Reading; hide Born; hide Queue; hide Own; hide First;
    hide TakenFirst; hide Ids;
    var item := Queue(files, log)[k];
    FirstReads(files, blobs, reader, log, k);
    FirstTaken(files, blobs, reader, log, k);
    PageFate(item, Reading(blobs, log, k), reader, content);
    PageAt(log, (item.id, content));
    if (item.id, content) in Pages(log) {
      var j :| 0 <= j < |log| && log[j].fate.Page? && (item.id, content) == (log[j].item.id, log[j].fate.content);
      OnlyFirstGivesPage(files, blobs, reader, log, j, k);
    }
  }

  lemma OnlyFirstGivesPage(
    files: seq<Item>, blobs: map<string, Blob>, reader: Reader, log: seq<Taken>, j: nat, k: nat)
    requires Follows(files, blobs, reader, log) && j < |log| && k < |log| && log[j].fate.Page?
    requires TakenFirst(log, k) && log[j].item.id == log[k].item.id
    ensures j == k
  {
    PageIsFirst(files, blobs, reader, log, j);
    hide Follows;
  }

  lemma PageFate(item: Item, raw: Option<Blob>, reader: Reader, content: Blob)
    ensures var fate := FateOf(item, false, raw, reader);
            (fate.Page? && fate.content == content) <==>
            (KindOf(item.name) in {Xml, Docx, Pdf} && raw == Some(content)
             && reader.read(KindOf(item.name), content).Read?)
  {
    hide KindOf;
  }

  // ----- when all is unambiguous --------------------------------------------------------------------------------

  ghost predicate DistinctItems(items: seq<Item>) {
    forall i, j | 0 <= i < j < |items| :: items[i].id != items[j].id
  }

  /** Only the ids of the given files can clash: no file is refused as a repeat exactly when the given ids differ from
      each other and from those of the documents that came out of zips. */
  lemma NoRepeatExactly(files: seq<Item>, blobs: map<string, Blob>, reader: Reader, log: seq<Taken>)
    requires Complete(files, blobs, reader, log)
    ensures (forall t | t in log :: t.fate != Failed(Repeated)) <==>
            DistinctItems(files)
            && forall f, c | f in files && c in Born(log) :: f.id != c.item.id
  {
    hide *;
    if forall t | t in log :: t.fate != Failed(Repeated) {
      NoRepeatApart(files, blobs, reader, log);
    } else {
      var t :| t in log && t.fate == Failed(Repeated);
      var k :| 0 <= k < |log| && log[k] == t;
      RepeatClashes(files, blobs, reader, log, k);
    }
  }

  lemma NoRepeatApart(files: seq<Item>, blobs: map<string, Blob>, reader: Reader, log: seq<Taken>)
    requires Complete(files, blobs, reader, log) && forall t | t in log :: t.fate != Failed(Repeated)
    ensures DistinctItems(files) && forall f, c | f in files && c in Born(log) :: f.id != c.item.id
  {
    hide Follows; hide Born; hide Queue;
    var all := Queue(files, log);
    forall i, j | 0 <= i < j < |all| ensures all[i].id != all[j].id {
      assert log[j] in log;
      PageIsFirst(files, blobs, reader, log, j);
      TakenAt(files, blobs, reader, log, i);
      TakenAt(files, blobs, reader, log, j);
    }
    assert DistinctItems(all);
    assert all == files + Items(Born(log)) by { QueueIs(files, log); }
    GivenApart(files, Born(log));
  }

  lemma QueueIs(files: seq<Item>, log: seq<Taken>)
    ensures Queue(files, log) == files + Items(Born(log))
  {
  }

  lemma RepeatClashes(files: seq<Item>, blobs: map<string, Blob>, reader: Reader, log: seq<Taken>, k: nat)
    requires Complete(files, blobs, reader, log) && k < |log| && log[k].fate == Failed(Repeated)
    ensures !(DistinctItems(files) && forall f, c | f in files && c in Born(log) :: f.id != c.item.id)
  {
    hide *;
    IsFollows(files, blobs, reader, log);
    RepeatIsSecond(files, blobs, reader, log, k);
    var j :| 0 <= j < k && log[j].item.id == log[k].item.id;
    TakenAt(files, blobs, reader, log, j);
    TakenAt(files, blobs, reader, log, k);
    if j >= |files| {
      QueueChild(files, log, j);
      QueueChild(files, log, k);
      BornIdsDiffer(files, blobs, reader, log, j - |files|, k - |files|);
    } else {
      QueueGiven(files, log, j);
      if k >= |files| {
        QueueChild(files, log, k);
        ChildClashes(files, Born(log), j, k - |files|);
      } else {
        QueueGiven(files, log, k);
        GivenClash(files, j, k);
      }
    }
  }

  lemma IsFollows(files: seq<Item>, blobs: map<string, Blob>, reader: Reader, log: seq<Taken>)
    requires Complete(files, blobs, reader, log)
    ensures Follows(files, blobs, reader, log)
  {
  }

  lemma GivenClash(files: seq<Item>, j: nat, k: nat)
    requires j < k < |files| && files[j].id == files[k].id
    ensures !DistinctItems(files)
  {
  }

  lemma ChildClashes(files: seq<Item>, born: seq<Child>, j: nat, h: nat)
    requires j < |files| && h < |born| && files[j].id == born[h].item.id
    ensures exists f, c :: f in files && c in born && f.id == c.item.id
  {
    assert files[j] in files && born[h] in born;
  }

  lemma GivenApart(files: seq<Item>, born: seq<Child>)
    requires DistinctItems(files + Items(born))
    ensures DistinctItems(files) && forall f, c | f in files && c in born :: f.id != c.item.id
  {
    var all := files + Items(born);
    assert forall i | 0 <= i < |files| :: all[i] == files[i];
    forall f, c | f in files && c in born ensures f.id != c.item.id {
      var i :| 0 <= i < |files| && files[i] == f;
      var j :| 0 <= j < |born| && born[j] == c;
      assert all[i] == f && all[|files| + j] == c.item;
    }
  }

  lemma RepeatIsSecond(files: seq<Item>, blobs: map<string, Blob>, reader: Reader, log: seq<Taken>, k: nat)
    requires Follows(files, blobs, reader, log) && k < |log| && log[k].fate == Failed(Repeated)
    ensures exists j :: 0 <= j < k && log[j].item.id == log[k].item.id
  {
    hide *;
    TakenAt(files, blobs, reader, log, k);
    SeenBefore(log, k, log[k].item.id);
    RepeatedExactly(log[k].item, log[k].item.id in Ids(log[..k]),
                    Lookup(Stored(blobs, Born(log[..k])), log[k].item.id), reader);
  }

  lemma RepeatedExactly(item: Item, repeated: bool, raw: Option<Blob>, reader: Reader)
    ensures FateOf(item, repeated, raw, reader) == Failed(Repeated) <==> repeated
  {
    hide KindOf; hide Expand;
  }
}
