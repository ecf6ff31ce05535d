/** A run over files that fit together, and the next run over what it stored (`run_matrix_pipeline`): every file keeps
    its page and each document is reported as a repeat once. */
module StoredRuns {
  import opened Options
  import opened Archive
  import opened Worklist
  import opened Expansion
  import opened Reruns

  /** The given ids differ, and what has the id of a document out of a zip has its content. */
  ghost predicate Clear(files: seq<Item>, blobs: map<string, Blob>, reader: Reader) {
    && DistinctItems(files)
    && Agree(files, blobs, Born(Opening(files, blobs, reader)))
  }

  ghost predicate Agree(files: seq<Item>, blobs: map<string, Blob>, born: seq<Child>) {
    forall f, c | f in files && c in born && c.item.id == f.id :: Lookup(blobs, f.id) == Some(c.content)
  }

  ghost predicate DistinctBorn(born: seq<Child>) {
    forall i, j | 0 <= i < |born| && 0 <= j < |born| && born[i].item.id == born[j].item.id :: i == j
  }

  lemma OpeningBorn(files: seq<Item>, blobs: map<string, Blob>, reader: Reader, k: nat)
    requires k <= |files|
    ensures Born(Opening(files[..k], blobs, reader)) <= Born(Opening(files, blobs, reader))
  {
    OpeningPrefix(files, blobs, reader, k);
    BornPrefix(Opening(files, blobs, reader), k);
  }

  /** The run over clear files begins as computed. */
  lemma ClearOpens(files: seq<Item>, blobs: map<string, Blob>, reader: Reader, log: seq<Taken>, m: nat)
    requires Follows(files, blobs, reader, log) && m <= |files| && m <= |log| && Clear(files[..m], blobs, reader)
    ensures log[..m] == Opening(files[..m], blobs, reader)
  {
    hide Follows; hide Opening; hide Born; hide Lookup; hide Reading;
    forall k | 0 <= k < m ensures !Bad(blobs, Born(Opening(files[..k], blobs, reader)), files[k]) {
      assert files[..m][..k] == files[..k];
      OpeningBorn(files[..m], blobs, reader, k);
      assert files[..m][k] in files[..m];
    }
    hide Bad; hide Clear;
    OwnUpTo(files, blobs, reader, log, m);
    OwnSoFar(files, blobs, reader, log, m);
  }

  lemma {:induction false} BornStops(files: seq<Item>, blobs: map<string, Blob>, reader: Reader, log: seq<Taken>,
                                     n: nat)
    requires Follows(files, blobs, reader, log) && |files| <= n <= |log|
    ensures Born(log[..n]) == Born(log[..|files|])
    decreases n
  {
    hide *;
    if n > |files| {
      BornStops(files, blobs, reader, log, n - 1);
      OpensFew(files, blobs, reader, log, n - 1);
      BornNext(log, n - 1);
    }
  }

  /** What becomes of a document out of a zip when these ids are known. */
  function RestAt(known: set<string>, c: Child, reader: Reader): Taken {
    Taken(c.item, FateOf(c.item, c.item.id in known, Some(c.content), reader))
  }

  function Rest(known: set<string>, born: seq<Child>, reader: Reader): seq<Taken> {
    seq(|born|, i requires 0 <= i < |born| => RestAt(known, born[i], reader))
  }

  function Late(known: set<string>, born: seq<Child>, reader: Reader): seq<Taken> {
    if born == [] then []
    else
      var last := born[|born| - 1];
      Late(known, born[..|born| - 1], reader) + if last.item.id in known then [] else [RestAt(known, last, reader)]
  }

  lemma ClearBorn(files: seq<Item>, blobs: map<string, Blob>, reader: Reader, log: seq<Taken>)
    requires Complete(files, blobs, reader, log) && Clear(files, blobs, reader)
    ensures |files| <= |log| && log[..|files|] == Opening(files, blobs, reader)
    ensures Born(log) == Born(Opening(files, blobs, reader)) && DistinctBorn(Born(log))
  {
    AllTaken(files, blobs, reader, log);
    hide Complete; hide Opening; hide Born; hide Clear; hide Follows;
    assert files[..|files|] == files && log[..|log|] == log;
    ClearOpens(files, blobs, reader, log, |files|);
    BornStops(files, blobs, reader, log, |log|);
    var born := Born(log);
    forall i, j | 0 <= i < |born| && 0 <= j < |born| && born[i].item.id == born[j].item.id ensures i == j {
      BornIdsDiffer(files, blobs, reader, log, i, j);
    }
  }

  lemma RestTaken(files: seq<Item>, blobs: map<string, Blob>, reader: Reader, log: seq<Taken>, i: nat)
    requires Complete(files, blobs, reader, log) && DistinctBorn(Born(log)) && i < |Born(log)|
    ensures |files| + i < |log| && log[|files| + i] == RestAt(IdsOf(files), Born(log)[i], reader)
  {
    hide *;
    AllTaken(files, blobs, reader, log);
    var k := |files| + i;
    FirstReads(files, blobs, reader, log, k);
    FirstIsUnknown(files, log, i);
    QueueChild(files, log, k);
    OwnIs(files, blobs, log, k);
    RestAtIs(IdsOf(files), Born(log)[i], reader);
  }

  lemma RestAtIs(known: set<string>, c: Child, reader: Reader)
    ensures RestAt(known, c, reader) == Taken(c.item, FateOf(c.item, c.item.id in known, Some(c.content), reader))
  {
  }

  lemma OwnIs(files: seq<Item>, blobs: map<string, Blob>, log: seq<Taken>, k: nat)
    requires |files| <= k < |Queue(files, log)|
    ensures k - |files| < |Born(log)| && Own(files, blobs, log, k) == Some(Born(log)[k - |files|].content)
  {
    hide Born;
  }

  lemma FirstIsUnknown(files: seq<Item>, log: seq<Taken>, i: nat)
    requires i < |Born(log)| && DistinctBorn(Born(log))
    ensures |files| + i < |Queue(files, log)|
    ensures First(Queue(files, log), |files| + i) <==> Born(log)[i].item.id !in IdsOf(files)
  {
    QueueIs(files, log);
    hide Queue;
    var all, born := files + Items(Born(log)), Born(log);
    hide Born;
    var k := |files| + i;
    assert all[k] == born[i].item;
    if born[i].item.id in IdsOf(files) {
      var f :| f in files && f.id == born[i].item.id;
      var j :| 0 <= j < |files| && files[j] == f;
      assert all[j] == f;
    } else {
      forall j | 0 <= j < k ensures all[j].id != all[k].id {
        if j < |files| {
          assert all[j] in files;
        } else {
          assert all[j] == born[j - |files|].item;
        }
      }
    }
  }

  /** The whole run over clear files, from the inputs alone. */
  lemma ClearRun(files: seq<Item>, blobs: map<string, Blob>, reader: Reader, log: seq<Taken>)
    requires Complete(files, blobs, reader, log) && Clear(files, blobs, reader)
    ensures var opening := Opening(files, blobs, reader);
            log == opening + Rest(IdsOf(files), Born(opening), reader)
  {
    hide *;
    ClearBorn(files, blobs, reader, log);
    AllTaken(files, blobs, reader, log);
    var known, born := IdsOf(files), Born(log);
    forall i: nat | i < |born| ensures |files| + i < |log| && log[|files| + i] == RestAt(known, born[i], reader) {
      RestTaken(files, blobs, reader, log, i);
    }
    JoinRest(log, |files|, known, born, reader);
  }

  lemma JoinRest(log: seq<Taken>, m: nat, known: set<string>, born: seq<Child>, reader: Reader)
    requires |log| == m + |born|
    requires forall i: nat | i < |born| :: log[m + i] == RestAt(known, born[i], reader)
    ensures log == log[..m] + Rest(known, born, reader)
  {
    hide RestAt;
    forall k | m <= k < |log| ensures log[k] == Rest(known, born, reader)[k - m] {
      assert log[m + (k - m)] == RestAt(known, born[k - m], reader);
    }
  }

  // ----- what is stored -----------------------------------------------------------------------------------------

  /** The log without the repeats. */
  function Fresh(log: seq<Taken>): seq<Taken> {
    if log == [] then []
    else Fresh(log[..|log| - 1]) + if log[|log| - 1].fate == Failed(Repeated) then [] else [log[|log| - 1]]
  }

  /** The files of the process after a run: documents of unknown ids join them. */
  function Extended(files: seq<Item>, born: seq<Child>): seq<Item> {
    if born == [] then files
    else
      var before, last := Extended(files, born[..|born| - 1]), born[|born| - 1].item;
      if last.id in IdsOf(before) then before else before + [last]
  }

  function TakenItems(log: seq<Taken>): seq<Item> {
    seq(|log|, i requires 0 <= i < |log| => log[i].item)
  }

  lemma {:induction false} FreshConcat(a: seq<Taken>, b: seq<Taken>)
    ensures Fresh(a + b) == Fresh(a) + Fresh(b)
    decreases |b|
  {
    if b == [] {
      assert a + b == a;
    } else {
      assert (a + b)[..|a + b| - 1] == a + b[..|b| - 1];
      FreshConcat(a, b[..|b| - 1]);
    }
  }

  lemma {:induction false} FreshAll(log: seq<Taken>)
    requires forall t | t in log :: t.fate != Failed(Repeated)
    ensures Fresh(log) == log
  {
    if log != [] {
      assert log == log[..|log| - 1] + [log[|log| - 1]];
      FreshAll(log[..|log| - 1]);
      assert log[|log| - 1] in log;
    }
  }

  lemma RestRepeated(known: set<string>, c: Child, reader: Reader)
    ensures RestAt(known, c, reader).fate == Failed(Repeated) <==> c.item.id in known
    ensures c.item.id in known ==> RestAt(known, c, reader) == Taken(c.item, Failed(Repeated))
  {
    RepeatedExactly(c.item, c.item.id in known, Some(c.content), reader);
    hide FateOf;
  }

  lemma {:induction false} FreshRest(known: set<string>, born: seq<Child>, reader: Reader)
    ensures Fresh(Rest(known, born, reader)) == Late(known, born, reader)
  {
    hide RestAt;
    if born != [] {
      var init, last := born[..|born| - 1], born[|born| - 1];
      FreshRest(known, init, reader);
      RestRepeated(known, last, reader);
      var rest := Rest(known, born, reader);
      assert rest[..|rest| - 1] == Rest(known, init, reader);
      assert rest[|rest| - 1] == RestAt(known, last, reader);
    }
  }

  lemma OpeningFresh(files: seq<Item>, blobs: map<string, Blob>, reader: Reader)
    requires DistinctItems(files)
    ensures Fresh(Opening(files, blobs, reader)) == Opening(files, blobs, reader)
  {
    hide Opening; hide FateOf; hide Lookup; hide Fresh;
    var opening := Opening(files, blobs, reader);
    forall t | t in opening ensures t.fate != Failed(Repeated) {
      var k :| 0 <= k < |opening| && opening[k] == t;
      OpeningAt(files, blobs, reader, k);
      NotBefore(files, k);
      RepeatedExactly(files[k], files[k].id in IdsOf(files[..k]), Lookup(blobs, files[k].id), reader);
    }
    FreshAll(opening);
  }

  lemma NotBefore(files: seq<Item>, k: nat)
    requires DistinctItems(files) && k < |files|
    ensures files[k].id !in IdsOf(files[..k])
  {
    forall f | f in files[..k] ensures f.id != files[k].id {
      var j :| 0 <= j < k && files[..k][j] == f;
      assert f == files[j];
    }
  }

  lemma ClearFresh(files: seq<Item>, blobs: map<string, Blob>, reader: Reader, log: seq<Taken>)
    requires Complete(files, blobs, reader, log) && Clear(files, blobs, reader)
    ensures Fresh(log) == Opening(files, blobs, reader) + Late(IdsOf(files), Born(log), reader)
  {
    ClearRun(files, blobs, reader, log);
    ClearBorn(files, blobs, reader, log);
    OpeningFresh(files, blobs, reader);
    hide *;
    var opening, rest := Opening(files, blobs, reader), Rest(IdsOf(files), Born(log), reader);
    FreshConcat(opening, rest);
    FreshRest(IdsOf(files), Born(log), reader);
  }

  lemma ItemsSnoc(log: seq<Taken>, more: seq<Taken>)
    ensures TakenItems(log + more) == TakenItems(log) + TakenItems(more)
  {
  }

  lemma BornSnoc(born: seq<Child>, n: nat)
    requires n < |born| && DistinctBorn(born)
    ensures DistinctBorn(born[..n]) && born[n].item.id !in BornIds(born[..n])
  {
    forall c | c in born[..n] ensures c.item.id != born[n].item.id {
      var j :| 0 <= j < n && born[..n][j] == c;
      assert c == born[j];
    }
  }

  lemma {:induction false} ExtendedIs(files: seq<Item>, born: seq<Child>, reader: Reader)
    requires DistinctBorn(born)
    ensures Extended(files, born) == files + TakenItems(Late(IdsOf(files), born, reader))
  {
    hide FateOf; hide IdsOf; hide BornIds;
    if born == [] {
      assert files + TakenItems(Late(IdsOf(files), born, reader)) == files;
    } else {
      var n := |born| - 1;
      var init, last := born[..n], born[n];
      BornSnoc(born, n);
      ExtendedIds(files, init);
      ExtendedIs(files, init, reader);
      hide DistinctBorn;
      if last.item.id !in IdsOf(files) {
        ItemsSnoc(Late(IdsOf(files), init, reader), [RestAt(IdsOf(files), last, reader)]);
      }
    }
  }

  lemma {:induction false} ExtendedIds(files: seq<Item>, born: seq<Child>)
    ensures IdsOf(Extended(files, born)) == IdsOf(files) + BornIds(born)
  {
    if born != [] {
      var init, last := born[..|born| - 1], born[|born| - 1];
      ExtendedIds(files, init);
      IdsSnoc(Extended(files, init), last.item);
      BornIdsSnoc(init, last);
      assert born == init + [last];
      hide IdsOf; hide BornIds;
    }
  }

  lemma BornIdsSnoc(born: seq<Child>, c: Child)
    ensures BornIds(born + [c]) == BornIds(born) + {c.item.id}
  {
    assert forall d :: d in born + [c] <==> d in born || d == c;
  }

  lemma IdsSnoc(files: seq<Item>, x: Item)
    ensures IdsOf(files + [x]) == IdsOf(files) + {x.id}
  {
    assert forall y :: y in files + [x] <==> y in files || y == x;
  }

  // ----- the next run -------------------------------------------------------------------------------------------

  /** The contents of the stored files are those the run left: the given ones, overwritten by what came out of zips. */
  ghost predicate Carries(files: seq<Item>, blobs: map<string, Blob>, born: seq<Child>, after: map<string, Blob>) {
    forall f | f in Extended(files, born) :: Lookup(after, f.id) == Lookup(Stored(blobs, born), f.id)
  }

  /** The documents out of the zips carry their own contents, and the given files the given ones. */
  ghost predicate Kept(files: seq<Item>, blobs: map<string, Blob>, born: seq<Child>, after: map<string, Blob>) {
    && (forall f | f in files :: Lookup(after, f.id) == Lookup(blobs, f.id))
    && (forall c | c in born :: Lookup(after, c.item.id) == Some(c.content))
  }

  lemma StoredKeeps(files: seq<Item>, blobs: map<string, Blob>, born: seq<Child>)
    requires DistinctBorn(born) && Agree(files, blobs, born)
    ensures Kept(files, blobs, born, Stored(blobs, born))
  {
    hide Stored; hide Lookup;
    forall f | f in files ensures Lookup(Stored(blobs, born), f.id) == Lookup(blobs, f.id) {
      StoredIs(blobs, born, f.id);
      if j :| 0 <= j < |born| && born[j].item.id == f.id {
        assert born[j] in born;
      }
    }
    forall c | c in born ensures Lookup(Stored(blobs, born), c.item.id) == Some(c.content) {
      StoredIs(blobs, born, c.item.id);
      var j :| 0 <= j < |born| && born[j] == c;
    }
  }

  lemma CarriesKeeps(files: seq<Item>, blobs: map<string, Blob>, born: seq<Child>, after: map<string, Blob>)
    requires DistinctBorn(born) && Agree(files, blobs, born) && Carries(files, blobs, born, after)
    ensures Kept(files, blobs, born, after)
  {
    StoredKeeps(files, blobs, born);
    ExtendedIds(files, born);
    hide Stored; hide Lookup; hide Extended; hide DistinctBorn; hide Agree;
    forall f | f in files ensures Lookup(after, f.id) == Lookup(blobs, f.id) {
      assert f.id in IdsOf(files);
      var g :| g in Extended(files, born) && g.id == f.id;
    }
    forall c | c in born ensures Lookup(after, c.item.id) == Some(c.content) {
      assert c.item.id in BornIds(born);
      var g :| g in Extended(files, born) && g.id == c.item.id;
    }
  }

  lemma OpeningBornDiffer(files: seq<Item>, blobs: map<string, Blob>, reader: Reader, j: nat, h: nat)
    requires DistinctItems(files)
    requires j < |Born(Opening(files, blobs, reader))| && h < |Born(Opening(files, blobs, reader))|
    requires Born(Opening(files, blobs, reader))[j].item.id == Born(Opening(files, blobs, reader))[h].item.id
    ensures j == h
  {
    hide *;
    var log := Opening(files, blobs, reader);
    var k, i := ComesFrom(log, j);
    var l, m := ComesFrom(log, h);
    ChildAt(log[k], i);
    ChildAt(log[l], m);
    ChildIdInjective(log[k].item.id, i + 1, log[l].item.id, m + 1);
    OpeningItem(files, blobs, reader, k);
    OpeningItem(files, blobs, reader, l);
    SamePlace(files, k, l);
  }

  lemma OpeningItem(files: seq<Item>, blobs: map<string, Blob>, reader: Reader, k: nat)
    requires k < |files|
    ensures Opening(files, blobs, reader)[k].item == files[k]
  {
    OpeningAt(files, blobs, reader, k);
    hide Opening; hide FateOf;
  }

  lemma SamePlace(files: seq<Item>, k: nat, l: nat)
    requires DistinctItems(files) && k < |files| && l < |files| && files[k].id == files[l].id
    ensures k == l
  {
  }

  lemma OpeningBornDistinct(files: seq<Item>, blobs: map<string, Blob>, reader: Reader)
    requires DistinctItems(files)
    ensures DistinctBorn(Born(Opening(files, blobs, reader)))
  {
    hide Born; hide Opening; hide DistinctItems;
    var born := Born(Opening(files, blobs, reader));
    forall i, j | 0 <= i < |born| && 0 <= j < |born| && born[i].item.id == born[j].item.id ensures i == j {
      OpeningBornDiffer(files, blobs, reader, i, j);
    }
  }

  lemma {:induction false} OpeningSame(files: seq<Item>, blobs: map<string, Blob>, after: map<string, Blob>,
                                       reader: Reader)
    requires forall f | f in files :: Lookup(after, f.id) == Lookup(blobs, f.id)
    ensures Opening(files, after, reader) == Opening(files, blobs, reader)
  {
    hide Lookup; hide FateOf; hide IdsOf;
    if files != [] {
      var init := files[..|files| - 1];
      assert files[|files| - 1] in files && forall f | f in init :: f in files;
      OpeningSame(init, blobs, after, reader);
    }
  }

  lemma {:induction false} LateOpening(files: seq<Item>, after: map<string, Blob>, born: seq<Child>, reader: Reader)
    requires DistinctBorn(born) && forall c | c in born :: Lookup(after, c.item.id) == Some(c.content)
    ensures Opening(Extended(files, born), after, reader)
            == Opening(files, after, reader) + Late(IdsOf(files), born, reader)
  {
    hide Lookup; hide FateOf; hide IdsOf; hide BornIds; hide Opening;
    if born != [] {
      var n := |born| - 1;
      var init, last := born[..n], born[n];
      assert last in born && forall c | c in init :: c in born;
      BornSnoc(born, n);
      ExtendedIds(files, init);
      LateOpening(files, after, init, reader);
      hide DistinctBorn;
      var before := Extended(files, init);
      if last.item.id !in IdsOf(files) {
        assert last.item.id !in IdsOf(before);
        OpeningSnoc(before, last.item, after, reader);
        assert TakenOwn(before, last.item, after, reader) == RestAt(IdsOf(files), last, reader);
      }
    }
  }

  lemma OpeningSnoc(files: seq<Item>, x: Item, blobs: map<string, Blob>, reader: Reader)
    ensures Opening(files + [x], blobs, reader) == Opening(files, blobs, reader) + [TakenOwn(files, x, blobs, reader)]
  {
    hide TakenOwn;
    assert (files + [x])[..|files|] == files;
  }

  lemma {:induction false} LateBearsNothing(log: seq<Taken>, known: set<string>, born: seq<Child>, reader: Reader)
    requires forall c | c in born :: KindOf(c.item.name) in {Xml, Docx, Pdf}
    ensures Born(log + Late(known, born, reader)) == Born(log)
  {
    hide Born; hide KindOf; hide RestAt;
    if born == [] {
      assert log + [] == log;
    } else {
      var init, last := born[..|born| - 1], born[|born| - 1];
      assert last in born && forall c | c in init :: c in born;
      LateBearsNothing(log, known, init, reader);
      var late, t := Late(known, init, reader), RestAt(known, last, reader);
      DocumentStaysShut(known, last, reader);
      BearsNothing(log + late, t);
      assert log + (late + [t]) == (log + late) + [t] && late + [] == late;
    }
  }

  lemma BearsNothing(log: seq<Taken>, t: Taken)
    requires ChildrenOf(t) == []
    ensures Born(log + [t]) == Born(log)
  {
    assert (log + [t])[..|log|] == log;
    hide ChildrenOf;
  }

  lemma DocumentStaysShut(known: set<string>, c: Child, reader: Reader)
    requires KindOf(c.item.name) in {Xml, Docx, Pdf}
    ensures ChildrenOf(RestAt(known, c, reader)) == []
  {
    hide KindOf;
  }

  /** What was stored is clear again, opens as before, and yields the same documents. */
  lemma NextClear(files: seq<Item>, blobs: map<string, Blob>, reader: Reader, after: map<string, Blob>)
    requires Clear(files, blobs, reader)
    requires Carries(files, blobs, Born(Opening(files, blobs, reader)), after)
    ensures var born := Born(Opening(files, blobs, reader));
            var stored := Extended(files, born);
            && Opening(stored, after, reader) == Opening(files, blobs, reader) + Late(IdsOf(files), born, reader)
            && Born(Opening(stored, after, reader)) == born && Clear(stored, after, reader)
            && IdsOf(stored) == IdsOf(files) + BornIds(born)
  {
    var born := Born(Opening(files, blobs, reader));
    var stored := Extended(files, born);
    OpeningBornDistinct(files, blobs, reader);
    hide Opening; hide Born; hide Lookup; hide Extended; hide Stored; hide DistinctBorn; hide Late; hide KindOf;
    CarriesKeeps(files, blobs, born, after);
    hide Carries;
    OpeningSame(files, blobs, after, reader);
    LateOpening(files, after, born, reader);
    forall c | c in born ensures KindOf(c.item.name) in {Xml, Docx, Pdf} {
      OffspringOf(files, blobs, reader, c);
    }
    LateBearsNothing(Opening(files, blobs, reader), IdsOf(files), born, reader);
    ExtendedDistinct(files, born);
    ExtendedIds(files, born);
    assert Agree(stored, after, born);
  }

  lemma {:induction false} ExtendedDistinct(files: seq<Item>, born: seq<Child>)
    requires DistinctItems(files)
    ensures DistinctItems(Extended(files, born))
  {
    if born != [] {
      var before, last := Extended(files, born[..|born| - 1]), born[|born| - 1].item;
      ExtendedDistinct(files, born[..|born| - 1]);
      if last.id !in IdsOf(before) {
        DistinctSnoc(before, last);
      }
    }
  }

  lemma DistinctSnoc(files: seq<Item>, x: Item)
    requires DistinctItems(files) && x.id !in IdsOf(files)
    ensures DistinctItems(files + [x])
  {
    forall i | 0 <= i < |files| ensures files[i].id != x.id {
      assert files[i] in files;
    }
  }

  function Repeats(born: seq<Child>): seq<Taken> {
    seq(|born|, i requires 0 <= i < |born| => Taken(born[i].item, Failed(Repeated)))
  }

  lemma InExtended(files: seq<Item>, born: seq<Child>, c: Child)
    requires c in born
    ensures c.item.id in IdsOf(Extended(files, born))
  {
    ExtendedIds(files, born);
    hide Extended;
    assert c.item.id in BornIds(born);
  }

  /** A file whose id a given file has is a repeat. */
  lemma KnownRepeats(files: seq<Item>, blobs: map<string, Blob>, reader: Reader, log: seq<Taken>, i: nat)
    requires Complete(files, blobs, reader, log) && i < |Born(log)| && Born(log)[i].item.id in IdsOf(files)
    ensures |files| + i < |log| && log[|files| + i] == Taken(Born(log)[i].item, Failed(Repeated))
  {
    hide *;
    var k := |files| + i;
    AllTaken(files, blobs, reader, log);
    KnownIsLater(files, log, i);
    FirstReads(files, blobs, reader, log, k);
    RepeatedExactly(log[k].item, true, Reading(blobs, log, k), reader);
  }

  lemma KnownIsLater(files: seq<Item>, log: seq<Taken>, i: nat)
    requires i < |Born(log)| && Born(log)[i].item.id in IdsOf(files)
    ensures |files| + i < |Queue(files, log)| && Queue(files, log)[|files| + i] == Born(log)[i].item
    ensures !First(Queue(files, log), |files| + i)
  {
    QueueIs(files, log);
    hide Born; hide Queue;
    var all := files + Items(Born(log));
    var f :| f in files && f.id == Born(log)[i].item.id;
    var j :| 0 <= j < |files| && files[j] == f;
    assert all[j] == f && all[|files| + i] == Born(log)[i].item;
  }

  lemma RerunBegins(files: seq<Item>, blobs: map<string, Blob>, reader: Reader, log: seq<Taken>,
                    given: seq<Item>, after: map<string, Blob>, next: seq<Taken>)
    requires Clear(files, blobs, reader) && Complete(files, blobs, reader, log)
    requires Carries(files, blobs, Born(log), after)
    requires Complete(given, after, reader, next) && Extended(files, Born(log)) <= given
    ensures |Fresh(log)| == |Extended(files, Born(log))| <= |given| <= |next| && next[..|Fresh(log)|] == Fresh(log)
    ensures Born(Fresh(log)) == Born(log) && Born(log) <= Born(next)
  {
    hide *;
    var stored := Extended(files, Born(log));
    ClearBorn(files, blobs, reader, log);
    ClearFresh(files, blobs, reader, log);
    NextClear(files, blobs, reader, after);
    StoredAreFresh(files, blobs, reader, log);
    AllTaken(given, after, reader, next);
    assert given[..|stored|] == stored;
    ClearOpens(given, after, reader, next, |stored|);
    BornPrefix(next, |stored|);
  }

  lemma RerunRepeats(files: seq<Item>, blobs: map<string, Blob>, reader: Reader, log: seq<Taken>,
                     given: seq<Item>, after: map<string, Blob>, next: seq<Taken>)
    requires Clear(files, blobs, reader) && Complete(files, blobs, reader, log)
    requires Carries(files, blobs, Born(log), after)
    requires Complete(given, after, reader, next) && Extended(files, Born(log)) <= given
    ensures |given| + |Born(log)| <= |next| && next[|given|..|given| + |Born(log)|] == Repeats(Born(log))
  {
    hide *;
    var born := Born(log);
    RerunBegins(files, blobs, reader, log, given, after, next);
    AllTaken(given, after, reader, next);
    forall i: nat | i < |born|
      ensures |given| + i < |next| && next[|given| + i] == Taken(born[i].item, Failed(Repeated))
    {
      InExtended(files, born, born[i]);
      IdsGrow(Extended(files, born), given);
      KnownRepeats(given, after, reader, next, i);
    }
    RepeatsAt(next, |given|, born);
  }

  /** The next run, with files added behind the stored ones: what the first run took, repeats aside, it takes again in
      the same order with the same outcome; every document of those zips is a repeat, once; and with no file added it
      takes nothing else. */
  lemma RerunIsSame(files: seq<Item>, blobs: map<string, Blob>, reader: Reader, log: seq<Taken>,
                    given: seq<Item>, after: map<string, Blob>, next: seq<Taken>)
    requires Clear(files, blobs, reader) && Complete(files, blobs, reader, log)
    requires Carries(files, blobs, Born(log), after)
    requires Complete(given, after, reader, next) && Extended(files, Born(log)) <= given
    ensures Extended(files, Born(log)) == TakenItems(Fresh(log)) && Fresh(log) <= next
    ensures |given| + |Born(log)| <= |next| && next[|given|..|given| + |Born(log)|] == Repeats(Born(log))
    ensures given == Extended(files, Born(log)) ==> next == Fresh(log) + Repeats(Born(log))
  {
    hide *;
    RerunBegins(files, blobs, reader, log, given, after, next);
    RerunRepeats(files, blobs, reader, log, given, after, next);
    StoredAreFresh(files, blobs, reader, log);
    if given == Extended(files, Born(log)) {
      AllTaken(given, after, reader, next);
      BornStops(given, after, reader, next, |next|);
      assert next[..|next|] == next;
      assert next == next[..|given|] + next[|given|..|given| + |Born(log)|];
    }
  }

  lemma StoredAreFresh(files: seq<Item>, blobs: map<string, Blob>, reader: Reader, log: seq<Taken>)
    requires Complete(files, blobs, reader, log) && Clear(files, blobs, reader)
    ensures Extended(files, Born(log)) == TakenItems(Fresh(log)) && |Extended(files, Born(log))| == |Fresh(log)|
  {
    ClearFresh(files, blobs, reader, log);
    ClearBorn(files, blobs, reader, log);
    OpeningItems(files, blobs, reader);
    hide Born; hide Fresh; hide Opening; hide Late; hide Extended; hide Clear; hide Complete;
    ExtendedIs(files, Born(log), reader);
    ItemsSnoc(Opening(files, blobs, reader), Late(IdsOf(files), Born(log), reader));
  }

  lemma OpeningItems(files: seq<Item>, blobs: map<string, Blob>, reader: Reader)
    ensures TakenItems(Opening(files, blobs, reader)) == files
  {
    hide Opening;
    forall k | 0 <= k < |files| ensures TakenItems(Opening(files, blobs, reader))[k] == files[k] {
      OpeningItem(files, blobs, reader, k);
    }
  }

  lemma IdsGrow(files: seq<Item>, more: seq<Item>)
    requires files <= more
    ensures IdsOf(files) <= IdsOf(more)
  {
    assert forall x | x in files :: x in more;
  }

  lemma RepeatsAt(log: seq<Taken>, at: nat, born: seq<Child>)
    requires at + |born| <= |log|
    requires forall i: nat | i < |born| :: log[at + i] == Taken(born[i].item, Failed(Repeated))
    ensures log[at..at + |born|] == Repeats(born)
  {
    forall i | 0 <= i < |born| ensures log[at..at + |born|][i] == Repeats(born)[i] {
      assert log[at..at + |born|][i] == log[at + i];
    }
  }

  // ----- pages and problems -------------------------------------------------------------------------------------

  lemma {:induction false} OutputsConcat(a: seq<Taken>, b: seq<Taken>)
    ensures Pages(a + b) == Pages(a) + Pages(b) && Problems(a + b) == Problems(a) + Problems(b)
    decreases |b|
  {
    hide *;
    if b == [] {
      assert a + b == a;
      NoOutputs();
    } else {
      var init, last := b[..|b| - 1], b[|b| - 1];
      OutputsConcat(a, init);
      LogSnoc([], a + init, last);
      LogSnoc([], init, last);
      assert b == init + [last] && a + b == a + init + [last];
    }
  }

  lemma NoOutputs()
    ensures Pages([]) == [] && Problems([]) == []
  {
  }

  lemma {:induction false} FreshPages(log: seq<Taken>)
    ensures Pages(Fresh(log)) == Pages(log)
  {
    hide Pages; hide PageOf;
    if log == [] {
      assert Fresh(log) == log;
    } else {
      var init, last := log[..|log| - 1], log[|log| - 1];
      FreshPages(init);
      PagesSnoc(Fresh(init), last);
      PagesSnoc(init, last);
      assert log == init + [last];
      if last.fate == Failed(Repeated) {
        RepeatHasNoPage(last);
        assert Pages(init) + [] == Pages(init) && Fresh(init) + [] == Fresh(init);
      } else {
        assert Fresh(log) == Fresh(init) + [last];
      }
    }
  }

  lemma PagesSnoc(log: seq<Taken>, t: Taken)
    ensures Pages(log + [t]) == Pages(log) + PageOf(t)
  {
    hide PageOf;
    assert (log + [t])[..|log|] == log;
  }

  lemma RepeatHasNoPage(t: Taken)
    requires t.fate == Failed(Repeated)
    ensures PageOf(t) == []
  {
  }

  lemma {:induction false} RepeatsHaveNoPages(born: seq<Child>)
    ensures Pages(Repeats(born)) == []
    ensures Problems(Repeats(born)) == RepeatProblems(born)
  {
    if born != [] {
      var init := born[..|born| - 1];
      RepeatsHaveNoPages(init);
      var all := Repeats(born);
      assert all[..|all| - 1] == Repeats(init);
      assert all[|all| - 1] == Taken(born[|born| - 1].item, Failed(Repeated));
    }
  }

  /** The errors of the repeats, one for each document. */
  function RepeatProblems(born: seq<Child>): seq<(string, Problem)> {
    seq(|born|, i requires 0 <= i < |born| => (born[i].item.id, Repeated))
  }

  /** The pages of a run come first and in their order in the next one, whatever files are added; with none added the
      pages are the same, and the errors are those of the run, repeats aside, and one repeat for each document. */
  lemma RerunKeepsPages(files: seq<Item>, blobs: map<string, Blob>, reader: Reader, log: seq<Taken>,
                        given: seq<Item>, after: map<string, Blob>, next: seq<Taken>)
    requires Clear(files, blobs, reader) && Complete(files, blobs, reader, log)
    requires Carries(files, blobs, Born(log), after)
    requires Complete(given, after, reader, next) && Extended(files, Born(log)) <= given
    ensures Pages(log) <= Pages(next)
    ensures given == Extended(files, Born(log)) ==>
              Pages(next) == Pages(log) && Problems(next) == Problems(Fresh(log)) + RepeatProblems(Born(log))
  {
    hide *;
    RerunIsSame(files, blobs, reader, log, given, after, next);
    FreshPages(log);
    PagesOfPrefix(Fresh(log), next);
    if given == Extended(files, Born(log)) {
      RepeatsHaveNoPages(Born(log));
      OutputsConcat(Fresh(log), Repeats(Born(log)));
    }
  }

  lemma PagesOfPrefix(log: seq<Taken>, next: seq<Taken>)
    requires log <= next
    ensures Pages(log) <= Pages(next)
  {
    hide Pages; hide Problems;
    OutputsConcat(log, next[|log|..]);
    assert next == log + next[|log|..];
  }

  /** A first run in which no id occurs twice is clear, and the next one begins with all of it. */
  lemma DistinctRunIsClear(files: seq<Item>, blobs: map<string, Blob>, reader: Reader, log: seq<Taken>)
    requires Complete(files, blobs, reader, log) && DistinctItems(Queue(files, log))
    ensures Clear(files, blobs, reader) && Fresh(log) == log && Extended(files, Born(log)) == Queue(files, log)
  {
    hide *;
    QueueIs(files, log);
    GivenApart(files, Born(log));
    AllTaken(files, blobs, reader, log);
    forall k | 0 <= k < |files| ensures Reading(blobs, log, k) == Lookup(blobs, files[k].id) {
      ReadsOwnIf(files, blobs, reader, log, k);
      BornPrefix(log, k);
      ApartIsGood(blobs, Born(log[..k]), files[k]);
    }
    OwnSoFar(files, blobs, reader, log, |files|);
    BornStops(files, blobs, reader, log, |log|);
    assert files[..|files|] == files && log[..|log|] == log;
    ApartIsClear(files, blobs, reader, Born(log));
    NoRepeatExactly(files, blobs, reader, log);
    FreshAll(log);
    StoredAreFresh(files, blobs, reader, log);
    ItemsOfLog(files, blobs, reader, log);
  }

  lemma ApartIsGood(blobs: map<string, Blob>, born: seq<Child>, f: Item)
    requires forall c | c in born :: f.id != c.item.id
    ensures !Bad(blobs, born, f)
  {
  }

  lemma ApartIsClear(files: seq<Item>, blobs: map<string, Blob>, reader: Reader, born: seq<Child>)
    requires born == Born(Opening(files, blobs, reader)) && DistinctItems(files)
    requires forall f, c | f in files && c in born :: f.id != c.item.id
    ensures Clear(files, blobs, reader)
  {
    hide Born; hide Opening;
  }

  lemma ItemsOfLog(files: seq<Item>, blobs: map<string, Blob>, reader: Reader, log: seq<Taken>)
    requires Complete(files, blobs, reader, log)
    ensures TakenItems(log) == Queue(files, log)
  {
    hide Queue; hide Follows; hide FateOf; hide Stored;
    forall k | 0 <= k < |log| ensures log[k].item == Queue(files, log)[k] {
      TakenAt(files, blobs, reader, log, k);
    }
  }
}
