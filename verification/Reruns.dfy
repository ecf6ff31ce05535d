/** Runs of the worklist over the stored files of a process (application/runtime.py): a run stores the documents it
    took out of zips behind the given files, so the next run is given both. */
module Reruns {
  import opened Options
  import opened Archive
  import opened Worklist
  import opened Expansion

  // ----- what a run makes of the given files when each is read from its own content -----------------------------

  function IdsOf(items: seq<Item>): set<string> {
    set x | x in items :: x.id
  }

  function BornIds(born: seq<Child>): set<string> {
    set c | c in born :: c.item.id
  }

  /** A file after these, taken with its own content. */
  function TakenOwn(before: seq<Item>, f: Item, blobs: map<string, Blob>, reader: Reader): Taken {
    Taken(f, FateOf(f, f.id in IdsOf(before), Lookup(blobs, f.id), reader))
  }

  function Opening(files: seq<Item>, blobs: map<string, Blob>, reader: Reader): (r: seq<Taken>)
    ensures |r| == |files|
  {
    if files == [] then []
    else
      var init, last := files[..|files| - 1], files[|files| - 1];
      Opening(init, blobs, reader) + [TakenOwn(init, last, blobs, reader)]
  }

  /** No document of a zip brings another content under the id of a file given after that zip. */
  ghost predicate Unsupplanted(files: seq<Item>, blobs: map<string, Blob>, reader: Reader) {
    forall k, c | 0 <= k < |files| && c in Born(Opening(files[..k], blobs, reader)) && c.item.id == files[k].id ::
      Lookup(blobs, files[k].id) == Some(c.content)
  }

  lemma {:induction false} OpeningPrefix(files: seq<Item>, blobs: map<string, Blob>, reader: Reader, k: nat)
    requires k <= |files|
    ensures Opening(files, blobs, reader)[..k] == Opening(files[..k], blobs, reader)
    decreases |files|
  {
    hide TakenOwn;
    if k < |files| {
      var init := files[..|files| - 1];
      assert init[..k] == files[..k];
      OpeningPrefix(init, blobs, reader, k);
    } else {
      assert files[..k] == files;
    }
  }

  lemma OpeningNext(files: seq<Item>, blobs: map<string, Blob>, reader: Reader, k: nat)
    requires k < |files|
    ensures Opening(files[..k + 1], blobs, reader)
            == Opening(files[..k], blobs, reader) + [TakenOwn(files[..k], files[k], blobs, reader)]
  {
    hide TakenOwn;
    assert files[..k + 1][..k] == files[..k];
  }

  lemma SameIds(files: seq<Item>, log: seq<Taken>, k: nat)
    requires k <= |files| && k <= |log| && forall j | 0 <= j < k :: log[j].item == files[j]
    ensures Ids(log[..k]) == IdsOf(files[..k])
  {
    forall id ensures id in Ids(log[..k]) <==> id in IdsOf(files[..k]) {
      SeenBefore(log, k, id);
      if id in IdsOf(files[..k]) {
        var f :| f in files[..k] && f.id == id;
        var j :| 0 <= j < k && files[..k][j] == f;
        assert log[j].item.id == id;
      }
      if j :| 0 <= j < k && log[j].item.id == id {
        assert files[..k][j] in files[..k];
      }
    }
  }

  lemma GivenTaken(files: seq<Item>, blobs: map<string, Blob>, reader: Reader, log: seq<Taken>, k: nat)
    requires Follows(files, blobs, reader, log) && k < |log| && k < |files|
    ensures log[k].item == files[k]
    ensures log[k].fate == FateOf(files[k], files[k].id in IdsOf(files[..k]), Reading(blobs, log, k), reader)
  {
    hide FateOf; hide Follows; hide Queue; hide Stored; hide Born; hide Ids; hide IdsOf;
    TakenAt(files, blobs, reader, log, k);
    QueueGiven(files, log, k);
    forall j | 0 <= j < k ensures log[j].item == files[j] {
      TakenAt(files, blobs, reader, log, j);
      QueueGiven(files, log, j);
    }
    SameIds(files, log, k);
  }

  /** As long as each given file is taken with its own content, the run is as computed from the inputs. */
  lemma {:induction false} OwnSoFar(files: seq<Item>, blobs: map<string, Blob>, reader: Reader, log: seq<Taken>,
                                    n: nat)
    requires Follows(files, blobs, reader, log) && n <= |files| && n <= |log|
    requires forall k | 0 <= k < n :: Reading(blobs, log, k) == Lookup(blobs, files[k].id)
    ensures log[..n] == Opening(files[..n], blobs, reader)
    decreases n
  {
    hide Reading; hide Follows; hide FateOf; hide IdsOf; hide Lookup;
    if n > 0 {
      OwnSoFar(files, blobs, reader, log, n - 1);
      GivenTaken(files, blobs, reader, log, n - 1);
      hide Opening;
      OpeningNext(files, blobs, reader, n - 1);
      assert log[..n] == log[..n - 1] + [log[n - 1]];
    } else {
      assert files[..n] == [] && log[..n] == [];
    }
  }

  ghost predicate Bad(blobs: map<string, Blob>, born: seq<Child>, f: Item) {
    exists c :: c in born && c.item.id == f.id && Lookup(blobs, f.id) != Some(c.content)
  }

  lemma ReadsOwnIf(files: seq<Item>, blobs: map<string, Blob>, reader: Reader, log: seq<Taken>, k: nat)
    requires Follows(files, blobs, reader, log) && k < |files| && k < |log|
    ensures Reading(blobs, log, k) == Lookup(blobs, files[k].id) <==> !Bad(blobs, Born(log[..k]), files[k])
  {
    TakenAt(files, blobs, reader, log, k);
    QueueGiven(files, log, k);
    hide Follows; hide Queue; hide FateOf; hide Stored; hide Reading; hide Lookup; hide Born; hide Ids;
    StoredAt(files, blobs, reader, log, k);
  }

  /** The first n given files are taken with their own contents if nothing bad comes out of those before each. */
  lemma {:induction false} OwnUpTo(files: seq<Item>, blobs: map<string, Blob>, reader: Reader, log: seq<Taken>, n: nat)
    requires Follows(files, blobs, reader, log) && n <= |files| && n <= |log|
    requires forall k | 0 <= k < n :: !Bad(blobs, Born(Opening(files[..k], blobs, reader)), files[k])
    ensures forall k | 0 <= k < n :: Reading(blobs, log, k) == Lookup(blobs, files[k].id)
    decreases n
  {
    hide *;
    if n > 0 {
      OwnUpTo(files, blobs, reader, log, n - 1);
      OwnSoFar(files, blobs, reader, log, n - 1);
      ReadsOwnIf(files, blobs, reader, log, n - 1);
    }
  }

  lemma UnsupplantedIs(files: seq<Item>, blobs: map<string, Blob>, reader: Reader)
    ensures Unsupplanted(files, blobs, reader) <==>
            forall k | 0 <= k < |files| :: !Bad(blobs, Born(Opening(files[..k], blobs, reader)), files[k])
  {
    hide Born; hide Opening; hide Lookup;
    if Unsupplanted(files, blobs, reader) {
      forall k | 0 <= k < |files| ensures !Bad(blobs, Born(Opening(files[..k], blobs, reader)), files[k]) {
      }
    } else {
      var k, c :| 0 <= k < |files| && c in Born(Opening(files[..k], blobs, reader)) && c.item.id == files[k].id
                  && Lookup(blobs, files[k].id) != Some(c.content);
      assert Bad(blobs, Born(Opening(files[..k], blobs, reader)), files[k]);
    }
  }

  /** Every given file is taken with the content it came with if and only if no earlier zip brings another content under
      its id, which can be told from the inputs. */
  lemma OwnContentExactly(files: seq<Item>, blobs: map<string, Blob>, reader: Reader, log: seq<Taken>)
    requires Complete(files, blobs, reader, log)
    ensures |files| <= |log|
    ensures (forall k | 0 <= k < |files| :: Reading(blobs, log, k) == Lookup(blobs, files[k].id)) <==>
            Unsupplanted(files, blobs, reader)
  {
    UnsupplantedIs(files, blobs, reader);
    AllTaken(files, blobs, reader, log);
    hide *;
    if forall k | 0 <= k < |files| :: !Bad(blobs, Born(Opening(files[..k], blobs, reader)), files[k]) {
      OwnUpTo(files, blobs, reader, log, |files|);
    }
    if forall k | 0 <= k < |files| :: Reading(blobs, log, k) == Lookup(blobs, files[k].id) {
      forall k | 0 <= k < |files| ensures !Bad(blobs, Born(Opening(files[..k], blobs, reader)), files[k]) {
        OwnSoFar(files, blobs, reader, log, k);
        ReadsOwnIf(files, blobs, reader, log, k);
      }
    }
  }

  lemma AllTaken(files: seq<Item>, blobs: map<string, Blob>, reader: Reader, log: seq<Taken>)
    requires Complete(files, blobs, reader, log)
    ensures Follows(files, blobs, reader, log) && |files| <= |log| && |log| == |files| + |Born(log)|
  {
  }

  // ----- ids that cannot clash ----------------------------------------------------------------------------------

  lemma BornOfTaken(log: seq<Taken>, c: Child)
    requires c in Born(log)
    ensures exists k, i :: 0 <= k < |log| && 0 <= i < |ChildrenOf(log[k])| && c == ChildrenOf(log[k])[i]
  {
    hide ChildrenOf;
    var j :| 0 <= j < |Born(log)| && Born(log)[j] == c;
    var k, i := ComesFrom(log, j);
  }

  lemma {:induction false} OpeningAt(files: seq<Item>, blobs: map<string, Blob>, reader: Reader, k: nat)
    requires k < |files|
    ensures Opening(files, blobs, reader)[k] == TakenOwn(files[..k], files[k], blobs, reader)
  {
    hide TakenOwn;
    OpeningPrefix(files, blobs, reader, k + 1);
    OpeningNext(files, blobs, reader, k);
    hide Opening;
    assert Opening(files, blobs, reader)[k] == Opening(files, blobs, reader)[..k + 1][k];
  }

  /** A document comes out of a zip that is the first of its id, with that zip's id and one of forty numbers. */
  lemma OffspringOf(files: seq<Item>, blobs: map<string, Blob>, reader: Reader, c: Child)
    requires c in Born(Opening(files, blobs, reader))
    ensures exists k, i ::
              && 0 <= k < |files| && KindOf(files[k].name) == Zip && files[k].id !in IdsOf(files[..k])
              && 1 <= i <= MAX_MEMBERS && c.item.id == ChildId(files[k].id, i)
    ensures KindOf(c.item.name) in {Xml, Docx, Pdf}
  {
    hide ChildId; hide KindOf; hide FateOf; hide Expand; hide Opening; hide Born; hide Lookup; hide Children;
    hide IdsOf;
    BornOfTaken(Opening(files, blobs, reader), c);
    var k, i :| 0 <= k < |files| && 0 <= i < |ChildrenOf(Opening(files, blobs, reader)[k])|
                && c == ChildrenOf(Opening(files, blobs, reader)[k])[i];
    OpeningAt(files, blobs, reader, k);
    OwnChild(files[..k], files[k], blobs, reader, i);
    assert 1 <= i + 1 <= MAX_MEMBERS && c.item.id == ChildId(files[k].id, i + 1);
  }

  lemma OwnChild(before: seq<Item>, f: Item, blobs: map<string, Blob>, reader: Reader, i: nat)
    requires i < |ChildrenOf(TakenOwn(before, f, blobs, reader))|
    ensures KindOf(f.name) == Zip && f.id !in IdsOf(before) && i + 1 <= MAX_MEMBERS
    ensures ChildrenOf(TakenOwn(before, f, blobs, reader))[i].item.id == ChildId(f.id, i + 1)
    ensures KindOf(ChildrenOf(TakenOwn(before, f, blobs, reader))[i].item.name) in {Xml, Docx, Pdf}
  {
    var t := TakenOwn(before, f, blobs, reader);
    ChildAt(t, i);
    hide ChildId; hide KindOf; hide FateOf; hide Expand;
    OpenedFacts(f, f.id in IdsOf(before), Lookup(blobs, f.id), reader);
    ExpandBound(reader, Lookup(blobs, f.id), t.fate.members);
    ChildrenAreDocuments(f, f.id in IdsOf(before), Lookup(blobs, f.id), reader, ChildrenOf(t)[i]);
  }

  /** No given file has the id of a document that an earlier given zip could yield. */
  ghost predicate NoClash(files: seq<Item>) {
    forall z, k, n | 0 <= z < k < |files| && KindOf(files[z].name) == Zip && 1 <= n <= MAX_MEMBERS ::
      files[k].id != ChildId(files[z].id, n)
  }

  /** Then every given file is taken with its own content, whatever the archives hold. */
  lemma NoClashReadsOwn(files: seq<Item>, blobs: map<string, Blob>, reader: Reader, log: seq<Taken>)
    requires Complete(files, blobs, reader, log) && NoClash(files)
    ensures |files| <= |log| && forall k | 0 <= k < |files| :: Reading(blobs, log, k) == Lookup(blobs, files[k].id)
  {
    hide Complete; hide Born; hide Opening; hide Lookup; hide Reading; hide ChildId; hide KindOf; hide IdsOf;
    forall k, c | 0 <= k < |files| && c in Born(Opening(files[..k], blobs, reader))
      ensures c.item.id != files[k].id
    {
      OffspringOf(files[..k], blobs, reader, c);
    }
    assert Unsupplanted(files, blobs, reader);
    OwnContentExactly(files, blobs, reader, log);
  }
}
