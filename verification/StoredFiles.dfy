/** The files of a process (application/runtime.py): a list that is searched by id from the front and keeps the
    stamp last read from each file. */
module StoredFiles {
  import opened Options
  import Documents

  datatype StoredFile = StoredFile(id: string, hash: string, stage: Documents.Stage, stamp: Documents.Approval)

  predicate HasId(files: seq<StoredFile>, id: string) {
    exists f :: f in files && f.id == id
  }

  /** The first file with this id. */
  function Position(files: seq<StoredFile>, id: string): (r: Option<nat>)
    ensures r.Some? ==> r.value < |files| && files[r.value].id == id && !HasId(files[..r.value], id)
    ensures r == None ==> !HasId(files, id)
  {
    if files == [] then None
    else if Position(files[..|files| - 1], id).Some? then
      var p := Position(files[..|files| - 1], id);
      assert files[..|files| - 1][..p.value] == files[..p.value];
      p
    else if files[|files| - 1].id == id then Some(|files| - 1)
    else None
  }

  function WithStamp(files: seq<StoredFile>, i: nat, stamp: Documents.Approval): seq<StoredFile>
    requires i < |files|
  {
    files[i := files[i].(stamp := stamp)]
  }

  /** `has_file` */
  predicate HasContent(files: seq<StoredFile>, hash: string, stage: Documents.Stage) {
    exists f :: f in files && f.hash == hash && f.stage == stage
  }

  /** `attach_file`: a content the stage already has is not attached again. */
  function Attached(files: seq<StoredFile>, f: StoredFile): seq<StoredFile> {
    if HasContent(files, f.hash, f.stage) then files else files + [f]
  }

  /** The documents a run took out of zips, those left out whose ids are known. */
  function Appended(files: seq<StoredFile>, expanded: seq<StoredFile>): seq<StoredFile> {
    if expanded == [] then files
    else
      var before, last := Appended(files, expanded[..|expanded| - 1]), expanded[|expanded| - 1];
      if HasId(before, last.id) then before else before + [last.(stamp := Documents.Unknown)]
  }

  /** The stamps a run has read; a file it has not read keeps its stamp. */
  function Recorded(files: seq<StoredFile>, stamps: map<string, Documents.Approval>): seq<StoredFile> {
    seq(|files|, i requires 0 <= i < |files| =>
      if files[i].id in stamps then files[i].(stamp := stamps[files[i].id]) else files[i])
  }

  method FindFile(files: seq<StoredFile>, id: string) returns (place: Option<nat>)
    ensures place == Position(files, id)
  {
    for i := 0 to |files|
      invariant Position(files[..i], id) == None
    {
      assert files[..i + 1][..i] == files[..i];
      if files[i].id == id {
        PositionStays(files, id, i + 1);
        return Some(i);
      }
    }
    assert files[..|files|] == files;
    return None;
  }

  lemma {:induction false} PositionStays(files: seq<StoredFile>, id: string, n: nat)
    requires n <= |files| && Position(files[..n], id).Some?
    ensures Position(files, id) == Position(files[..n], id)
  {
    if n < |files| {
      assert files[..|files| - 1][..n] == files[..n];
      PositionStays(files[..|files| - 1], id, n);
    } else {
      assert files[..n] == files;
    }
  }

  method AppendExpanded(files: seq<StoredFile>, expanded: seq<StoredFile>) returns (after: seq<StoredFile>)
    ensures after == Appended(files, expanded)
  {
    after := files;
    var known := set f | f in files :: f.id;
    for i := 0 to |expanded|
      invariant after == Appended(files, expanded[..i])
      invariant forall id :: id in known <==> HasId(after, id)
    {
      assert expanded[..i + 1][..i] == expanded[..i];
      var file := expanded[i].(stamp := Documents.Unknown);
      if file.id !in known {
        HasIdSnoc(after, file);
        known := known + {file.id};
        after := after + [file];
      }
    }
    assert expanded[..|expanded|] == expanded;
  }

  lemma HasIdSnoc(files: seq<StoredFile>, f: StoredFile)
    ensures forall id :: HasId(files + [f], id) <==> HasId(files, id) || id == f.id
  {
    forall id ensures HasId(files + [f], id) <==> HasId(files, id) || id == f.id {
      assert forall g :: g in files + [f] <==> g in files || g == f;
      assert f in files + [f];
    }
  }

  method RecordStamps(files: seq<StoredFile>, stamps: map<string, Documents.Approval>)
    returns (after: seq<StoredFile>)
    ensures after == Recorded(files, stamps)
  {
    after := files;
    for i := 0 to |files|
      invariant |after| == |files|
      invariant forall j | 0 <= j < i :: after[j] == Recorded(files, stamps)[j]
      invariant forall j | i <= j < |files| :: after[j] == files[j]
    {
      if after[i].id in stamps {
        after := WithStamp(after, i, stamps[after[i].id]);
      }
    }
  }

  // ----- files and runs -----------------------------------------------------------------------------------------

  lemma WithStampSame(files: seq<StoredFile>, i: nat, stamp: Documents.Approval)
    requires i < |files|
    ensures WithStamp(files, i, stamp) == files <==> files[i].stamp == stamp
  {
    if WithStamp(files, i, stamp) == files {
      assert WithStamp(files, i, stamp)[i] == files[i];
    }
  }

  lemma {:induction false} AppendedIds(files: seq<StoredFile>, expanded: seq<StoredFile>, id: string)
    ensures HasId(Appended(files, expanded), id) <==> HasId(files, id) || HasId(expanded, id)
  {
    if expanded != [] {
      var init, last := expanded[..|expanded| - 1], expanded[|expanded| - 1];
      assert expanded == init + [last];
      HasIdSnoc(init, last);
      AppendedIds(files, init, id);
      AppendedIds(files, init, last.id);
      HasIdSnoc(Appended(files, init), last.(stamp := Documents.Unknown));
    }
  }

  lemma {:induction false} NothingNew(files: seq<StoredFile>, expanded: seq<StoredFile>)
    requires forall f | f in expanded :: HasId(files, f.id)
    ensures Appended(files, expanded) == files
  {
    if expanded != [] {
      var init, last := expanded[..|expanded| - 1], expanded[|expanded| - 1];
      assert expanded == init + [last];
      NothingNew(files, init);
      assert last in expanded;
    }
  }

  /** Whatever was recorded since, a later run that takes the same documents out of the zips adds no file. */
  lemma RerunAddsNoFile(files: seq<StoredFile>, expanded: seq<StoredFile>, again: seq<StoredFile>,
                        stamps: map<string, Documents.Approval>)
    requires forall f | f in again :: HasId(expanded, f.id)
    ensures Appended(Recorded(Appended(files, expanded), stamps), again)
            == Recorded(Appended(files, expanded), stamps)
  {
    var first := Appended(files, expanded);
    forall f | f in again ensures HasId(Recorded(first, stamps), f.id) {
      AppendedIds(files, expanded, f.id);
      RecordedIds(first, stamps, f.id);
    }
    NothingNew(Recorded(first, stamps), again);
  }

  lemma RecordedIds(files: seq<StoredFile>, stamps: map<string, Documents.Approval>, id: string)
    requires HasId(files, id)
    ensures HasId(Recorded(files, stamps), id)
  {
    var f :| f in files && f.id == id;
    var i :| 0 <= i < |files| && files[i] == f;
    assert Recorded(files, stamps)[i] in Recorded(files, stamps);
  }

  /** A first run whose documents have new ids of their own stores each of them once, behind the given files. */
  lemma {:induction false} FirstRunAddsAll(files: seq<StoredFile>, expanded: seq<StoredFile>)
    requires forall i, j | 0 <= i < j < |expanded| :: expanded[i].id != expanded[j].id
    requires forall f | f in expanded :: !HasId(files, f.id) && f.stamp == Documents.Unknown
    ensures Appended(files, expanded) == files + expanded
  {
    if expanded != [] {
      var init, last := expanded[..|expanded| - 1], expanded[|expanded| - 1];
      assert expanded == init + [last];
      FirstRunAddsAll(files, init);
      AppendedIds(files, init, last.id);
      assert last in expanded;
      assert forall i | 0 <= i < |init| :: init[i] == expanded[i];
    }
  }
}
