/** The files of one process over any sequence of uploads and runs: an upload brings a file under a new id without
    two underscores in a row (a version 4 UUID), a run stores the documents it took out of zips. */
module FileHistory {
  import opened Options
  import opened Archive
  import opened Worklist
  import opened Expansion
  import opened Reruns
  import opened StoredRuns

  datatype Store = Store(files: seq<Item>, blobs: map<string, Blob>)

  datatype Event = Upload(item: Item, content: Blob) | Run

  function BornOf(s: Store, reader: Reader): seq<Child> {
    Born(Opening(s.files, s.blobs, reader))
  }

  function After(s: Store, e: Event, reader: Reader): Store {
    match e
    case Upload(item, content) => Store(s.files + [item], s.blobs[item.id := content])
    case Run => Store(Extended(s.files, BornOf(s, reader)), Stored(s.blobs, BornOf(s, reader)))
  }

  function At(events: seq<Event>, n: nat, reader: Reader): Store
    requires n <= |events|
  {
    if n == 0 then Store([], map[]) else After(At(events, n - 1, reader), events[n - 1], reader)
  }

  predicate Plain(id: string) {
    forall i | 0 <= i < |id| - 1 :: !(id[i] == '_' && id[i + 1] == '_')
  }

  predicate MayFollow(s: Store, e: Event) {
    e.Upload? ==> Plain(e.item.id) && e.item.id !in IdsOf(s.files)
  }

  ghost predicate Fits(events: seq<Event>, reader: Reader) {
    forall n | 0 <= n < |events| :: MayFollow(At(events, n, reader), events[n])
  }

  // ----- every store is clear -----------------------------------------------------------------------------------

  ghost predicate Tidy(s: Store, reader: Reader) {
    && Clear(s.files, s.blobs, reader)
    && forall f | f in s.files :: Plain(f.id) || f.id in BornIds(BornOf(s, reader))
  }

  lemma ChildIsNotPlain(id: string, n: nat)
    ensures !Plain(ChildId(id, n))
  {
    NumeralDigits(n);
    hide Numeral;
    var c := ChildId(id, n);
    assert c[|id|] == '_' && c[|id| + 1] == '_';
  }

  lemma BornIsNotPlain(s: Store, reader: Reader, c: Child)
    requires c in BornOf(s, reader)
    ensures !Plain(c.item.id)
  {
    hide Opening; hide Born; hide Plain; hide ChildId; hide KindOf; hide IdsOf;
    OffspringOf(s.files, s.blobs, reader, c);
    var k, i :| 0 <= k < |s.files| && 1 <= i <= MAX_MEMBERS && c.item.id == ChildId(s.files[k].id, i);
    ChildIsNotPlain(s.files[k].id, i);
  }

  /** A document out of a new zip has an id that none of the stored files has. */
  lemma NewChildIsNew(s: Store, reader: Reader, id: string, n: nat, f: Item)
    requires Tidy(s, reader) && id !in IdsOf(s.files) && f in s.files
    ensures f.id != ChildId(id, n)
  {
    hide Opening; hide Born; hide Plain; hide ChildId; hide KindOf; hide Clear;
    ChildIsNotPlain(id, n);
    if !Plain(f.id) {
      var c :| c in BornOf(s, reader) && c.item.id == f.id;
      OffspringOf(s.files, s.blobs, reader, c);
      var k, i :| 0 <= k < |s.files| && 1 <= i <= MAX_MEMBERS && c.item.id == ChildId(s.files[k].id, i);
      assert s.files[k] in s.files;
      OtherZipOtherId(s.files[k].id, i, id, n);
    }
  }

  lemma OtherZipOtherId(a: string, m: nat, b: string, n: nat)
    requires a != b
    ensures ChildId(a, m) != ChildId(b, n)
  {
    hide ChildId;
    if ChildId(a, m) == ChildId(b, n) {
      ChildIdInjective(a, m, b, n);
    }
  }

  /** The documents a new file brings. */
  function Brings(s: Store, e: Event, reader: Reader): Taken
    requires e.Upload?
  {
    TakenOwn(s.files, e.item, After(s, e, reader).blobs, reader)
  }

  lemma UploadOpens(s: Store, e: Event, reader: Reader)
    requires e.Upload? && MayFollow(s, e)
    ensures BornOf(After(s, e, reader), reader) == BornOf(s, reader) + ChildrenOf(Brings(s, e, reader))
    ensures forall f | f in s.files :: Lookup(After(s, e, reader).blobs, f.id) == Lookup(s.blobs, f.id)
  {
    hide Opening; hide Born; hide TakenOwn; hide ChildrenOf; hide Plain;
    var after := After(s, e, reader);
    forall f | f in s.files ensures Lookup(after.blobs, f.id) == Lookup(s.blobs, f.id) {
      assert f.id in IdsOf(s.files);
    }
    OpeningSame(s.files, s.blobs, after.blobs, reader);
    OpeningSnoc(s.files, e.item, after.blobs, reader);
    LogSnoc([], Opening(s.files, s.blobs, reader), Brings(s, e, reader));
  }

  lemma BroughtIs(s: Store, e: Event, reader: Reader, c: Child)
    requires e.Upload? && c in ChildrenOf(Brings(s, e, reader))
    ensures exists n: nat :: c.item.id == ChildId(e.item.id, n)
  {
    var t := Brings(s, e, reader);
    hide Brings; hide TakenOwn; hide ChildId; hide ChildrenOf;
    var i :| 0 <= i < |ChildrenOf(t)| && ChildrenOf(t)[i] == c;
    ChildAt(t, i);
    BringsItem(s, e, reader);
  }

  lemma BringsItem(s: Store, e: Event, reader: Reader)
    requires e.Upload?
    ensures Brings(s, e, reader).item == e.item
  {
    hide FateOf;
  }

  lemma UploadTidies(s: Store, e: Event, reader: Reader)
    requires Tidy(s, reader) && e.Upload? && MayFollow(s, e)
    ensures Tidy(After(s, e, reader), reader)
  {
    UploadOpens(s, e, reader);
    hide Opening; hide Born; hide Brings; hide ChildrenOf; hide Plain; hide Lookup; hide ChildId; hide Stored;
    hide Extended;
    var after := After(s, e, reader);
    var were, kids := BornOf(s, reader), ChildrenOf(Brings(s, e, reader));
    DistinctSnoc(s.files, e.item);
    forall f: Item, c: Child | f in after.files && c in were + kids && c.item.id == f.id
      ensures Lookup(after.blobs, f.id) == Some(c.content)
    {
      UploadAgrees(s, e, reader, f, c);
    }
    assert Agree(after.files, after.blobs, BornOf(after, reader));
    forall f | f in after.files ensures Plain(f.id) || f.id in BornIds(BornOf(after, reader)) {
      if f != e.item && !Plain(f.id) {
        var c :| c in were && c.item.id == f.id;
        assert c in were + kids;
      }
    }
  }

  lemma UploadAgrees(s: Store, e: Event, reader: Reader, f: Item, c: Child)
    requires Tidy(s, reader) && e.Upload? && MayFollow(s, e)
    requires f in s.files + [e.item] && c in BornOf(s, reader) + ChildrenOf(Brings(s, e, reader))
    requires c.item.id == f.id
    ensures Lookup(After(s, e, reader).blobs, f.id) == Some(c.content)
  {
    UploadOpens(s, e, reader);
    hide Opening; hide Born; hide Brings; hide ChildrenOf; hide Plain; hide Lookup; hide ChildId; hide After;
    if c in BornOf(s, reader) {
      BornIsNotPlain(s, reader, c);
    } else {
      BroughtIs(s, e, reader, c);
      var n: nat :| c.item.id == ChildId(e.item.id, n);
      ChildIsNotPlain(e.item.id, n);
      if f in s.files {
        NewChildIsNew(s, reader, e.item.id, n, f);
      }
    }
  }

  lemma RunTidies(s: Store, reader: Reader)
    requires Tidy(s, reader)
    ensures Tidy(After(s, Run, reader), reader)
    ensures BornOf(After(s, Run, reader), reader) == BornOf(s, reader)
  {
    hide Opening; hide Born; hide Plain; hide Lookup; hide Clear; hide Extended; hide Stored; hide Late;
    NextClear(s.files, s.blobs, reader, After(s, Run, reader).blobs);
    forall f | f in After(s, Run, reader).files ensures Plain(f.id) || f.id in BornIds(BornOf(s, reader)) {
      assert f.id in IdsOf(After(s, Run, reader).files);
      if f.id in IdsOf(s.files) {
        var g :| g in s.files && g.id == f.id;
      }
    }
  }

  lemma {:induction false} HistoryIsTidy(events: seq<Event>, n: nat, reader: Reader)
    requires Fits(events, reader) && n <= |events|
    ensures Tidy(At(events, n, reader), reader)
    decreases n
  {
    hide After; hide MayFollow;
    if n == 0 {
    } else {
      hide Tidy;
      HistoryIsTidy(events, n - 1, reader);
      var s, e := At(events, n - 1, reader), events[n - 1];
      assert MayFollow(s, e);
      match e
      case Upload(_, _) => UploadTidies(s, e, reader);
      case Run => RunTidies(s, reader);
    }
  }

  // ----- what a run does at any time ----------------------------------------------------------------------------

  /** What a run really took out of zips is what the store says. */
  lemma RunStores(events: seq<Event>, n: nat, reader: Reader, log: seq<Taken>)
    requires Fits(events, reader) && n < |events| && events[n] == Run
    requires var s := At(events, n, reader); Complete(s.files, s.blobs, reader, log)
    ensures var s := At(events, n, reader);
            At(events, n + 1, reader) == Store(Extended(s.files, Born(log)), Stored(s.blobs, Born(log)))
  {
    HistoryIsTidy(events, n, reader);
    hide Opening; hide Born; hide Complete; hide Clear; hide Fits; hide Extended; hide Stored;
    var s := At(events, n, reader);
    ClearBorn(s.files, s.blobs, reader, log);
    assert At(events, n + 1, reader) == After(s, Run, reader);
  }

  /** At any time every stored file, uploaded or out of a zip, has a page exactly when it is a document by its name and
      its own content is there and is read. */
  lemma StoredFilesHavePages(events: seq<Event>, n: nat, reader: Reader, log: seq<Taken>, k: nat, content: Blob)
    requires Fits(events, reader) && n <= |events|
    requires var s := At(events, n, reader); Complete(s.files, s.blobs, reader, log) && k < |s.files|
    ensures var s := At(events, n, reader);
            var item := s.files[k];
            (item.id, content) in Pages(log) <==>
            && KindOf(item.name) in {Xml, Docx, Pdf} && Lookup(s.blobs, item.id) == Some(content)
            && reader.read(KindOf(item.name), content).Read?
  {
    HistoryIsTidy(events, n, reader);
    var s := At(events, n, reader);
    hide At; hide Fits;
    ClearReads(s.files, s.blobs, reader, log, k);
    TidyIsClear(s, reader);
    hide *;
    AllTaken(s.files, s.blobs, reader, log);
    GivenFirst(s.files, log, k);
    QueueGiven(s.files, log, k);
    PagesExactly(s.files, s.blobs, reader, log, k, content);
  }

  lemma TidyIsClear(s: Store, reader: Reader)
    requires Tidy(s, reader)
    ensures Clear(s.files, s.blobs, reader)
  {
  }

  lemma ClearReads(files: seq<Item>, blobs: map<string, Blob>, reader: Reader, log: seq<Taken>, k: nat)
    requires Clear(files, blobs, reader) && Complete(files, blobs, reader, log) && k < |files|
    ensures k < |log| && First(files, k) && Reading(blobs, log, k) == Lookup(blobs, files[k].id)
  {
    ClearIsUnsupplanted(files, blobs, reader);
    hide Opening; hide Born; hide Complete; hide Reading; hide Lookup; hide Agree;
    OwnContentExactly(files, blobs, reader, log);
  }

  lemma ClearIsUnsupplanted(files: seq<Item>, blobs: map<string, Blob>, reader: Reader)
    requires Clear(files, blobs, reader)
    ensures Unsupplanted(files, blobs, reader)
  {
    hide Opening; hide Born; hide Lookup;
    forall k, c | 0 <= k < |files| && c in Born(Opening(files[..k], blobs, reader)) && c.item.id == files[k].id
      ensures Lookup(blobs, files[k].id) == Some(c.content)
    {
      OpeningBorn(files, blobs, reader, k);
      assert files[k] in files;
    }
  }

  // ----- from one run to any later one --------------------------------------------------------------------------

  ghost predicate Grown(s: Store, later: Store) {
    s.files <= later.files && forall f | f in s.files :: Lookup(later.blobs, f.id) == Lookup(s.blobs, f.id)
  }

  lemma StepGrows(s: Store, e: Event, reader: Reader)
    requires Tidy(s, reader) && MayFollow(s, e)
    ensures Grown(s, After(s, e, reader))
  {
    match e
    case Upload(_, _) =>
      UploadOpens(s, e, reader);
    case Run =>
      OpeningBornDistinct(s.files, s.blobs, reader);
      hide Opening; hide Born; hide Stored; hide Lookup; hide DistinctItems; hide DistinctBorn; hide Agree;
      StoredKeeps(s.files, s.blobs, BornOf(s, reader));
      ExtendedGrows(s.files, BornOf(s, reader));
  }

  lemma {:induction false} ExtendedGrows(files: seq<Item>, born: seq<Child>)
    ensures files <= Extended(files, born)
  {
    if born != [] {
      ExtendedGrows(files, born[..|born| - 1]);
    }
  }

  lemma GrownThrough(a: Store, b: Store, c: Store)
    requires Grown(a, b) && Grown(b, c)
    ensures Grown(a, c)
  {
    hide Lookup;
    assert forall f | f in a.files :: f in b.files;
  }

  lemma {:induction false} HistoryGrows(events: seq<Event>, m: nat, n: nat, reader: Reader)
    requires Fits(events, reader) && m <= n <= |events|
    ensures Grown(At(events, m, reader), At(events, n, reader))
    decreases n
  {
    hide *;
    if m < n {
      HistoryGrows(events, m, n - 1, reader);
      HistoryIsTidy(events, n - 1, reader);
      AtNext(events, n - 1, reader);
      StepGrows(At(events, n - 1, reader), events[n - 1], reader);
      GrownThrough(At(events, m, reader), At(events, n - 1, reader), At(events, n, reader));
    } else {
      GrownNot(At(events, m, reader));
    }
  }

  lemma AtNext(events: seq<Event>, n: nat, reader: Reader)
    requires Fits(events, reader) && n < |events|
    ensures MayFollow(At(events, n, reader), events[n])
    ensures At(events, n + 1, reader) == After(At(events, n, reader), events[n], reader)
  {
    hide After; hide MayFollow;
  }

  lemma GrownNot(s: Store)
    ensures Grown(s, s)
  {
  }

  lemma GrownCarries(s: Store, born: seq<Child>, later: Store)
    requires Grown(Store(Extended(s.files, born), Stored(s.blobs, born)), later)
    ensures Extended(s.files, born) <= later.files && Carries(s.files, s.blobs, born, later.blobs)
  {
    hide Extended; hide Stored; hide Lookup;
  }

  /** Whatever is uploaded and run in between, the pages of a run are the first pages, in their order, of every later
      run, and that run reports each document the first one took out of zips as a repeat, once, in order. */
  lemma LaterRunsKeepPages(events: seq<Event>, m: nat, n: nat, reader: Reader, log: seq<Taken>, next: seq<Taken>)
    requires Fits(events, reader) && m < n <= |events| && events[m] == Run
    requires var s := At(events, m, reader); Complete(s.files, s.blobs, reader, log)
    requires var s := At(events, n, reader); Complete(s.files, s.blobs, reader, next)
    ensures Pages(log) <= Pages(next)
    ensures var at := |At(events, n, reader).files|;
            at + |Born(log)| <= |next| && next[at..at + |Born(log)|] == Repeats(Born(log))
  {
    hide *;
    HistoryIsTidy(events, m, reader);
    HistoryGrows(events, m + 1, n, reader);
    var s, later := At(events, m, reader), At(events, n, reader);
    RunStores(events, m, reader, log);
    TidyIsClear(s, reader);
    GrownCarries(s, Born(log), later);
    RerunKeepsPages(s.files, s.blobs, reader, log, later.files, later.blobs, next);
    RerunIsSame(s.files, s.blobs, reader, log, later.files, later.blobs, next);
  }
}
