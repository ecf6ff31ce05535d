/** The workspace as it is written: methods that update the records in place, each proved against the
    operation it stands for. */
module ProcessWorkspace {
  import opened Options
  import opened Findings
  import opened StoredFiles
  import opened ProcessRecord
  import opened Workspace
  import Documents

  class Processes {
    var items: Items

    ghost predicate Valid()
      reads this
    {
      AllKept(items) && AllReadable(items)
    }

    constructor ()
      ensures Valid() && items == []
    {
      items := [];
    }

    /** `create` */
    method CreateProcess()
      requires Valid()
      modifies this
      ensures Valid() && Answer(items, None) == Apply(old(items), Create)
    {
      AppliedKeeps(items, Create);
      hide Kept;
      var record := Record(Parsing, NotRequested, 0, 0, Book([], map[]), None, None, [], {}, []);
      items := items + [record];
    }

    /** `reopen_for_upload` */
    method ReopenForUpload(pid: nat) returns (fault: Option<Fault>)
      requires Valid()
      modifies this
      ensures Valid() && Answer(items, fault) == Apply(old(items), ReopenOp(pid))
    {
      AppliedKeeps(items, ReopenOp(pid));
      hide Kept; hide Readable;
      if pid >= |items| {
        return Some(NoProcess);
      }
      var record := items[pid];
      SameItem(items, pid);
      if record.state == Finalized {
        return Some(Frozen);
      }
      if record.state != Parsing {
        var step := Advance(record, Parsing);
        items := items[pid := step.record];
        return step.fault;
      }
      return None;
    }

    /** `attach_file` */
    method AttachFile(pid: nat, file: StoredFile) returns (fault: Option<Fault>)
      requires Valid()
      modifies this
      ensures Valid() && Answer(items, fault) == Apply(old(items), AttachOp(pid, file))
    {
      AppliedKeeps(items, AttachOp(pid, file));
      hide Kept; hide Readable; hide HasContent;
      if pid >= |items| {
        return Some(NoProcess);
      }
      var record := items[pid];
      SameItem(items, pid);
      if HasContent(record.files, file.hash, file.stage) {
        return None;
      }
      record := record.(files := record.files + [file.(stamp := Documents.Unknown)]);
      items := items[pid := record];
      return None;
    }

    /** `_run_scheduled` and the loop of `put_finding` in `run_matrix_pipeline`. */
    method RunMatrix(pid: nat, report: Option<Report>) returns (fault: Option<Fault>)
      requires Valid() && FromMatrix(RunOp(pid, report))
      modifies this
      ensures Valid() && Answer(items, fault) == Apply(old(items), RunOp(pid, report))
    {
      AppliedKeeps(items, RunOp(pid, report));
      hide Kept; hide Readable; hide MachineMade; hide Findings.Put; hide Appended; hide Recorded;
      if pid >= |items| {
        return Some(NoProcess);
      }
      var record := items[pid];
      SameItem(items, pid);
      if record.state != Parsing {
        return None;
      }
      if report == None {
        items := items[pid := Log(record, "system", "PIPELINE_FAILED")];
        return Some(RunFailed);
      }
      var files := AppendExpanded(record.files, report.value.expanded);
      files := RecordStamps(files, report.value.stamps);
      record := record.(files := files);
      var book := PutFindings(record.book, report.value.findings);
      record := Log(record.(book := book, parses := record.parses + 1), "system", "PIPELINE");
      record := record.(state := Ready);
      items := items[pid := record];
      return None;
    }

    /** `locate_finding` */
    method LocateFinding(id: string, target: Option<Status>) returns (place: Option<Place>)
      requires Valid()
      ensures place == Locate(items, id, target)
    {
      hide Kept; hide Readable; hide FirstMatch;
      var matches: seq<Place> := [];
      for i := 0 to |items|
        invariant matches == Matches(items, i, id)
      {
        assert items[i] in items;
        var key := FindKey(items[i].book, id);
        if key.Some? {
          matches := matches + [(i, key.value)];
        }
      }
      if matches == [] {
        return None;
      }
      if target.Some? {
        var k := |matches|;
        assert matches[..k] == matches;
        while k > 0
          invariant 0 <= k <= |matches|
          invariant LastFit(items, matches, target.value) == LastFit(items, matches[..k], target.value)
        {
          k := k - 1;
          assert matches[..k + 1][..k] == matches[..k];
          if Fits(items, matches[k], target.value) {
            return Some(matches[k]);
          }
        }
      }
      return Some(matches[|matches| - 1]);
    }

    /** `review_finding` */
    method ReviewFinding(id: string, actor: Actor, action: Action, reason: Option<string>, comment: string)
      returns (fault: Option<Fault>)
      requires Valid()
      modifies this
      ensures Valid() && Answer(items, fault) == Apply(old(items), ReviewOp(id, actor, action, reason, comment))
    {
      AppliedKeeps(items, ReviewOp(id, actor, action, reason, comment));
      hide Kept; hide Readable; hide Review; hide Matches; hide LastFit;
      var place := LocateFinding(id, TargetOf(action));
      if place == None {
        return Some(NoFinding);
      }
      LocateInside(items, id, TargetOf(action));
      hide Locate;
      var (pid, key) := place.value;
      var record := items[pid];
      SameItem(items, pid);
      if record.state == Finalized {
        return Some(Frozen);
      }
      var updated := Review(record.book.at[key], actor, action, reason, comment);
      if updated.Refused? {
        return Some(updated.fault);
      }
      record := record.(book := Set(record.book, key, updated.value));
      record := Log(record, actor.name, "REVIEW");
      items := items[pid := record];
      if record.state == Ready {
        var step := Start(record, actor);
        SetTwice(old(items), pid, record, step.record);
        hide Start;
        items := items[pid := step.record];
        return step.fault;
      }
      return None;
    }

    /** `start_verification` */
    method StartVerification(pid: nat, actor: Actor) returns (fault: Option<Fault>)
      requires Valid()
      modifies this
      ensures Valid() && Answer(items, fault) == Apply(old(items), StartOp(pid, actor))
    {
      AppliedKeeps(items, StartOp(pid, actor));
      hide Kept; hide Readable; hide Start;
      if pid >= |items| {
        return Some(NoProcess);
      }
      var step := Start(items[pid], actor);
      items := items[pid := step.record];
      return step.fault;
    }

    /** `complete_verification` */
    method CompleteVerification(pid: nat, actor: Actor) returns (fault: Option<Fault>)
      requires Valid()
      modifies this
      ensures Valid() && Answer(items, fault) == Apply(old(items), CompleteOp(pid, actor))
    {
      AppliedKeeps(items, CompleteOp(pid, actor));
      hide Kept; hide Readable; hide Complete;
      if pid >= |items| {
        return Some(NoProcess);
      }
      var step := Complete(items[pid], actor);
      items := items[pid := step.record];
      return step.fault;
    }

    /** `finalize`: the record is written first and rolled back when the protocol cannot be stored. */
    method FinalizeProtocol(pid: nat, actor: Actor, stored: Option<string>) returns (fault: Option<Fault>)
      requires Valid()
      modifies this
      ensures Valid() && Answer(items, fault) == Apply(old(items), FinalizeOp(pid, actor, stored))
    {
      AppliedKeeps(items, FinalizeOp(pid, actor, stored));
      hide Kept; hide Readable; hide HasCandidate;
      if pid >= |items| {
        return Some(NoProcess);
      }
      var record := items[pid];
      SameItem(items, pid);
      var previousState, previousBy, previousId := record.state, record.finalizedBy, record.protocolId;
      var mark := |record.audit|;
      if !actor.human {
        return Some(NeedsHuman);
      }
      if HasCandidate(record.book) {
        return Some(Unprocessed);
      }
      if record.state != Completed {
        return Some(BadTransition);
      }
      record := Log(record.(state := Finalized), actor.name, "FINALIZE");
      record := record.(finalizedBy := Some(actor.name));
      items := items[pid := record];
      if stored == None {
        record := record.(state := previousState, finalizedBy := previousBy, protocolId := previousId);
        record := record.(audit := record.audit[..mark]);
        assert record == old(items)[pid];
        items := items[pid := record];
        return Some(StoreFailed);
      }
      SetTwice(old(items), pid, record, record.(protocolId := Some(stored.value)));
      record := record.(protocolId := Some(stored.value));
      items := items[pid := record];
      return None;
    }

    /** `unfinalize` */
    method CancelFinalization(pid: nat, actor: Actor, reason: string) returns (fault: Option<Fault>)
      requires Valid()
      modifies this
      ensures Valid() && Answer(items, fault) == Apply(old(items), UnfinalizeOp(pid, actor, reason))
    {
      AppliedKeeps(items, UnfinalizeOp(pid, actor, reason));
      hide Kept; hide Readable;
      if pid >= |items| {
        return Some(NoProcess);
      }
      var record := items[pid];
      SameItem(items, pid);
      if record.sync != NotRequested {
        return Some(SyncStarted);
      }
      if record.state != Finalized {
        return Some(BadTransition);
      }
      if !actor.human {
        return Some(NeedsHuman);
      }
      if reason == "" {
        return Some(NeedsReason);
      }
      record := Log(record.(state := Completed), actor.name, "UNFINALIZE");
      record := record.(finalizedBy := None);
      record := record.(protocolId := None);
      items := items[pid := record];
      return None;
    }

    /** `request_sync` */
    method RequestTransfer(pid: nat) returns (fault: Option<Fault>)
      requires Valid()
      modifies this
      ensures Valid() && Answer(items, fault) == Apply(old(items), SyncOp(pid))
    {
      AppliedKeeps(items, SyncOp(pid));
      hide Kept; hide Readable;
      if pid >= |items| {
        return Some(NoProcess);
      }
      var record := items[pid];
      SameItem(items, pid);
      if record.state != Finalized {
        return Some(BadTransition);
      }
      if record.sync == NotRequested {
        items := items[pid := record.(sync := PendingSync)];
        return None;
      }
      record := record.(attempts := record.attempts + 1);
      record := record.(sync := if record.attempts > SYNC_RETRIES then PendingSync else RetryWait);
      items := items[pid := record];
      return None;
    }

    /** `select_revision` */
    method SelectRevision(pid: nat, id: string, stamp: Option<Documents.Approval>, actor: Actor, comment: string,
                          report: Option<Report>)
      returns (fault: Option<Fault>)
      requires Valid() && FromMatrix(SelectOp(pid, id, stamp, actor, comment, report))
      modifies this
      ensures Valid() && Answer(items, fault) == Apply(old(items), SelectOp(pid, id, stamp, actor, comment, report))
    {
      AppliedKeeps(items, SelectOp(pid, id, stamp, actor, comment, report));
      hide Position; hide Recorded; hide WithStamp; hide Kept; hide Readable; hide MachineMade; hide HasDecision;
      if pid >= |items| {
        return Some(NoProcess);
      }
      var record := items[pid];
      SameItem(items, pid);
      if record.state == Finalized {
        return Some(Frozen);
      }
      if record.state != Ready && record.state != Verifying {
        return Some(WrongState);
      }
      if HasDecision(record.book) {
        return Some(HasDecisions);
      }
      var place := FindFile(record.files, id);
      if place == None {
        return Some(NoFile);
      }
      if stamp == None {
        return Some(NoContent);
      }
      record := record.(files := WithStamp(record.files, place.value, stamp.value));
      items := items[pid := record];
      var refusal := ChoiceFault(actor, comment, stamp.value);
      if refusal.Some? {
        return refusal;
      }
      record := Log(record.(selected := record.selected + {id}), actor.name, "SELECT_REVISION");
      SetTwice(old(items), pid, items[pid], record);
      items := items[pid := record];
      if report == None {
        return Some(RunFailed);
      }
      var files := RecordStamps(record.files, report.value.stamps);
      var book := FillFindings(report.value.findings);
      record := record.(files := files, book := book);
      record := Log(record, "system", "PIPELINE");
      SetTwice(old(items), pid, items[pid], record);
      items := items[pid := record];
      return None;
    }

    /** `confirm_candidates`: every finding is looked up and the whole batch checked before the first write. */
    method ConfirmFindings(pid: nat, ids: seq<string>, actor: Actor, comment: string) returns (fault: Option<Fault>)
      requires Valid()
      modifies this
      ensures Valid() && Answer(items, fault) == Apply(old(items), ConfirmOp(pid, ids, actor, comment))
    {
      AppliedKeeps(items, ConfirmOp(pid, ids, actor, comment));
      hide Kept; hide Readable; hide ConfirmBatch;
      if pid >= |items| {
        return Some(NoProcess);
      }
      RecordFacts(items, pid);
      var step := ConfirmEntries(items[pid], ids, actor, comment);
      items := items[pid := step.record];
      return step.fault;
    }
  }

  /** The body of `confirm_candidates` on one record. */
  method ConfirmEntries(record: Record, ids: seq<string>, actor: Actor, comment: string) returns (step: Step)
    requires Readable(record.book) && AllSigned(record.book)
    ensures step == ConfirmBatch(record, ids, actor, comment)
  {
    hide PickKeys; hide BatchFault; hide At; hide Start; hide WellFormed; hide AllSigned; hide SetEach; hide LogEach;
    hide ConfirmEach;
    if record.state == Finalized {
      return Step(record, Some(Frozen));
    }
    var picked := PickEntries(record.book, ids);
    if picked == None {
      return Step(record, Some(NoFinding));
    }
    var keys := picked.value;
    PickedKeys(record.book, ids);
    SignedEntries(record.book, keys);
    var updated := ConfirmCandidates(At(record.book, keys), actor, comment);
    if updated.Refused? {
      return Step(record, Some(updated.fault));
    }
    BatchLength(record.book, keys, actor, comment);
    var book, audit := WriteBatch(record.book, keys, updated.value, record.audit, actor.name);
    var signed := record.(book := book, audit := audit);
    if record.state == Ready {
      return Start(signed, actor);
    }
    return Step(signed, None);
  }

  lemma BatchLength(b: Book, keys: seq<string>, actor: Actor, comment: string)
    requires forall k | k in keys :: k in b.at
    ensures |ConfirmEach(At(b, keys), actor, comment)| == |At(b, keys)| == |keys|
  {
  }

  lemma AppliedKeeps(items: Items, op: Op)
    requires AllKept(items) && FromMatrix(op)
    ensures AllReadable(items) && AllKept(Apply(items, op).items) && AllReadable(Apply(items, op).items)
  {
    ApplyKeeps(items, op);
    hide Apply;
    AllKeptReadable(Apply(items, op).items);
  }

  lemma SetTwice(items: Items, i: nat, a: Record, b: Record)
    requires i < |items|
    ensures items[i := a][i := b] == items[i := b]
  {
  }

  lemma RecordFacts(items: Items, pid: nat)
    requires AllKept(items) && pid < |items|
    ensures Readable(items[pid].book) && AllSigned(items[pid].book)
            && forall k | k in items[pid].book.order :: k in items[pid].book.at
  {
    MemberKept(items, pid);
    KeptIsReadable(items[pid]);
  }

  lemma SignedEntries(b: Book, keys: seq<string>)
    requires AllSigned(b) && forall k | k in keys :: k in b.at
    ensures forall f | f in At(b, keys) :: WellFormed(f)
  {
    forall f | f in At(b, keys) ensures WellFormed(f) {
      var i :| 0 <= i < |keys| && At(b, keys)[i] == f;
      assert keys[i] in keys;
    }
  }

  method FindKey(b: Book, id: string) returns (key: Option<string>)
    requires Readable(b)
    ensures key == FirstMatch(b, id, |b.order|)
  {
    for i := 0 to |b.order|
      invariant FirstMatch(b, id, i) == None
    {
      assert b.order[i] in b.order;
      if b.at[b.order[i]].id == id || b.order[i] == id {
        MatchStays(b, id, i + 1, |b.order|);
        return Some(b.order[i]);
      }
    }
    return None;
  }

  lemma {:induction false} MatchStays(b: Book, id: string, m: nat, n: nat)
    requires Readable(b) && m <= n <= |b.order| && FirstMatch(b, id, m).Some?
    ensures FirstMatch(b, id, n) == FirstMatch(b, id, m)
  {
    if m < n {
      MatchStays(b, id, m, n - 1);
    }
  }

  method PutFindings(b: Book, fs: seq<Finding>) returns (book: Book)
    ensures book == PutAll(b, fs)
  {
    hide Carry; hide KeyOf;
    book := b;
    for i := 0 to |fs|
      invariant book == PutAll(b, fs[..i])
    {
      assert fs[..i + 1][..i] == fs[..i];
      var key := KeyOf(fs[i]);
      var finding := fs[i];
      if key in book.at {
        finding := Carry(book.at[key], finding);
      }
      book := Set(book, key, finding);
    }
    assert fs[..|fs|] == fs;
  }

  method FillFindings(fs: seq<Finding>) returns (book: Book)
    ensures book == Fill(fs)
  {
    hide KeyOf;
    book := Book([], map[]);
    for i := 0 to |fs|
      invariant book == Fill(fs[..i])
    {
      assert fs[..i + 1][..i] == fs[..i];
      book := Set(book, KeyOf(fs[i]), fs[i]);
    }
    assert fs[..|fs|] == fs;
  }

  method PickEntries(b: Book, ids: seq<string>) returns (keys: Option<seq<string>>)
    requires Readable(b)
    ensures keys == PickKeys(b, ids)
  {
    hide FirstMatch;
    var picked: seq<string> := [];
    for i := 0 to |ids|
      invariant PickKeys(b, ids[..i]) == Some(picked)
    {
      assert ids[..i + 1][..i] == ids[..i];
      var key := FindKey(b, ids[i]);
      if key == None {
        PickStops(b, ids, i + 1);
        return None;
      }
      picked := picked + [key.value];
    }
    assert ids[..|ids|] == ids;
    return Some(picked);
  }

  lemma {:induction false} PickStops(b: Book, ids: seq<string>, n: nat)
    requires Readable(b) && n <= |ids| && PickKeys(b, ids[..n]) == None
    ensures PickKeys(b, ids) == None
  {
    if n < |ids| {
      assert ids[..|ids| - 1][..n] == ids[..n];
      PickStops(b, ids[..|ids| - 1], n);
    } else {
      assert ids[..n] == ids;
    }
  }

  method WriteBatch(b: Book, keys: seq<string>, fs: seq<Finding>, log: seq<Event>, actor: string)
    returns (book: Book, audit: seq<Event>)
    requires |keys| == |fs|
    ensures book == SetEach(b, keys, fs) && audit == LogEach(log, actor, |fs|)
  {
    book, audit := b, log;
    for i := 0 to |keys|
      invariant book == SetEach(b, keys[..i], fs[..i]) && audit == LogEach(log, actor, i)
    {
      assert keys[..i + 1][..i] == keys[..i] && fs[..i + 1][..i] == fs[..i];
      book := Set(book, keys[i], fs[i]);
      audit := audit + [Event(actor, "REVIEW")];
    }
    assert keys[..|keys|] == keys && fs[..|fs|] == fs;
  }
}
