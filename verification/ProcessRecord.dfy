/** One process (application/runtime.py, domain/state_machines.py): its state, findings, decisions and
    transfer, and what each operation makes of it. The store is a reply of the operation. */
module ProcessRecord {
  import opened Options
  import opened Findings
  import opened StoredFiles
  import Documents

  datatype State = Pending | Parsing | Ready | Verifying | Completed | Finalized

  datatype Sync = NotRequested | PendingSync | Syncing | Synced | RetryWait | FailedTerminal

  datatype Event = Event(actor: string, action: string)

  datatype Record = Record(
    state: State, sync: Sync, attempts: nat, parses: nat, book: Book,
    finalizedBy: Option<string>, protocolId: Option<string>, files: seq<StoredFile>, selected: set<string>,
    audit: seq<Event>)

  /** What a run of the matrix reports: findings, the documents it took out of zips, the stamps it read. */
  datatype Report = Report(
    findings: seq<Finding>, expanded: seq<StoredFile>, stamps: map<string, Documents.Approval>)

  datatype Step = Step(record: Record, fault: Option<Fault>)

  // ----- the invariant --------------------------------------------------------------------------------------

  predicate HasCandidate(b: Book) {
    exists k :: k in b.at && b.at[k].status == Candidate
  }

  ghost predicate AllSigned(b: Book) {
    forall k | k in b.at :: WellFormed(b.at[k]) && HumanSigned(b.at[k]) && KeyOf(b.at[k]) == k
  }

  /** What every reachable record satisfies. */
  ghost predicate Kept(r: Record) {
    && Sound(r.book) && AllSigned(r.book)
    && (r.state == Completed || r.state == Finalized ==> !HasCandidate(r.book))
    && (r.sync != NotRequested ==> r.state == Finalized)
    && (r.state == Finalized <==> r.finalizedBy.Some?)
    && (r.state == Finalized <==> r.protocolId.Some?)
  }

  // ----- state machine ---------------------------------------------------------------------------------------

  /** `advance_process`: entries that need an actor are not among its targets. */
  predicate MayAdvance(current: State, target: State) {
    match current
    case Pending => target == Parsing
    case Parsing => target == Ready || target == Pending
    case Ready => target == Parsing
    case Verifying => target == Parsing
    case Completed => target == Parsing
    case Finalized => false
  }

  function Advance(r: Record, target: State): Step {
    if MayAdvance(r.state, target) then Step(r.(state := target), None) else Step(r, Some(BadTransition))
  }

  function Log(r: Record, actor: string, action: string): Record {
    r.(audit := r.audit + [Event(actor, action)])
  }

  /** `start_verification` */
  function Start(r: Record, actor: Actor): Step {
    if !actor.human then Step(r, Some(NeedsHuman))
    else if r.state != Ready then Step(r, Some(BadTransition))
    else Step(Log(r.(state := Verifying), actor.name, "START_VERIFICATION"), None)
  }

  /** `complete_verification` */
  function Complete(r: Record, actor: Actor): Step {
    if !actor.human then Step(r, Some(NeedsHuman))
    else if HasCandidate(r.book) then Step(r, Some(Unprocessed))
    else if r.state != Verifying then Step(r, Some(BadTransition))
    else Step(Log(r.(state := Completed), actor.name, "COMPLETE_VERIFICATION"), None)
  }

  /** `finalize`; `stored` is the protocol id, or nothing when the store or the assembly failed. */
  function Finalize(r: Record, actor: Actor, stored: Option<string>): Step {
    if !actor.human then Step(r, Some(NeedsHuman))
    else if HasCandidate(r.book) then Step(r, Some(Unprocessed))
    else if r.state != Completed then Step(r, Some(BadTransition))
    else match stored
      case None => Step(r, Some(StoreFailed))
      case Some(id) =>
        var closed := r.(state := Finalized, finalizedBy := Some(actor.name), protocolId := Some(id));
        Step(Log(closed, actor.name, "FINALIZE"), None)
  }

  /** `unfinalize` */
  function Unfinalize(r: Record, actor: Actor, reason: string): Step {
    if r.sync != NotRequested then Step(r, Some(SyncStarted))
    else if r.state != Finalized then Step(r, Some(BadTransition))
    else if !actor.human then Step(r, Some(NeedsHuman))
    else if reason == "" then Step(r, Some(NeedsReason))
    else Step(Log(r.(state := Completed), actor.name, "UNFINALIZE").(finalizedBy := None, protocolId := None), None)
  }

  const SYNC_RETRIES := 3

  /** `request_sync` */
  function RequestSync(r: Record): Step {
    if r.state != Finalized then Step(r, Some(BadTransition))
    else if r.sync == NotRequested then Step(r.(sync := PendingSync), None)
    else
      var attempts := r.attempts + 1;
      Step(r.(attempts := attempts, sync := if attempts > SYNC_RETRIES then PendingSync else RetryWait), None)
  }

  /** `reopen_for_upload` */
  function Reopen(r: Record): Step {
    if r.state == Finalized then Step(r, Some(Frozen))
    else if r.state == Parsing then Step(r, None)
    else Advance(r, Parsing)
  }

  /** `_run_scheduled` with the report of the matrix, or nothing when the run failed. */
  function RunScheduled(r: Record, report: Option<Report>): Step {
    if r.state != Parsing then Step(r, None)
    else match report
      case None => Step(Log(r, "system", "PIPELINE_FAILED"), Some(RunFailed))
      case Some(done) =>
        var files := Recorded(Appended(r.files, done.expanded), done.stamps);
        var run := r.(files := files, book := PutAll(r.book, done.findings), parses := r.parses + 1);
        Step(Log(run, "system", "PIPELINE").(state := Ready), None)
  }

  /** `attach_file` */
  function Attach(r: Record, f: StoredFile): Step {
    Step(r.(files := Attached(r.files, f.(stamp := Documents.Unknown))), None)
  }

  predicate HasDecision(b: Book) {
    exists k :: k in b.at && b.at[k].decision.Some?
  }

  /** The checks of `select_revision_as_etalon`. */
  function ChoiceFault(actor: Actor, comment: string, stamp: Documents.Approval): Option<Fault> {
    if !actor.human then Some(NeedsHuman)
    else if comment == "" then Some(NeedsComment)
    else if stamp == Documents.NotApproved then Some(RefusedStamp)
    else None
  }

  /** `select_revision`; `stamp` is what reading the content of the file gives, or nothing without a content. The
      stamp read is written before the choice is checked. */
  function Select(r: Record, file: string, stamp: Option<Documents.Approval>, actor: Actor, comment: string,
                  report: Option<Report>): Step {
    if r.state == Finalized then Step(r, Some(Frozen))
    else if r.state != Ready && r.state != Verifying then Step(r, Some(WrongState))
    else if HasDecision(r.book) then Step(r, Some(HasDecisions))
    else
      var place := Position(r.files, file);
      if place == None then Step(r, Some(NoFile))
      else if stamp == None then Step(r, Some(NoContent))
      else
        var read := r.(files := WithStamp(r.files, place.value, stamp.value));
        if ChoiceFault(actor, comment, stamp.value).Some? then Step(read, ChoiceFault(actor, comment, stamp.value))
        else
          var chosen := Log(read.(selected := r.selected + {file}), actor.name, "SELECT_REVISION");
          match report
          case None => Step(chosen, Some(RunFailed))
          case Some(done) =>
            var run := chosen.(files := Recorded(chosen.files, done.stamps), book := Fill(done.findings));
            Step(Log(run, "system", "PIPELINE"), None)
  }

  /** `review_finding` once the entry is located. */
  function ReviewAt(r: Record, key: string, actor: Actor, action: Action, reason: Option<string>, comment: string): Step
    requires key in r.book.at
  {
    if r.state == Finalized then Step(r, Some(Frozen))
    else match Review(r.book.at[key], actor, action, reason, comment)
      case Refused(fault) => Step(r, Some(fault))
      case Ok(updated) =>
        var signed := Log(r.(book := Set(r.book, key, updated)), actor.name, "REVIEW");
        if r.state == Ready then Start(signed, actor) else Step(signed, None)
  }

  /** The entries a batch names, in the order of the batch. */
  function PickKeys(b: Book, ids: seq<string>): Option<seq<string>>
    requires forall k | k in b.order :: k in b.at
  {
    if ids == [] then Some([])
    else
      var before := PickKeys(b, ids[..|ids| - 1]);
      var key := FirstMatch(b, ids[|ids| - 1], |b.order|);
      if before.Some? && key.Some? then Some(before.value + [key.value]) else None
  }

  function At(b: Book, keys: seq<string>): seq<Finding>
    requires forall k | k in keys :: k in b.at
  {
    seq(|keys|, i requires 0 <= i < |keys| => assert keys[i] in keys; b.at[keys[i]])
  }

  function SetEach(b: Book, keys: seq<string>, fs: seq<Finding>): Book
    requires |keys| == |fs|
  {
    if keys == [] then b
    else Set(SetEach(b, keys[..|keys| - 1], fs[..|fs| - 1]), keys[|keys| - 1], fs[|fs| - 1])
  }

  function LogEach(audit: seq<Event>, actor: string, n: nat): seq<Event> {
    if n == 0 then audit else LogEach(audit, actor, n - 1) + [Event(actor, "REVIEW")]
  }

  lemma {:induction false} MatchInOrder(b: Book, id: string, n: nat)
    requires n <= |b.order| && forall k | k in b.order :: k in b.at
    ensures var m := FirstMatch(b, id, n);
            && (m.Some? ==> m.value in b.order && (b.at[m.value].id == id || m.value == id))
            && (m == None ==> forall i | 0 <= i < n :: b.at[b.order[i]].id != id && b.order[i] != id)
  {
    if n > 0 {
      MatchInOrder(b, id, n - 1);
    }
  }

  lemma {:induction false} PickedKeys(b: Book, ids: seq<string>)
    requires forall k | k in b.order :: k in b.at
    ensures var p := PickKeys(b, ids); p.Some? ==> |p.value| == |ids| && forall k | k in p.value :: k in b.order
  {
    if ids != [] {
      PickedKeys(b, ids[..|ids| - 1]);
      MatchInOrder(b, ids[|ids| - 1], |b.order|);
    }
  }

  /** `confirm_candidates` of the workspace. */
  function ConfirmBatch(r: Record, ids: seq<string>, actor: Actor, comment: string): Step
    requires forall k | k in r.book.order :: k in r.book.at
  {
    if r.state == Finalized then Step(r, Some(Frozen))
    else
      var picked := PickKeys(r.book, ids);
      PickedKeys(r.book, ids);
      if picked == None then Step(r, Some(NoFinding))
      else
        var fs := At(r.book, picked.value);
        if BatchFault(fs, actor).Some? then Step(r, BatchFault(fs, actor))
        else if comment == "" then Step(r, Some(NeedsComment))
        else
          var signed := r.(book := SetEach(r.book, picked.value, ConfirmEach(fs, actor, comment)),
                           audit := LogEach(r.audit, actor.name, |fs|));
          if r.state == Ready then Start(signed, actor) else Step(signed, None)
  }

  // ----- what every operation keeps -----------------------------------------------------------------------

  lemma SetKeeps(b: Book, key: string, f: Finding)
    requires Sound(b) && AllSigned(b) && WellFormed(f) && HumanSigned(f) && KeyOf(f) == key
    ensures Sound(Set(b, key, f)) && AllSigned(Set(b, key, f))
    ensures f.status != Candidate && !HasCandidate(b) ==> !HasCandidate(Set(b, key, f))
  {
    SetSound(b, key, f);
    hide Sound; hide WellFormed; hide HumanSigned; hide KeyOf;
  }

  lemma PutKeeps(b: Book, f: Finding)
    requires Sound(b) && AllSigned(b) && MachineMade(f)
    ensures Sound(Put(b, f)) && AllSigned(Put(b, f))
  {
    var key := KeyOf(f);
    assert HumanSigned(f);
    hide Sound; hide Carry; hide Set;
    if key in b.at {
      CarryExactly(b.at[key], f);
      SetKeeps(b, key, Carry(b.at[key], f));
    } else {
      SetKeeps(b, key, f);
    }
  }

  lemma {:induction false} PutAllKeeps(b: Book, fs: seq<Finding>)
    requires Sound(b) && AllSigned(b) && forall f | f in fs :: MachineMade(f)
    ensures Sound(PutAll(b, fs)) && AllSigned(PutAll(b, fs))
  {
    hide Sound; hide AllSigned; hide Put; hide MachineMade;
    if fs != [] {
      PutAllKeeps(b, fs[..|fs| - 1]);
      PutKeeps(PutAll(b, fs[..|fs| - 1]), fs[|fs| - 1]);
    }
  }

  lemma {:induction false} FillKeeps(fs: seq<Finding>)
    requires forall f | f in fs :: MachineMade(f)
    ensures Sound(Fill(fs)) && AllSigned(Fill(fs))
  {
    if fs != [] {
      var init, last := fs[..|fs| - 1], fs[|fs| - 1];
      FillKeeps(init);
      assert MachineMade(last) && HumanSigned(last);
      hide Sound; hide AllSigned; hide Set; hide Fill;
      FillSnoc(fs);
      SetKeeps(Fill(init), KeyOf(last), last);
    }
  }

  lemma FillSnoc(fs: seq<Finding>)
    requires fs != []
    ensures Fill(fs) == Set(Fill(fs[..|fs| - 1]), KeyOf(fs[|fs| - 1]), fs[|fs| - 1])
  {
  }

  lemma StartKeeps(r: Record, actor: Actor)
    requires Kept(r)
    ensures Kept(Start(r, actor).record)
  {
  }

  lemma CompleteKeeps(r: Record, actor: Actor)
    requires Kept(r)
    ensures Kept(Complete(r, actor).record)
  {
  }

  lemma FinalizeKeeps(r: Record, actor: Actor, stored: Option<string>)
    requires Kept(r)
    ensures Kept(Finalize(r, actor, stored).record)
  {
    hide HasCandidate; hide Sound; hide AllSigned;
  }

  lemma UnfinalizeKeeps(r: Record, actor: Actor, reason: string)
    requires Kept(r)
    ensures Kept(Unfinalize(r, actor, reason).record)
  {
    hide HasCandidate; hide Sound; hide AllSigned;
  }

  lemma SyncKeeps(r: Record)
    requires Kept(r)
    ensures Kept(RequestSync(r).record)
  {
    hide HasCandidate; hide Sound; hide AllSigned;
  }

  lemma ReopenKeeps(r: Record)
    requires Kept(r)
    ensures Kept(Reopen(r).record)
  {
    hide HasCandidate; hide Sound; hide AllSigned;
  }

  lemma RunKeeps(r: Record, report: Option<Report>)
    requires Kept(r) && (report.Some? ==> forall f | f in report.value.findings :: MachineMade(f))
    ensures Kept(RunScheduled(r, report).record)
  {
    if report.Some? {
      PutAllKeeps(r.book, report.value.findings);
    }
    hide Appended; hide Recorded; hide HasCandidate; hide Sound; hide AllSigned; hide PutAll; hide MachineMade;
  }

  lemma AttachKeeps(r: Record, f: StoredFile)
    requires Kept(r)
    ensures Kept(Attach(r, f).record)
  {
    hide Attached; hide HasCandidate; hide Sound; hide AllSigned;
  }

  lemma SelectKeeps(r: Record, file: string, stamp: Option<Documents.Approval>, actor: Actor, comment: string,
                    report: Option<Report>)
    requires Kept(r) && (report.Some? ==> forall f | f in report.value.findings :: MachineMade(f))
    ensures Kept(Select(r, file, stamp, actor, comment, report).record)
  {
    if report.Some? {
      FillKeeps(report.value.findings);
    }
    hide Position; hide Recorded; hide WithStamp; hide HasCandidate; hide Sound; hide AllSigned;
    hide Fill; hide MachineMade; hide HasDecision;
  }

  lemma ReviewKeeps(r: Record, key: string, actor: Actor, action: Action, reason: Option<string>, comment: string)
    requires Kept(r) && key in r.book.at
    ensures Kept(ReviewAt(r, key, actor, action, reason, comment).record)
  {
    hide HasCandidate; hide Sound; hide AllSigned; hide Review; hide KeyOf; hide Set; hide WellFormed; hide HumanSigned;
    var f := r.book.at[key];
    EntrySigned(r.book, key);
    if Review(f, actor, action, reason, comment).Ok? {
      var updated := Review(f, actor, action, reason, comment).value;
      ReviewSigns(f, actor, action, reason, comment);
      SameKey(f, updated);
      SetKeeps(r.book, key, updated);
    }
  }

  lemma EntrySigned(b: Book, key: string)
    requires AllSigned(b) && key in b.at
    ensures WellFormed(b.at[key]) && HumanSigned(b.at[key]) && KeyOf(b.at[key]) == key
  {
  }

  lemma SameKey(f: Finding, g: Finding)
    requires g.(status := f.status, decision := f.decision) == f
    ensures KeyOf(g) == KeyOf(f)
  {
  }

  lemma {:induction false} SetEachKeeps(b: Book, keys: seq<string>, fs: seq<Finding>)
    requires Sound(b) && AllSigned(b) && |keys| == |fs|
    requires forall i | 0 <= i < |fs| ::
               WellFormed(fs[i]) && HumanSigned(fs[i]) && KeyOf(fs[i]) == keys[i] && fs[i].status != Candidate
    ensures Sound(SetEach(b, keys, fs)) && AllSigned(SetEach(b, keys, fs))
    ensures !HasCandidate(b) ==> !HasCandidate(SetEach(b, keys, fs))
  {
    hide HasCandidate; hide Sound; hide AllSigned; hide Set; hide WellFormed; hide HumanSigned; hide KeyOf;
    if keys != [] {
      SetEachKeeps(b, keys[..|keys| - 1], fs[..|fs| - 1]);
      SetKeeps(SetEach(b, keys[..|keys| - 1], fs[..|fs| - 1]), keys[|keys| - 1], fs[|fs| - 1]);
    }
  }

  lemma BatchSigned(b: Book, keys: seq<string>, actor: Actor, comment: string)
    requires AllSigned(b) && comment != "" && (forall k | k in keys :: k in b.at)
    requires BatchFault(At(b, keys), actor) == None
    ensures var fs := ConfirmEach(At(b, keys), actor, comment);
            && |fs| == |keys|
            && forall i | 0 <= i < |fs| ::
                 WellFormed(fs[i]) && HumanSigned(fs[i]) && KeyOf(fs[i]) == keys[i] && fs[i].status != Candidate
  {
    var found := At(b, keys);
    forall i | 0 <= i < |keys|
      ensures var f := Confirmed(found[i], actor, comment);
              WellFormed(f) && HumanSigned(f) && KeyOf(f) == keys[i] && f.status != Candidate
    {
      assert keys[i] in keys && found[i] in found && found[i] == b.at[keys[i]];
    }
    hide WellFormed; hide HumanSigned; hide KeyOf; hide Confirmed;
  }

  lemma SoundOrder(b: Book)
    requires Sound(b)
    ensures forall k | k in b.order :: k in b.at
  {
  }

  lemma ConfirmKeeps(r: Record, ids: seq<string>, actor: Actor, comment: string)
    requires Kept(r)
    ensures forall k | k in r.book.order :: k in r.book.at
    ensures Kept(ConfirmBatch(r, ids, actor, comment).record)
  {
    hide Sound; hide AllSigned; hide HasCandidate; hide WellFormed; hide HumanSigned; hide KeyOf; hide BatchFault;
    hide SetEach; hide PickKeys; hide At; hide ConfirmEach;
    SoundOrder(r.book);
    PickedKeys(r.book, ids);
    var picked := PickKeys(r.book, ids);
    if picked.Some? {
      var fs := At(r.book, picked.value);
      if BatchFault(fs, actor) == None && comment != "" {
        BatchSigned(r.book, picked.value, actor, comment);
        SetEachKeeps(r.book, picked.value, ConfirmEach(fs, actor, comment));
      }
    }
  }
}
