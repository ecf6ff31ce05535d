/** Properties of whole runs of the workspace, from its creation. */
module WorkspaceRuns {
  import opened Options
  import opened Findings
  import opened ProcessRecord
  import opened StoredFiles
  import opened Workspace
  import Documents

  ghost predicate Scripted(ops: seq<Op>) {
    forall op | op in ops :: FromMatrix(op)
  }

  ghost function RunFrom(items: Items, ops: seq<Op>): (r: Items)
    requires AllKept(items) && Scripted(ops)
    ensures AllKept(r)
    decreases |ops|
  {
    if ops == [] then items
    else
      ApplyKeeps(items, ops[0]);
      RunFrom(Apply(items, ops[0]).items, ops[1..])
  }

  /** A closed queue has no candidate, whatever led there. */
  lemma ClosedQueueIsEmpty(ops: seq<Op>, i: nat)
    requires Scripted(ops) && i < |RunFrom([], ops)|
    requires RunFrom([], ops)[i].state == Completed || RunFrom([], ops)[i].state == Finalized
    ensures forall k | k in RunFrom([], ops)[i].book.at :: RunFrom([], ops)[i].book.at[k].status != Candidate
  {
    MemberKept(RunFrom([], ops), i);
    hide RunFrom; hide Sound; hide AllSigned;
  }

  /** In every reachable workspace, across re-runs that carry decisions over, each confirmed violation and
      each negative was decided by a human, by the right action, with a comment, and with a reason for a
      rejection. */
  lemma HumansDecide(ops: seq<Op>, i: nat, key: string)
    requires Scripted(ops) && i < |RunFrom([], ops)| && key in RunFrom([], ops)[i].book.at
    ensures var f := RunFrom([], ops)[i].book.at[key];
            HumanOnly(f.status) ==>
              && f.decision.Some? && f.decision.value.byHuman && f.decision.value.comment != ""
              && f.decision.value.action == (if f.status == ConfirmedViolation then Confirm else Reject)
              && (f.status == NegativeVerified ==> f.decision.value.reason.Some?)
  {
    MemberKept(RunFrom([], ops), i);
    hide RunFrom; hide HasCandidate;
  }

  /** A transfer is under way only for a finalized protocol, and exactly those are signed and numbered. */
  lemma TransferNeedsFinal(ops: seq<Op>, i: nat)
    requires Scripted(ops) && i < |RunFrom([], ops)|
    ensures var r := RunFrom([], ops)[i];
            && (r.sync != NotRequested ==> r.state == Finalized)
            && (r.finalizedBy.Some? <==> r.state == Finalized)
            && (r.protocolId.Some? <==> r.state == Finalized)
  {
    MemberKept(RunFrom([], ops), i);
    hide RunFrom; hide HasCandidate; hide Sound; hide AllSigned;
  }

  // ----- after the transfer was requested ------------------------------------------------------------------

  predicate SameProtocol(a: Record, b: Record) {
    a.state == b.state && a.book == b.book && a.finalizedBy == b.finalizedBy && a.protocolId == b.protocolId
  }

  predicate Sent(r: Record) {
    r.sync != NotRequested && r.state == Finalized
  }

  lemma SentStep(r: Record, op: Op)
    requires Sent(r) && Readable(r.book) && !op.Create? && !op.ReviewOp?
    ensures Sent(StepOf(r, op).record) && SameProtocol(r, StepOf(r, op).record)
  {
    hide HasCandidate; hide Readable;
  }

  lemma SentApply(items: Items, op: Op, i: nat)
    requires AllKept(items) && AllReadable(items) && i < |items| && Sent(items[i])
    ensures var after := Apply(items, op).items;
            i < |after| && Sent(after[i]) && SameProtocol(items[i], after[i])
  {
    hide StepOf; hide Kept; hide Locate; hide Sent; hide SameProtocol;
    SameAsItself(items[i]);
    match op {
      case Create =>
      case ReviewOp(finding, actor, action, reason, comment) =>
        var place := Locate(items, finding, TargetOf(action));
        if place.Some? {
          LocateInside(items, finding, TargetOf(action));
          if place.value.0 == i {
            SentReview(items[i], place.value.1, actor, action, reason, comment);
          }
        }
      case _ =>
        if op.pid == i {
          assert items[i] in items;
          SentStep(items[i], op);
        }
    }
  }

  lemma SameAsItself(r: Record)
    ensures SameProtocol(r, r)
  {
  }

  lemma SentReview(r: Record, key: string, actor: Actor, action: Action, reason: Option<string>, comment: string)
    requires Sent(r) && key in r.book.at
    ensures ReviewAt(r, key, actor, action, reason, comment) == Step(r, Some(Frozen))
  {
  }

  /** Once a transfer has been requested the process stays finalized through every later run, and its
      findings, its signature and its protocol never change again. */
  lemma {:induction false} SentForever(items: Items, ops: seq<Op>, i: nat)
    requires AllKept(items) && Scripted(ops) && i < |items| && items[i].sync != NotRequested
    ensures var after := RunFrom(items, ops);
            i < |after| && Sent(after[i]) && SameProtocol(items[i], after[i])
    decreases |ops|
  {
    MemberKept(items, i);
    assert Sent(items[i]);
    hide Kept; hide AllKept; hide Apply; hide FromMatrix;
    SameAsItself(items[i]);
    if ops != [] {
      ApplyKeeps(items, ops[0]);
      SentApply(items, ops[0], i);
      SentForever(Apply(items, ops[0]).items, ops[1..], i);
    }
  }

  // ----- refusals ----------------------------------------------------------------------------------------------

  /** The file of a choice is there and its stamp is read. */
  predicate ReadsStamp(r: Record, id: string, stamp: Option<Documents.Approval>) {
    && (r.state == Ready || r.state == Verifying) && !HasDecision(r.book)
    && Position(r.files, id).Some? && stamp.Some?
  }

  /** A scheduled run that is going to fail; an admissible choice of a revision whose run is going to fail; or a choice
      refused for its actor, comment or stamp, when the stamp read is not the one kept. */
  predicate StepTraces(r: Record, op: Op) {
    match op
    case RunOp(_, report) => r.state == Parsing && report == None
    case SelectOp(_, id, stamp, actor, comment, report) =>
      && ReadsStamp(r, id, stamp)
      && if ChoiceFault(actor, comment, stamp.value) == None then report == None
         else r.files[Position(r.files, id).value].stamp != stamp.value
    case _ => false
  }

  /** What can be checked before the call: one of those, or a review by a machine that would open the queue. */
  predicate LeavesTrace(items: Items, op: Op)
    requires AllReadable(items)
  {
    match op
    case Create => false
    case ReviewOp(finding, actor, action, reason, comment) =>
      var place := Locate(items, finding, TargetOf(action));
      && !actor.human && place.Some? && Inside(items, place.value)
      && items[place.value.0].state == Ready
      && Review(items[place.value.0].book.at[place.value.1], actor, action, reason, comment).Ok?
    case _ => op.pid < |items| && StepTraces(items[op.pid], op)
  }

  lemma RefusedStep(r: Record, op: Op)
    requires Readable(r.book) && !op.Create? && !op.ReviewOp? && StepOf(r, op).fault.Some?
    ensures StepOf(r, op).record == r <==> !StepTraces(r, op)
  {
    hide HasCandidate; hide Readable; hide PickKeys; hide HasDecision;
    assert |(r.audit + [Event("system", "PIPELINE_FAILED")])| != |r.audit|;
  }

  lemma RefusedReview(r: Record, key: string, op: Op)
    requires op.ReviewOp? && key in r.book.at
    requires ReviewAt(r, key, op.actor, op.action, op.reason, op.comment).fault.Some?
    ensures ReviewAt(r, key, op.actor, op.action, op.reason, op.comment).record == r <==>
            !(!op.actor.human && r.state == Ready
              && Review(r.book.at[key], op.actor, op.action, op.reason, op.comment).Ok?)
  {
    hide Review; hide Set;
    assert |(r.audit + [Event(op.actor.name, "REVIEW")])| != |r.audit|;
  }

  lemma SameItemOnly(items: Items, i: nat, r: Record)
    requires i < |items|
    ensures items[i := r] == items <==> r == items[i]
  {
    if items[i := r] == items {
      assert items[i := r][i] == r;
    }
  }

  /** A refused operation, a failed finalization included, leaves everything as it was exactly when it is none
      of those. */
  lemma RefusalsChangeNothing(items: Items, op: Op)
    requires AllReadable(items) && Apply(items, op).fault.Some?
    ensures Apply(items, op).items == items <==> !LeavesTrace(items, op)
  {
    hide StepOf; hide Locate; hide Review; hide ReviewAt; hide HasDecision;
    match op {
      case Create =>
      case ReviewOp(finding, actor, action, reason, comment) =>
        var place := Locate(items, finding, TargetOf(action));
        if place.Some? {
          LocateInside(items, finding, TargetOf(action));
          var (pid, key) := place.value;
          RefusedReview(items[pid], key, op);
          SameItemOnly(items, pid, ReviewAt(items[pid], key, actor, action, reason, comment).record);
        }
      case _ =>
        if op.pid < |items| {
          assert items[op.pid] in items;
          RefusedStep(items[op.pid], op);
          SameItemOnly(items, op.pid, StepOf(items[op.pid], op).record);
        }
    }
  }

  /** The machine's review does leave its trace: the finding is already decided when the call is refused. */
  lemma MachineReviewLeavesTrace(items: Items, op: Op)
    requires AllReadable(items) && op.ReviewOp? && LeavesTrace(items, op)
    ensures var place := Locate(items, op.finding, TargetOf(op.action)).value;
            && Apply(items, op).fault == Some(NeedsHuman)
            && Apply(items, op).items[place.0].state == Ready
            && Apply(items, op).items[place.0].book.at[place.1].status == ClarificationRequired
            && items[place.0].book.at[place.1].status == Candidate
  {
    hide Locate;
  }

  /** A choice refused for its actor, comment or stamp has replaced the stamp of its file and nothing else. */
  lemma RefusedChoiceKeepsOnlyStamp(items: Items, op: Op)
    requires AllReadable(items) && op.SelectOp? && op.pid < |items|
    requires Apply(items, op).fault in {Some(NeedsHuman), Some(NeedsComment), Some(RefusedStamp)}
    ensures var r := items[op.pid];
            && ReadsStamp(r, op.id, op.stamp)
            && Apply(items, op).items
               == items[op.pid := r.(files := WithStamp(r.files, Position(r.files, op.id).value, op.stamp.value))]
  {
    hide HasDecision; hide Position; hide WithStamp; hide Recorded; hide Fill; hide Readable;
    assert items[op.pid] in items;
  }

  /** A READY process with one approved text document, whose bytes read as a drawing give no stamp. */
  function TextProcess(): Record {
    var text := StoredFile("text", "hash", Documents.RD, Documents.Approved);
    NewRecord().(state := Ready, files := [text])
  }

  /** Chosen with a blank comment, the document loses its recorded approval although the call is refused. */
  lemma RefusedChoiceForgetsStamp(actor: Actor, report: Option<Report>)
    requires actor.human
    ensures var op := SelectOp(0, "text", Some(Documents.Unknown), actor, "", report);
            && AllReadable([TextProcess()])
            && Apply([TextProcess()], op).fault == Some(NeedsComment)
            && Apply([TextProcess()], op).items != [TextProcess()]
            && Apply([TextProcess()], op).items[0].files[0].stamp == Documents.Unknown
  {
    var r := TextProcess();
    assert Position(r.files, "text") == Some(0) by {
      assert r.files[..0] == [];
    }
    var op := SelectOp(0, "text", Some(Documents.Unknown), actor, "", report);
    var after := r.(files := WithStamp(r.files, 0, Documents.Unknown));
    assert Apply([r], op).items == [after];
    assert r.files[0].stamp != after.files[0].stamp;
  }

  // ----- what an accepted decision touches -------------------------------------------------------------------

  /** An accepted review decides the located finding and opens a ready queue; no other finding, process or
      key is touched. */
  lemma ReviewTouchesOne(items: Items, op: Op)
    requires AllReadable(items) && op.ReviewOp? && Apply(items, op).fault == None
    ensures var after := Apply(items, op).items;
            var p := Locate(items, op.finding, TargetOf(op.action)).value;
            && Locate(items, op.finding, TargetOf(op.action)).Some? && Inside(items, p) && |after| == |items|
            && (forall i | 0 <= i < |items| && i != p.0 :: after[i] == items[i])
            && after[p.0].book.order == items[p.0].book.order
            && (forall k | k in items[p.0].book.at && k != p.1 ::
                  k in after[p.0].book.at && after[p.0].book.at[k] == items[p.0].book.at[k])
            && p.1 in after[p.0].book.at
            && Review(items[p.0].book.at[p.1], op.actor, op.action, op.reason, op.comment)
               == Ok(after[p.0].book.at[p.1])
            && after[p.0].state == (if items[p.0].state == Ready then Verifying else items[p.0].state)
            && items[p.0].state != Finalized
  {
    LocateInside(items, op.finding, TargetOf(op.action));
    hide Locate; hide Review;
  }

  lemma {:induction false} SetEachAt(b: Book, keys: seq<string>, fs: seq<Finding>, key: string)
    requires |keys| == |fs| && forall i, j | 0 <= i < j < |keys| :: keys[i] != keys[j]
    requires forall k | k in keys :: k in b.at
    ensures SetEach(b, keys, fs).order == b.order
    ensures key !in keys ==>
              (key in b.at <==> key in SetEach(b, keys, fs).at)
              && (key in b.at ==> SetEach(b, keys, fs).at[key] == b.at[key])
    ensures forall i | 0 <= i < |keys| && keys[i] == key ::
              key in SetEach(b, keys, fs).at && SetEach(b, keys, fs).at[key] == fs[i]
    ensures forall k | k in b.at :: k in SetEach(b, keys, fs).at
  {
    if keys != [] {
      var n := |keys| - 1;
      assert keys == keys[..n] + [keys[n]];
      SetEachAt(b, keys[..n], fs[..n], key);
      assert keys[n] in keys;
    }
  }

  lemma DistinctKeys(b: Book, keys: seq<string>)
    requires (forall k | k in keys :: k in b.at) && DistinctIds(At(b, keys))
    ensures forall i, j | 0 <= i < j < |keys| :: keys[i] != keys[j]
  {
    var fs := At(b, keys);
    forall i, j | 0 <= i < j < |keys| ensures keys[i] != keys[j] {
      assert keys[i] in keys && keys[j] in keys;
      assert fs[i].id != fs[j].id;
    }
  }

  /** An accepted batch confirms exactly the picked candidates, all by the same human, and leaves every other
      finding as it was; a refused one confirms none. */
  lemma BatchAllOrNothing(r: Record, ids: seq<string>, actor: Actor, comment: string, key: string)
    requires Sound(r.book) && Readable(r.book) && key in r.book.at
    ensures var step := ConfirmBatch(r, ids, actor, comment);
            && (step.fault.Some? ==> step.record == r)
            && (step.fault == None ==>
                  && PickKeys(r.book, ids).Some? && actor.human && comment != "" && 0 < |ids| <= MASS_LIMIT
                  && key in step.record.book.at && step.record.book.order == r.book.order
                  && step.record.book.at[key] ==
                     (if key in PickKeys(r.book, ids).value then Confirmed(r.book.at[key], actor, comment)
                      else r.book.at[key])
                  && (key in PickKeys(r.book, ids).value ==> r.book.at[key].status == Candidate))
  {
    PickedKeys(r.book, ids);
    var step := ConfirmBatch(r, ids, actor, comment);
    BatchRefusals(r, ids, actor, comment);
    if step.fault == None {
      var keys := PickKeys(r.book, ids).value;
      var fs := At(r.book, keys);
      BatchChecks(fs, actor);
      DistinctKeys(r.book, keys);
      BatchWrites(r, ids, actor, comment);
      hide *;
      SetEachAt(r.book, keys, ConfirmEach(fs, actor, comment), key);
      if key in keys {
        var i :| 0 <= i < |keys| && keys[i] == key;
        PickedIsCandidate(r.book, keys, i);
        EachConfirmed(fs, actor, comment, i);
      }
    }
  }

  lemma EachConfirmed(fs: seq<Finding>, actor: Actor, comment: string, i: nat)
    requires i < |fs|
    ensures |ConfirmEach(fs, actor, comment)| == |fs|
    ensures ConfirmEach(fs, actor, comment)[i] == Confirmed(fs[i], actor, comment)
  {
  }

  lemma BatchWrites(r: Record, ids: seq<string>, actor: Actor, comment: string)
    requires Readable(r.book) && ConfirmBatch(r, ids, actor, comment).fault == None
    ensures PickKeys(r.book, ids).Some? && forall k | k in PickKeys(r.book, ids).value :: k in r.book.at
    ensures var keys := PickKeys(r.book, ids).value;
            var fs := At(r.book, keys);
            && |ConfirmEach(fs, actor, comment)| == |fs| == |keys| == |ids| && comment != ""
            && BatchFault(fs, actor) == None
            && ConfirmBatch(r, ids, actor, comment).record.book
               == SetEach(r.book, keys, ConfirmEach(fs, actor, comment))
  {
    PickedKeys(r.book, ids);
    hide PickKeys; hide SetEach; hide BatchFault;
  }

  lemma PickedIsCandidate(b: Book, keys: seq<string>, i: nat)
    requires i < |keys| && (forall k | k in keys :: k in b.at) && AllCandidates(At(b, keys))
    ensures At(b, keys)[i] == b.at[keys[i]] && b.at[keys[i]].status == Candidate
  {
    assert At(b, keys)[i] in At(b, keys);
  }

  lemma BatchChecks(fs: seq<Finding>, actor: Actor)
    ensures BatchFault(fs, actor) == None ==>
              0 < |fs| <= MASS_LIMIT && DistinctIds(fs) && actor.human && AllCandidates(fs)
  {
  }

  lemma BatchRefusals(r: Record, ids: seq<string>, actor: Actor, comment: string)
    requires Readable(r.book)
    ensures var step := ConfirmBatch(r, ids, actor, comment);
            && (step.fault.Some? ==> step.record == r)
            && (step.fault == None ==> PickKeys(r.book, ids).Some?)
  {
    hide PickKeys; hide DistinctIds; hide AllCandidates; hide SetEach;
  }

  // ----- what becomes of a decision -----------------------------------------------------------------------------

  lemma DecidedStep(r: Record, op: Op, key: string)
    requires Kept(r) && Readable(r.book) && !op.Create? && !op.ReviewOp? && !op.RunOp?
    requires key in r.book.at && HumanOnly(r.book.at[key].status)
    ensures key in StepOf(r, op).record.book.at && StepOf(r, op).record.book.at[key] == r.book.at[key]
  {
    EntrySigned(r.book, key);
    if op.ConfirmOp? {
      BatchAllOrNothing(r, op.findings, op.actor, op.comment, key);
      hide ConfirmBatch;
    } else {
      assert HasDecision(r.book);
      hide HasDecision; hide HasCandidate; hide AllSigned; hide Sound; hide Fill;
    }
  }

  lemma DecidedReview(r: Record, at: string, op: Op, key: string)
    requires op.ReviewOp? && at in r.book.at && key in r.book.at && HumanOnly(r.book.at[key].status)
    ensures var after := ReviewAt(r, at, op.actor, op.action, op.reason, op.comment).record;
            key in after.book.at && after.book.at[key] == r.book.at[key]
  {
    if Review(r.book.at[at], op.actor, op.action, op.reason, op.comment).Ok? {
      ReviewSigns(r.book.at[at], op.actor, op.action, op.reason, op.comment);
    }
    hide Review;
  }

  /** A decided finding outlives every operation on every process but a run of the matrix on its own process,
      which keeps it by the rule of `RunKeepsDecision`. */
  lemma DecisionsEndOnlyInRuns(items: Items, op: Op, i: nat, key: string)
    requires AllKept(items) && AllReadable(items) && i < |items| && !(op.RunOp? && op.pid == i)
    requires key in items[i].book.at && HumanOnly(items[i].book.at[key].status)
    ensures var after := Apply(items, op).items;
            i < |after| && key in after[i].book.at && after[i].book.at[key] == items[i].book.at[key]
  {
    hide StepOf; hide Locate; hide ReviewAt; hide Kept; hide HumanOnly;
    MemberKept(items, i);
    match op {
      case Create =>
      case RunOp(_, _) =>
      case ReviewOp(finding, actor, action, reason, comment) =>
        var place := Locate(items, finding, TargetOf(action));
        if place.Some? {
          LocateInside(items, finding, TargetOf(action));
          if place.value.0 == i {
            DecidedReview(items[i], place.value.1, op, key);
          }
        }
      case _ =>
        if op.pid == i {
          assert items[i] in items;
          DecidedStep(items[i], op, key);
        }
    }
  }

  // ----- gates ------------------------------------------------------------------------------------------------------

  predicate HumanMove(before: State, after: State) {
    (before == Ready && after == Verifying) || (before == Verifying && after == Completed)
    || (before == Completed && after == Finalized) || (before == Finalized && after == Completed)
  }

  predicate HumanActor(op: Op) {
    match op
    case ReviewOp(_, actor, _, _, _) => actor.human
    case ConfirmOp(_, _, actor, _) => actor.human
    case StartOp(_, actor) => actor.human
    case CompleteOp(_, actor) => actor.human
    case FinalizeOp(_, actor, _) => actor.human
    case UnfinalizeOp(_, actor, _) => actor.human
    case _ => false
  }

  lemma GateStep(r: Record, op: Op)
    requires Readable(r.book) && !op.Create? && !op.ReviewOp?
    ensures var after := StepOf(r, op).record.state;
            after == r.state || MayAdvance(r.state, after)
            || (HumanMove(r.state, after) && HumanActor(op))
  {
    hide HasCandidate; hide PickKeys;
    if op.ConfirmOp? {
      PickedKeys(r.book, op.findings);
      if PickKeys(r.book, op.findings).Some? {
        BatchChecks(At(r.book, PickKeys(r.book, op.findings).value), op.actor);
      }
    }
    hide BatchFault; hide At; hide SetEach;
  }

  /** The state of a process moves only along the table of transitions; the moves that open, close, finalize
      or reopen a queue are made by humans alone. */
  lemma OnlyHumansOpenGates(items: Items, op: Op, i: nat)
    requires AllReadable(items) && i < |items|
    ensures var after := Apply(items, op).items;
            && i < |after|
            && (after[i].state == items[i].state
                || MayAdvance(items[i].state, after[i].state)
                || (HumanMove(items[i].state, after[i].state) && HumanActor(op)))
  {
    hide StepOf; hide Locate; hide Review;
    match op {
      case Create =>
      case ReviewOp(finding, actor, action, reason, comment) =>
        var place := Locate(items, finding, TargetOf(action));
        if place.Some? {
          LocateInside(items, finding, TargetOf(action));
        }
      case _ =>
        if op.pid == i {
          assert items[i] in items;
          GateStep(items[i], op);
        }
    }
  }

  // ----- the budget of transfers -----------------------------------------------------------------------------------

  function Requested(r: Record, n: nat): Record {
    if n == 0 then r else RequestSync(Requested(r, n - 1)).record
  }

  /** The first request queues the transfer, the next three wait for a retry, and every later one is queued
      for a manual transfer again. */
  lemma {:induction false} TransferBudget(r: Record, n: nat)
    requires r.state == Finalized && r.sync == NotRequested && r.attempts == 0 && n > 0
    ensures Requested(r, n) ==
            r.(attempts := n - 1, sync := if 1 <= n - 1 <= SYNC_RETRIES then RetryWait else PendingSync)
  {
    if n > 1 {
      TransferBudget(r, n - 1);
    } else {
      assert Requested(r, 0) == r;
    }
  }
}
