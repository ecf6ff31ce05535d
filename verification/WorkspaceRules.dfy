/** What an operation is applied to: the new process, the process it names, the finding it names. */
module WorkspaceRules {
  import opened Options
  import opened Findings
  import opened FindingRules
  import opened ProcessRecord
  import opened Workspace

  /** A new process parses, has no findings, no files, no choice, no signature, and no transfer under way. */
  lemma NewProcess(items: Items)
    requires AllReadable(items)
    ensures Apply(items, Create).fault == None
    ensures var after := Apply(items, Create).items;
            && |after| == |items| + 1 && after[..|items|] == items
            && var r := after[|items|];
            && r.state == Parsing && r.sync == NotRequested && r.attempts == 0 && r.parses == 0
            && r.book.order == [] && r.book.at == map[] && r.finalizedBy == None && r.protocolId == None
            && r.files == [] && r.selected == {} && r.audit == []
  {
  }

  /** An operation on an unknown process is refused; on a known one it does its own step there and nothing elsewhere. */
  lemma OperationSteps(items: Items, op: Op)
    requires AllReadable(items) && !op.Create? && !op.ReviewOp?
    ensures op.pid >= |items| ==> Apply(items, op) == Answer(items, Some(NoProcess))
    ensures op.pid < |items| ==>
              && Readable(items[op.pid].book)
              && var r := items[op.pid];
                 var step := match op
                   case ReopenOp(_) => Reopen(r)
                   case AttachOp(_, file) => Attach(r, file)
                   case RunOp(_, report) => RunScheduled(r, report)
                   case ConfirmOp(_, findings, actor, comment) => ConfirmBatch(r, findings, actor, comment)
                   case SelectOp(_, id, stamp, actor, comment, report) => Select(r, id, stamp, actor, comment, report)
                   case StartOp(_, actor) => Start(r, actor)
                   case CompleteOp(_, actor) => Complete(r, actor)
                   case FinalizeOp(_, actor, stored) => Finalize(r, actor, stored)
                   case UnfinalizeOp(_, actor, reason) => Unfinalize(r, actor, reason)
                   case SyncOp(_) => RequestSync(r);
              && Apply(items, op).fault == step.fault && |Apply(items, op).items| == |items|
              && Apply(items, op).items[op.pid] == step.record
              && forall i | 0 <= i < |items| && i != op.pid :: Apply(items, op).items[i] == items[i]
  {
    if op.pid < |items| {
      assert items[op.pid] in items;
    }
    hide Reopen; hide Attach; hide RunScheduled; hide ConfirmBatch; hide Select; hide Start; hide Complete;
    hide Finalize; hide Unfinalize; hide RequestSync; hide Readable;
  }

  /** Process i holds a finding that the id names, the first of them under this key. */
  predicate FoundAt(items: Items, id: string, i: nat, key: string)
    requires AllReadable(items)
  {
    i < |items| && (assert items[i] in items; MatchOf(items[i], id) == Some(key))
  }

  /** And that finding may take the decision. */
  predicate TakesAt(items: Items, id: string, target: Option<Status>, i: nat, key: string)
    requires AllReadable(items)
  {
    && FoundAt(items, id, i, key) && target.Some? && key in items[i].book.at
    && (items[i].book.at[key].status, target.value) in TRANSITIONS
  }

  lemma FitsTakes(items: Items, id: string, target: Status, i: nat, key: string)
    requires AllReadable(items) && FoundAt(items, id, i, key)
    ensures Fits(items, (i, key), target) <==> TakesAt(items, id, Some(target), i, key)
  {
    if key in items[i].book.at {
      TransitionTable(items[i].book.at[key].status, target);
    }
    hide CanBecome; hide MatchOf; hide Readable;
  }

  /** The places are the processes with such a finding, in order. */
  ghost predicate Covers(items: Items, id: string, places: seq<Place>)
    requires AllReadable(items)
  {
    && (forall p | p in places :: FoundAt(items, id, p.0, p.1))
    && (forall i: nat, key | FoundAt(items, id, i, key) :: (i, key) in places)
    && (forall i, j | 0 <= i < j < |places| :: places[i].0 < places[j].0)
  }

  lemma MatchesCover(items: Items, id: string)
    requires AllReadable(items)
    ensures Covers(items, id, Matches(items, |items|, id))
  {
    MatchesFacts(items, |items|, id);
    hide Matches; hide MatchOf; hide Readable;
  }

  lemma LastPlace(items: Items, id: string, places: seq<Place>, i: nat, key: string)
    requires AllReadable(items) && Covers(items, id, places) && FoundAt(items, id, i, key)
    ensures places != [] && i <= places[|places| - 1].0
  {
    hide FoundAt;
    var j :| 0 <= j < |places| && places[j] == (i, key);
  }

  lemma LastTaking(items: Items, id: string, places: seq<Place>, target: Status, i: nat, key: string)
    requires AllReadable(items) && Covers(items, id, places) && TakesAt(items, id, Some(target), i, key)
    ensures LastFit(items, places, target).Some? && i <= LastFit(items, places, target).value.0
  {
    FitsTakes(items, id, target, i, key);
    LastFitFacts(items, places, target);
    hide FoundAt; hide Fits; hide LastFit;
    var j :| 0 <= j < |places| && places[j] == (i, key);
  }

  lemma FitIsTaking(items: Items, id: string, places: seq<Place>, target: Status)
    requires AllReadable(items) && Covers(items, id, places) && LastFit(items, places, target).Some?
    ensures var p := LastFit(items, places, target).value; TakesAt(items, id, Some(target), p.0, p.1)
  {
    LastFitFacts(items, places, target);
    hide FoundAt; hide Fits; hide LastFit; hide TakesAt;
    var k: nat :| k < |places| && places[k] == LastFit(items, places, target).value && Fits(items, places[k], target);
    FitsTakes(items, id, target, places[k].0, places[k].1);
  }

  /** The finding an id names: that of the last process where it may take the decision, or of the last process where
      there is one; none only if no process has one. */
  lemma LocateExactly(items: Items, id: string, target: Option<Status>, i: nat, key: string)
    requires AllReadable(items)
    ensures var place := Locate(items, id, target);
            && (FoundAt(items, id, i, key) ==> place.Some?)
            && (place.Some? ==> FoundAt(items, id, place.value.0, place.value.1))
            && (TakesAt(items, id, target, i, key) ==>
                  i <= place.value.0 && TakesAt(items, id, target, place.value.0, place.value.1))
            && (FoundAt(items, id, i, key) && !TakesAt(items, id, target, place.value.0, place.value.1) ==>
                  i <= place.value.0)
  {
    MatchesCover(items, id);
    var places := Matches(items, |items|, id);
    hide Matches; hide FoundAt; hide LastFit; hide Readable;
    if FoundAt(items, id, i, key) {
      LastPlace(items, id, places, i, key);
    }
    if TakesAt(items, id, target, i, key) {
      LastTaking(items, id, places, target.value, i, key);
    }
    if target.Some? && LastFit(items, places, target.value).Some? {
      FitIsTaking(items, id, places, target.value);
    }
    hide TakesAt; hide Covers;
    LastFound(items, id, places);
  }

  lemma LastFound(items: Items, id: string, places: seq<Place>)
    requires AllReadable(items) && Covers(items, id, places)
    ensures places != [] ==> FoundAt(items, id, places[|places| - 1].0, places[|places| - 1].1)
  {
    hide FoundAt;
    if places != [] {
      assert places[|places| - 1] in places;
    }
  }
}
