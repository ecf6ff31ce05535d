/** `ProcessWorkspace` (application/runtime.py): the processes in memory and the operations on them. A process
    is named by its place; an operation that raises answers with a fault. */
module Workspace {
  import opened Options
  import opened Findings
  import opened StoredFiles
  import opened ProcessRecord
  import Documents

  type Items = seq<Record>

  datatype Op =
    | Create
    | ReopenOp(pid: nat)
    | AttachOp(pid: nat, file: StoredFile)
    | RunOp(pid: nat, report: Option<Report>)
    | ReviewOp(finding: string, actor: Actor, action: Action, reason: Option<string>, comment: string)
    | ConfirmOp(pid: nat, findings: seq<string>, actor: Actor, comment: string)
    | SelectOp(pid: nat, id: string, stamp: Option<Documents.Approval>, actor: Actor, comment: string,
               report: Option<Report>)
    | StartOp(pid: nat, actor: Actor)
    | CompleteOp(pid: nat, actor: Actor)
    | FinalizeOp(pid: nat, actor: Actor, stored: Option<string>)
    | UnfinalizeOp(pid: nat, actor: Actor, comment: string)
    | SyncOp(pid: nat)

  datatype Answer = Answer(items: Items, fault: Option<Fault>)

  ghost predicate AllKept(items: Items) {
    forall r | r in items :: Kept(r)
  }

  predicate Readable(b: Book) {
    forall k | k in b.order :: k in b.at
  }

  predicate AllReadable(items: Items) {
    forall r | r in items :: Readable(r.book)
  }

  /** The matrix reports machine-made findings only. */
  predicate FromMatrix(op: Op) {
    && (op.RunOp? && op.report.Some? ==> forall f | f in op.report.value.findings :: MachineMade(f))
    && (op.SelectOp? && op.report.Some? ==> forall f | f in op.report.value.findings :: MachineMade(f))
  }

  function NewRecord(): Record {
    Record(Parsing, NotRequested, 0, 0, Book([], map[]), None, None, [], {}, [])
  }

  // ----- finding an entry across processes ------------------------------------------------------------------

  type Place = (nat, string)

  function MatchOf(r: Record, id: string): Option<string>
    requires Readable(r.book)
  {
    FirstMatch(r.book, id, |r.book.order|)
  }

  /** The first matching entry of each of the first n processes. */
  function Matches(items: Items, n: nat, id: string): seq<Place>
    requires n <= |items| && AllReadable(items)
  {
    if n == 0 then []
    else
      var key := MatchOf(items[n - 1], id);
      Matches(items, n - 1, id) + if key.Some? then [(n - 1, key.value)] else []
  }

  predicate Inside(items: Items, p: Place) {
    p.0 < |items| && p.1 in items[p.0].book.at
  }

  predicate Fits(items: Items, p: Place, target: Status) {
    Inside(items, p) && CanBecome(items[p.0].book.at[p.1].status, target)
  }

  function LastFit(items: Items, places: seq<Place>, target: Status): Option<Place> {
    if places == [] then None
    else if Fits(items, places[|places| - 1], target) then Some(places[|places| - 1])
    else LastFit(items, places[..|places| - 1], target)
  }

  /** `locate_finding` */
  function Locate(items: Items, id: string, target: Option<Status>): Option<Place>
    requires AllReadable(items)
  {
    var places := Matches(items, |items|, id);
    if places == [] then None
    else if target.Some? && LastFit(items, places, target.value).Some? then LastFit(items, places, target.value)
    else Some(places[|places| - 1])
  }

  lemma {:induction false} MatchesFacts(items: Items, n: nat, id: string)
    requires n <= |items| && AllReadable(items)
    ensures var m := Matches(items, n, id);
            && (forall p | p in m :: p.0 < n && Inside(items, p) && MatchOf(items[p.0], id) == Some(p.1))
            && (forall i | 0 <= i < n && MatchOf(items[i], id).Some? :: (i, MatchOf(items[i], id).value) in m)
            && (forall i, j | 0 <= i < j < |m| :: m[i].0 < m[j].0)
  {
    hide MatchOf;
    if n > 0 {
      MatchesFacts(items, n - 1, id);
      MatchIsInside(items[n - 1], id);
      var before := Matches(items, n - 1, id);
      forall i | 0 <= i < |before| ensures before[i].0 < n - 1 {
        assert before[i] in before;
      }
    }
  }

  lemma MatchIsInside(r: Record, id: string)
    requires Readable(r.book)
    ensures MatchOf(r, id).Some? ==> MatchOf(r, id).value in r.book.at
  {
    MatchInOrder(r.book, id, |r.book.order|);
  }

  /** None of the places from the k-th on fits. */
  predicate NoFitFrom(items: Items, places: seq<Place>, k: nat, target: Status) {
    forall j | k <= j < |places| :: !Fits(items, places[j], target)
  }

  lemma {:induction false} LastFitFacts(items: Items, places: seq<Place>, target: Status)
    ensures var f := LastFit(items, places, target);
            if f.Some? then exists k: nat :: k < |places| && places[k] == f.value && Fits(items, places[k], target)
                                             && NoFitFrom(items, places, k + 1, target)
            else NoFitFrom(items, places, 0, target)
  {
    hide Fits;
    if places == [] {
      assert NoFitFrom(items, places, 0, target);
    } else if Fits(items, places[|places| - 1], target) {
      assert NoFitFrom(items, places, |places|, target);
    } else {
      var init := places[..|places| - 1];
      LastFitFacts(items, init, target);
      if LastFit(items, init, target).Some? {
        var k: nat :| k < |init| && init[k] == LastFit(items, init, target).value
                      && Fits(items, init[k], target) && NoFitFrom(items, init, k + 1, target);
        assert places[k] == init[k];
        NoFitMore(items, places, k + 1, target);
      } else {
        NoFitMore(items, places, 0, target);
      }
    }
  }

  lemma NoFitMore(items: Items, places: seq<Place>, k: nat, target: Status)
    requires places != [] && NoFitFrom(items, places[..|places| - 1], k, target)
    requires !Fits(items, places[|places| - 1], target)
    ensures NoFitFrom(items, places, k, target)
  {
    hide Fits;
    forall j | k <= j < |places| ensures !Fits(items, places[j], target) {
      if j < |places| - 1 {
        assert places[..|places| - 1][j] == places[j];
      }
    }
  }

  lemma LocateInside(items: Items, id: string, target: Option<Status>)
    requires AllReadable(items) && Locate(items, id, target).Some?
    ensures Inside(items, Locate(items, id, target).value)
  {
    var places := Matches(items, |items|, id);
    MatchesFacts(items, |items|, id);
    if target.Some? {
      LastFitFacts(items, places, target.value);
    }
    assert places[|places| - 1] in places;
    hide Matches; hide LastFit;
  }

  /** The chosen entry is the first match of its process; if any process has one that may take the decision,
      the chosen one may, and no later process has one that may. */
  lemma LocateChooses(items: Items, id: string, target: Status)
    requires AllReadable(items) && Locate(items, id, Some(target)).Some?
    ensures var p := Locate(items, id, Some(target)).value;
            && p.0 < |items| && MatchOf(items[p.0], id) == Some(p.1)
            && forall i | 0 <= i < |items| && MatchOf(items[i], id).Some?
                          && Fits(items, (i, MatchOf(items[i], id).value), target) :: i <= p.0 && Fits(items, p, target)
  {
    var places := Matches(items, |items|, id);
    var p := Locate(items, id, Some(target)).value;
    MatchesFacts(items, |items|, id);
    LastFitFacts(items, places, target);
    assert places[|places| - 1] in places;
    hide Matches; hide LastFit; hide MatchOf; hide Fits;
    forall i | 0 <= i < |items| && MatchOf(items[i], id).Some? && Fits(items, (i, MatchOf(items[i], id).value), target)
      ensures i <= p.0 && Fits(items, p, target)
    {
      var q := (i, MatchOf(items[i], id).value);
      assert q in places;
      var j :| 0 <= j < |places| && places[j] == q;
    }
  }

  // ----- one operation ----------------------------------------------------------------------------------------

  function Put(items: Items, pid: nat, step: Step): Answer
    requires pid < |items|
  {
    Answer(items[pid := step.record], step.fault)
  }

  function Apply(items: Items, op: Op): Answer
    requires AllReadable(items)
  {
    match op
    case Create => Answer(items + [NewRecord()], None)
    case ReviewOp(finding, actor, action, reason, comment) =>
      var place := Locate(items, finding, TargetOf(action));
      if place == None then Answer(items, Some(NoFinding))
      else
        LocateInside(items, finding, TargetOf(action));
        Put(items, place.value.0, ReviewAt(items[place.value.0], place.value.1, actor, action, reason, comment))
    case _ =>
      if op.pid >= |items| then Answer(items, Some(NoProcess))
      else Put(items, op.pid, StepOf(items[op.pid], op))
  }

  /** The operations on one process. */
  function StepOf(r: Record, op: Op): Step
    requires !op.Create? && !op.ReviewOp? && Readable(r.book)
  {
    match op
    case ReopenOp(_) => Reopen(r)
    case AttachOp(_, file) => Attach(r, file)
    case RunOp(_, report) => RunScheduled(r, report)
    case ConfirmOp(_, findings, actor, comment) => ConfirmBatch(r, findings, actor, comment)
    case SelectOp(_, id, stamp, actor, comment, report) => Select(r, id, stamp, actor, comment, report)
    case StartOp(_, actor) => Start(r, actor)
    case CompleteOp(_, actor) => Complete(r, actor)
    case FinalizeOp(_, actor, stored) => Finalize(r, actor, stored)
    case UnfinalizeOp(_, actor, reason) => Unfinalize(r, actor, reason)
    case SyncOp(_) => RequestSync(r)
    case _ => Step(r, None)
  }

  lemma StepKeeps(r: Record, op: Op)
    requires Kept(r) && FromMatrix(op) && !op.Create? && !op.ReviewOp?
    ensures Readable(r.book) && Kept(StepOf(r, op).record)
  {
    KeptIsReadable(r);
    hide Kept; hide Attach; hide Reopen; hide RunScheduled; hide Select; hide Start; hide Complete; hide Finalize;
    hide Unfinalize; hide RequestSync; hide ConfirmBatch; hide MachineMade; hide Readable;
    match op {
      case ReopenOp(_) => ReopenKeeps(r);
      case AttachOp(_, file) => AttachKeeps(r, file);
      case RunOp(_, report) => RunKeeps(r, report);
      case ConfirmOp(_, findings, actor, comment) => ConfirmKeeps(r, findings, actor, comment);
      case SelectOp(_, id, stamp, actor, comment, report) => SelectKeeps(r, id, stamp, actor, comment, report);
      case StartOp(_, actor) => StartKeeps(r, actor);
      case CompleteOp(_, actor) => CompleteKeeps(r, actor);
      case FinalizeOp(_, actor, stored) => FinalizeKeeps(r, actor, stored);
      case UnfinalizeOp(_, actor, reason) => UnfinalizeKeeps(r, actor, reason);
      case SyncOp(_) => SyncKeeps(r);
    }
  }

  lemma KeptIsReadable(r: Record)
    requires Kept(r)
    ensures Readable(r.book)
  {
  }

  lemma AllKeptReadable(items: Items)
    requires AllKept(items)
    ensures AllReadable(items)
  {
    hide Kept; hide Readable;
    forall r | r in items ensures Readable(r.book) {
      KeptIsReadable(r);
    }
  }

  lemma PutKeeps(items: Items, pid: nat, r: Record)
    requires AllKept(items) && pid < |items| && Kept(r)
    ensures AllKept(items[pid := r])
  {
    hide Kept;
  }

  lemma NewKeeps(items: Items)
    requires AllKept(items)
    ensures AllKept(items + [NewRecord()])
  {
    assert Kept(NewRecord());
    hide Kept;
  }

  /** Every operation keeps the invariant of every process. */
  lemma ApplyKeeps(items: Items, op: Op)
    requires AllKept(items) && FromMatrix(op)
    ensures AllReadable(items) && AllKept(Apply(items, op).items)
  {
    AllKeptReadable(items);
    hide Kept; hide AllKept; hide StepOf; hide Locate; hide ReviewAt; hide FromMatrix;
    match op {
      case Create => NewKeeps(items);
      case ReviewOp(finding, actor, action, reason, comment) =>
        var place := Locate(items, finding, TargetOf(action));
        if place.Some? {
          LocateInside(items, finding, TargetOf(action));
          MemberKept(items, place.value.0);
          ReviewKeeps(items[place.value.0], place.value.1, actor, action, reason, comment);
          PutKeeps(items, place.value.0,
                   ReviewAt(items[place.value.0], place.value.1, actor, action, reason, comment).record);
        }
      case _ =>
        if op.pid < |items| {
          MemberKept(items, op.pid);
          StepKeeps(items[op.pid], op);
          PutKeeps(items, op.pid, StepOf(items[op.pid], op).record);
        }
    }
  }

  lemma MemberKept(items: Items, i: nat)
    requires AllKept(items) && i < |items|
    ensures Kept(items[i])
  {
    assert items[i] in items;
  }

  lemma SameItem(items: Items, i: nat)
    requires i < |items|
    ensures items[i := items[i]] == items
  {
  }
}
