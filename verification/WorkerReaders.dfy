/** The readers of `PipelineWorker` come back: once submits stop, every open `wait` and `wait_all`, in whatever
    phase it is, returns after a bounded number of its own atomic sections and is never left blocked. */
module WorkerReaders {
  import opened WorkerCore
  import opened WorkerProtocol

  // ----- what readers rely on -----------------------------------------------------------------------------------

  ghost predicate Current(c: Core, e: nat) {
    exists p :: p in c.pending && c.pending[p] == e
  }

  /** An event that `submit` replaced is set, so nobody waits for an event the worker has forgotten. */
  ghost predicate ReplacedAreSet(c: Core) {
    forall e: nat | e < |c.events| && !IsSet(c, e) :: Current(c, e)
  }

  ghost predicate Behind(seen: map<Pid, nat>, c: Core) {
    forall p | p in seen :: seen[p] <= Newest(c, p)
  }

  /** Every process is finished, or waited for now, or still to be waited for. */
  ghost predicate Covered(c: Core, inner: Wait, todo: seq<Pid>) {
    forall p | p in c.pending :: IsSet(c, c.pending[p]) || p in todo || (p == inner.pid && !inner.Returned?)
  }

  /** What a `wait_all` between its two looks has covered, as long as nothing was submitted meanwhile. */
  ghost predicate Pursuing(c: Core, call: Call) {
    match call
    case All(AllWaiting(_, inner, todo, seen)) =>
      inner.known && Behind(seen, c) && (seen == c.generation ==> Covered(c, inner, todo))
    case _ => true
  }

  ghost predicate ReadersInv(s: State) {
    ReplacedAreSet(s.core) && forall id | id in s.calls :: Pursuing(s.core, s.calls[id])
  }

  /** Anything but a submit keeps events and generations, and unsets nothing. */
  ghost predicate Quiet(c: Core, c': Core) {
    && c'.pending == c.pending && c'.generation == c.generation && |c'.events| == |c.events|
    && forall e | IsSet(c, e) :: IsSet(c', e)
  }

  lemma StepOfCore(s: State, step: Step, s': State)
    requires Next(s, step, s')
    ensures if step.Submit? then s'.core == Assign(s.core, step.pid) else Quiet(s.core, s'.core)
  {
    hide AdvanceCall; hide CallEnabled; hide Assign; hide Lists;
  }

  lemma SubmitReplaces(c: Core, p: Pid)
    requires ReplacedAreSet(c)
    ensures ReplacedAreSet(Assign(c, p))
  {
    var c' := Assign(c, p);
    forall e: nat | e < |c'.events| && !IsSet(c', e) ensures Current(c', e) {
      if e < |c.events| {
        assert !IsSet(c, e);
        var q :| q in c.pending && c.pending[q] == e;
        assert q in c'.pending && c'.pending[q] == e;
      } else {
        assert p in c'.pending && c'.pending[p] == e;
      }
    }
  }

  lemma QuietReplaces(c: Core, c': Core)
    requires ReplacedAreSet(c) && Quiet(c, c')
    ensures ReplacedAreSet(c')
  {
    forall e: nat | e < |c'.events| && !IsSet(c', e) ensures Current(c', e) {
      assert Current(c, e);
    }
  }

  lemma SubmitPursues(c: Core, p: Pid, call: Call)
    requires Pursuing(c, call)
    ensures Pursuing(Assign(c, p), call)
  {
    if call.All? && call.waitAll.AllWaiting? {
      var seen := call.waitAll.seen;
      assert Behind(seen, Assign(c, p));
      assert p in seen ==> seen[p] < Assign(c, p).generation[p];
    }
  }

  lemma QuietPursues(c: Core, c': Core, call: Call)
    requires Pursuing(c, call) && Quiet(c, c')
    ensures Pursuing(c', call)
  {
  }

  lemma InnerCovers(s: State, inner: Wait, todo: seq<Pid>)
    requires Inv(s) && WaitOk(s, inner) && WaitEnabled(s, inner) && inner.known && Covered(s.core, inner, todo)
    ensures Covered(s.core, AdvanceWait(s, inner), todo)
  {
    hide Inv;
  }

  lemma AdvancePursues(s: State, call: Call, order: seq<Pid>)
    requires Inv(s) && CallOk(s, call) && CallEnabled(s, call) && Pursuing(s.core, call)
    requires Lists(order, s.core.pending.Keys)
    ensures Pursuing(s.core, AdvanceCall(s, call, order))
  {
    hide Inv;
    match call
    case All(AllWaiting(_, inner, todo, seen)) =>
      if !inner.Returned? {
        if seen == s.core.generation {
          InnerCovers(s, inner, todo);
        }
      } else if todo != [] {
        assert forall p | p in todo :: p == todo[0] || p in todo[1..];
      }
    case All(AllLooking(_)) =>
      if order != [] {
        assert forall p | p in order :: p == order[0] || p in order[1..];
      }
    case _ =>
  }

  lemma NextKeepsReaders(s: State, step: Step, s': State)
    requires Inv(s) && ReadersInv(s) && Next(s, step, s')
    ensures ReadersInv(s')
  {
    hide Inv; hide ReplacedAreSet; hide Pursuing; hide Quiet; hide AdvanceCall; hide CallEnabled; hide Assign;
    hide CallOk;
    StepOfCore(s, step, s');
    if step.Submit? {
      SubmitReplaces(s.core, step.pid);
    } else {
      QuietReplaces(s.core, s'.core);
    }
    forall id | id in s'.calls ensures Pursuing(s'.core, s'.calls[id]) {
      NextPursues(s, step, s', id);
    }
  }

  lemma NewCallPursues(c: Core, pid: Pid, clock: nat, known: bool)
    ensures Pursuing(c, One(Looking(pid, clock, known))) && Pursuing(c, All(AllLooking(clock)))
  {
  }

  lemma NextPursues(s: State, step: Step, s': State, id: nat)
    requires Inv(s) && ReadersInv(s) && Next(s, step, s') && id in s'.calls
    ensures Pursuing(s'.core, s'.calls[id])
  {
    hide Inv; hide ReplacedAreSet; hide Pursuing; hide Quiet; hide AdvanceCall; hide CallEnabled; hide Assign;
    hide CallOk; hide Lists;
    StepOfCore(s, step, s');
    match step
    case Submit(p) => SubmitPursues(s.core, p, s.calls[id]);
    case CallWait(_, p) =>
      NewCallPursues(s.core, p, s.clock, p in s.core.pending);
    case CallWaitAll(_) =>
      NewCallPursues(s.core, "", s.clock, false);
    case Advance(own) =>
      var order :| Lists(order, s.core.pending.Keys) &&
                   s' == Tick(s).(calls := s.calls[own := AdvanceCall(s, s.calls[own], order)]);
      InvCall(s, own);
      AdvancePursues(s, s.calls[own], order);
    case _ => QuietPursues(s.core, s'.core, s.calls[id]);
  }

  lemma {:induction false} RunKeepsReaders(states: seq<State>, steps: seq<Step>, n: nat)
    requires IsRun(states, steps) && Inv(states[0]) && ReadersInv(states[0]) && n <= |steps|
    ensures Inv(states[n]) && ReadersInv(states[n])
    decreases n
  {
    if n > 0 {
      hide Inv; hide ReadersInv; hide Next;
      RunKeepsReaders(states, steps, n - 1);
      NextKeeps(states[n - 1], steps[n - 1], states[n]);
      NextKeepsReaders(states[n - 1], steps[n - 1], states[n]);
    }
  }

  lemma ReachableReaders(s: State)
    requires Reachable(s)
    ensures Inv(s) && ReadersInv(s)
  {
    hide Inv;
    var states, steps :| IsRun(states, steps) && states[0] == INIT && states[|steps|] == s;
    StartsWell();
    assert ReadersInv(INIT);
    hide ReadersInv;
    RunKeepsReaders(states, steps, |steps|);
  }

  // ----- nobody is left blocked ---------------------------------------------------------------------------------

  predicate HasReturned(call: Call) {
    match call
    case One(w) => w.Returned?
    case All(w) => w.AllReturned?
  }

  ghost predicate Drained(s: State) {
    !exists step, s' :: SystemStep(step) && Next(s, step, s')
  }

  /** When no put or worker step is left, every event is set, also those that were replaced. */
  lemma DrainedMeansEveryEventSet(s: State)
    requires Reachable(s) && Drained(s)
    ensures forall e | 0 <= e < |s.core.events| :: s.core.events[e]
  {
    hide Next;
    DrainedMeansAllSet(s);
    ReachableReaders(s);
    hide Inv;
    forall e: nat | e < |s.core.events| ensures IsSet(s.core, e) {
      assert Current(s.core, e) ==> IsSet(s.core, e);
    }
    assert forall e: nat | e < |s.core.events| :: IsSet(s.core, e) ==> s.core.events[e];
  }

  lemma {:induction false} ListingExists(pids: set<Pid>)
    ensures exists order :: Lists(order, pids)
    decreases |pids|
  {
    if pids == {} {
      assert Lists([], pids);
    } else {
      var p :| p in pids;
      ListingExists(pids - {p});
      var rest :| Lists(rest, pids - {p});
      assert |pids - {p}| == |pids| - 1;
      assert Lists([p] + rest, pids);
    }
  }

  lemma OpenIsEnabled(s: State, call: Call)
    requires CallOk(s, call) && forall e | 0 <= e < |s.core.events| :: s.core.events[e]
    ensures CallEnabled(s, call) <==> !HasReturned(call)
  {
  }

  /** Once drained, a call can go on exactly when it has not returned, wherever it stands and whichever event
      it holds. */
  lemma DrainedCallsGoOn(s: State, id: nat)
    requires Reachable(s) && Drained(s) && id in s.calls
    ensures (exists s' :: Next(s, Advance(id), s')) <==> !HasReturned(s.calls[id])
  {
    hide Drained; hide CallOk; hide AdvanceCall; hide Inv; hide CallEnabled; hide HasReturned;
    DrainedMeansEveryEventSet(s);
    ReachableInv(s);
    InvCall(s, id);
    OpenIsEnabled(s, s.calls[id]);
    hide Reachable;
    if !HasReturned(s.calls[id]) {
      ListingExists(s.core.pending.Keys);
      var order :| Lists(order, s.core.pending.Keys);
      hide Lists;
      assert Next(s, Advance(id), Tick(s).(calls := s.calls[id := AdvanceCall(s, s.calls[id], order)]));
    }
  }

  // ----- and every call needs few sections ----------------------------------------------------------------------

  /** Sections a `wait` still needs at most; a stale generation costs one more look. */
  function WaitLeft(c: Core, w: Wait): nat {
    match w
    case Looking(_, _, _) => 3
    case Blocked(p, _, _, _, gen) => if Newest(c, p) == gen then 2 else 5
    case Awake(p, _, _, _, gen) => if Newest(c, p) == gen then 1 else 4
    case Returned(_, _, _, _, _) => 0
  }

  /** The sections a call still needs at most when nothing more is submitted. */
  function CallLeft(c: Core, call: Call): nat {
    match call
    case One(w) => WaitLeft(c, w)
    case All(AllLooking(_)) => 4 * |c.pending| + 1
    case All(AllWaiting(_, inner, todo, seen)) =>
      WaitLeft(c, inner) + 4 * |todo| + 1 + if seen == c.generation then 0 else 4 * |c.pending| + 1
    case All(AllReturned(_, _)) => 0
  }

  lemma WaitFalls(s: State, w: Wait)
    requires Inv(s) && WaitOk(s, w) && WaitEnabled(s, w)
    ensures WaitLeft(s.core, AdvanceWait(s, w)) < WaitLeft(s.core, w)
  {
    hide Inv;
  }

  lemma CoveredMeansSet(c: Core, inner: Wait)
    requires Covered(c, inner, []) && inner.Returned?
    ensures AllSet(c)
  {
  }

  lemma CallFalls(s: State, call: Call, order: seq<Pid>)
    requires Inv(s) && CallOk(s, call) && CallEnabled(s, call) && Pursuing(s.core, call)
    requires Lists(order, s.core.pending.Keys)
    ensures CallLeft(s.core, AdvanceCall(s, call, order)) < CallLeft(s.core, call)
  {
    hide Inv; hide WaitOk; hide WaitEnabled; hide AdvanceWait; hide Covered; hide AllSet;
    match call
    case One(w) => WaitFalls(s, w);
    case All(AllLooking(_)) =>
      assert |s.core.pending.Keys| == |s.core.pending|;
      if order == [] {
        assert s.core.pending.Keys == {};
        NothingPending(s.core);
      }
    case All(AllWaiting(_, inner, todo, seen)) =>
      if !inner.Returned? {
        WaitFalls(s, inner);
      } else if todo == [] && seen == s.core.generation {
        CoveredMeansSet(s.core, inner);
      }
    case All(AllReturned(_, _)) =>
  }

  lemma NothingPending(c: Core)
    requires c.pending.Keys == {}
    ensures AllSet(c)
  {
  }

  lemma QuietLeft(c: Core, c': Core, call: Call)
    requires Quiet(c, c')
    ensures CallLeft(c', call) == CallLeft(c, call)
  {
  }

  /** Without a submit, a section of a call lowers what that call still needs, and nothing else raises it. */
  lemma LeftFalls(s: State, step: Step, s': State, id: nat)
    requires Inv(s) && ReadersInv(s) && Next(s, step, s') && !step.Submit? && id in s.calls
    ensures id in s'.calls
    ensures CallLeft(s'.core, s'.calls[id]) + (if step == Advance(id) then 1 else 0) <= CallLeft(s.core, s.calls[id])
  {
    hide Inv; hide Pursuing; hide Quiet; hide AdvanceCall; hide CallEnabled; hide Assign; hide CallOk; hide CallLeft;
    hide Lists; hide ReplacedAreSet;
    StepOfCore(s, step, s');
    QuietLeft(s.core, s'.core, s.calls[id]);
    if step == Advance(id) {
      var order :| Lists(order, s.core.pending.Keys) &&
                   s' == Tick(s).(calls := s.calls[id := AdvanceCall(s, s.calls[id], order)]);
      InvCall(s, id);
      CallFalls(s, s.calls[id], order);
    }
  }

  function OwnSteps(steps: seq<Step>, id: nat): nat {
    if steps == [] then 0
    else OwnSteps(steps[..|steps| - 1], id) + if steps[|steps| - 1] == Advance(id) then 1 else 0
  }

  lemma {:induction false} LeftOverRun(states: seq<State>, steps: seq<Step>, id: nat)
    requires IsRun(states, steps) && Inv(states[0]) && ReadersInv(states[0]) && id in states[0].calls
    requires forall i | 0 <= i < |steps| :: !steps[i].Submit?
    ensures id in states[|steps|].calls
    ensures OwnSteps(steps, id) + CallLeft(states[|steps|].core, states[|steps|].calls[id])
            <= CallLeft(states[0].core, states[0].calls[id])
    decreases |steps|
  {
    hide Next; hide Inv; hide ReadersInv; hide CallLeft;
    if steps != [] {
      var n := |steps| - 1;
      LeftOverRun(states[..n + 1], steps[..n], id);
      RunKeepsReaders(states, steps, n);
      LeftFalls(states[n], steps[n], states[n + 1], id);
    }
  }

  lemma NothingLeft(c: Core, call: Call)
    ensures CallLeft(c, call) == 0 <==> HasReturned(call)
  {
  }

  /** From any reachable state and in any phase, a call takes at most CallLeft own sections as long as nothing is
      submitted, whatever the worker and the other readers do; when it has used them up it has returned. */
  lemma CallsNeedFewSections(states: seq<State>, steps: seq<Step>, id: nat)
    requires IsRun(states, steps) && Reachable(states[0]) && id in states[0].calls
    requires forall i | 0 <= i < |steps| :: !steps[i].Submit?
    ensures OwnSteps(steps, id) <= CallLeft(states[0].core, states[0].calls[id])
    ensures id in states[|steps|].calls
    ensures OwnSteps(steps, id) == CallLeft(states[0].core, states[0].calls[id]) ==>
              HasReturned(states[|steps|].calls[id])
  {
    hide Next; hide Inv; hide ReadersInv; hide CallLeft; hide HasReturned;
    ReachableReaders(states[0]);
    LeftOverRun(states, steps, id);
    NothingLeft(states[|steps|].core, states[|steps|].calls[id]);
  }

  lemma RunExtends(before: seq<State>, start: seq<Step>, states: seq<State>, steps: seq<Step>)
    requires IsRun(before, start) && before[0] == INIT && IsRun(states, steps) && before[|start|] == states[0]
    ensures Reachable(states[|steps|])
  {
    hide Next;
    var all, path := before + states[1..], start + steps;
    forall i | 0 <= i < |path| ensures Next(all[i], path[i], all[i + 1]) {
      if i < |start| {
        assert Next(before[i], start[i], before[i + 1]);
      } else {
        var j := i - |start|;
        assert Next(states[j], steps[j], states[j + 1]);
        assert all[i] == states[j] && all[i + 1] == states[j + 1];
      }
    }
    assert IsRun(all, path) && all[|path|] == states[|steps|];
  }

  /** Submits have stopped and the run cannot go on, except by new calls: then every call has returned. Since put,
      worker and reader sections are all bounded, such a run always comes to this end. */
  lemma EveryReaderReturns(states: seq<State>, steps: seq<Step>, id: nat)
    requires IsRun(states, steps) && Reachable(states[0]) && id in states[0].calls
    requires forall i | 0 <= i < |steps| :: !steps[i].Submit?
    requires Drained(states[|steps|]) && !exists s' :: Next(states[|steps|], Advance(id), s')
    ensures id in states[|steps|].calls && HasReturned(states[|steps|].calls[id])
    ensures SystemSteps(steps) <= Load(states[0])
    ensures OwnSteps(steps, id) <= CallLeft(states[0].core, states[0].calls[id])
  {
    hide Next; hide CallLeft; hide HasReturned; hide Drained; hide Load;
    CallsNeedFewSections(states, steps, id);
    DrainsInBoundedSteps(states, steps);
    var before, start :| IsRun(before, start) && before[0] == INIT && before[|start|] == states[0];
    RunExtends(before, start, states, steps);
    DrainedCallsGoOn(states[|steps|], id);
  }
}
