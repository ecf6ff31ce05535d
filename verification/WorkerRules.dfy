/** What callers of `PipelineWorker` may always do, and when `wait_all` accepts what it sees. */
module WorkerRules {
  import opened Options
  import opened WorkerCore
  import opened WorkerProtocol

  /** A submit is never refused: it gives the process its next generation, an unset event and an entry on its way, and
      leaves the other processes alone. */
  lemma SubmitIsNeverRefused(s: State, p: Pid)
    requires Reachable(s)
    ensures exists s' :: && Next(s, Submit(p), s') && Newest(s'.core, p) == Newest(s.core, p) + 1
                         && p in s'.core.pending && !IsSet(s'.core, s'.core.pending[p])
                         && Item(p, Newest(s'.core, p)) in s'.airborne
                         && forall q | q != p :: Newest(s'.core, q) == Newest(s.core, q)
  {
    ReachableInv(s);
    AssignCounts(s.core, p);
    AssignFlags(s.core, p);
    var s' := DoSubmit(s, p);
    hide Inv; hide Assign; hide WellFormed;
    assert Next(s, Submit(p), s');
  }

  /** A new call can begin at any time. */
  lemma CallsAreNeverRefused(s: State, id: nat, p: Pid)
    requires id !in s.calls
    ensures exists s' :: Next(s, CallWait(id, p), s') && id in s'.calls
    ensures exists s' :: Next(s, CallWaitAll(id), s') && id in s'.calls
  {
    var one := Tick(s).(calls := s.calls[id := One(Looking(p, s.clock, p in s.core.pending))]);
    var all := Tick(s).(calls := s.calls[id := All(AllLooking(s.clock))]);
    assert Next(s, CallWait(id, p), one) && Next(s, CallWaitAll(id), all);
  }

  /** `wait_all` accepts only what it saw whole: at its first look with every event set, or at its second with every
      event set and no generation given to any process since the first. */
  lemma WaitAllSawNoSubmit(s: State, id: nat, s': State)
    requires Next(s, Advance(id), s') && s.calls[id].All?
    requires id in s'.calls && s'.calls[id].All? && s'.calls[id].waitAll.AllReturned?
    ensures AllSet(s.core)
    ensures s.calls[id].waitAll.AllLooking?
            || (s.calls[id].waitAll.AllWaiting? && s.calls[id].waitAll.seen == s.core.generation)
  {
    hide AllSet; hide Lists;
  }

  /** `wait` accepts the generation it read first, if it is the newest still and its event is set. */
  lemma WaitSawNoSubmit(s: State, id: nat, s': State)
    requires Next(s, Advance(id), s') && s.calls[id].One?
    requires id in s'.calls && s'.calls[id].One? && s'.calls[id].wait.Returned? && s'.calls[id].wait.result.Some?
    ensures var w := s.calls[id].wait;
            && w.Awake? && s'.calls[id].wait.result == Some(w.gen) && Newest(s.core, w.pid) == w.gen
            && IsSet(s.core, w.event)
  {
    hide IsSet; hide Lists;
  }
}
