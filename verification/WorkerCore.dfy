/** The shared fields of `PipelineWorker` (pipeline_worker.py) and its atomic sections.
    One section is what runs between taking and releasing the lock, or one queue operation.
    The pure functions give each section as a change of `Core`; the class carries it out in place. */
module WorkerCore {

  type Pid = string

  /** A queue entry: the process and the generation given to it by `submit`. */
  datatype Item = Item(pid: Pid, gen: nat)

  /** `events[e]` is the flag of event e; `pending` names the current event of a process. */
  datatype Core = Core(
    queue: seq<Item>,
    pending: map<Pid, nat>,
    events: seq<bool>,
    generation: map<Pid, nat>,
    threadAlive: bool,
    lastError: bool)

  const EMPTY := Core([], map[], [], map[], false, false)

  /** `self._generation.get(process_id, 0)` */
  function Newest(c: Core, p: Pid): nat {
    if p in c.generation then c.generation[p] else 0
  }

  predicate WellFormed(c: Core) {
    && c.pending.Keys == c.generation.Keys
    && (forall p | p in c.pending :: c.pending[p] < |c.events| && c.generation[p] >= 1)
    && (forall p, q | p in c.pending && q in c.pending && p != q :: c.pending[p] != c.pending[q])
  }

  predicate IsSet(c: Core, e: nat) {
    e < |c.events| && c.events[e]
  }

  /** The locked part of `submit`: an unset event is kept, otherwise a new one is made. */
  function Assign(c: Core, p: Pid): Core {
    var renew := p !in c.pending || IsSet(c, c.pending[p]);
    c.(pending := if renew then c.pending[p := |c.events|] else c.pending,
       events := if renew then c.events + [false] else c.events,
       generation := c.generation[p := Newest(c, p) + 1],
       threadAlive := true)
  }

  lemma AssignKeepsWellFormed(c: Core, p: Pid)
    requires WellFormed(c)
    ensures WellFormed(Assign(c, p))
  {
  }

  lemma AssignCounts(c: Core, p: Pid)
    ensures Assign(c, p).pending.Keys == c.pending.Keys + {p}
    ensures Newest(Assign(c, p), p) == Newest(c, p) + 1
    ensures forall q | q != p :: Newest(Assign(c, p), q) == Newest(c, q)
  {
  }

  lemma AssignFlags(c: Core, p: Pid)
    requires WellFormed(c)
    ensures var c' := Assign(c, p);
            && !IsSet(c', c'.pending[p])
            && (forall q | q in c.pending && q != p ::
                  c'.pending[q] == c.pending[q] && IsSet(c', c.pending[q]) == IsSet(c, c.pending[q]))
            && |c.events| <= |c'.events|
            && (forall e | IsSet(c, e) :: IsSet(c', e))
  {
  }

  function Enqueue(c: Core, x: Item): Core {
    c.(queue := c.queue + [x])
  }

  function Dequeue(c: Core): Core
    requires c.queue != []
  {
    c.(queue := c.queue[1..])
  }

  predicate IsNewest(c: Core, x: Item) {
    x.pid in c.generation && c.generation[x.pid] == x.gen
  }

  /** `_finish`: only the newest generation wakes the readers. */
  function Wake(c: Core, x: Item): Core {
    if IsNewest(c, x) && x.pid in c.pending && c.pending[x.pid] < |c.events|
    then c.(events := c.events[c.pending[x.pid] := true])
    else c
  }

  predicate AllSet(c: Core) {
    forall p | p in c.pending :: IsSet(c, c.pending[p])
  }

  class PipelineWorker {
    var queue: seq<Item>
    var pending: map<Pid, nat>
    var events: seq<bool>
    var generation: map<Pid, nat>
    var threadAlive: bool
    var lastError: bool

    function View(): Core
      reads this
    {
      Core(queue, pending, events, generation, threadAlive, lastError)
    }

    constructor ()
      ensures View() == EMPTY && WellFormed(View())
    {
      queue, pending, events, generation, threadAlive, lastError := [], map[], [], map[], false, false;
    }

    /** The locked half of `submit`; the put happens after the lock is released. */
    method SubmitLocked(p: Pid) returns (x: Item)
      requires WellFormed(View())
      modifies this
      ensures View() == Assign(old(View()), p) && WellFormed(View())
      ensures x == Item(p, Newest(old(View()), p) + 1) && IsNewest(View(), x)
      ensures !IsSet(View(), View().pending[p])
    {
      if p !in pending || events[pending[p]] {
        pending := pending[p := |events|];
        events := events + [false];
      }
      generation := generation[p := (if p in generation then generation[p] else 0) + 1];
      threadAlive := true;
      x := Item(p, generation[p]);
    }

    method Put(x: Item)
      modifies this`queue
      ensures View() == Enqueue(old(View()), x)
    {
      queue := queue + [x];
    }

    method Take() returns (x: Item)
      requires queue != []
      modifies this`queue
      ensures View() == Dequeue(old(View())) && x == old(queue)[0]
    {
      x := queue[0];
      queue := queue[1..];
    }

    /** The locked test of `_loop` that drops a superseded entry. */
    method MayRun(x: Item) returns (ok: bool)
      ensures ok == IsNewest(View(), x)
    {
      ok := x.pid in generation && generation[x.pid] == x.gen;
    }

    /** Leaving `_run`, with or without an exception. */
    method NoteOutcome(raised: bool)
      modifies this`lastError
      ensures View() == old(View()).(lastError := old(lastError) || raised)
    {
      lastError := lastError || raised;
    }

    method Finish(x: Item)
      requires WellFormed(View())
      modifies this`events
      ensures View() == Wake(old(View()), x) && WellFormed(View())
    {
      if x.pid in generation && generation[x.pid] == x.gen {
        events := events[pending[x.pid] := true];
      }
    }

    /** First locked read of `wait`. */
    method ReadEvent(p: Pid) returns (known: bool, event: nat, gen: nat)
      requires WellFormed(View())
      ensures known == (p in View().pending) && gen == Newest(View(), p)
      ensures known ==> event == View().pending[p]
    {
      known := p in pending;
      event := if known then pending[p] else 0;
      gen := if p in generation then generation[p] else 0;
    }

    /** Second locked read of `wait`. */
    method Recheck(p: Pid, event: nat, gen: nat) returns (done: bool)
      requires event < |events|
      ensures done == (Newest(View(), p) == gen && IsSet(View(), event))
    {
      done := (if p in generation then generation[p] else 0) == gen && events[event];
    }

    /** The test `all(event.is_set() for ...)` of `wait_all`. */
    method Idle() returns (idle: bool)
      requires WellFormed(View())
      ensures idle == AllSet(View())
    {
      var rest := pending.Keys;
      idle := true;
      while rest != {}
        invariant rest <= pending.Keys
        invariant idle == forall p | p in pending.Keys - rest :: events[pending[p]]
        decreases |rest|
      {
        var p :| p in rest;
        rest := rest - {p};
        idle := idle && events[pending[p]];
      }
    }
  }
}
