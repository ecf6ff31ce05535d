/** Every interleaving of submitters, waiters and the one worker thread of `PipelineWorker`.
    A step is one atomic section; `clock` numbers the steps, so instants can be compared. */
module WorkerProtocol {
  import opened Options
  import opened WorkerCore

  /** What became of one submitted generation, and when. */
  datatype Trip = Trip(
    given: nat, taken: Option<nat>, passed: Option<nat>, began: Option<nat>, ended: Option<nat>)

  /** Where the worker thread is: waiting on the queue; holding an entry; the entry passed the
      generation test; inside `_run`; about to enter `_finish`. */
  datatype Phase = Idle | Holding(item: Item) | Ready(item: Item) | Running(item: Item) | Ending(item: Item)

  /** A call of `wait` off the worker thread: before the first lock, inside `event.wait()`, before
      the second lock, returned. `known`: the process had been submitted when the call began. */
  datatype Wait =
    | Looking(pid: Pid, called: nat, known: bool)
    | Blocked(pid: Pid, called: nat, known: bool, event: nat, gen: nat)
    | Awake(pid: Pid, called: nat, known: bool, event: nat, gen: nat)
    | Returned(pid: Pid, called: nat, known: bool, result: Option<nat>, at: nat)

  /** A call of `wait_all`: before the first lock, inside the inner `wait`, before the last lock. */
  datatype WaitAll =
    | AllLooking(begun: nat)
    | AllWaiting(begun: nat, inner: Wait, todo: seq<Pid>, seen: map<Pid, nat>)
    | AllReturned(begun: nat, allAt: nat)

  datatype Call = One(wait: Wait) | All(waitAll: WaitAll)

  datatype State = State(
    core: Core, clock: nat, airborne: set<Item>, worker: Phase, trips: map<Item, Trip>, calls: map<nat, Call>)

  const INIT := State(EMPTY, 0, {}, Idle, map[], map[])

  datatype Step =
    | Submit(pid: Pid) | Put(item: Item) | Take | Check | Begin | End(raised: bool) | Finish
    | CallWait(id: nat, pid: Pid) | CallWaitAll(id: nat) | Advance(id: nat)

  function Tick(s: State): State {
    s.(clock := s.clock + 1)
  }

  /** The item the worker holds in any phase. */
  function Held(w: Phase): set<Item> {
    if w.Idle? then {} else {w.item}
  }

  // ----- one step of one `wait` call ------------------------------------------------------------

  predicate WaitEnabled(s: State, w: Wait) {
    match w
    case Looking(_, _, _) => true
    case Blocked(_, _, _, event, _) => IsSet(s.core, event)
    case Awake(_, _, _, _, _) => true
    case Returned(_, _, _, _, _) => false
  }

  function AdvanceWait(s: State, w: Wait): Wait {
    match w
    case Looking(p, called, known) =>
      if p in s.core.pending then Blocked(p, called, known, s.core.pending[p], Newest(s.core, p))
      else Returned(p, called, known, None, s.clock)
    case Blocked(p, called, known, event, gen) => Awake(p, called, known, event, gen)
    case Awake(p, called, known, event, gen) =>
      if Newest(s.core, p) == gen && IsSet(s.core, event) then Returned(p, called, known, Some(gen), s.clock)
      else Looking(p, called, known)
    case Returned(_, _, _, _, _) => w
  }

  predicate CallEnabled(s: State, c: Call) {
    match c
    case One(w) => WaitEnabled(s, w)
    case All(AllLooking(_)) => true
    case All(AllWaiting(_, inner, todo, _)) => inner.Returned? || WaitEnabled(s, inner)
    case All(AllReturned(_, _)) => false
  }

  /** `todo` holds the processes still to be waited for; the order of the dict is some order. */
  function AdvanceCall(s: State, c: Call, order: seq<Pid>): Call {
    match c
    case One(w) => One(AdvanceWait(s, w))
    case All(AllLooking(begun)) =>
      if AllSet(s.core) then All(AllReturned(begun, s.clock))
      else if order == [] then c
      else All(AllWaiting(begun, Looking(order[0], s.clock, true), order[1..], s.core.generation))
    case All(AllWaiting(begun, inner, todo, seen)) =>
      if !inner.Returned? then All(AllWaiting(begun, AdvanceWait(s, inner), todo, seen))
      else if todo != [] then All(AllWaiting(begun, Looking(todo[0], s.clock, true), todo[1..], seen))
      else if AllSet(s.core) && s.core.generation == seen then All(AllReturned(begun, s.clock))
      else All(AllLooking(begun))
    case All(AllReturned(_, _)) => c
  }

  // ----- steps ----------------------------------------------------------------------------------

  predicate Enabled(s: State, step: Step) {
    match step
    case Submit(_) => true
    case Put(x) => x in s.airborne
    case Take => s.worker.Idle? && s.core.threadAlive && s.core.queue != []
    case Check => s.worker.Holding?
    case Begin => s.worker.Ready?
    case End(_) => s.worker.Running?
    case Finish => s.worker.Ending?
    case CallWait(id, _) => id !in s.calls
    case CallWaitAll(id) => id !in s.calls
    case Advance(id) => id in s.calls && CallEnabled(s, s.calls[id])
  }

  function DoSubmit(s: State, p: Pid): State {
    var x := Item(p, Newest(s.core, p) + 1);
    Tick(s).(core := Assign(s.core, p), airborne := s.airborne + {x},
             trips := s.trips[x := Trip(s.clock, None, None, None, None)])
  }

  function DoPut(s: State, x: Item): State {
    Tick(s).(core := Enqueue(s.core, x), airborne := s.airborne - {x})
  }

  function Stamp(s: State, x: Item, t: Trip): State {
    Tick(s).(trips := s.trips[x := t])
  }

  function DoTake(s: State): State
    requires s.core.queue != [] && s.core.queue[0] in s.trips
  {
    var x := s.core.queue[0];
    Stamp(s, x, s.trips[x].(taken := Some(s.clock))).(core := Dequeue(s.core), worker := Holding(x))
  }

  function DoCheck(s: State): State
    requires s.worker.Holding? && s.worker.item in s.trips
  {
    var x := s.worker.item;
    if IsNewest(s.core, x) then Stamp(s, x, s.trips[x].(passed := Some(s.clock))).(worker := Ready(x))
    else Tick(s).(worker := Idle)
  }

  function DoBegin(s: State): State
    requires s.worker.Ready? && s.worker.item in s.trips
  {
    var x := s.worker.item;
    Stamp(s, x, s.trips[x].(began := Some(s.clock))).(worker := Running(x))
  }

  function DoEnd(s: State, raised: bool): State
    requires s.worker.Running? && s.worker.item in s.trips
  {
    var x := s.worker.item;
    Stamp(s, x, s.trips[x].(ended := Some(s.clock))).(worker := Ending(x),
          core := s.core.(lastError := s.core.lastError || raised))
  }

  function DoFinish(s: State): State
    requires s.worker.Ending?
  {
    Tick(s).(core := WorkerCore.Wake(s.core, s.worker.item), worker := Idle)
  }

  /** A listing of the submitted processes, as `list(self._pending)` gives one. */
  ghost predicate Lists(order: seq<Pid>, pids: set<Pid>) {
    |order| == |pids| && forall p :: p in order <==> p in pids
  }

  ghost predicate Next(s: State, step: Step, s': State) {
    && Enabled(s, step)
    && match step
       case Submit(p) => s' == DoSubmit(s, p)
       case Put(x) => s' == DoPut(s, x)
       case Take => s.core.queue[0] in s.trips && s' == DoTake(s)
       case Check => s.worker.item in s.trips && s' == DoCheck(s)
       case Begin => s.worker.item in s.trips && s' == DoBegin(s)
       case End(raised) => s.worker.item in s.trips && s' == DoEnd(s, raised)
       case Finish => s' == DoFinish(s)
       case CallWait(id, p) =>
         s' == Tick(s).(calls := s.calls[id := One(Looking(p, s.clock, p in s.core.pending))])
       case CallWaitAll(id) => s' == Tick(s).(calls := s.calls[id := All(AllLooking(s.clock))])
       case Advance(id) =>
         exists order :: Lists(order, s.core.pending.Keys) &&
                         s' == Tick(s).(calls := s.calls[id := AdvanceCall(s, s.calls[id], order)])
  }

  // ----- invariant ------------------------------------------------------------------------------

  /** Generations of a process are numbered 1, 2, ... */
  ghost predicate InRange(c: Core, x: Item) {
    1 <= x.gen <= Newest(c, x.pid)
  }

  ghost predicate Numbered(s: State) {
    forall x :: x in s.trips <==> InRange(s.core, x)
  }

  /** An entry is in one place only, and has not been taken before it reaches the worker. */
  ghost predicate Waiting(s: State, x: Item) {
    x in s.trips && s.trips[x].taken == None
  }

  ghost predicate Distinct(q: seq<Item>) {
    forall i, j | 0 <= i < j < |q| :: q[i] != q[j]
  }

  ghost predicate Placed(s: State) {
    && (forall x | x in s.airborne :: Waiting(s, x) && x !in s.core.queue)
    && (forall x | x in s.core.queue :: Waiting(s, x))
    && Distinct(s.core.queue)
    && (forall x | x in Held(s.worker) :: x in s.trips && s.trips[x].taken != None)
    && (s.airborne != {} || s.core.queue != [] ==> s.core.threadAlive)
  }

  /** The stamps of a trip are in order, and only the held item may be half way. */
  ghost predicate StampOk(x: Item, t: Trip, worker: Phase, clock: nat) {
    && t.given < clock
    && (t.taken.Some? ==> t.given < t.taken.value < clock)
    && (t.passed.Some? ==> t.taken.Some? && t.taken.value < t.passed.value < clock)
    && (t.began.Some? ==> t.passed.Some? && t.passed.value < t.began.value < clock)
    && (t.ended.Some? ==> t.began.Some? && t.began.value < t.ended.value < clock)
    && (t.passed.Some? <==> t.ended.Some? || worker == Ready(x) || worker == Running(x))
    && (t.began.Some? <==> t.ended.Some? || worker == Running(x))
    && (worker == Holding(x) ==> t.passed == None)
    && (worker == Ready(x) ==> t.began == None)
    && (worker == Running(x) ==> t.ended == None)
    && (worker == Ending(x) ==> t.ended.Some?)
  }

  ghost predicate Stamped(s: State) {
    forall x | x in s.trips :: StampOk(x, s.trips[x], s.worker, s.clock)
  }

  /** Of two generations of one process the later is assigned later; and if the earlier passed the
      generation test, it did so before the later was assigned. */
  ghost predicate PairOrdered(earlier: Trip, later: Trip) {
    earlier.given < later.given && (earlier.passed.Some? ==> earlier.passed.value < later.given)
  }

  ghost predicate Ordered(s: State) {
    forall x, y | x in s.trips && y in s.trips && x.pid == y.pid && x.gen < y.gen ::
      PairOrdered(s.trips[x], s.trips[y])
  }

  /** Runs of different entries do not overlap. */
  ghost predicate PairApart(a: Trip, b: Trip) {
    a.began.Some? && b.began.Some? ==>
      || (a.ended.Some? && a.ended.value < b.began.value)
      || (b.ended.Some? && b.ended.value < a.began.value)
  }

  ghost predicate Apart(s: State) {
    forall x, y | x in s.trips && y in s.trips && x != y :: PairApart(s.trips[x], s.trips[y])
  }

  /** No wakeup is lost: an unset event means its newest generation is on its way; a set event
      means the newest generation has run to its end. */
  ghost predicate Accounted(s: State) {
    forall p | p in s.core.pending :: PidAccounted(s, p)
  }

  ghost predicate PidAccounted(s: State, p: Pid)
    requires p in s.core.pending
  {
    var x := Item(p, Newest(s.core, p));
    if IsSet(s.core, s.core.pending[p]) then x in s.trips && s.trips[x].ended.Some?
    else x in s.airborne || x in s.core.queue || x in Held(s.worker)
  }

  /** The newest generation of p at instant t had finished by then, in a run begun after it was
      assigned. */
  ghost predicate FinishedAt(s: State, p: Pid, g: nat, t: nat) {
    && Item(p, g) in s.trips
    && (var x := s.trips[Item(p, g)];
        x.began.Some? && x.ended.Some? && x.given < x.began.value < x.ended.value < t)
    && forall y | y in s.trips && y.pid == p && y.gen > g :: s.trips[y].given >= t
  }

  ghost predicate WaitOk(s: State, w: Wait) {
    && w.called < s.clock
    && (w.known ==> w.pid in s.core.pending)
    && match w
       case Looking(_, _, _) => true
       case Blocked(p, _, _, event, gen) =>
         && event < |s.core.events| && p in s.core.pending && gen <= Newest(s.core, p)
         && (Newest(s.core, p) == gen ==> s.core.pending[p] == event)
       case Awake(p, _, _, event, gen) =>
         && IsSet(s.core, event) && p in s.core.pending && gen <= Newest(s.core, p)
         && (Newest(s.core, p) == gen ==> s.core.pending[p] == event)
       case Returned(p, called, known, result, at) =>
         && called < at < s.clock
         && (known ==> result.Some?)
         && (result.Some? ==> FinishedAt(s, p, result.value, at))
  }

  /** Every process submitted before t had its newest generation at t finished. */
  ghost predicate AllFinishedAt(s: State, t: nat) {
    forall p, g | Item(p, g) in s.trips && s.trips[Item(p, g)].given < t ::
      exists h :: g <= h && FinishedAt(s, p, h, t)
  }

  ghost predicate CallOk(s: State, c: Call) {
    match c
    case One(w) => WaitOk(s, w)
    case All(AllLooking(begun)) => begun < s.clock
    case All(AllWaiting(begun, inner, todo, seen)) =>
      && begun < s.clock && WaitOk(s, inner) && forall p | p in todo :: p in s.core.pending
    case All(AllReturned(begun, at)) => begun < at < s.clock && AllFinishedAt(s, at)
  }

  ghost predicate CallsOk(s: State) {
    forall id | id in s.calls :: CallOk(s, s.calls[id])
  }

  ghost predicate Inv(s: State) {
    && WellFormed(s.core) && Numbered(s) && Placed(s) && Stamped(s) && Ordered(s) && Apart(s)
    && Accounted(s) && CallsOk(s)
  }

  // ----- every step keeps the invariant ---------------------------------------------------------

  /** What any step does to the facts a call relies on. */
  ghost predicate CoreLater(c: Core, c': Core) {
    && |c.events| <= |c'.events|
    && (forall e | IsSet(c, e) :: IsSet(c', e))
    && (forall p | p in c.pending ::
          && p in c'.pending
          && Newest(c, p) <= Newest(c', p)
          && (Newest(c, p) == Newest(c', p) ==> c.pending[p] == c'.pending[p]))
  }

  ghost predicate TripLater(t: Trip, t': Trip) {
    && t'.given == t.given
    && (t.began.Some? ==> t'.began == t.began)
    && (t.ended.Some? ==> t'.ended == t.ended)
  }

  ghost predicate Later(s: State, s': State) {
    && s.clock <= s'.clock
    && CoreLater(s.core, s'.core)
    && (forall x | x in s.trips :: x in s'.trips && TripLater(s.trips[x], s'.trips[x]))
    && (forall x | x in s'.trips && x !in s.trips :: s'.trips[x].given >= s.clock)
  }

  lemma LaterKeepsFinished(s: State, s': State, p: Pid, g: nat, t: nat)
    requires Later(s, s') && t <= s.clock && FinishedAt(s, p, g, t)
    ensures FinishedAt(s', p, g, t)
  {
  }

  lemma LaterKeepsWait(s: State, s': State, w: Wait)
    requires Later(s, s') && WaitOk(s, w)
    ensures WaitOk(s', w)
  {
    if w.Returned? && w.result.Some? {
      LaterKeepsFinished(s, s', w.pid, w.result.value, w.at);
    }
  }

  lemma LaterKeepsAll(s: State, s': State, t: nat)
    requires Later(s, s') && t <= s.clock && AllFinishedAt(s, t)
    ensures AllFinishedAt(s', t)
  {
    forall p, g | Item(p, g) in s'.trips && s'.trips[Item(p, g)].given < t
      ensures exists h :: g <= h && FinishedAt(s', p, h, t)
    {
      assert Item(p, g) in s.trips;
      var h :| g <= h && FinishedAt(s, p, h, t);
      LaterKeepsFinished(s, s', p, h, t);
    }
  }

  lemma LaterKeepsCall(s: State, s': State, c: Call)
    requires Later(s, s') && CallOk(s, c)
    ensures CallOk(s', c)
  {
    hide WaitOk;
    hide AllFinishedAt;
    LaterBasics(s, s');
    hide Later;
    match c
    case One(w) => LaterKeepsWait(s, s', w);
    case All(AllWaiting(_, inner, _, _)) => LaterKeepsWait(s, s', inner);
    case All(AllReturned(_, at)) => LaterKeepsAll(s, s', at);
    case All(AllLooking(_)) =>
  }

  lemma LaterKeepsCalls(s: State, s': State)
    requires Later(s, s') && CallsOk(s) && s'.calls == s.calls
    ensures CallsOk(s')
  {
    hide Later;
    hide CallOk;
    forall id | id in s'.calls ensures CallOk(s', s'.calls[id]) {
      LaterKeepsCall(s, s', s.calls[id]);
    }
  }

  lemma LaterBasics(s: State, s': State)
    requires Later(s, s')
    ensures s.clock <= s'.clock && forall p | p in s.core.pending :: p in s'.core.pending
  {
  }

  // Submit

  lemma SubmitNumbers(s: State, p: Pid)
    requires WellFormed(s.core) && Numbered(s)
    ensures WellFormed(DoSubmit(s, p).core) && Numbered(DoSubmit(s, p))
    ensures Item(p, Newest(s.core, p) + 1) !in s.trips
  {
    AssignKeepsWellFormed(s.core, p);
    AssignCounts(s.core, p);
    hide WellFormed; hide Assign;
    var s' := DoSubmit(s, p);
    forall x ensures x in s'.trips <==> InRange(s'.core, x) {
      assert x in s.trips <==> InRange(s.core, x);
    }
  }

  lemma SubmitPlaces(s: State, p: Pid)
    requires Numbered(s) && WellFormed(s.core) && Placed(s)
    ensures Placed(DoSubmit(s, p))
  {
    hide Numbered; hide WellFormed; hide Distinct;
    SubmitNumbers(s, p);
    var s' := DoSubmit(s, p);
    assert s'.core.queue == s.core.queue;
    forall x | Waiting(s, x) ensures Waiting(s', x) {}
  }

  lemma SubmitStamps(s: State, p: Pid)
    requires Numbered(s) && WellFormed(s.core) && Placed(s) && Stamped(s)
    ensures Stamped(DoSubmit(s, p))
  {
    hide Numbered; hide WellFormed; hide Distinct;
    SubmitNumbers(s, p);
  }

  lemma SubmitOrders(s: State, p: Pid)
    requires Numbered(s) && WellFormed(s.core) && Stamped(s) && Ordered(s) && Apart(s)
    ensures Ordered(DoSubmit(s, p)) && Apart(DoSubmit(s, p))
  {
    hide WellFormed;
    SubmitNumbers(s, p);
    var s', x := DoSubmit(s, p), Item(p, Newest(s.core, p) + 1);
    forall y | y in s.trips && y.pid == p ensures y.gen < x.gen && PairOrdered(s.trips[y], s'.trips[x]) {
      OlderTrip(s, y);
    }
    hide Numbered; hide Stamped; hide PairOrdered;
  }

  lemma OlderTrip(s: State, y: Item)
    requires Numbered(s) && Stamped(s) && y in s.trips
    ensures y.gen <= Newest(s.core, y.pid) && StampOk(y, s.trips[y], s.worker, s.clock)
  {
    assert InRange(s.core, y);
  }

  lemma SubmitAccounts(s: State, p: Pid)
    requires WellFormed(s.core) && Numbered(s) && Accounted(s)
    ensures Accounted(DoSubmit(s, p))
  {
    AssignCounts(s.core, p);
    AssignFlags(s.core, p);
    SubmitNumbers(s, p);
    var s' := DoSubmit(s, p);
    hide WellFormed; hide Numbered; hide Assign; hide Newest; hide IsSet;
    forall q | q in s'.core.pending ensures PidAccounted(s', q) {
      if q != p {
        assert PidAccounted(s, q);
      }
    }
  }

  lemma SubmitCoreLater(c: Core, p: Pid)
    requires WellFormed(c)
    ensures CoreLater(c, Assign(c, p))
  {
    AssignCounts(c, p);
    AssignFlags(c, p);
    hide WellFormed; hide Assign; hide IsSet; hide Newest;
  }

  lemma NewTripLater(trips: map<Item, Trip>, x: Item, t: Trip)
    requires x !in trips
    ensures forall y | y in trips :: y in trips[x := t] && TripLater(trips[y], trips[x := t][y])
    ensures forall y | y in trips[x := t] && y !in trips :: trips[x := t][y] == t
  {
  }

  lemma SubmitLater(s: State, p: Pid)
    requires WellFormed(s.core) && Numbered(s)
    ensures Later(s, DoSubmit(s, p))
  {
    hide WellFormed; hide Numbered; hide Assign; hide CoreLater; hide Newest; hide TripLater; hide Placed;
    SubmitNumbers(s, p);
    SubmitCoreLater(s.core, p);
    NewTripLater(s.trips, Item(p, Newest(s.core, p) + 1), Trip(s.clock, None, None, None, None));
  }

  lemma SubmitKeeps(s: State, p: Pid)
    requires Inv(s)
    ensures Inv(DoSubmit(s, p))
  {
    SubmitNumbers(s, p);
    SubmitPlaces(s, p);
    SubmitStamps(s, p);
    SubmitOrders(s, p);
    SubmitAccounts(s, p);
    SubmitLater(s, p);
    LaterKeepsCalls(s, DoSubmit(s, p));
  }

  // Put

  lemma PutPlaces(s: State, x: Item)
    requires Placed(s) && x in s.airborne
    ensures Placed(DoPut(s, x))
  {
    var s' := DoPut(s, x);
    forall y | Waiting(s, y) ensures Waiting(s', y) {}
    forall i, j | 0 <= i < j < |s'.core.queue| ensures s'.core.queue[i] != s'.core.queue[j] {
      assert s'.core.queue[i] in s.core.queue;
    }
  }

  lemma PutLater(s: State, x: Item)
    ensures Later(s, DoPut(s, x))
  {
  }

  lemma PutAccounts(s: State, x: Item)
    requires Accounted(s)
    ensures Accounted(DoPut(s, x))
  {
    forall p | p in DoPut(s, x).core.pending ensures PidAccounted(DoPut(s, x), p) {
      assert PidAccounted(s, p);
    }
  }

  lemma PutKeeps(s: State, x: Item)
    requires Inv(s) && x in s.airborne
    ensures Inv(DoPut(s, x))
  {
    var s' := DoPut(s, x);
    PutPlaces(s, x);
    PutAccounts(s, x);
    PutLater(s, x);
    SameTripsOrdered(s, s');
    hide Placed; hide Apart; hide Ordered; hide PairOrdered; hide PairApart; hide Accounted; hide Later;
    LaterKeepsCalls(s, s');
    hide CallsOk;
  }

  /** Facts about trips alone survive a step that changes none of them. */
  lemma SameTripsOrdered(s: State, s': State)
    requires Numbered(s) && Ordered(s) && Apart(s) && s'.trips == s.trips && s'.core.generation == s.core.generation
    ensures Numbered(s') && Ordered(s') && Apart(s')
  {
    hide PairOrdered; hide PairApart;
    forall y ensures y in s'.trips <==> InRange(s'.core, y) {
      assert y in s.trips <==> InRange(s.core, y);
    }
  }

  // One new stamp on the held entry

  /** A step of the worker that stamps x and leaves events and generations alone. */
  ghost predicate Restamped(s: State, s': State, x: Item) {
    && x in s.trips && s'.trips.Keys == s.trips.Keys
    && (forall y | y in s.trips && y != x :: s'.trips[y] == s.trips[y])
    && s'.trips[x].given == s.trips[x].given
    && (s.trips[x].began.Some? ==> s'.trips[x].began == s.trips[x].began)
    && (s.trips[x].ended.Some? ==> s'.trips[x].ended == s.trips[x].ended)
    && s'.clock == s.clock + 1 && s'.calls == s.calls && s'.airborne == s.airborne
    && s'.core.pending == s.core.pending && s'.core.events == s.core.events
    && s'.core.generation == s.core.generation && s'.core.threadAlive == s.core.threadAlive
  }

  lemma RestampedKeeps(s: State, s': State, x: Item)
    requires Restamped(s, s', x) && WellFormed(s.core) && Numbered(s) && CallsOk(s)
    ensures WellFormed(s'.core) && Numbered(s') && CallsOk(s')
  {
    assert Later(s, s') by { hide CallsOk; hide WellFormed; hide Numbered; }
    LaterKeepsCalls(s, s');
    hide CallsOk; hide Later; hide WellFormed;
    assert WellFormed(s'.core) by { SameWellFormed(s.core, s'.core); }
    forall y ensures y in s'.trips <==> InRange(s'.core, y) {
      assert y in s.trips <==> InRange(s.core, y);
    }
  }

  lemma SameWellFormed(c: Core, c': Core)
    requires WellFormed(c) && c'.pending == c.pending && c'.events == c.events && c'.generation == c.generation
    ensures WellFormed(c')
  {
  }

  lemma RestampedOrdered(s: State, s': State, x: Item)
    requires Restamped(s, s', x) && Ordered(s)
    requires NewestOrUnpassed(s, s', x)
    ensures Ordered(s')
  {
    forall a, b | a in s'.trips && b in s'.trips && a.pid == b.pid && a.gen < b.gen
      ensures PairOrdered(s'.trips[a], s'.trips[b])
    {
      assert PairOrdered(s.trips[a], s.trips[b]);
    }
  }

  lemma RestampedApart(s: State, s': State, x: Item)
    requires Restamped(s, s', x) && Apart(s)
    requires ApartFrom(s, x, s'.trips[x])
    ensures Apart(s')
  {
    forall a, b | a in s'.trips && b in s'.trips && a != b ensures PairApart(s'.trips[a], s'.trips[b]) {
      if a != x && b != x {
        assert PairApart(s.trips[a], s.trips[b]);
      } else if a == x {
        assert PairApart(s'.trips[x], s.trips[b]);
      } else {
        assert PairApart(s'.trips[x], s.trips[a]);
      }
    }
  }

  lemma StampedElsewhere(s: State, s': State, x: Item)
    requires Restamped(s, s', x) && Stamped(s)
    requires OnlyHeld(s.worker, x) && OnlyHeld(s'.worker, x)
    requires StampOk(x, s'.trips[x], s'.worker, s'.clock)
    ensures Stamped(s')
  {
    forall y | y in s'.trips ensures StampOk(y, s'.trips[y], s'.worker, s'.clock) {
      assert StampOk(y, s.trips[y], s.worker, s.clock);
    }
  }

  ghost predicate OnlyHeld(w: Phase, x: Item) {
    w.Idle? || w.item == x
  }

  ghost predicate NewestOrUnpassed(s: State, s': State, x: Item)
    requires x in s.trips && x in s'.trips
  {
    s'.trips[x].passed == s.trips[x].passed || forall y | y in s.trips && y.pid == x.pid :: y.gen <= x.gen
  }

  ghost predicate ApartFrom(s: State, x: Item, t: Trip) {
    forall y | y in s.trips && y != x :: PairApart(t, s.trips[y])
  }

  /** A stamp keeps the invariant when its local conditions hold. */
  lemma RestampedInv(s: State, s': State, x: Item)
    requires Inv(s) && Restamped(s, s', x) && Placed(s') && Accounted(s')
    requires OnlyHeld(s.worker, x) && OnlyHeld(s'.worker, x) && x in s.trips && x in s'.trips
    requires StampOk(x, s'.trips[x], s'.worker, s'.clock)
    requires NewestOrUnpassed(s, s', x) && ApartFrom(s, x, s'.trips[x])
    ensures Inv(s')
  {
    hide Restamped; hide Placed; hide Accounted; hide StampOk; hide WellFormed; hide Numbered; hide CallsOk;
    hide Stamped; hide Ordered; hide Apart; hide OnlyHeld; hide NewestOrUnpassed; hide ApartFrom;
    RestampedKeeps(s, s', x);
    RestampedOrdered(s, s', x);
    RestampedApart(s, s', x);
    StampedElsewhere(s, s', x);
  }

  lemma TakeKeeps(s: State)
    requires Inv(s) && Enabled(s, Take)
    ensures s.core.queue[0] in s.trips && Inv(DoTake(s))
  {
    hide WellFormed; hide Numbered; hide CallsOk; hide Ordered; hide Accounted; hide Distinct;
    var x := s.core.queue[0];
    assert Waiting(s, x);
    var s' := DoTake(s);
    TakePlaces(s);
    TakeAccounts(s);
    hide Placed;
    assert StampOk(x, s.trips[x], s.worker, s.clock);
    hide Stamped; hide Apart;
    RestampedInv(s, s', x);
  }

  lemma TakePlaces(s: State)
    requires Placed(s) && Enabled(s, Take) && Waiting(s, s.core.queue[0])
    ensures Placed(DoTake(s))
  {
    var x, s' := s.core.queue[0], DoTake(s);
    assert s.core.queue == [x] + s'.core.queue;
    forall y | Waiting(s, y) && y != x ensures Waiting(s', y) {}
    assert forall i | 0 <= i < |s'.core.queue| :: s'.core.queue[i] == s.core.queue[i + 1];
  }

  lemma TakeAccounts(s: State)
    requires Accounted(s) && Enabled(s, Take) && s.core.queue[0] in s.trips
    ensures Accounted(DoTake(s))
  {
    var x, s' := s.core.queue[0], DoTake(s);
    assert s.core.queue == [x] + s'.core.queue;
    forall p | p in s'.core.pending ensures PidAccounted(s', p) {
      assert PidAccounted(s, p);
    }
  }

  /** After a stamp the queue and the airborne entries are where they were. */
  lemma HeldPlaces(s: State, s': State, x: Item)
    requires Restamped(s, s', x) && Placed(s) && s.worker != Idle && s.worker.item == x
    requires s'.core.queue == s.core.queue && s'.trips[x].taken == s.trips[x].taken
    requires OnlyHeld(s'.worker, x)
    ensures Placed(s')
  {
    forall y | Waiting(s, y) ensures Waiting(s', y) {}
  }

  lemma HeldAccounts(s: State, s': State, x: Item)
    requires Restamped(s, s', x) && Accounted(s) && s.worker != Idle && s.worker.item == x
    requires s'.core.queue == s.core.queue
    requires WellFormed(s.core) && (s'.worker.Idle? ==> !IsNewest(s.core, x)) && OnlyHeld(s'.worker, x)
    ensures Accounted(s')
  {
    forall p | p in s'.core.pending ensures PidAccounted(s', p) {
      assert PidAccounted(s, p);
    }
  }

  ghost predicate Stamping(s: State, s': State, x: Item) {
    && Restamped(s, s', x) && s.worker != Idle && s.worker.item == x && OnlyHeld(s'.worker, x)
    && s'.core.queue == s.core.queue && s'.trips[x].taken == s.trips[x].taken
    && (s'.worker.Idle? ==> !IsNewest(s.core, x))
    && StampOk(x, s'.trips[x], s'.worker, s'.clock)
  }

  /** The steps Check, Begin and End: the held entry gets one more stamp. */
  lemma StampingKeeps(s: State, s': State, x: Item)
    requires Inv(s) && Stamping(s, s', x) && NewestOrUnpassed(s, s', x) && ApartFrom(s, x, s'.trips[x])
    ensures Inv(s')
  {
    hide WellFormed; hide Numbered; hide CallsOk; hide Ordered; hide Accounted; hide Distinct; hide Placed;
    hide Stamped; hide StampOk; hide Apart; hide NewestOrUnpassed; hide ApartFrom; hide IsNewest;
    hide Restamped; hide PairOrdered; hide PairApart;
    HeldPlaces(s, s', x);
    HeldAccounts(s, s', x);
    assert x in s.trips && x in s'.trips by { RestampedHas(s, s', x); }
    RestampedInv(s, s', x);
  }

  lemma RestampedHas(s: State, s': State, x: Item)
    requires Restamped(s, s', x)
    ensures x in s.trips && x in s'.trips
  {
  }

  lemma HeldFacts(s: State)
    requires Inv(s) && s.worker != Idle
    ensures s.worker.item in s.trips && StampOk(s.worker.item, s.trips[s.worker.item], s.worker, s.clock)
    ensures s.trips[s.worker.item].taken != None
  {
    hide WellFormed; hide Numbered; hide CallsOk; hide Ordered; hide Accounted; hide Distinct; hide Apart;
    hide StampOk;
    assert s.worker.item in Held(s.worker);
  }

  lemma KeepsApart(s: State, x: Item, t: Trip)
    requires Apart(s) && x in s.trips && t.began == s.trips[x].began && t.ended == s.trips[x].ended
    ensures ApartFrom(s, x, t)
  {
    forall y | y in s.trips && y != x ensures PairApart(t, s.trips[y]) {
      assert PairApart(s.trips[x], s.trips[y]);
    }
  }

  lemma NewestIsLast(s: State, x: Item)
    requires Numbered(s) && IsNewest(s.core, x)
    ensures forall y | y in s.trips && y.pid == x.pid :: y.gen <= x.gen
  {
    forall y | y in s.trips && y.pid == x.pid ensures y.gen <= x.gen {
      assert InRange(s.core, y);
    }
  }

  ghost predicate HeldOk(s: State) {
    s.worker != Idle && s.worker.item in s.trips
    && StampOk(s.worker.item, s.trips[s.worker.item], s.worker, s.clock)
    && s.trips[s.worker.item].taken != None
  }

  lemma CheckStamping(s: State)
    requires HeldOk(s) && s.worker.Holding?
    ensures Stamping(s, DoCheck(s), s.worker.item)
  {
  }

  lemma CheckKeeps(s: State)
    requires Inv(s) && Enabled(s, Check)
    ensures s.worker.item in s.trips && Inv(DoCheck(s))
  {
    HeldFacts(s);
    CheckStamping(s);
    hide WellFormed; hide CallsOk; hide Ordered; hide Accounted; hide Placed; hide Stamped; hide Stamping;
    var x, s' := s.worker.item, DoCheck(s);
    KeepsApart(s, x, s'.trips[x]);
    hide ApartFrom; hide Apart;
    if IsNewest(s.core, x) {
      NewestIsLast(s, x);
    }
    hide Numbered; hide StampOk;
    StampingKeeps(s, s', x);
  }

  lemma BeginStamping(s: State)
    requires HeldOk(s) && s.worker.Ready?
    ensures Stamping(s, DoBegin(s), s.worker.item)
  {
  }

  /** A run that begins now begins after every run that has ended, and no other is open. */
  lemma BeginApart(s: State)
    requires Stamped(s) && HeldOk(s) && s.worker.Ready?
    ensures ApartFrom(s, s.worker.item, DoBegin(s).trips[s.worker.item])
  {
    forall y | y in s.trips && y != s.worker.item
      ensures PairApart(DoBegin(s).trips[s.worker.item], s.trips[y])
    {
      assert StampOk(y, s.trips[y], s.worker, s.clock);
    }
  }

  lemma BeginKeeps(s: State)
    requires s.worker.Ready? && s.worker.item in s.trips && Inv(s)
    ensures Inv(DoBegin(s))
  {
    HeldFacts(s);
    BeginStamping(s);
    BeginApart(s);
    hide WellFormed; hide Numbered; hide CallsOk; hide Ordered; hide Accounted; hide Placed; hide Stamped;
    hide Stamping; hide Apart; hide ApartFrom; hide StampOk;
    StampingKeeps(s, DoBegin(s), s.worker.item);
  }

  lemma EndStamping(s: State, raised: bool)
    requires HeldOk(s) && s.worker.Running?
    ensures Stamping(s, DoEnd(s, raised), s.worker.item)
  {
  }

  lemma EndApart(s: State, raised: bool)
    requires Stamped(s) && Apart(s) && HeldOk(s) && s.worker.Running?
    ensures ApartFrom(s, s.worker.item, DoEnd(s, raised).trips[s.worker.item])
  {
    var x := s.worker.item;
    forall y | y in s.trips && y != x ensures PairApart(DoEnd(s, raised).trips[x], s.trips[y]) {
      assert StampOk(y, s.trips[y], s.worker, s.clock);
      assert PairApart(s.trips[x], s.trips[y]);
    }
  }

  lemma EndKeeps(s: State, raised: bool)
    requires s.worker.Running? && s.worker.item in s.trips && Inv(s)
    ensures Inv(DoEnd(s, raised))
  {
    HeldFacts(s);
    EndStamping(s, raised);
    EndApart(s, raised);
    hide WellFormed; hide Numbered; hide CallsOk; hide Ordered; hide Accounted; hide Placed; hide Stamped;
    hide Stamping; hide Apart; hide ApartFrom; hide StampOk;
    StampingKeeps(s, DoEnd(s, raised), s.worker.item);
  }

  // Finish

  lemma WakeFacts(c: Core, x: Item)
    requires WellFormed(c)
    ensures var c' := WorkerCore.Wake(c, x);
            && WellFormed(c') && c'.pending == c.pending && c'.generation == c.generation && c'.queue == c.queue
            && |c'.events| == |c.events| && c'.threadAlive == c.threadAlive
            && forall e :: IsSet(c', e) <==> IsSet(c, e) || (IsNewest(c, x) && e == c.pending[x.pid])
  {
  }

  lemma FinishPlaces(s: State)
    requires WellFormed(s.core) && Placed(s) && s.worker.Ending?
    ensures Placed(DoFinish(s))
  {
    WakeFacts(s.core, s.worker.item);
    hide WellFormed; hide Distinct;
    forall y | Waiting(s, y) ensures Waiting(DoFinish(s), y) {}
  }

  lemma FinishStamps(s: State)
    requires Stamped(s) && s.worker.Ending?
    ensures Stamped(DoFinish(s))
  {
    forall y | y in s.trips ensures StampOk(y, s.trips[y], Idle, s.clock + 1) {
      assert StampOk(y, s.trips[y], s.worker, s.clock);
    }
  }

  lemma FinishAccounts(s: State)
    requires WellFormed(s.core) && Accounted(s) && s.worker.Ending? && HeldOk(s)
    ensures Accounted(DoFinish(s))
  {
    var x, s' := s.worker.item, DoFinish(s);
    WakeFacts(s.core, x);
    assert s.trips[x].ended.Some?;
    hide StampOk;
    forall p | p in s'.core.pending ensures PidAccounted(s', p) {
      assert PidAccounted(s, p);
      assert p != x.pid && x.pid in s.core.pending ==> s.core.pending[p] != s.core.pending[x.pid];
    }
  }

  lemma FinishLater(s: State)
    requires WellFormed(s.core) && s.worker.Ending?
    ensures Later(s, DoFinish(s))
  {
    WakeFacts(s.core, s.worker.item);
    hide WellFormed; hide WorkerCore.Wake; hide IsNewest;
  }

  lemma FinishKeeps(s: State)
    requires Inv(s) && Enabled(s, Finish)
    ensures Inv(DoFinish(s))
  {
    var s' := DoFinish(s);
    HeldFacts(s);
    FinishPlaces(s);
    FinishStamps(s);
    FinishAccounts(s);
    WakeFacts(s.core, s.worker.item);
    hide Placed; hide Stamped; hide Accounted; hide WellFormed; hide StampOk; hide WorkerCore.Wake; hide IsNewest;
    hide IsSet;
    SameTripsOrdered(s, s');
    FinishLater(s);
    hide Numbered; hide Ordered; hide Apart; hide Later; hide CallsOk;
    LaterKeepsCalls(s, s');
  }

  // Calls

  /** The newest generation of a process whose event is set has finished by now. */
  lemma SetMeansFinished(s: State, p: Pid)
    requires Inv(s) && p in s.core.pending && IsSet(s.core, s.core.pending[p])
    ensures FinishedAt(s, p, Newest(s.core, p), s.clock)
  {
    assert p in s.core.generation;
    hide CallsOk; hide Ordered; hide Placed; hide Apart; hide WellFormed;
    var x := Item(p, Newest(s.core, p));
    assert PidAccounted(s, p);
    assert StampOk(x, s.trips[x], s.worker, s.clock);
    NewestIsLast(s, x);
  }

  lemma AllSetMeansFinished(s: State)
    requires Inv(s) && AllSet(s.core)
    ensures AllFinishedAt(s, s.clock)
  {
    forall p, g | Item(p, g) in s.trips && s.trips[Item(p, g)].given < s.clock
      ensures exists h :: g <= h && FinishedAt(s, p, h, s.clock)
    {
      assert InRange(s.core, Item(p, g));
      assert p in s.core.generation && p in s.core.pending;
      SetMeansFinished(s, p);
    }
  }

  lemma AdvanceWaitOk(s: State, w: Wait)
    requires Inv(s) && WaitOk(s, w) && WaitEnabled(s, w)
    ensures WaitOk(Tick(s), AdvanceWait(s, w))
  {
    hide FinishedAt; hide Numbered; hide Placed; hide Stamped; hide Ordered; hide Apart; hide Accounted; hide CallsOk;
    if w.Awake? && Newest(s.core, w.pid) == w.gen && IsSet(s.core, w.event) {
      SetMeansFinished(s, w.pid);
      LaterKeepsFinished(s, Tick(s), w.pid, w.gen, s.clock);
    } else if w.Looking? && w.pid in s.core.pending {
      assert s.core.pending[w.pid] < |s.core.events|;
    }
  }

  lemma ReturnAllOk(s: State, begun: nat)
    requires Inv(s) && AllSet(s.core) && begun < s.clock
    ensures CallOk(Tick(s), All(AllReturned(begun, s.clock)))
  {
    hide Inv; hide AllFinishedAt; hide AllSet;
    AllSetMeansFinished(s);
    assert Later(s, Tick(s));
    LaterKeepsAll(s, Tick(s), s.clock);
  }

  lemma StartInnerOk(s: State, begun: nat, p: Pid, todo: seq<Pid>, seen: map<Pid, nat>)
    requires begun < s.clock && p in s.core.pending && forall q | q in todo :: q in s.core.pending
    ensures CallOk(Tick(s), All(AllWaiting(begun, Looking(p, s.clock, true), todo, seen)))
  {
  }

  lemma AdvanceAllOk(s: State, w: WaitAll, order: seq<Pid>)
    requires Inv(s) && CallOk(s, All(w)) && CallEnabled(s, All(w)) && Lists(order, s.core.pending.Keys)
    ensures CallOk(Tick(s), AdvanceCall(s, All(w), order))
  {
    hide Inv; hide AllFinishedAt; hide AllSet; hide WaitOk; hide WaitEnabled; hide AdvanceWait;
    match w
    case AllLooking(begun) =>
      if AllSet(s.core) {
        ReturnAllOk(s, begun);
      } else if order != [] {
        assert order[0] in order && forall q | q in order[1..] :: q in order;
        StartInnerOk(s, begun, order[0], order[1..], s.core.generation);
      }
    case AllWaiting(begun, inner, todo, seen) =>
      if !inner.Returned? {
        AdvanceWaitOk(s, inner);
      } else if todo != [] {
        assert todo[0] in todo && forall q | q in todo[1..] :: q in todo;
        StartInnerOk(s, begun, todo[0], todo[1..], seen);
      } else if AllSet(s.core) {
        ReturnAllOk(s, begun);
      }
    case AllReturned(_, _) =>
  }

  lemma AdvanceCallOk(s: State, c: Call, order: seq<Pid>)
    requires Inv(s) && CallOk(s, c) && CallEnabled(s, c) && Lists(order, s.core.pending.Keys)
    ensures CallOk(Tick(s), AdvanceCall(s, c, order))
  {
    hide Inv; hide WaitOk; hide WaitEnabled; hide AdvanceWait;
    match c
    case One(w) => AdvanceWaitOk(s, w);
    case All(w) =>
      hide CallOk; hide CallEnabled; hide AdvanceCall;
      AdvanceAllOk(s, w, order);
  }

  lemma CallStepKeeps(s: State, id: nat, c: Call)
    requires Inv(s) && CallOk(Tick(s), c)
    ensures Inv(Tick(s).(calls := s.calls[id := c]))
  {
    var t := Tick(s);
    var s' := t.(calls := s.calls[id := c]);
    assert Later(s, t);
    LaterKeepsCalls(s, t);
    hide Later;
    SameTripsOrdered(s, s');
    hide Numbered; hide Ordered; hide Apart; hide WellFormed;
    CallReadsNoCalls(t, s', c);
    forall i | i in s'.calls ensures CallOk(s', s'.calls[i]) {
      if i != id {
        assert CallOk(t, t.calls[i]);
        CallReadsNoCalls(t, s', t.calls[i]);
      }
    }
    hide CallsOk; hide CallOk;
    assert Placed(s') by { forall y | Waiting(s, y) ensures Waiting(s', y) {} }
    assert Accounted(s') by {
      forall p | p in s'.core.pending ensures PidAccounted(s', p) { assert PidAccounted(s, p); }
    }
  }

  lemma CallReadsNoCalls(s: State, s': State, c: Call)
    requires CallOk(s, c) && s' == s.(calls := s'.calls)
    ensures CallOk(s', c)
  {
    hide CallOk;
    assert Later(s, s');
    LaterKeepsCall(s, s', c);
  }

  lemma NewCallsOk(s: State, p: Pid)
    ensures CallOk(Tick(s), One(Looking(p, s.clock, p in s.core.pending)))
    ensures CallOk(Tick(s), All(AllLooking(s.clock)))
  {
  }

  /** Every step keeps the invariant. */
  lemma NextKeeps(s: State, step: Step, s': State)
    requires Inv(s) && Next(s, step, s')
    ensures Inv(s')
  {
    hide Inv; hide CallOk; hide CallEnabled; hide AdvanceCall;
    match step
    case Submit(p) => SubmitKeeps(s, p);
    case Put(x) => PutKeeps(s, x);
    case Take => TakeKeeps(s);
    case Check => CheckKeeps(s);
    case Begin =>
      HeldFacts(s);
      BeginKeeps(s);
    case End(raised) =>
      HeldFacts(s);
      EndKeeps(s, raised);
    case Finish => FinishKeeps(s);
    case CallWait(id, p) =>
      NewCallsOk(s, p);
      CallStepKeeps(s, id, One(Looking(p, s.clock, p in s.core.pending)));
    case CallWaitAll(id) =>
      NewCallsOk(s, "");
      CallStepKeeps(s, id, All(AllLooking(s.clock)));
    case Advance(id) =>
      var order :| Lists(order, s.core.pending.Keys) &&
                   s' == Tick(s).(calls := s.calls[id := AdvanceCall(s, s.calls[id], order)]);
      InvCall(s, id);
      AdvanceCallOk(s, s.calls[id], order);
      CallStepKeeps(s, id, AdvanceCall(s, s.calls[id], order));
  }

  lemma InvCall(s: State, id: nat)
    requires Inv(s) && id in s.calls
    ensures CallOk(s, s.calls[id])
  {
  }

  // ----- runs -----------------------------------------------------------------------------------

  /** A finite run: states linked by steps. */
  ghost predicate IsRun(states: seq<State>, steps: seq<Step>) {
    && |states| == |steps| + 1
    && forall i | 0 <= i < |steps| :: Next(states[i], steps[i], states[i + 1])
  }

  ghost predicate Reachable(s: State) {
    exists states, steps :: IsRun(states, steps) && states[0] == INIT && states[|steps|] == s
  }

  lemma {:induction false} RunKeeps(states: seq<State>, steps: seq<Step>, n: nat)
    requires IsRun(states, steps) && Inv(states[0]) && n <= |steps|
    ensures Inv(states[n])
    decreases n
  {
    if n > 0 {
      hide Inv; hide Next;
      RunKeeps(states, steps, n - 1);
      NextKeeps(states[n - 1], steps[n - 1], states[n]);
    }
  }

  lemma StartsWell()
    ensures Inv(INIT)
  {
  }

  lemma ReachableInv(s: State)
    requires Reachable(s)
    ensures Inv(s)
  {
    hide Inv;
    var states, steps :| IsRun(states, steps) && states[0] == INIT && states[|steps|] == s;
    StartsWell();
    RunKeeps(states, steps, |steps|);
  }

  // ----- what readers get -----------------------------------------------------------------------

  /** `wait(p)`, called after a submit of p, returns only if at one instant inside the call the
      newest generation of p had finished, in a run begun after that generation was assigned. */
  lemma WaitNeverReturnsEarly(s: State, id: nat)
    requires Reachable(s) && id in s.calls && s.calls[id].One? && s.calls[id].wait.Returned?
    ensures var w := s.calls[id].wait;
            w.called < w.at < s.clock &&
            (w.known ==> w.result.Some? && FinishedAt(s, w.pid, w.result.value, w.at))
  {
    ReachableInv(s);
    InvCall(s, id);
  }

  /** `wait_all` returns only if, at one instant inside the call, everything submitted before that
      instant had run to its end in its newest generation. */
  lemma WaitAllNeverReturnsEarly(s: State, id: nat)
    requires Reachable(s) && id in s.calls && s.calls[id].All? && s.calls[id].waitAll.AllReturned?
    ensures var w := s.calls[id].waitAll;
            w.begun < w.allAt < s.clock && AllFinishedAt(s, w.allAt)
  {
    ReachableInv(s);
    InvCall(s, id);
  }

  /** In every reachable state: runs never overlap, and a generation superseded before it left the
      queue never runs. */
  lemma RunsAreExclusive(s: State, x: Item, y: Item)
    requires Reachable(s) && x in s.trips && y in s.trips
    ensures x != y && s.trips[x].began.Some? && s.trips[y].began.Some? ==>
              PairApart(s.trips[x], s.trips[y])
    ensures x.pid == y.pid && x.gen < y.gen && s.trips[x].taken.Some? && s.trips[y].given < s.trips[x].taken.value ==>
              s.trips[x].began == None
  {
    ReachableInv(s);
    assert StampOk(x, s.trips[x], s.worker, s.clock);
    hide WellFormed; hide Numbered; hide CallsOk; hide Accounted; hide Placed; hide Stamped;
  }

  /** No wakeup is lost: in every reachable state an unset event means that the newest generation
      of its process is about to be put, in the queue, or with the worker. */
  lemma NoLostWakeup(s: State, p: Pid)
    requires Reachable(s) && p in s.core.pending && !IsSet(s.core, s.core.pending[p])
    ensures var x := Item(p, Newest(s.core, p));
            x in s.airborne || x in s.core.queue || x in Held(s.worker)
  {
    ReachableInv(s);
    assert PidAccounted(s, p);
  }

  // ----- draining -------------------------------------------------------------------------------

  predicate SystemStep(step: Step) {
    step.Put? || step.Take? || step.Check? || step.Begin? || step.End? || step.Finish?
  }

  function Rank(w: Phase): nat {
    match w
    case Idle => 0
    case Ending(_) => 1
    case Running(_) => 2
    case Ready(_) => 3
    case Holding(_) => 4
  }

  /** Work left: puts to come, entries in the queue, stages of the held entry. */
  function Load(s: State): nat {
    6 * |s.airborne| + 5 * |s.core.queue| + Rank(s.worker)
  }

  lemma LoadOfCore(c: Core, x: Item)
    ensures WorkerCore.Wake(c, x).queue == c.queue && |Enqueue(c, x).queue| == |c.queue| + 1
  {
  }

  lemma PutFalls(s: State, x: Item)
    requires x in s.airborne
    ensures Load(DoPut(s, x)) < Load(s)
  {
    assert |s.airborne - {x}| == |s.airborne| - 1;
  }

  lemma TakeFalls(s: State)
    requires s.worker.Idle? && s.core.queue != [] && s.core.queue[0] in s.trips
    ensures Load(DoTake(s)) < Load(s)
  {
  }

  lemma HeldFalls(s: State, raised: bool)
    requires !s.worker.Idle? && s.worker.item in s.trips
    ensures s.worker.Holding? ==> Load(DoCheck(s)) < Load(s)
    ensures s.worker.Ready? ==> Load(DoBegin(s)) < Load(s)
    ensures s.worker.Running? ==> Load(DoEnd(s, raised)) < Load(s)
  {
    hide IsNewest;
  }

  lemma FinishFalls(s: State)
    requires s.worker.Ending?
    ensures Load(DoFinish(s)) < Load(s)
  {
    LoadOfCore(s.core, s.worker.item);
    hide WorkerCore.Wake;
  }

  lemma CallsKeepLoad(s: State, s': State)
    requires s' == Tick(s).(calls := s'.calls)
    ensures Load(s') == Load(s)
  {
  }

  /** Put and worker steps use up the load; nothing but a submit adds to it. */
  lemma LoadFalls(s: State, step: Step, s': State)
    requires Next(s, step, s')
    ensures SystemStep(step) ==> Load(s') < Load(s)
    ensures !SystemStep(step) && !step.Submit? ==> Load(s') == Load(s)
  {
    hide AdvanceCall; hide CallEnabled; hide DoSubmit; hide DoPut; hide DoTake; hide DoCheck; hide DoBegin; hide DoEnd;
    hide DoFinish; hide Load; hide Lists;
    match step
    case Submit(_) =>
    case Put(x) => PutFalls(s, x);
    case Take => TakeFalls(s);
    case Check => HeldFalls(s, false);
    case Begin => HeldFalls(s, false);
    case End(raised) => HeldFalls(s, raised);
    case Finish => FinishFalls(s);
    case _ => CallsKeepLoad(s, s');
  }

  /** While some event is unset a put or worker step is possible. */
  lemma CanProgress(s: State, p: Pid)
    requires Reachable(s) && p in s.core.pending && !IsSet(s.core, s.core.pending[p])
    ensures exists step, s' :: SystemStep(step) && Next(s, step, s')
  {
    ReachableInv(s);
    NoLostWakeup(s, p);
    StepOf(s, Item(p, Newest(s.core, p)));
  }

  lemma StepOf(s: State, x: Item)
    requires Placed(s) && (x in s.airborne || x in s.core.queue || x in Held(s.worker))
    ensures exists step, s' :: SystemStep(step) && Next(s, step, s')
  {
    hide Assign; hide AdvanceCall; hide CallEnabled; hide Distinct;
    match s.worker
    case Idle =>
      if x in s.airborne {
        assert Next(s, Put(x), DoPut(s, x));
      } else {
        assert Waiting(s, s.core.queue[0]);
        assert Next(s, Take, DoTake(s));
      }
    case Holding(y) =>
      assert y in Held(s.worker);
      assert Next(s, Check, DoCheck(s));
    case Ready(y) =>
      assert y in Held(s.worker);
      assert Next(s, Begin, DoBegin(s));
    case Running(y) =>
      assert y in Held(s.worker);
      assert Next(s, End(true), DoEnd(s, true));
    case Ending(y) =>
      assert Next(s, Finish, DoFinish(s));
  }

  function SystemSteps(steps: seq<Step>): nat {
    if steps == [] then 0
    else SystemSteps(steps[..|steps| - 1]) + if SystemStep(steps[|steps| - 1]) then 1 else 0
  }

  /** Without further submits a run has at most Load(s) put and worker steps, whatever the waiters do
      and whether or not `_run` raises. */
  lemma {:induction false} DrainsInBoundedSteps(states: seq<State>, steps: seq<Step>)
    requires IsRun(states, steps) && forall i | 0 <= i < |steps| :: !steps[i].Submit?
    ensures SystemSteps(steps) + Load(states[|steps|]) <= Load(states[0])
  {
    hide Next; hide Load;
    if steps != [] {
      var n := |steps| - 1;
      DrainsInBoundedSteps(states[..n + 1], steps[..n]);
      LoadFalls(states[n], steps[n], states[n + 1]);
    }
  }

  /** When no put or worker step is left, every current event is set. */
  lemma DrainedMeansAllSet(s: State)
    requires Reachable(s) && !exists step, s' :: SystemStep(step) && Next(s, step, s')
    ensures AllSet(s.core)
  {
    hide Next;
    forall p | p in s.core.pending ensures IsSet(s.core, s.core.pending[p]) {
      if !IsSet(s.core, s.core.pending[p]) {
        CanProgress(s, p);
      }
    }
  }
}
