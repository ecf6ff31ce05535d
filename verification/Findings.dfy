/** Findings, the decisions of inspectors (application/review.py, domain/models.py) and the ordered dict of
    a process that holds them. Comments are given already stripped; the fields a decision never touches are
    kept together as `body`. */
module Findings {
  import opened Options

  datatype Status =
    | Candidate | ConfirmedViolation | NegativeVerified | AutoNoDifference | MissingEvidence | NotApplicable
    | NotComparable | LowQuality | Abstain | ClarificationRequired | Suspicion

  datatype Action = Confirm | Reject | RequestClarification | Split | Unknown

  /** `byHuman` is history: whether the actor was human when the decision was made. */
  datatype Decision = Decision(who: string, byHuman: bool, action: Action, reason: Option<string>, comment: string)

  datatype Finding = Finding(
    id: string, rule: string, status: Status, group: Option<string>,
    expected: Option<string>, actual: Option<string>, body: string, decision: Option<Decision>)

  datatype Actor = Actor(name: string, human: bool)

  predicate HumanOnly(s: Status) {
    s == ConfirmedViolation || s == NegativeVerified
  }

  predicate NeedsEvidence(s: Status) {
    s == Candidate || s == ConfirmedViolation || s == NegativeVerified || s == AutoNoDifference || s == Suspicion
  }

  /** The check of the constructor. */
  predicate WellFormed(f: Finding) {
    && (NeedsEvidence(f.status) ==> f.group.Some? && f.group.value != "")
    && (f.status == ConfirmedViolation ==>
          f.decision.Some? && f.decision.value.action == Confirm && f.decision.value.comment != "")
    && (f.status == NegativeVerified ==>
          && f.decision.Some? && f.decision.value.action == Reject
          && f.decision.value.reason.Some? && f.decision.value.comment != "")
  }

  /** A status only a human may give was given by a human. */
  predicate HumanSigned(f: Finding) {
    HumanOnly(f.status) ==> f.decision.Some? && f.decision.value.byHuman
  }

  /** What the matrix makes: no decision, hence by the constructor no human-only status. */
  predicate MachineMade(f: Finding) {
    WellFormed(f) && f.decision == None
  }

  // ----- review -----------------------------------------------------------------------------------------------

  predicate CanBecome(current: Status, target: Status) {
    match current
    case Candidate => target == ConfirmedViolation || target == NegativeVerified || target == ClarificationRequired
    case ClarificationRequired => target == Candidate || target == ConfirmedViolation || target == NegativeVerified
    case Suspicion => target == Candidate || target == ConfirmedViolation || target == NegativeVerified
    case AutoNoDifference => target == NegativeVerified
    case NotApplicable => target == Candidate
    case _ => false
  }

  function TargetOf(action: Action): Option<Status> {
    match action
    case Confirm => Some(ConfirmedViolation)
    case Reject => Some(NegativeVerified)
    case RequestClarification => Some(ClarificationRequired)
    case _ => None
  }

  datatype Fault =
    | NotAtomic | UnknownAction | NeedsReason | NeedsComment | NeedsHuman | BadTransition | BadFinding
    | EmptyBatch | BigBatch | RepeatedId | NotCandidate
    | NoProcess | NoFinding | Frozen | WrongState | Unprocessed | HasDecisions | NoFile | NoContent | RefusedStamp
    | SyncStarted | RunFailed | StoreFailed

  datatype Result<T> = Ok(value: T) | Refused(fault: Fault)

  /** `advance_finding` */
  function AdvanceFinding(current: Status, target: Status, actor: Actor): Option<Fault> {
    if HumanOnly(target) && !actor.human then Some(NeedsHuman)
    else if current == NotApplicable && !actor.human then Some(NeedsHuman)
    else if !CanBecome(current, target) then Some(BadTransition)
    else None
  }

  /** `review` */
  function Review(f: Finding, actor: Actor, action: Action, reason: Option<string>, comment: string): Result<Finding> {
    if action == Split then Refused(NotAtomic)
    else if TargetOf(action) == None then Refused(UnknownAction)
    else if action == Reject && reason == None then Refused(NeedsReason)
    else if comment == "" then Refused(NeedsComment)
    else
      var target := TargetOf(action).value;
      var fault := AdvanceFinding(f.status, target, actor);
      if fault.Some? then Refused(fault.value)
      else
        var decision := Decision(actor.name, actor.human, action, reason, comment);
        var updated := f.(status := target, decision := Some(decision));
        if WellFormed(updated) then Ok(updated) else Refused(BadFinding)
  }

  /** An accepted review signs the finding and changes nothing else of it; it never makes a candidate, a
      machine never gives a human-only status, and decided findings stay decided. */
  lemma ReviewSigns(f: Finding, actor: Actor, action: Action, reason: Option<string>, comment: string)
    requires Review(f, actor, action, reason, comment).Ok?
    ensures var r := Review(f, actor, action, reason, comment).value;
            && r.(status := f.status, decision := f.decision) == f
            && Some(r.status) == TargetOf(action) && r.status != Candidate
            && r.decision.Some? && r.decision.value.who == actor.name && r.decision.value.action == action
            && WellFormed(r) && HumanSigned(r)
            && (HumanOnly(r.status) ==> actor.human)
            && !HumanOnly(f.status)
  {
  }

  // ----- confirming a batch -----------------------------------------------------------------------------------

  const MASS_LIMIT := 50

  predicate DistinctIds(fs: seq<Finding>) {
    forall i, j | 0 <= i < j < |fs| :: fs[i].id != fs[j].id
  }

  predicate AllCandidates(fs: seq<Finding>) {
    forall f | f in fs :: f.status == Candidate
  }

  /** The checks of `confirm_candidates` before the first review. */
  function BatchFault(fs: seq<Finding>, actor: Actor): Option<Fault> {
    if fs == [] then Some(EmptyBatch)
    else if |fs| > MASS_LIMIT then Some(BigBatch)
    else if !DistinctIds(fs) then Some(RepeatedId)
    else if !actor.human then Some(NeedsHuman)
    else if !AllCandidates(fs) then Some(NotCandidate)
    else None
  }

  function Confirmed(f: Finding, actor: Actor, comment: string): Finding {
    f.(status := ConfirmedViolation, decision := Some(Decision(actor.name, actor.human, Confirm, None, comment)))
  }

  function ConfirmEach(fs: seq<Finding>, actor: Actor, comment: string): seq<Finding> {
    seq(|fs|, i requires 0 <= i < |fs| => Confirmed(fs[i], actor, comment))
  }

  /** `confirm_candidates`: the batch as a whole or nothing. */
  method ConfirmCandidates(fs: seq<Finding>, actor: Actor, comment: string) returns (r: Result<seq<Finding>>)
    requires forall f | f in fs :: WellFormed(f)
    ensures r ==
            if BatchFault(fs, actor).Some? then Refused(BatchFault(fs, actor).value)
            else if comment == "" then Refused(NeedsComment)
            else Ok(ConfirmEach(fs, actor, comment))
  {
    var fault := BatchFault(fs, actor);
    if fault.Some? {
      return Refused(fault.value);
    }
    hide BatchFault;
    var updated: seq<Finding> := [];
    for i := 0 to |fs|
      invariant updated == ConfirmEach(fs, actor, comment)[..i]
      invariant i > 0 ==> comment != ""
    {
      assert fs[i] in fs;
      CandidateConfirms(fs, actor, comment, i);
      var one := Review(fs[i], actor, Confirm, None, comment);
      if one.Refused? {
        return Refused(one.fault);
      }
      updated := updated + [one.value];
    }
    BatchNotEmpty(fs, actor);
    assert updated == ConfirmEach(fs, actor, comment);
    r := Ok(updated);
  }

  lemma CandidateConfirms(fs: seq<Finding>, actor: Actor, comment: string, i: nat)
    requires BatchFault(fs, actor) == None && i < |fs| && WellFormed(fs[i])
    ensures Review(fs[i], actor, Confirm, None, comment) ==
            if comment == "" then Refused(NeedsComment) else Ok(Confirmed(fs[i], actor, comment))
  {
    assert fs[i] in fs;
  }

  lemma BatchNotEmpty(fs: seq<Finding>, actor: Actor)
    requires BatchFault(fs, actor) == None
    ensures fs != []
  {
  }

  // ----- the dict of findings ----------------------------------------------------------------------------------

  /** Keys in insertion order and the finding of each. */
  datatype Book = Book(order: seq<string>, at: map<string, Finding>)

  ghost predicate Sound(b: Book) {
    && (forall k :: k in b.at <==> k in b.order)
    && forall i, j | 0 <= i < j < |b.order| :: b.order[i] != b.order[j]
  }

  function Set(b: Book, key: string, f: Finding): Book {
    Book(if key in b.at then b.order else b.order + [key], b.at[key := f])
  }

  lemma SetSound(b: Book, key: string, f: Finding)
    requires Sound(b)
    ensures Sound(Set(b, key, f))
  {
  }

  /** `evidence_group_id or finding_id` */
  function KeyOf(f: Finding): string {
    if f.group.Some? && f.group.value != "" then f.group.value else f.id
  }

  /** The condition under which a decision survives a re-run. */
  predicate Carries(previous: Finding, found: Finding) {
    && previous.decision.Some?
    && previous.group == found.group && previous.rule == found.rule
    && previous.expected == found.expected && previous.actual == found.actual
    && found.status == Candidate && HumanOnly(previous.status)
  }

  /** `_carry_inspector_decision` */
  function Carry(previous: Finding, found: Finding): Finding {
    if previous.decision == None then found
    else if previous.group != found.group then found
    else if previous.rule != found.rule then found
    else if !(previous.expected == found.expected && previous.actual == found.actual) then found
    else if found.status != Candidate then found
    else if !HumanOnly(previous.status) then found
    else found.(status := previous.status, decision := previous.decision)
  }

  /** The decision moves exactly when the finding is the same candidate with the same values; otherwise the
      found one stands as it is. */
  lemma CarryExactly(previous: Finding, found: Finding)
    requires MachineMade(found) && WellFormed(previous) && HumanSigned(previous)
    ensures var r := Carry(previous, found);
            && (r.decision.Some? <==> Carries(previous, found))
            && (HumanOnly(r.status) <==> Carries(previous, found))
            && (Carries(previous, found) ==> r.decision == previous.decision && r.status == previous.status)
            && (!Carries(previous, found) ==> r == found)
            && r.(status := found.status, decision := found.decision) == found
            && WellFormed(r) && HumanSigned(r) && KeyOf(r) == KeyOf(found)
  {
  }

  /** `put_finding` */
  function Put(b: Book, f: Finding): Book {
    var key := KeyOf(f);
    Set(b, key, if key in b.at then Carry(b.at[key], f) else f)
  }

  function PutAll(b: Book, fs: seq<Finding>): Book {
    if fs == [] then b else Put(PutAll(b, fs[..|fs| - 1]), fs[|fs| - 1])
  }

  /** `_replace_machine_findings`: no decision is carried. */
  function Fill(fs: seq<Finding>): Book {
    if fs == [] then Book([], map[]) else Set(Fill(fs[..|fs| - 1]), KeyOf(fs[|fs| - 1]), fs[|fs| - 1])
  }

  /** The first entry whose finding or key has the given id. */
  function FirstMatch(b: Book, id: string, n: nat): Option<string>
    requires n <= |b.order| && forall k | k in b.order :: k in b.at
  {
    if n == 0 then None
    else
      var earlier := FirstMatch(b, id, n - 1);
      var key := b.order[n - 1];
      if earlier.Some? then earlier
      else if b.at[key].id == id || key == id then Some(key)
      else None
  }

  /** The findings in dict order. */
  function Listing(b: Book): seq<Finding>
    requires forall k | k in b.order :: k in b.at
  {
    seq(|b.order|, i requires 0 <= i < |b.order| => assert b.order[i] in b.order; b.at[b.order[i]])
  }

  lemma ListingMembers(b: Book, f: Finding)
    requires Sound(b)
    ensures f in Listing(b) <==> exists k :: k in b.at && b.at[k] == f
  {
    if k :| k in b.at && b.at[k] == f {
      var i :| 0 <= i < |b.order| && b.order[i] == k;
      assert Listing(b)[i] == f;
    }
    if f in Listing(b) {
      var i :| 0 <= i < |b.order| && Listing(b)[i] == f;
      assert b.order[i] in b.order;
    }
  }

  // ----- re-runs ------------------------------------------------------------------------------------------------

  /** What a list of puts makes of the entry of one key. */
  function Chain(x: Option<Finding>, fs: seq<Finding>, key: string): Option<Finding> {
    if fs == [] then x
    else
      var before, f := Chain(x, fs[..|fs| - 1], key), fs[|fs| - 1];
      if KeyOf(f) != key then before
      else if before.Some? then Some(Carry(before.value, f))
      else Some(f)
  }

  function Entry(b: Book, key: string): Option<Finding> {
    if key in b.at then Some(b.at[key]) else None
  }

  lemma {:induction false} PutAllEntry(b: Book, fs: seq<Finding>, key: string)
    ensures Entry(PutAll(b, fs), key) == Chain(Entry(b, key), fs, key)
  {
    hide Carry;
    if fs != [] {
      PutAllEntry(b, fs[..|fs| - 1], key);
    }
  }

  predicate Keyed(fs: seq<Finding>, key: string) {
    exists f :: f in fs && KeyOf(f) == key
  }

  /** Either the decision of x passes every put of the key, or the last put stands undecided. */
  ghost predicate PassesAll(x: Finding, fs: seq<Finding>, key: string) {
    forall f | f in fs && KeyOf(f) == key :: Carries(x, f)
  }

  function LastPut(fs: seq<Finding>, key: string): Finding
    requires Keyed(fs, key)
  {
    var init, last := fs[..|fs| - 1], fs[|fs| - 1];
    assert fs == init + [last];
    if KeyOf(last) == key then last else LastPut(init, key)
  }

  lemma {:induction false} ChainExactly(x: Option<Finding>, fs: seq<Finding>, key: string)
    requires forall f | f in fs :: MachineMade(f)
    ensures !Keyed(fs, key) ==> Chain(x, fs, key) == x
    ensures Keyed(fs, key) ==>
              Chain(x, fs, key) ==
              if x.Some? && PassesAll(x.value, fs, key)
              then Some(LastPut(fs, key).(status := x.value.status, decision := x.value.decision))
              else Some(LastPut(fs, key))
  {
    if fs != [] {
      var init, last := fs[..|fs| - 1], fs[|fs| - 1];
      assert fs == init + [last];
      assert forall f :: f in fs <==> f in init || f == last;
      ChainExactly(x, init, key);
      if KeyOf(last) == key && Keyed(init, key) {
        LastPutFacts(init, key);
      }
    }
  }

  lemma {:induction false} LastPutFacts(fs: seq<Finding>, key: string)
    requires Keyed(fs, key)
    ensures LastPut(fs, key) in fs && KeyOf(LastPut(fs, key)) == key
  {
    var init, last := fs[..|fs| - 1], fs[|fs| - 1];
    assert fs == init + [last];
    if KeyOf(last) != key {
      LastPutFacts(init, key);
    }
  }

  /** A second identical run of puts leaves the entry of every key as the first left it. */
  lemma ChainTwice(x: Option<Finding>, fs: seq<Finding>, key: string)
    requires forall f | f in fs :: MachineMade(f)
    ensures Chain(Chain(x, fs, key), fs, key) == Chain(x, fs, key)
  {
    ChainExactly(x, fs, key);
    var y := Chain(x, fs, key);
    ChainExactly(y, fs, key);
    hide Chain;
    if Keyed(fs, key) {
      LastPutFacts(fs, key);
      var last := LastPut(fs, key);
      if x.Some? && PassesAll(x.value, fs, key) {
        assert PassesAll(y.value, fs, key);
      }
    }
  }

  lemma {:induction false} PutAllOrder(b: Book, fs: seq<Finding>)
    ensures b.order <= PutAll(b, fs).order
    ensures (forall f | f in fs :: KeyOf(f) in b.at) ==> PutAll(b, fs).order == b.order
    ensures forall k :: k in PutAll(b, fs).at <==> k in b.at || Keyed(fs, k)
  {
    hide Carry; hide KeyOf;
    if fs != [] {
      var init, last := fs[..|fs| - 1], fs[|fs| - 1];
      assert fs == init + [last];
      assert forall f :: f in fs <==> f in init || f == last;
      PutAllOrder(b, init);
    }
  }

  lemma {:induction false} PutAllSound(b: Book, fs: seq<Finding>)
    requires Sound(b)
    ensures Sound(PutAll(b, fs))
  {
    hide Carry; hide KeyOf; hide Sound; hide Set;
    if fs != [] {
      PutAllSound(b, fs[..|fs| - 1]);
      var before, f := PutAll(b, fs[..|fs| - 1]), fs[|fs| - 1];
      SetSound(before, KeyOf(f), if KeyOf(f) in before.at then Carry(before.at[KeyOf(f)], f) else f);
    }
  }

  /** A repeated identical run is a fixpoint on the dict, whatever decisions it held and even when several
      findings of the run share a key. */
  lemma RerunIsFixpoint(b: Book, fs: seq<Finding>)
    requires forall f | f in fs :: MachineMade(f)
    ensures PutAll(PutAll(b, fs), fs) == PutAll(b, fs)
  {
    var once := PutAll(b, fs);
    var twice := PutAll(once, fs);
    PutAllOrder(b, fs);
    PutAllOrder(once, fs);
    hide PutAll; hide Chain; hide MachineMade;
    forall f | f in fs ensures KeyOf(f) in once.at {
      assert Keyed(fs, KeyOf(f));
    }
    forall key ensures Entry(twice, key) == Entry(once, key) {
      PutAllEntry(b, fs, key);
      PutAllEntry(once, fs, key);
      ChainTwice(Entry(b, key), fs, key);
    }
    SameEntries(twice, once);
  }

  lemma SameEntries(a: Book, b: Book)
    requires forall key :: Entry(a, key) == Entry(b, key)
    ensures a.at == b.at
  {
    forall key ensures (key in a.at <==> key in b.at) && (key in a.at && key in b.at ==> a.at[key] == b.at[key]) {
      assert Entry(a, key) == Entry(b, key);
    }
  }

  /** A run keeps the decision of an entry exactly when every finding it puts under the key is the same
      candidate with the same values; otherwise the last of them stands undecided. */
  lemma RunKeepsDecision(b: Book, fs: seq<Finding>, key: string)
    requires forall f | f in fs :: MachineMade(f)
    requires key in b.at && b.at[key].decision.Some? && Keyed(fs, key)
    ensures key in PutAll(b, fs).at
    ensures PutAll(b, fs).at[key].decision ==
            if PassesAll(b.at[key], fs, key) then b.at[key].decision else None
  {
    PutAllEntry(b, fs, key);
    ChainExactly(Entry(b, key), fs, key);
    LastPutFacts(fs, key);
  }
}
