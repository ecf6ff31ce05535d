/** The tables behind findings: which status may follow which, what each status demands, and when a review, a batch and
    each step of a process is accepted. */
module FindingRules {
  import opened Options
  import opened Findings

  // ----- findings -------------------------------------------------------------------------------------------------

  const TRANSITIONS: set<(Status, Status)> := {
    (Candidate, ConfirmedViolation), (Candidate, NegativeVerified), (Candidate, ClarificationRequired),
    (ClarificationRequired, Candidate), (ClarificationRequired, ConfirmedViolation),
    (ClarificationRequired, NegativeVerified),
    (Suspicion, Candidate), (Suspicion, ConfirmedViolation), (Suspicion, NegativeVerified),
    (AutoNoDifference, NegativeVerified), (NotApplicable, Candidate)}

  lemma TransitionTable(current: Status, target: Status)
    ensures CanBecome(current, target) <==> (current, target) in TRANSITIONS
  {
  }

  predicate HasGroup(f: Finding) {
    f.group.Some? && f.group.value != ""
  }

  /** These statuses stand on evidence, two of them on a decision of the right kind; the others demand nothing. */
  lemma StatusDemands(f: Finding)
    ensures WellFormed(f) <==>
            match f.status
            case Candidate => HasGroup(f)
            case AutoNoDifference => HasGroup(f)
            case Suspicion => HasGroup(f)
            case ConfirmedViolation =>
              HasGroup(f) && f.decision.Some? && f.decision.value.action == Confirm && f.decision.value.comment != ""
            case NegativeVerified =>
              && HasGroup(f) && f.decision.Some? && f.decision.value.action == Reject
              && f.decision.value.reason.Some? && f.decision.value.comment != ""
            case MissingEvidence => true
            case NotApplicable => true
            case NotComparable => true
            case LowQuality => true
            case Abstain => true
            case ClarificationRequired => true
  {
  }

  /** A human confirms or rejects what is open and stands on evidence, a rejection with a reason; anyone may ask for
      clarification of a candidate; always with a comment. */
  predicate Acceptable(f: Finding, actor: Actor, action: Action, reason: Option<string>, comment: string) {
    && comment != ""
    && match action
       case Confirm =>
         actor.human && HasGroup(f) && f.status in {Candidate, ClarificationRequired, Suspicion}
       case Reject =>
         && actor.human && HasGroup(f) && reason.Some?
         && f.status in {Candidate, ClarificationRequired, Suspicion, AutoNoDifference}
       case RequestClarification => f.status == Candidate
       case Split => false
       case Unknown => false
  }

  /** A review is accepted exactly then, and writes this. */
  lemma ReviewAccepted(f: Finding, actor: Actor, action: Action, reason: Option<string>, comment: string)
    ensures Review(f, actor, action, reason, comment).Ok? <==> Acceptable(f, actor, action, reason, comment)
    ensures Acceptable(f, actor, action, reason, comment) ==>
              Review(f, actor, action, reason, comment) ==
              Ok(Finding(f.id, f.rule,
                         match action case Confirm => ConfirmedViolation case Reject => NegativeVerified
                                      case _ => ClarificationRequired,
                         f.group, f.expected, f.actual, f.body,
                         Some(Decision(actor.name, actor.human, action, reason, comment))))
  {
    hide CanBecome;
    TransitionTable(f.status, ConfirmedViolation);
    TransitionTable(f.status, NegativeVerified);
    TransitionTable(f.status, ClarificationRequired);
  }

  /** Which refusal is given: the action is judged before its reason, the comment before the actor, and the actor before
      the status. */
  lemma ReviewRefused(f: Finding, actor: Actor, action: Action, reason: Option<string>, comment: string)
    requires WellFormed(f) && Review(f, actor, action, reason, comment).Refused?
    ensures var fault := Review(f, actor, action, reason, comment).fault;
            && (fault == NotAtomic <==> action == Split)
            && (fault == UnknownAction <==> action == Unknown)
            && (fault == NeedsReason <==> action == Reject && reason == None)
            && (action in {Confirm, RequestClarification} || (action == Reject && reason.Some?) ==>
                  && (fault == NeedsComment <==> comment == "")
                  && (comment != "" ==>
                        && (fault == NeedsHuman <==>
                              !actor.human && (action != RequestClarification || f.status == NotApplicable))
                        && (fault != NeedsHuman ==> fault == BadTransition || fault == BadFinding)
                        && (fault == BadFinding ==> !HasGroup(f) && f.status == ClarificationRequired)))
  {
    hide CanBecome;
    TransitionTable(f.status, ConfirmedViolation);
    TransitionTable(f.status, NegativeVerified);
    TransitionTable(f.status, ClarificationRequired);
  }

  /** A batch is confirmed exactly when a human names one to fifty different candidates and gives a comment. */
  lemma BatchAccepted(fs: seq<Finding>, actor: Actor)
    ensures BatchFault(fs, actor) == None <==>
            && 1 <= |fs| <= 50 && actor.human
            && (forall i, j | 0 <= i < j < |fs| :: fs[i].id != fs[j].id)
            && forall i | 0 <= i < |fs| :: fs[i].status == Candidate
    ensures fs == [] ==> BatchFault(fs, actor) == Some(EmptyBatch)
    ensures |fs| > 50 ==> BatchFault(fs, actor) == Some(BigBatch)
    ensures 1 <= |fs| <= 50 && (exists i, j :: 0 <= i < j < |fs| && fs[i].id == fs[j].id) ==>
              BatchFault(fs, actor) == Some(RepeatedId)
    ensures BatchFault(fs, actor) in {Some(NeedsHuman), Some(NotCandidate)} ==>
              (BatchFault(fs, actor) == Some(NeedsHuman) <==> !actor.human)
  {
    if AllCandidates(fs) {
      forall i | 0 <= i < |fs| ensures fs[i].status == Candidate {
        assert fs[i] in fs;
      }
    }
  }

  /** A finding is kept under its evidence group, or under its own id when it has none. */
  lemma KeyIs(f: Finding)
    ensures HasGroup(f) ==> Some(KeyOf(f)) == f.group
    ensures !HasGroup(f) ==> KeyOf(f) == f.id
  {
  }
}
