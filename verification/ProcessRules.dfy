/** When each step of a process is accepted, what it then changes, and which refusal comes first. */
module ProcessRules {
  import opened Options
  import opened Findings
  import opened StoredFiles
  import opened ProcessRecord
  import Documents

  const MOVES: set<(State, State)> := {
    (Pending, Parsing), (Parsing, Ready), (Parsing, Pending), (Ready, Parsing), (Verifying, Parsing),
    (Completed, Parsing)}

  /** Without an actor a process moves along these only. */
  lemma MoveTable(current: State, target: State)
    ensures MayAdvance(current, target) <==> (current, target) in MOVES
    ensures forall r: Record | r.state == current ::
              Advance(r, target) ==
              if (current, target) in MOVES then Step(r.(state := target), None) else Step(r, Some(BadTransition))
  {
  }

  predicate Open(b: Book) {
    exists k :: k in b.at && b.at[k].status == Candidate
  }

  predicate Same(a: Record, b: Record) {
    a.(state := b.state, audit := b.audit, finalizedBy := b.finalizedBy, protocolId := b.protocolId) == b
  }

  /** The log grows by one entry of the actor. */
  predicate Logged(a: Record, b: Record, who: string, what: string) {
    b.audit == a.audit + [Event(who, what)]
  }

  /** A human opens a READY queue; nobody else does, and nothing but state and log changes. */
  lemma StartAccepted(r: Record, actor: Actor)
    ensures Start(r, actor).fault == None <==> actor.human && r.state == Ready
    ensures var after := Start(r, actor).record;
            if actor.human && r.state == Ready then
              Same(r, after) && after.state == Verifying && Logged(r, after, actor.name, "START_VERIFICATION")
              && (after.finalizedBy, after.protocolId) == (r.finalizedBy, r.protocolId)
            else after == r
    ensures !actor.human ==> Start(r, actor).fault == Some(NeedsHuman)
    ensures actor.human && r.state != Ready ==> Start(r, actor).fault == Some(BadTransition)
  {
  }

  /** A human closes a queue under verification that holds no candidate. */
  lemma CompleteAccepted(r: Record, actor: Actor)
    ensures Complete(r, actor).fault == None <==> actor.human && r.state == Verifying && !Open(r.book)
    ensures var after := Complete(r, actor).record;
            if actor.human && r.state == Verifying && !Open(r.book) then
              Same(r, after) && after.state == Completed && Logged(r, after, actor.name, "COMPLETE_VERIFICATION")
              && (after.finalizedBy, after.protocolId) == (r.finalizedBy, r.protocolId)
            else after == r
    ensures !actor.human ==> Complete(r, actor).fault == Some(NeedsHuman)
    ensures actor.human && Open(r.book) ==> Complete(r, actor).fault == Some(Unprocessed)
    ensures actor.human && !Open(r.book) && r.state != Verifying ==> Complete(r, actor).fault == Some(BadTransition)
  {
    assert HasCandidate(r.book) <==> Open(r.book);
    hide HasCandidate; hide Open;
  }

  /** A human finalizes a completed process without candidates; the protocol must be stored, and the process bears the
      name of the human and the number of the protocol. */
  lemma FinalizeAccepted(r: Record, actor: Actor, stored: Option<string>)
    ensures Finalize(r, actor, stored).fault == None <==>
            actor.human && r.state == Completed && !Open(r.book) && stored.Some?
    ensures var after := Finalize(r, actor, stored).record;
            if actor.human && r.state == Completed && !Open(r.book) && stored.Some? then
              Same(r, after) && after.state == Finalized && Logged(r, after, actor.name, "FINALIZE")
              && after.finalizedBy == Some(actor.name) && after.protocolId == stored
            else after == r
    ensures !actor.human ==> Finalize(r, actor, stored).fault == Some(NeedsHuman)
    ensures actor.human && Open(r.book) ==> Finalize(r, actor, stored).fault == Some(Unprocessed)
    ensures actor.human && !Open(r.book) && r.state != Completed ==>
              Finalize(r, actor, stored).fault == Some(BadTransition)
    ensures actor.human && !Open(r.book) && r.state == Completed && stored == None ==>
              Finalize(r, actor, stored).fault == Some(StoreFailed)
  {
    assert HasCandidate(r.book) <==> Open(r.book);
    hide HasCandidate; hide Open;
  }

  /** A human cancels a finalization with a reason before a transfer is requested; the process is as completed as
      before, and finalizing it again is possible. */
  lemma UnfinalizeAccepted(r: Record, actor: Actor, reason: string)
    ensures Unfinalize(r, actor, reason).fault == None <==>
            r.sync == NotRequested && r.state == Finalized && actor.human && reason != ""
    ensures var after := Unfinalize(r, actor, reason).record;
            if r.sync == NotRequested && r.state == Finalized && actor.human && reason != "" then
              Same(r, after) && after.state == Completed && Logged(r, after, actor.name, "UNFINALIZE")
              && after.finalizedBy == None && after.protocolId == None
            else after == r
    ensures r.sync != NotRequested ==> Unfinalize(r, actor, reason).fault == Some(SyncStarted)
    ensures r.sync == NotRequested && r.state != Finalized ==>
              Unfinalize(r, actor, reason).fault == Some(BadTransition)
    ensures r.sync == NotRequested && r.state == Finalized && !actor.human ==>
              Unfinalize(r, actor, reason).fault == Some(NeedsHuman)
    ensures r.sync == NotRequested && r.state == Finalized && actor.human && reason == "" ==>
              Unfinalize(r, actor, reason).fault == Some(NeedsReason)
  {
  }

  /** What unfinalize undoes: a process finalized and cancelled again is the completed one with two more entries. */
  lemma CancelUndoesFinalize(r: Record, actor: Actor, stored: string, other: Actor, reason: string)
    requires r.sync == NotRequested && r.finalizedBy == None && r.protocolId == None
    requires Finalize(r, actor, Some(stored)).fault == None && other.human && reason != ""
    ensures var done := Finalize(r, actor, Some(stored)).record;
            && Unfinalize(done, other, reason).fault == None
            && Unfinalize(done, other, reason).record ==
               r.(audit := r.audit + [Event(actor.name, "FINALIZE"), Event(other.name, "UNFINALIZE")])
  {
    hide HasCandidate;
    assert r.audit + [Event(actor.name, "FINALIZE")] + [Event(other.name, "UNFINALIZE")]
        == r.audit + [Event(actor.name, "FINALIZE"), Event(other.name, "UNFINALIZE")];
  }

  /** A transfer is requested of a finalized process only: the first request queues it, the next three set a retry, and
      every further one queues it again; each request after the first is counted. */
  lemma TransferAccepted(r: Record)
    ensures RequestSync(r).fault == None <==> r.state == Finalized
    ensures r.state != Finalized ==> RequestSync(r) == Step(r, Some(BadTransition))
    ensures r.state == Finalized && r.sync == NotRequested ==> RequestSync(r).record == r.(sync := PendingSync)
    ensures r.state == Finalized && r.sync != NotRequested ==>
              RequestSync(r).record ==
              r.(attempts := r.attempts + 1, sync := if r.attempts < 3 then RetryWait else PendingSync)
  {
  }

  /** An upload brings every process that is not finalized back to parsing. */
  lemma ReopenAccepted(r: Record)
    requires r.state != Pending
    ensures Reopen(r) == if r.state == Finalized then Step(r, Some(Frozen)) else Step(r.(state := Parsing), None)
  {
  }

  /** A choice of a revision is let in exactly then. */
  lemma ChoiceAccepted(r: Record, id: string, stamp: Option<Documents.Approval>, actor: Actor, comment: string,
                       report: Option<Report>)
    ensures Select(r, id, stamp, actor, comment, report).fault == None <==>
            && (r.state == Ready || r.state == Verifying) && !HasDecision(r.book) && HasId(r.files, id)
            && (stamp == Some(Documents.Approved) || stamp == Some(Documents.Unknown))
            && actor.human && comment != "" && report.Some?
    ensures r.state == Finalized ==> Select(r, id, stamp, actor, comment, report).fault == Some(Frozen)
    ensures r.state in {Pending, Parsing, Completed} ==>
              Select(r, id, stamp, actor, comment, report).fault == Some(WrongState)
    ensures r.state in {Ready, Verifying} ==>
              var fault := Select(r, id, stamp, actor, comment, report).fault;
              && (fault == Some(HasDecisions) <==> HasDecision(r.book))
              && (!HasDecision(r.book) ==>
                    && (fault == Some(NoFile) <==> !HasId(r.files, id))
                    && (HasId(r.files, id) ==>
                          && (fault == Some(NoContent) <==> stamp == None)
                          && (stamp.Some? ==>
                                && (fault == Some(NeedsHuman) <==> !actor.human)
                                && (fault == Some(NeedsComment) <==> actor.human && comment == "")
                                && (fault == Some(RefusedStamp) <==>
                                      actor.human && comment != "" && stamp == Some(Documents.NotApproved)))))
  {
    PositionExists(r.files, id);
    hide HasDecision; hide Position; hide WithStamp; hide Recorded; hide Fill;
  }

  lemma PositionExists(files: seq<StoredFile>, id: string)
    ensures Position(files, id).Some? <==> HasId(files, id)
  {
    if Position(files, id).Some? {
      assert files[Position(files, id).value] in files;
    }
  }

  /** Decisions stand in the way of a choice. */
  lemma DecisionsAre(b: Book)
    ensures HasDecision(b) <==> exists k :: k in b.at && b.at[k].decision != None
  {
  }

  /** A file joins unless its stage has its content already; its stamp is not known then. */
  lemma AttachAccepted(r: Record, f: StoredFile)
    ensures Attach(r, f).fault == None
    ensures Attach(r, f).record ==
            if exists i :: 0 <= i < |r.files| && r.files[i].hash == f.hash && r.files[i].stage == f.stage then r
            else r.(files := r.files + [StoredFile(f.id, f.hash, f.stage, Documents.Unknown)])
  {
    if HasContent(r.files, f.hash, f.stage) {
      var g :| g in r.files && g.hash == f.hash && g.stage == f.stage;
      var i :| 0 <= i < |r.files| && r.files[i] == g;
    }
    if i :| 0 <= i < |r.files| && r.files[i].hash == f.hash && r.files[i].stage == f.stage {
      assert r.files[i] in r.files;
    }
  }

  // ----- reviews --------------------------------------------------------------------------------------------------

  /** A review of a located finding is accepted while the process is open, if the finding takes it, and for a READY
      queue from a human; it signs the finding, logs it, and opens a READY queue. */
  lemma ReviewIsLogged(r: Record, key: string, actor: Actor, action: Action, reason: Option<string>, comment: string)
    requires key in r.book.at
    ensures var step, review := ReviewAt(r, key, actor, action, reason, comment),
                                Review(r.book.at[key], actor, action, reason, comment);
            && (step.fault == None <==>
                  r.state != Finalized && review.Ok? && (r.state == Ready ==> actor.human))
            && (r.state == Finalized ==> step == Step(r, Some(Frozen)))
            && (r.state != Finalized && review.Refused? ==> step == Step(r, Some(review.fault)))
            && (r.state != Finalized && review.Ok? ==>
                  && step.record.book == Book(r.book.order, r.book.at[key := review.value])
                  && step.record.audit ==
                     r.audit + [Event(actor.name, "REVIEW")]
                     + (if r.state == Ready && actor.human then [Event(actor.name, "START_VERIFICATION")] else [])
                  && step.record.state == (if r.state == Ready && actor.human then Verifying else r.state)
                  && step.record.(book := r.book, audit := r.audit, state := r.state) == r
                  && (r.state == Ready && !actor.human ==> step.fault == Some(NeedsHuman)))
  {
    hide Review;
  }

  // ----- batches --------------------------------------------------------------------------------------------------

  /** The k-th key of the dict is the first that an id names, as a key or as the id of its finding. */
  predicate NamesFirst(b: Book, id: string, k: nat)
    requires forall key | key in b.order :: key in b.at
  {
    && k < |b.order| && (b.order[k] == id || b.at[b.order[k]].id == id)
    && forall j | 0 <= j < k :: b.order[j] != id && b.at[b.order[j]].id != id
  }

  lemma {:induction false} MatchIsNamed(b: Book, id: string, n: nat)
    requires (forall key | key in b.order :: key in b.at) && n <= |b.order|
    ensures FirstMatch(b, id, n).Some? ==>
              exists k: nat :: k < n && NamesFirst(b, id, k) && FirstMatch(b, id, n).value == b.order[k]
  {
    if n > 0 {
      MatchIsNamed(b, id, n - 1);
      MatchInOrder(b, id, n - 1);
      if FirstMatch(b, id, n - 1) == None && FirstMatch(b, id, n).Some? {
        assert NamesFirst(b, id, n - 1);
      }
      hide NamesFirst;
    }
  }

  lemma NamesOnce(b: Book, id: string, j: nat, k: nat)
    requires (forall key | key in b.order :: key in b.at) && NamesFirst(b, id, j) && NamesFirst(b, id, k)
    ensures j == k
  {
  }

  lemma MatchIsFirst(b: Book, id: string)
    requires forall key | key in b.order :: key in b.at
    ensures FirstMatch(b, id, |b.order|).Some? <==> exists k: nat :: NamesFirst(b, id, k)
    ensures forall k: nat | NamesFirst(b, id, k) :: k < |b.order| && FirstMatch(b, id, |b.order|) == Some(b.order[k])
  {
    MatchIsNamed(b, id, |b.order|);
    MatchInOrder(b, id, |b.order|);
    hide FirstMatch;
    forall k: nat | NamesFirst(b, id, k) ensures k < |b.order| && FirstMatch(b, id, |b.order|) == Some(b.order[k]) {
      var j: nat :| NamesFirst(b, id, j) && FirstMatch(b, id, |b.order|).value == b.order[j];
      NamesOnce(b, id, j, k);
    }
  }

  /** A batch picks for each id the first key it names, and fails when one names none. */
  lemma {:induction false} PicksFirst(b: Book, ids: seq<string>)
    requires forall key | key in b.order :: key in b.at
    ensures PickKeys(b, ids).Some? <==> forall id | id in ids :: exists k: nat :: NamesFirst(b, id, k)
    ensures PickKeys(b, ids).Some? ==>
              && |PickKeys(b, ids).value| == |ids|
              && forall i, k: nat | 0 <= i < |ids| && NamesFirst(b, ids[i], k) ::
                   PickKeys(b, ids).value[i] == b.order[k]
  {
    if ids != [] {
      var init, last := ids[..|ids| - 1], ids[|ids| - 1];
      assert ids == init + [last];
      assert last in ids && forall id | id in init :: id in ids;
      PicksFirst(b, init);
      MatchIsFirst(b, last);
      hide FirstMatch; hide NamesFirst;
      NamedInside(b);
      if PickKeys(b, init).Some? && FirstMatch(b, last, |b.order|).Some? {
        forall id | id in ids ensures exists k: nat :: NamesFirst(b, id, k) {
          assert id in init || id == last;
        }
      }
    }
  }

  lemma NamedInside(b: Book)
    requires forall key | key in b.order :: key in b.at
    ensures forall id, k: nat | NamesFirst(b, id, k) :: k < |b.order|
  {
  }

  lemma {:induction false} LogGrows(audit: seq<Event>, actor: string, n: nat)
    ensures LogEach(audit, actor, n) == audit + seq(n, i requires 0 <= i < n => Event(actor, "REVIEW"))
  {
    if n > 0 {
      LogGrows(audit, actor, n - 1);
    } else {
      assert audit + [] == audit;
    }
  }

  /** A batch is confirmed exactly when the process is open, each id names a finding, the findings may be confirmed
      together, and there is a comment; it logs each of them and opens a READY queue. */
  lemma BatchIsLogged(r: Record, ids: seq<string>, actor: Actor, comment: string)
    requires forall k | k in r.book.order :: k in r.book.at
    ensures PickKeys(r.book, ids).Some? ==> forall k | k in PickKeys(r.book, ids).value :: k in r.book.at
    ensures var step, picked := ConfirmBatch(r, ids, actor, comment), PickKeys(r.book, ids);
            && (step.fault == None <==>
                  && r.state != Finalized && picked.Some? && comment != ""
                  && BatchFault(At(r.book, picked.value), actor) == None)
            && (r.state == Finalized ==> step == Step(r, Some(Frozen)))
            && (r.state != Finalized && picked == None ==> step == Step(r, Some(NoFinding)))
            && (r.state != Finalized && picked.Some? && BatchFault(At(r.book, picked.value), actor).Some? ==>
                  step == Step(r, BatchFault(At(r.book, picked.value), actor)))
            && (step.fault == None ==>
                  && step.record.audit ==
                     r.audit + seq(|ids|, i requires 0 <= i < |ids| => Event(actor.name, "REVIEW"))
                     + (if r.state == Ready then [Event(actor.name, "START_VERIFICATION")] else [])
                  && step.record.state == (if r.state == Ready then Verifying else r.state)
                  && step.record.(book := r.book, audit := r.audit, state := r.state) == r)
  {
    PickedKeys(r.book, ids);
    BatchNeedsHuman(r, ids, actor);
    LogGrows(r.audit, actor.name, |ids|);
    hide PickKeys; hide BatchFault; hide SetEach; hide LogEach; hide ConfirmEach;
  }

  lemma BatchNeedsHuman(r: Record, ids: seq<string>, actor: Actor)
    ensures forall fs :: BatchFault(fs, actor) == None ==> actor.human
  {
    hide DistinctIds; hide AllCandidates;
  }
}
