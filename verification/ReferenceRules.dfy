/** When each outcome of the choice of a reference arises, file by file. */
module ReferenceRules {
  import opened Options
  import opened Documents
  import opened Lists
  import opened Revisions
  import opened IdentityHeads

  /** Two files share a key when both bear one cipher, on one sheet of one discipline. */
  lemma SameKeyIs(c: Doc, d: Doc)
    ensures IdentityKey(c) == None <==> c.code == ""
    ensures c.code != "" && d.code != "" ==>
              (IdentityKey(c) == IdentityKey(d) <==>
                 c.code == d.code && c.sheet == d.sheet && c.discipline == d.discipline)
  {
  }

  predicate Refused(d: Doc) {
    d.approval == NotApproved
  }

  /** A reference is stale when another file of its stage that is not refused names it as its predecessor. */
  lemma StaleExactly(candidate: Doc, docs: seq<Doc>)
    ensures Stale(candidate, docs) <==>
            exists i :: && 0 <= i < |docs| && docs[i].pred == Some(candidate.id) && docs[i].stage == candidate.stage
                        && docs[i].id != candidate.id && !Refused(docs[i])
  {
    if Stale(candidate, docs) {
      var d :| d in docs && d.stage == candidate.stage && d.id != candidate.id && Eligible(d)
               && d.pred == Some(candidate.id);
      var i :| 0 <= i < |docs| && docs[i] == d;
    }
    if i :| && 0 <= i < |docs| && docs[i].pred == Some(candidate.id) && docs[i].stage == candidate.stage
            && docs[i].id != candidate.id && !Refused(docs[i]) {
      assert docs[i] in docs;
    }
  }

  /** Another file beside the head has an approving stamp. */
  lemma ApprovedOtherExactly(chosen: Doc, eligible: seq<Doc>)
    ensures ApprovedOther(chosen, eligible) <==>
            exists i :: 0 <= i < |eligible| && eligible[i].approval == Approved && eligible[i].id != chosen.id
  {
    if ApprovedOther(chosen, eligible) {
      var d :| d in eligible && d.id != chosen.id && d.approval == Approved;
      var i :| 0 <= i < |eligible| && eligible[i] == d;
    }
    if i :| 0 <= i < |eligible| && eligible[i].approval == Approved && eligible[i].id != chosen.id {
      assert eligible[i] in eligible;
    }
  }

  /** What becomes of a head: only a project file without a stamp is changed, to approved by the choice of the
      inspector or to the sole head by the policy; without either it has to be cleared up. */
  lemma FinishExactly(chosen: Doc, eligible: seq<Doc>, inspector: bool, soleHead: bool)
    requires !Refused(chosen)
    ensures var r := FinishHead(chosen, eligible, inspector, soleHead);
            if chosen.stage == PD && chosen.approval == Unknown && inspector then
              r == Resolved(chosen.(approval := Approved, basis := InspectorSelect), Stale(chosen, eligible))
            else if chosen.stage == PD && chosen.approval == Unknown then
              r == if soleHead && !ApprovedOther(chosen, eligible)
                   then Resolved(chosen.(basis := SoleHead), Stale(chosen, eligible)) else Clarify(ApprovalUnknown)
            else r == Resolved(chosen, Stale(chosen, eligible))
  {
    assert Stale(chosen.(approval := Approved, basis := InspectorSelect), eligible) == Stale(chosen, eligible);
    assert Stale(chosen.(basis := SoleHead), eligible) == Stale(chosen, eligible);
    hide Stale; hide ApprovedOther;
  }

  predicate Keyless(d: Doc) {
    d.code == ""
  }

  predicate OtherKey(c: Doc, d: Doc) {
    c.code != "" && d.code != "" && (c.code, c.sheet, c.discipline) != (d.code, d.sheet, d.discipline)
  }

  /** A pool is missing when it is empty, unclear when every file is refused, in conflict when two ciphers meet or a
      cipher meets a file without one, refused files included; otherwise its head is picked. */
  lemma PoolExactly(pool: seq<Doc>, selected: set<string>, soleHead: bool)
    ensures var r := ResolvePool(pool, selected, soleHead);
            if pool == [] then r == Missing(NoDocuments)
            else if forall d | d in pool :: Refused(d) then r == Clarify(NoneEligible)
            else if exists c, d :: c in pool && d in pool && OtherKey(c, d) then r == Conflict(SeveralKeys)
            else if (exists c :: c in pool && Keyless(c)) && (exists c :: c in pool && !Keyless(c)) then
              r == Conflict(KeysHalfRead)
            else r == PickHead(Filter(IsEligible(), pool), selected, soleHead)
  {
    KeysExactly(pool);
    var eligible := Filter(IsEligible(), pool);
    assert forall d :: d in eligible <==> d in pool && !Refused(d);
    if forall d | d in pool :: Refused(d) {
      FilterNone(IsEligible(), pool);
    } else {
      var d :| d in pool && !Refused(d);
      assert d in eligible;
    }
    hide TwoKeys; hide HalfKeyed; hide PickHead; hide OtherKey; hide Keyless; hide Filter;
  }

  lemma KeysExactly(pool: seq<Doc>)
    ensures TwoKeys(pool) <==> exists c, d :: c in pool && d in pool && OtherKey(c, d)
    ensures HalfKeyed(pool) <==> (exists c :: c in pool && Keyless(c)) && (exists c :: c in pool && !Keyless(c))
  {
    forall c, d
      ensures OtherKey(c, d) <==>
              IdentityKey(c).Some? && IdentityKey(d).Some? && IdentityKey(c) != IdentityKey(d)
    {
    }
    forall c ensures Keyless(c) <==> IdentityKey(c) == None {
    }
    hide IdentityKey; hide OtherKey; hide Keyless;
  }

  /** Which head is picked: a conflict when several chosen files are there, the chosen one when there is one, a
      cycle when every file has its successor among them, a conflict when several have none, and otherwise the one
      that has none. */
  lemma PickExactly(eligible: seq<Doc>, selected: set<string>, soleHead: bool)
    ensures var chosen, heads := Filter(OneOf(selected), eligible), Filter(SinkIn(Ids(eligible)), eligible);
            && (forall d :: d in chosen <==> d in eligible && d.id in selected)
            && (forall d :: d in heads <==>
                  d in eligible && (d.succ == None || forall e | e in eligible :: e.id != d.succ.value))
            && PickHead(eligible, selected, soleHead) ==
               (if |chosen| >= 2 then Conflict(SeveralChoices)
                else if |chosen| == 1 then FinishHead(chosen[0], eligible, true, soleHead)
                else if |heads| >= 2 then Conflict(SeveralHeads)
                else if |heads| == 1 then FinishHead(heads[0], eligible, false, soleHead)
                else Conflict(Cycle))
  {
    hide FinishHead; hide Filter;
  }

  /** An anchor of another stage finds nothing. */
  lemma WrongAnchor(documents: seq<Doc>, stage: Stage, anchor: Doc, selected: set<string>, soleHead: bool)
    requires anchor.stage != stage
    ensures Resolve(documents, stage, Some(anchor), selected, soleHead) == Missing(WrongStage)
  {
  }

  /** The overlay: a refusal stays, the inspector approves everything else, and is named only where the stamp was
      unread. */
  lemma OverlayTable(stamp: Approval, basis: Basis)
    ensures ApprovalWithBasis(stamp, basis, false) == (stamp, basis)
    ensures ApprovalWithBasis(stamp, basis, true) ==
            match stamp case NotApproved => (NotApproved, basis) case Approved => (Approved, basis)
                        case Unknown => (Approved, InspectorSelect)
  {
  }

  /** A link is a predecessor or a successor with a name. */
  lemma LinkIs(d: Doc)
    ensures HasLink(d) <==> !((d.pred == None || d.pred == Some("")) && (d.succ == None || d.succ == Some("")))
  {
  }
}
