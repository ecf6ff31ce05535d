/** The choice of the reference revision (revision_resolver.py): one stage, one chain, one head. Conflicts,
    which the source raises as exceptions, are outcomes here; the texts of reasons are left out. */
module Revisions {
  import opened Options
  import opened Documents
  import opened Lists
  import opened Components
  import opened FileChain

  datatype Key = Key(code: string, sheet: string, discipline: string)

  /** `_identity_key`: an empty cipher identifies nothing. */
  function IdentityKey(d: Doc): Option<Key> {
    if d.code == "" then None else Some(Key(d.code, d.sheet, d.discipline))
  }

  datatype Why =
    | WrongStage | NoDocuments | NoneEligible | ApprovalUnknown
    | SeveralKeys | KeysHalfRead | SeveralChoices | Cycle | SeveralHeads | Filename(refusal: Refusal)

  datatype Resolution =
    | Resolved(document: Doc, stale: bool)
    | Missing(why: Why)
    | Clarify(why: Why)
    | Conflict(why: Why)

  // ----- approval -----------------------------------------------------------------------------------------

  /** `overlay_inspector_approval` */
  function Overlay(stamp: Approval, inspector: bool): Approval {
    if stamp == NotApproved then NotApproved else if inspector then Approved else stamp
  }

  /** `approval_with_basis` */
  function ApprovalWithBasis(stamp: Approval, basis: Basis, inspector: bool): (Approval, Basis) {
    var status := Overlay(stamp, inspector);
    if inspector && stamp == Unknown && status == Approved then (status, InspectorSelect) else (status, basis)
  }

  /** The inspector never overrides a refusal, never lowers a stamp, and is named as the basis exactly when
      the stamp itself proved nothing. */
  lemma InspectorOnlyFillsUnknown(stamp: Approval, basis: Basis, inspector: bool)
    ensures var (status, why) := ApprovalWithBasis(stamp, basis, inspector);
            && (status == NotApproved <==> stamp == NotApproved)
            && (stamp == Approved ==> status == Approved && why == basis)
            && (status != stamp <==> inspector && stamp == Unknown)
            && (status != stamp ==> why == InspectorSelect)
  {
  }

  predicate Eligible(d: Doc) {
    d.approval != NotApproved
  }

  function IsEligible(): Doc -> bool {
    (d: Doc) => Eligible(d)
  }

  /** `check_stale_revision` */
  predicate Stale(candidate: Doc, docs: seq<Doc>) {
    exists d :: d in docs && d.stage == candidate.stage && d.id != candidate.id && Eligible(d)
      && d.pred == Some(candidate.id)
  }

  predicate ApprovedOther(chosen: Doc, eligible: seq<Doc>) {
    exists d :: d in eligible && d.id != chosen.id && d.approval == Approved
  }

  /** `_finish_head`; `soleHead` is the etalon policy. */
  function FinishHead(chosen: Doc, eligible: seq<Doc>, inspector: bool, soleHead: bool): Resolution {
    if inspector && chosen.stage == PD && chosen.approval == Unknown then
      var (status, basis) := ApprovalWithBasis(chosen.approval, chosen.basis, true);
      var signed := chosen.(approval := status, basis := basis);
      Resolved(signed, Stale(signed, eligible))
    else if chosen.stage == PD && chosen.approval == Unknown then
      if soleHead && !ApprovedOther(chosen, eligible) then
        Resolved(chosen.(basis := SoleHead), Stale(chosen, eligible))
      else Clarify(ApprovalUnknown)
    else Resolved(chosen, Stale(chosen, eligible))
  }

  /** A head becomes the reference as it is, but for its approval: a project file without a stamp needs the
      inspector, or the sole-head policy and no approved file beside it; nothing refused is ever resolved. */
  lemma ReferenceIsApproved(chosen: Doc, eligible: seq<Doc>, inspector: bool, soleHead: bool)
    requires Eligible(chosen)
    ensures var r := FinishHead(chosen, eligible, inspector, soleHead);
            && (r.Resolved? <==> chosen.stage != PD || chosen.approval == Approved || inspector
                                 || (soleHead && !ApprovedOther(chosen, eligible)))
            && (!r.Resolved? ==> r == Clarify(ApprovalUnknown))
            && (r.Resolved? ==>
                  && r.document.(approval := chosen.approval, basis := chosen.basis) == chosen
                  && r.document.approval != NotApproved
                  && (r.document.stage == PD ==> r.document.approval == Approved || r.document.basis == SoleHead)
                  && (r.document.approval != chosen.approval ==> inspector && r.document.basis == InspectorSelect)
                  && r.stale == Stale(chosen, eligible))
  {
    var signed := chosen.(approval := Approved, basis := InspectorSelect);
    assert Stale(signed, eligible) == Stale(chosen, eligible);
    assert Stale(chosen.(basis := SoleHead), eligible) == Stale(chosen, eligible);
    hide Stale; hide ApprovedOther;
  }

  // ----- one pool -------------------------------------------------------------------------------------------

  /** `_reject_mixed_identities` */
  predicate TwoKeys(docs: seq<Doc>) {
    exists c, d :: c in docs && d in docs && IdentityKey(c).Some? && IdentityKey(d).Some?
      && IdentityKey(c) != IdentityKey(d)
  }

  predicate HalfKeyed(docs: seq<Doc>) {
    exists c, d :: c in docs && d in docs && IdentityKey(c).Some? && IdentityKey(d) == None
  }

  function OneOf(ids: set<string>): Doc -> bool {
    (d: Doc) => d.id in ids
  }

  function SinkIn(ids: set<string>): Doc -> bool {
    (d: Doc) => d.succ == None || d.succ.value !in ids
  }

  /** The graph part: the head among eligible files, with or without a choice of the inspector. */
  function PickHead(eligible: seq<Doc>, selected: set<string>, soleHead: bool): Resolution {
    var chosen := Filter(OneOf(selected), eligible);
    if |chosen| > 1 then Conflict(SeveralChoices)
    else if |chosen| == 1 then FinishHead(chosen[0], eligible, true, soleHead)
    else
      var heads := Filter(SinkIn(Ids(eligible)), eligible);
      if |heads| == 0 then Conflict(Cycle)
      else if |heads| > 1 then Conflict(SeveralHeads)
      else FinishHead(heads[0], eligible, false, soleHead)
  }

  /** `resolve_revision` once the files of the stage and the anchor are found. */
  function ResolvePool(pool: seq<Doc>, selected: set<string>, soleHead: bool): Resolution {
    var eligible := Filter(IsEligible(), pool);
    if pool == [] then Missing(NoDocuments)
    else if eligible == [] then Clarify(NoneEligible)
    else if TwoKeys(pool) then Conflict(SeveralKeys)
    else if HalfKeyed(pool) then Conflict(KeysHalfRead)
    else PickHead(eligible, selected, soleHead)
  }

  function OfStage(stage: Stage): Doc -> bool {
    (d: Doc) => d.stage == stage
  }

  function HasKey(key: Option<Key>): Doc -> bool {
    (d: Doc) => IdentityKey(d) == key
  }

  function FirstWith(components: seq<seq<Doc>>, id: string): seq<Doc> {
    if components == [] then []
    else if id in Ids(components[0]) then components[0]
    else FirstWith(components[1..], id)
  }

  /** The files an anchor stands among: those of its key, or its component of unkeyed files. */
  ghost function PoolOf(documents: seq<Doc>, stage: Stage, anchor: Option<Doc>): seq<Doc> {
    var ofStage := Filter(OfStage(stage), documents);
    match anchor
    case None => ofStage
    case Some(a) =>
      if IdentityKey(a).Some? then Filter(HasKey(IdentityKey(a)), ofStage)
      else FirstWith(ComponentList(Filter(HasKey(None), ofStage)), a.id)
  }

  ghost function Resolve(documents: seq<Doc>, stage: Stage, anchor: Option<Doc>, selected: set<string>,
                         soleHead: bool): Resolution {
    if anchor.Some? && anchor.value.stage != stage then Missing(WrongStage)
    else ResolvePool(PoolOf(documents, stage, anchor), selected, soleHead)
  }

  /** `resolve_revision` */
  method ResolveRevision(documents: seq<Doc>, stage: Stage, anchor: Option<Doc>, selected: set<string>, soleHead: bool)
    returns (r: Resolution)
    ensures r == Resolve(documents, stage, anchor, selected, soleHead)
  {
    hide ResolvePool; hide ComponentList;
    var pool := Filter(OfStage(stage), documents);
    if anchor.Some? {
      if anchor.value.stage != stage {
        return Missing(WrongStage);
      }
      var key := IdentityKey(anchor.value);
      if key.Some? {
        pool := Filter(HasKey(key), pool);
      } else {
        var components := BlankComponents(Filter(HasKey(None), pool));
        pool := FirstWith(components, anchor.value.id);
      }
    }
    r := ResolvePool(pool, selected, soleHead);
  }

  // ----- the order of the files does not matter ------------------------------------------------------------

  lemma FinishSame(chosen: Doc, a: seq<Doc>, b: seq<Doc>, inspector: bool, soleHead: bool)
    requires forall d :: d in a <==> d in b
    ensures FinishHead(chosen, a, inspector, soleHead) == FinishHead(chosen, b, inspector, soleHead)
  {
    assert ApprovedOther(chosen, a) == ApprovedOther(chosen, b);
    forall c ensures Stale(c, a) == Stale(c, b) {}
  }

  lemma SoleMember(a: seq<Doc>, b: seq<Doc>)
    requires multiset(a) == multiset(b) && |a| == 1
    ensures a == b
  {
    SameMembers(a, b);
    assert a[0] in a;
  }

  lemma PickHeadPermutes(a: seq<Doc>, b: seq<Doc>, selected: set<string>, soleHead: bool)
    requires multiset(a) == multiset(b)
    ensures PickHead(a, selected, soleHead) == PickHead(b, selected, soleHead)
  {
    SameMembers(a, b);
    assert Ids(a) == Ids(b);
    var ids := Ids(a);
    FilterPermutes(OneOf(selected), a, b);
    FilterPermutes(SinkIn(ids), a, b);
    hide Filter; hide FinishHead; hide Ids; hide OneOf; hide SinkIn;
    var ca, cb := Filter(OneOf(selected), a), Filter(OneOf(selected), b);
    var ha, hb := Filter(SinkIn(ids), a), Filter(SinkIn(ids), b);
    if |ca| == 1 {
      SoleMember(ca, cb);
      FinishSame(ca[0], a, b, true, soleHead);
    } else if |ha| == 1 {
      SoleMember(ha, hb);
      FinishSame(ha[0], a, b, false, soleHead);
    }
  }

  lemma ResolvePoolPermutes(a: seq<Doc>, b: seq<Doc>, selected: set<string>, soleHead: bool)
    requires multiset(a) == multiset(b)
    ensures ResolvePool(a, selected, soleHead) == ResolvePool(b, selected, soleHead)
  {
    SameMembers(a, b);
    FilterPermutes(IsEligible(), a, b);
    SameConditions(a, b);
    hide Filter; hide PickHead; hide IsEligible; hide TwoKeys; hide HalfKeyed;
    PickHeadPermutes(Filter(IsEligible(), a), Filter(IsEligible(), b), selected, soleHead);
    SameMembers(Filter(IsEligible(), a), Filter(IsEligible(), b));
  }

  lemma SameConditions(a: seq<Doc>, b: seq<Doc>)
    requires forall d :: d in a <==> d in b
    ensures TwoKeys(a) == TwoKeys(b) && HalfKeyed(a) == HalfKeyed(b)
  {
    hide IdentityKey;
  }

  lemma {:induction false} FirstWithFinds(components: seq<seq<Doc>>, id: string)
    ensures var r := FirstWith(components, id);
            if exists c :: c in components && id in Ids(c) then r in components && id in Ids(r) else r == []
  {
    hide Ids;
    if components != [] && id !in Ids(components[0]) {
      FirstWithFinds(components[1..], id);
      assert forall c :: c in components <==> c == components[0] || c in components[1..];
    }
  }

  /** The component an unkeyed anchor falls into. */
  lemma AnchorComponent(blanks: seq<Doc>, id: string)
    ensures FirstWith(ComponentList(blanks), id) == if id in Ids(blanks) then ComponentOf(blanks, id) else []
  {
    var list := ComponentList(blanks);
    FirstWithFinds(list, id);
    hide ComponentList; hide ComponentOf;
    if id in Ids(blanks) {
      var d :| d in blanks && d.id == id;
      ComponentsAreClasses(blanks, ComponentOf(blanks, id));
      InOwnComponent(blanks, d);
      assert id in Ids(ComponentOf(blanks, id));
    }
    var r := FirstWith(list, id);
    ComponentsAreClasses(blanks, r);
    hide FirstWith;
    if r in list && id in Ids(r) {
      var d :| d in r && d.id == id;
    }
  }

  lemma PoolPermutes(a: seq<Doc>, b: seq<Doc>, stage: Stage, anchor: Option<Doc>)
    requires multiset(a) == multiset(b)
    ensures multiset(PoolOf(a, stage, anchor)) == multiset(PoolOf(b, stage, anchor))
  {
    FilterPermutes(OfStage(stage), a, b);
    var x, y := Filter(OfStage(stage), a), Filter(OfStage(stage), b);
    hide Filter;
    if anchor.Some? {
      FilterPermutes(HasKey(IdentityKey(anchor.value)), x, y);
      if IdentityKey(anchor.value) == None {
        ComponentPermutes(Filter(HasKey(None), x), Filter(HasKey(None), y), anchor.value.id);
      }
    }
  }

  lemma ComponentPermutes(a: seq<Doc>, b: seq<Doc>, id: string)
    requires multiset(a) == multiset(b)
    ensures multiset(FirstWith(ComponentList(a), id)) == multiset(FirstWith(ComponentList(b), id))
  {
    AnchorComponent(a, id);
    AnchorComponent(b, id);
    SameMembers(a, b);
    assert Ids(a) == Ids(b);
    assert Links(a) == Links(b);
    FilterPermutes(With(Links(a), id), a, b);
  }

  /** The whole outcome of `resolve_revision` is the same for every order of its input. */
  lemma ResolvePermutes(a: seq<Doc>, b: seq<Doc>, stage: Stage, anchor: Option<Doc>, selected: set<string>,
                        soleHead: bool)
    requires multiset(a) == multiset(b)
    ensures Resolve(a, stage, anchor, selected, soleHead) == Resolve(b, stage, anchor, selected, soleHead)
  {
    PoolPermutes(a, b, stage, anchor);
    ResolvePoolPermutes(PoolOf(a, stage, anchor), PoolOf(b, stage, anchor), selected, soleHead);
  }

  // ----- the head is the only one ------------------------------------------------------------------------------

  predicate IsSink(pool: seq<Doc>, d: Doc) {
    d.succ == None || !exists e :: e in pool && Eligible(e) && e.id == d.succ.value
  }

  /** The one eligible file the inspector selected, or else the one eligible file without an eligible
      successor. */
  ghost predicate IsOnlyHead(pool: seq<Doc>, selected: set<string>, x: Doc) {
    && x in pool && Eligible(x)
    && (x.id in selected ==> forall y | y in pool && Eligible(y) && y.id in selected :: y == x)
    && (x.id !in selected ==>
          && (forall y | y in pool && Eligible(y) :: y.id !in selected)
          && IsSink(pool, x) && forall y | y in pool && Eligible(y) && IsSink(pool, y) :: y == x)
  }

  lemma SoleKept(p: Doc -> bool, docs: seq<Doc>)
    requires |Filter(p, docs)| == 1
    ensures Filter(p, docs)[0] in docs && p(Filter(p, docs)[0])
    ensures forall y | y in docs && p(y) :: y == Filter(p, docs)[0]
  {
    var kept := Filter(p, docs);
    assert kept[0] in kept;
    forall y | y in docs && p(y) ensures y == kept[0] {
      assert y in kept;
    }
  }

  lemma SinkMeaning(pool: seq<Doc>, d: Doc)
    ensures SinkIn(Ids(Filter(IsEligible(), pool)))(d) <==> IsSink(pool, d)
  {
  }

  /** Whatever is resolved is the only head of its pool. */
  lemma ResolvedIsOnlyHead(pool: seq<Doc>, selected: set<string>, soleHead: bool)
    requires ResolvePool(pool, selected, soleHead).Resolved?
    ensures exists x :: IsOnlyHead(pool, selected, x) && ResolvePool(pool, selected, soleHead).document.id == x.id
  {
    hide PickHead; hide Filter; hide TwoKeys; hide HalfKeyed; hide IsOnlyHead;
    PickedIsOnlyHead(pool, selected, soleHead);
  }

  lemma PickedIsOnlyHead(pool: seq<Doc>, selected: set<string>, soleHead: bool)
    requires PickHead(Filter(IsEligible(), pool), selected, soleHead).Resolved?
    ensures exists x :: IsOnlyHead(pool, selected, x)
                        && PickHead(Filter(IsEligible(), pool), selected, soleHead).document.id == x.id
  {
    var eligible := Filter(IsEligible(), pool);
    var chosen, heads := Filter(OneOf(selected), eligible), Filter(SinkIn(Ids(eligible)), eligible);
    FinishIds(eligible, soleHead);
    hide FinishHead; hide Ids; hide SinkIn; hide Filter; hide IsOnlyHead;
    if |chosen| == 1 {
      SelectedIsOnly(pool, selected);
    } else {
      SinkIsOnly(pool, selected);
    }
  }

  lemma FinishIds(eligible: seq<Doc>, soleHead: bool)
    ensures forall x, inspector :: FinishHead(x, eligible, inspector, soleHead).Resolved? ==>
              FinishHead(x, eligible, inspector, soleHead).document.id == x.id
  {
    hide Stale; hide ApprovedOther;
  }

  lemma SelectedIsOnly(pool: seq<Doc>, selected: set<string>)
    requires |Filter(OneOf(selected), Filter(IsEligible(), pool))| == 1
    ensures IsOnlyHead(pool, selected, Filter(OneOf(selected), Filter(IsEligible(), pool))[0])
  {
    var eligible := Filter(IsEligible(), pool);
    SoleKept(OneOf(selected), eligible);
    assert forall d :: d in eligible <==> d in pool && Eligible(d);
    hide Filter; hide IsSink;
  }

  lemma SinkIsOnly(pool: seq<Doc>, selected: set<string>)
    requires Filter(OneOf(selected), Filter(IsEligible(), pool)) == []
    requires |Filter(SinkIn(Ids(Filter(IsEligible(), pool))), Filter(IsEligible(), pool))| == 1
    ensures IsOnlyHead(pool, selected, Filter(SinkIn(Ids(Filter(IsEligible(), pool))), Filter(IsEligible(), pool))[0])
  {
    var eligible := Filter(IsEligible(), pool);
    var chosen := Filter(OneOf(selected), eligible);
    SoleKept(SinkIn(Ids(eligible)), eligible);
    assert forall d :: d in eligible <==> d in pool && Eligible(d);
    assert forall d :: d in chosen <==> d in eligible && d.id in selected;
    forall y ensures SinkIn(Ids(eligible))(y) <==> IsSink(pool, y) {
      SinkMeaning(pool, y);
    }
    hide Filter; hide IsSink; hide SinkIn; hide Ids;
    forall y | y in pool && Eligible(y) ensures y.id !in selected {
      assert y in eligible && y !in chosen;
    }
  }
}
