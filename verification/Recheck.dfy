/** The pages of a stage (`_stages_from_heads`, process_pipeline.py) and the second resolution of each of
    them inside `evaluate_rule` (evaluate.py), over the raw documents and anchored at the page. */
module Recheck {
  import opened Options
  import opened Documents
  import opened Lists
  import opened Grouping
  import opened Components
  import opened FileChain
  import opened Revisions
  import opened ChainHead
  import opened IdentityHeads

  // ----- members of the list of heads -----------------------------------------------------------------------

  ghost predicate IsHeadOf(keyed: bool, groups: seq<seq<Doc>>, stage: Stage, selected: set<string>, soleHead: bool,
                           h: Head, g: seq<Doc>) {
    g in groups && h == HeadOf(if keyed && g != [] then IdentityKey(g[0]) else None, g, stage, selected, soleHead)
  }

  lemma {:induction false} HeadsOfMembers(keyed: bool, groups: seq<seq<Doc>>, stage: Stage, selected: set<string>,
                                          soleHead: bool, h: Head)
    ensures h in HeadsOf(keyed, groups, stage, selected, soleHead) <==>
            exists g :: IsHeadOf(keyed, groups, stage, selected, soleHead, h, g)
  {
    hide HeadOf; hide IdentityKey;
    if groups != [] {
      var init, last := groups[..|groups| - 1], groups[|groups| - 1];
      assert groups == init + [last];
      HeadsOfMembers(keyed, init, stage, selected, soleHead, h);
      var own := HeadOf(if keyed && last != [] then IdentityKey(last[0]) else None, last, stage, selected, soleHead);
      assert HeadsOf(keyed, groups, stage, selected, soleHead)
          == HeadsOf(keyed, init, stage, selected, soleHead) + [own];
      hide HeadsOf;
      assert h == own ==> IsHeadOf(keyed, groups, stage, selected, soleHead, h, last);
      assert forall g :: g in groups <==> g in init || g == last;
      if g :| IsHeadOf(keyed, init, stage, selected, soleHead, h, g) {
        assert IsHeadOf(keyed, groups, stage, selected, soleHead, h, g);
      }
      if g :| IsHeadOf(keyed, groups, stage, selected, soleHead, h, g) {
        assert g == last || IsHeadOf(keyed, init, stage, selected, soleHead, h, g);
      }
    }
  }

  function KeyGroup(documents: seq<Doc>, stage: Stage, key: Option<Key>): seq<Doc> {
    Filter(HasKey(key), Filter(OfStage(stage), documents))
  }

  lemma KeyedGroup(stageDocs: seq<Doc>, key: Option<Key>)
    requires key.Some?
    ensures Filter(Having(KeyOf(), key), Filter(IsKeyed(), stageDocs)) == Filter(HasKey(key), stageDocs)
  {
    hide IdentityKey;
    FilterBoth(IsKeyed(), Having(KeyOf(), key), stageDocs);
    FilterSame(Both(IsKeyed(), Having(KeyOf(), key)), HasKey(key), stageDocs);
  }

  lemma KeyedGroups(documents: seq<Doc>, stage: Stage, g: seq<Doc>)
    ensures g in Groups(KeyOf(), Filter(IsKeyed(), Filter(OfStage(stage), documents))) <==>
            g != [] && IdentityKey(g[0]).Some? && g == KeyGroup(documents, stage, IdentityKey(g[0]))
  {
    var stageDocs := Filter(OfStage(stage), documents);
    var keyed := Filter(IsKeyed(), stageDocs);
    GroupsMembers(KeyOf(), keyed, g);
    hide Groups; hide IdentityKey;
    if d :| d in keyed && g == Filter(Having(KeyOf(), KeyOf()(d)), keyed) {
      KeyedGroup(stageDocs, IdentityKey(d));
      assert d in g;
      assert g[0] in g;
    }
    if g != [] && IdentityKey(g[0]).Some? && g == KeyGroup(documents, stage, IdentityKey(g[0])) {
      KeyedGroup(stageDocs, IdentityKey(g[0]));
      assert g[0] in g;
    }
  }

  /** The head of a cipher is decided by the files of its stage and key alone. */
  lemma KeyedHead(documents: seq<Doc>, stage: Stage, selected: set<string>, soleHead: bool, key: Key, h: Head)
    ensures h in Heads(documents, stage, selected, soleHead) && h.key == Some(key) <==>
            KeyGroup(documents, stage, Some(key)) != []
              && h == HeadOf(Some(key), KeyGroup(documents, stage, Some(key)), stage, selected, soleHead)
  {
    var stageDocs := Filter(OfStage(stage), documents);
    var keyedGroups := Groups(KeyOf(), Filter(IsKeyed(), stageDocs));
    var blankGroups := BlankGroups(Filter(HasKey(None), stageDocs), stage);
    HeadsOfMembers(true, keyedGroups, stage, selected, soleHead, h);
    HeadsOfMembers(false, blankGroups, stage, selected, soleHead, h);
    var group := KeyGroup(documents, stage, Some(key));
    KeyGroupHead(documents, stage, Some(key));
    KeyedGroups(documents, stage, group);
    HeadKey(Some(key), group, stage, selected, soleHead);
    hide Groups; hide BlankGroups; hide KeyGroup; hide HeadsOf; hide HeadOf; hide IdentityKey; hide Filter;
    if g :| IsHeadOf(false, blankGroups, stage, selected, soleHead, h, g) {
      HeadKey(None, g, stage, selected, soleHead);
    }
    if h.key == Some(key) {
      if g :| IsHeadOf(true, keyedGroups, stage, selected, soleHead, h, g) {
        KeyedGroups(documents, stage, g);
        HeadKey(IdentityKey(g[0]), g, stage, selected, soleHead);
      }
    }
    if group != [] && h == HeadOf(Some(key), group, stage, selected, soleHead) {
      assert IsHeadOf(true, keyedGroups, stage, selected, soleHead, h, group);
    }
  }

  lemma HeadKey(key: Option<Key>, group: seq<Doc>, stage: Stage, selected: set<string>, soleHead: bool)
    ensures HeadOf(key, group, stage, selected, soleHead).key == key
  {
  }

  lemma KeyGroupHead(documents: seq<Doc>, stage: Stage, key: Option<Key>)
    ensures var g := KeyGroup(documents, stage, key); g != [] ==> IdentityKey(g[0]) == key
  {
    var g := KeyGroup(documents, stage, key);
    if g != [] {
      assert g[0] in g;
    }
  }

  /** A document of another stage or key may come or go: the head of the key stays what it was. */
  lemma OtherDocumentsDoNotMatter(before: seq<Doc>, other: Doc, after: seq<Doc>, stage: Stage, selected: set<string>,
                                  soleHead: bool, key: Key, h: Head)
    requires other.stage != stage || IdentityKey(other) != Some(key)
    ensures (h in Heads(before + [other] + after, stage, selected, soleHead) && h.key == Some(key)) <==>
            (h in Heads(before + after, stage, selected, soleHead) && h.key == Some(key))
  {
    KeyedHead(before + [other] + after, stage, selected, soleHead, key, h);
    KeyedHead(before + after, stage, selected, soleHead, key, h);
    hide Heads; hide HeadOf;
    var p := Both(OfStage(stage), HasKey(Some(key)));
    FilterBoth(OfStage(stage), HasKey(Some(key)), before + [other] + after);
    FilterBoth(OfStage(stage), HasKey(Some(key)), before + after);
    hide IdentityKey;
    FilterConcat(p, before + [other], after);
    FilterSnoc(p, before, other);
    FilterConcat(p, before, after);
    assert Filter(p, before) + [] == Filter(p, before);
  }

  // ----- where unkeyed groups come from --------------------------------------------------------------------

  /** Files that are alone in their components. */
  ghost predicate AllAlone(blanks: seq<Doc>, docs: seq<Doc>) {
    forall d | d in docs :: d in blanks && [d] in ComponentList(blanks)
  }

  lemma {:induction false} LooseAlone(components: seq<seq<Doc>>, d: Doc)
    requires d in Loose(components)
    ensures [d] in components
  {
    var init, last := components[..|components| - 1], components[|components| - 1];
    assert components == init + [last];
    if d in Loose(init) {
      LooseAlone(init, d);
    } else {
      assert last == [d];
    }
  }

  lemma {:induction false} BoundMembers(components: seq<seq<Doc>>, g: seq<Doc>)
    requires g in Bound(components)
    ensures g in components
  {
    var init, last := components[..|components| - 1], components[|components| - 1];
    assert components == init + [last];
    if g in Bound(init) {
      BoundMembers(init, g);
    }
  }

  lemma {:induction false} SinglesMembers(docs: seq<Doc>, g: seq<Doc>)
    requires g in Singles(docs)
    ensures exists d :: d in docs && g == [d]
  {
    var init, last := docs[..|docs| - 1], docs[|docs| - 1];
    assert docs == init + [last];
    if g in Singles(init) {
      SinglesMembers(init, g);
      var d :| d in init && g == [d];
      assert d in docs;
    } else {
      assert g == [last] && last in docs;
    }
  }

  lemma {:induction false} ChainedMembers(groups: seq<seq<Doc>>, g: seq<Doc>)
    requires g in ChainedAll(groups)
    ensures exists c :: c in groups && g == Chained(c)
  {
    hide Chained;
    var init, last := groups[..|groups| - 1], groups[|groups| - 1];
    assert groups == init + [last];
    if g in ChainedAll(init) {
      ChainedMembers(init, g);
      var c :| c in init && g == Chained(c);
      assert c in groups;
    } else {
      assert last in groups;
    }
  }

  lemma AloneInComponents(blanks: seq<Doc>)
    ensures AllAlone(blanks, Loose(ComponentList(blanks)))
  {
    hide ComponentList; hide Loose;
    forall d | d in Loose(ComponentList(blanks)) ensures d in blanks && [d] in ComponentList(blanks) {
      LooseAlone(ComponentList(blanks), d);
      ComponentsAreClasses(blanks, [d]);
      assert d in [d];
    }
  }

  ghost predicate IsCluster(blanks: seq<Doc>, cluster: seq<Doc>, g: seq<Doc>) {
    AllAlone(blanks, cluster) && g == Chained(cluster)
  }

  /** An unkeyed group is a component, or the chain of files that are alone in their components. */
  lemma BlankGroupKinds(blanks: seq<Doc>, stage: Stage, g: seq<Doc>)
    requires g in BlankGroups(blanks, stage)
    ensures g in ComponentList(blanks) || exists cluster :: IsCluster(blanks, cluster, g)
  {
    AloneInComponents(blanks);
    hide ComponentList; hide Loose; hide Bound; hide Singles; hide ChainedAll; hide Groups; hide Chained; hide Filter;
    var components := ComponentList(blanks);
    var loose := Loose(components);
    var some := Filter(SomeVolume(), loose);
    if stage != ID {
      if g in Bound(components) {
        BoundMembers(components, g);
      } else if g in Singles(Filter(NoVolume(), loose)) {
        SinglesMembers(Filter(NoVolume(), loose), g);
      } else {
        ChainedMembers(Groups(Volume(), some), g);
        var cluster :| cluster in Groups(Volume(), some) && g == Chained(cluster);
        GroupsMembers(Volume(), some, cluster);
        assert IsCluster(blanks, cluster, g);
      }
    }
  }

  // ----- the resolution inside a group ---------------------------------------------------------------------

  /** The file of the group that the resolution chose, before its approval was filled in. */
  ghost predicate Picked(group: seq<Doc>, selected: set<string>, soleHead: bool, c: Doc, x: Doc) {
    && x in group && Eligible(x)
    && c.id == x.id && c.stage == x.stage && IdentityKey(c) == IdentityKey(x)
    && (x.id in selected || x.succ != Some(x.id))
    && exists others :: x in others && FinishHead(x, others, x.id in selected, soleHead).Resolved?
  }

  lemma FinishKeeps(x: Doc, eligible: seq<Doc>, inspector: bool, soleHead: bool)
    requires FinishHead(x, eligible, inspector, soleHead).Resolved?
    ensures var c := FinishHead(x, eligible, inspector, soleHead).document;
            c.id == x.id && c.stage == x.stage && IdentityKey(c) == IdentityKey(x)
  {
  }

  lemma ResolvedPicks(group: seq<Doc>, selected: set<string>, soleHead: bool)
    requires ResolvePool(group, selected, soleHead).Resolved?
    ensures exists x :: Picked(group, selected, soleHead, ResolvePool(group, selected, soleHead).document, x)
  {
    hide FinishHead; hide IdentityKey; hide TwoKeys; hide HalfKeyed;
    var eligible := Filter(IsEligible(), group);
    var chosen := Filter(OneOf(selected), eligible);
    var heads := Filter(SinkIn(Ids(eligible)), eligible);
    var x := if |chosen| == 1 then chosen[0] else heads[0];
    assert |chosen| == 1 ==> chosen[0] in chosen;
    assert |chosen| != 1 ==> heads[0] in heads;
    assert x in eligible && x.id in Ids(eligible);
    assert x.id in selected <==> x in chosen;
    FinishKeeps(x, eligible, |chosen| == 1, soleHead);
    assert Picked(group, selected, soleHead, ResolvePool(group, selected, soleHead).document, x);
  }

  lemma SelectedInside(group: seq<Doc>, selected: set<string>, soleHead: bool)
    ensures ResolvePool(group, selected * Ids(group), soleHead) == ResolvePool(group, selected, soleHead)
  {
    hide FinishHead; hide TwoKeys; hide HalfKeyed;
    var eligible := Filter(IsEligible(), group);
    FilterSame(OneOf(selected * Ids(group)), OneOf(selected), eligible);
  }

  lemma WholeStage(group: seq<Doc>, stage: Stage, selected: set<string>, soleHead: bool)
    requires forall d | d in group :: d.stage == stage
    ensures Resolve(group, stage, None, selected * Ids(group), soleHead) == ResolvePool(group, selected, soleHead)
  {
    hide ResolvePool;
    FilterAll(OfStage(stage), group);
    SelectedInside(group, selected, soleHead);
  }

  /** An unkeyed file alone. */
  lemma LoneResolve(d: Doc, selected: set<string>, soleHead: bool)
    requires Eligible(d) && d.code == ""
    ensures ResolvePool([d], selected, soleHead) ==
            if d.id in selected then FinishHead(d, [d], true, soleHead)
            else if d.succ == Some(d.id) then Conflict(Cycle)
            else FinishHead(d, [d], false, soleHead)
  {
    LonePool(d, selected, soleHead);
    hide ResolvePool; hide Filter; hide FinishHead; hide Ids;
    FilterOne(OneOf(selected), d);
    FilterOne(SinkIn({d.id}), d);
    LoneIds(d);
  }

  lemma LonePool(d: Doc, selected: set<string>, soleHead: bool)
    requires Eligible(d) && d.code == ""
    ensures ResolvePool([d], selected, soleHead) == PickHead([d], selected, soleHead)
  {
    NoKeys([d]);
    hide PickHead; hide Filter; hide TwoKeys; hide HalfKeyed;
    FilterOne(IsEligible(), d);
  }

  lemma LoneIds(d: Doc)
    ensures Ids([d]) == {d.id}
  {
  }

  lemma FinishAlone(x: Doc, others: seq<Doc>, d: Doc, inspector: bool, soleHead: bool)
    requires x in others && FinishHead(x, others, inspector, soleHead).Resolved? && SameFile(d, x)
    ensures FinishHead(d, [d], inspector, soleHead).Resolved?
            && FinishHead(d, [d], inspector, soleHead).document.id == d.id
  {
    hide Stale;
  }

  // ----- the second resolution -------------------------------------------------------------------------------

  /** What `evaluate_rule` asks of the page's document. */
  ghost predicate Passes(documents: seq<Doc>, stage: Stage, anchor: Doc, selected: set<string>, soleHead: bool) {
    var r := Resolve(documents, stage, Some(anchor), selected, soleHead);
    r.Resolved? && r.document.id == anchor.id
  }

  predicate NoSelfLoop(raw: Doc, selected: set<string>) {
    raw.succ != Some(raw.id) || raw.id in selected
  }

  lemma OnlyOne(documents: seq<Doc>, a: Doc, b: Doc)
    requires DistinctIds(documents) && a in documents && b in documents && a.id == b.id
    ensures a == b
  {
    var i :| 0 <= i < |documents| && documents[i] == a;
    var j :| 0 <= j < |documents| && documents[j] == b;
    assert i == j;
  }

  /** A group that the anchor finds again as a whole. */
  lemma SameGroupAgrees(documents: seq<Doc>, stage: Stage, selected: set<string>, soleHead: bool, group: seq<Doc>,
                        c: Doc, raw: Doc)
    requires DistinctIds(documents) && forall d | d in group :: d in documents && d.stage == stage
    requires ResolvePool(group, selected, soleHead).Resolved? && ResolvePool(group, selected, soleHead).document == c
    requires PoolOf(documents, stage, Some(c)) == group
    requires raw in documents && raw.id == c.id
    ensures Passes(documents, stage, c, selected, soleHead) && NoSelfLoop(raw, selected)
  {
    ResolvedPicks(group, selected, soleHead);
    var x :| Picked(group, selected, soleHead, c, x);
    OnlyOne(documents, x, raw);
    hide ResolvePool; hide PoolOf; hide FinishHead;
  }

  /** A chained or refused cluster: the anchor finds the raw file alone. */
  lemma ClusterAgrees(documents: seq<Doc>, stage: Stage, selected: set<string>, soleHead: bool, blanks: seq<Doc>,
                      cluster: seq<Doc>, c: Doc, raw: Doc)
    requires DistinctIds(documents) && blanks == Filter(HasKey(None), Filter(OfStage(stage), documents))
    requires AllAlone(blanks, cluster)
    requires ResolvePool(Chained(cluster), selected, soleHead).Resolved?
    requires ResolvePool(Chained(cluster), selected, soleHead).document == c
    requires raw in documents && raw.id == c.id
    ensures Passes(documents, stage, c, selected, soleHead) <==> NoSelfLoop(raw, selected)
  {
    hide ResolvePool; hide FinishHead; hide Chained; hide ComponentList; hide Filter; hide PoolOf; hide Resolve;
    hide Passes;
    hide SameFile; hide IdentityKey;
    ResolvedPicks(Chained(cluster), selected, soleHead);
    var x :| Picked(Chained(cluster), selected, soleHead, c, x);
    var others :| x in others && FinishHead(x, others, x.id in selected, soleHead).Resolved?;
    var d := ChainedFrom(cluster, x);
    SameIdentity(d, x);
    assert d in blanks && [d] in ComponentList(blanks);
    OnlyOne(documents, d, raw);
    BlankKey(documents, stage, blanks, d);
    AlonePool(documents, stage, blanks, c, d);
    LonePasses(documents, stage, selected, soleHead, c, x, others, d);
  }

  lemma SameIdentity(d: Doc, x: Doc)
    requires SameFile(d, x)
    ensures d.id == x.id && d.stage == x.stage && IdentityKey(d) == IdentityKey(x) && Eligible(d) == Eligible(x)
  {
  }

  lemma BlankKey(documents: seq<Doc>, stage: Stage, blanks: seq<Doc>, d: Doc)
    requires blanks == Filter(HasKey(None), Filter(OfStage(stage), documents)) && d in blanks
    ensures d in documents && d.stage == stage && d.code == "" && IdentityKey(d) == None
  {
  }

  lemma LonePasses(documents: seq<Doc>, stage: Stage, selected: set<string>, soleHead: bool, c: Doc, x: Doc,
                   others: seq<Doc>, d: Doc)
    requires PoolOf(documents, stage, Some(c)) == [d] && c.id == d.id && c.stage == stage
    requires x in others && FinishHead(x, others, x.id in selected, soleHead).Resolved? && SameFile(d, x)
    requires Eligible(d) && d.code == ""
    ensures Passes(documents, stage, c, selected, soleHead) <==> NoSelfLoop(d, selected)
  {
    FinishAlone(x, others, d, x.id in selected, soleHead);
    LoneResolve(d, selected, soleHead);
    SameIdentity(d, x);
    hide PoolOf; hide ResolvePool; hide FinishHead; hide SameFile;
  }

  lemma ChainedFrom(cluster: seq<Doc>, x: Doc) returns (d: Doc)
    requires x in Chained(cluster)
    ensures d in cluster && SameFile(d, x)
  {
    if |cluster| != 1 && ChainOf(cluster).Linked? {
      ChainShape(cluster);
      hide ChainOf;
      var k :| 0 <= k < |cluster| && SameFile(cluster[k], x) && LastOfNumber(cluster, k);
      d := cluster[k];
    } else {
      d := x;
    }
  }

  lemma AlonePool(documents: seq<Doc>, stage: Stage, blanks: seq<Doc>, c: Doc, d: Doc)
    requires blanks == Filter(HasKey(None), Filter(OfStage(stage), documents))
    requires [d] in ComponentList(blanks) && d in blanks && c.id == d.id && IdentityKey(c) == None
    ensures PoolOf(documents, stage, Some(c)) == [d]
  {
    hide ComponentList; hide ComponentOf;
    AnchorComponent(blanks, d.id);
    ComponentsAreClasses(blanks, [d]);
    assert d in [d] && d.id in Ids(blanks);
  }

  lemma ComponentPool(documents: seq<Doc>, stage: Stage, blanks: seq<Doc>, group: seq<Doc>, c: Doc, x: Doc)
    requires blanks == Filter(HasKey(None), Filter(OfStage(stage), documents))
    requires group in ComponentList(blanks) && x in group && c.id == x.id && IdentityKey(c) == None
    ensures PoolOf(documents, stage, Some(c)) == group
  {
    hide ComponentList; hide ComponentOf;
    AnchorComponent(blanks, x.id);
    ComponentsAreClasses(blanks, group);
    assert x.id in Ids(blanks);
  }

  lemma BlankGroupAgrees(documents: seq<Doc>, stage: Stage, selected: set<string>, soleHead: bool, group: seq<Doc>,
                         c: Doc, raw: Doc)
    requires DistinctIds(documents)
    requires group in BlankGroups(Filter(HasKey(None), Filter(OfStage(stage), documents)), stage)
    requires ResolvePool(group, selected, soleHead).Resolved? && ResolvePool(group, selected, soleHead).document == c
    requires raw in documents && raw.id == c.id
    ensures Passes(documents, stage, c, selected, soleHead) <==> NoSelfLoop(raw, selected)
  {
    var blanks := Filter(HasKey(None), Filter(OfStage(stage), documents));
    BlankGroupKinds(blanks, stage, group);
    hide BlankGroups; hide ResolvePool; hide Passes; hide ComponentList;
    if group in ComponentList(blanks) {
      ComponentsAreClasses(blanks, group);
      ResolvedPicks(group, selected, soleHead);
      var x :| Picked(group, selected, soleHead, c, x);
      ComponentPool(documents, stage, blanks, group, c, x);
      SameGroupAgrees(documents, stage, selected, soleHead, group, c, raw);
    } else {
      var cluster :| IsCluster(blanks, cluster, group);
      ClusterAgrees(documents, stage, selected, soleHead, blanks, cluster, c, raw);
    }
  }

  lemma KeyGroupAgrees(documents: seq<Doc>, stage: Stage, selected: set<string>, soleHead: bool, group: seq<Doc>,
                       c: Doc, raw: Doc)
    requires DistinctIds(documents) && group != [] && IdentityKey(group[0]).Some?
    requires group == KeyGroup(documents, stage, IdentityKey(group[0]))
    requires ResolvePool(group, selected, soleHead).Resolved? && ResolvePool(group, selected, soleHead).document == c
    requires raw in documents && raw.id == c.id
    ensures Passes(documents, stage, c, selected, soleHead) && NoSelfLoop(raw, selected)
  {
    ResolvedPicks(group, selected, soleHead);
    var x :| Picked(group, selected, soleHead, c, x);
    hide ResolvePool; hide Passes; hide IdentityKey;
    assert PoolOf(documents, stage, Some(c)) == group;
    SameGroupAgrees(documents, stage, selected, soleHead, group, c, raw);
  }

  lemma BlankGroupStage(documents: seq<Doc>, stage: Stage, group: seq<Doc>)
    requires group in BlankGroups(Filter(HasKey(None), Filter(OfStage(stage), documents)), stage)
    ensures forall x | x in group :: x.stage == stage && exists d :: d in documents && d.id == x.id
  {
    var blanks := Filter(HasKey(None), Filter(OfStage(stage), documents));
    BlankGroupKinds(blanks, stage, group);
    hide BlankGroups; hide ComponentList; hide ComponentOf; hide Chained; hide Filter; hide SameFile; hide IdentityKey;
    forall x | x in group ensures x.stage == stage && exists d :: d in documents && d.id == x.id {
      if group in ComponentList(blanks) {
        ComponentsAreClasses(blanks, group);
        BlankKey(documents, stage, blanks, x);
      } else {
        var cluster :| IsCluster(blanks, cluster, group);
        var d := ChainedFrom(cluster, x);
        SameIdentity(d, x);
        BlankKey(documents, stage, blanks, d);
      }
    }
  }

  /** The group behind a resolved head. */
  ghost predicate Behind(documents: seq<Doc>, stage: Stage, selected: set<string>, soleHead: bool, c: Doc,
                         group: seq<Doc>) {
    && ResolvePool(group, selected, soleHead).Resolved? && ResolvePool(group, selected, soleHead).document == c
    && ((group != [] && IdentityKey(group[0]).Some? && group == KeyGroup(documents, stage, IdentityKey(group[0])))
        || group in BlankGroups(Filter(HasKey(None), Filter(OfStage(stage), documents)), stage))
  }

  lemma GroupBehind(documents: seq<Doc>, stage: Stage, selected: set<string>, soleHead: bool, h: Head)
    requires h in Heads(documents, stage, selected, soleHead) && h.resolution.Resolved?
    ensures exists group :: Behind(documents, stage, selected, soleHead, h.resolution.document, group)
  {
    var stageDocs := Filter(OfStage(stage), documents);
    var keyed := Groups(KeyOf(), Filter(IsKeyed(), stageDocs));
    var blank := BlankGroups(Filter(HasKey(None), stageDocs), stage);
    HeadsOfMembers(true, keyed, stage, selected, soleHead, h);
    HeadsOfMembers(false, blank, stage, selected, soleHead, h);
    hide Groups; hide BlankGroups; hide HeadsOf; hide HeadOf; hide ResolvePool; hide IdentityKey; hide Filter;
    hide KeyGroup;
    if g :| IsHeadOf(true, keyed, stage, selected, soleHead, h, g) {
      KeyedGroups(documents, stage, g);
      KeyGroupStage(documents, stage, IdentityKey(g[0]));
      HeadInside(IdentityKey(g[0]), g, stage, selected, soleHead, h);
      assert Behind(documents, stage, selected, soleHead, h.resolution.document, g);
    } else {
      var g :| IsHeadOf(false, blank, stage, selected, soleHead, h, g);
      BlankGroupStage(documents, stage, g);
      HeadInside(None, g, stage, selected, soleHead, h);
      assert Behind(documents, stage, selected, soleHead, h.resolution.document, g);
    }
  }

  lemma KeyGroupStage(documents: seq<Doc>, stage: Stage, key: Option<Key>)
    ensures forall d | d in KeyGroup(documents, stage, key) :: d.stage == stage && d in documents
  {
  }

  lemma HeadInside(key: Option<Key>, group: seq<Doc>, stage: Stage, selected: set<string>, soleHead: bool, h: Head)
    requires h == HeadOf(key, group, stage, selected, soleHead) && h.resolution.Resolved?
    requires forall d | d in group :: d.stage == stage
    ensures h.resolution == ResolvePool(group, selected, soleHead)
  {
    WholeStage(group, stage, selected, soleHead);
    hide Resolve; hide ResolvePool; hide FilenameConflict;
  }

  /** Every resolved head stands for one raw document. */
  lemma RawDocument(documents: seq<Doc>, stage: Stage, selected: set<string>, soleHead: bool, h: Head)
    returns (raw: Doc)
    requires h in Heads(documents, stage, selected, soleHead) && h.resolution.Resolved?
    ensures raw in documents && raw.id == h.resolution.document.id
  {
    GroupBehind(documents, stage, selected, soleHead, h);
    var c := h.resolution.document;
    hide Heads; hide ResolvePool; hide BlankGroups; hide KeyGroup; hide IdentityKey;
    var group :| Behind(documents, stage, selected, soleHead, c, group);
    ResolvedPicks(group, selected, soleHead);
    var x :| Picked(group, selected, soleHead, c, x);
    if group in BlankGroups(Filter(HasKey(None), Filter(OfStage(stage), documents)), stage) {
      BlankGroupStage(documents, stage, group);
      raw :| raw in documents && raw.id == x.id;
    } else {
      KeyGroupStage(documents, stage, IdentityKey(group[0]));
      raw := x;
    }
  }

  /** The two resolutions agree on every resolved head, keyed, linked or chained by name, exactly when its
      raw document does not name itself as successor or the inspector selected it. */
  lemma RecheckAgrees(documents: seq<Doc>, stage: Stage, selected: set<string>, soleHead: bool, h: Head, raw: Doc)
    requires DistinctIds(documents) && h in Heads(documents, stage, selected, soleHead) && h.resolution.Resolved?
    requires raw in documents && raw.id == h.resolution.document.id
    ensures Passes(documents, stage, h.resolution.document, selected, soleHead) <==> NoSelfLoop(raw, selected)
  {
    GroupBehind(documents, stage, selected, soleHead, h);
    var c := h.resolution.document;
    hide *;
    Agreement(documents, stage, selected, soleHead, c, raw);
  }

  lemma Agreement(documents: seq<Doc>, stage: Stage, selected: set<string>, soleHead: bool, c: Doc, raw: Doc)
    requires DistinctIds(documents) && raw in documents && raw.id == c.id
    requires exists group :: Behind(documents, stage, selected, soleHead, c, group)
    ensures Passes(documents, stage, c, selected, soleHead) <==> NoSelfLoop(raw, selected)
  {
    hide ResolvePool; hide BlankGroups; hide KeyGroup; hide IdentityKey; hide Passes; hide DistinctIds;
    var group :| Behind(documents, stage, selected, soleHead, c, group);
    if group in BlankGroups(Filter(HasKey(None), Filter(OfStage(stage), documents)), stage) {
      BlankGroupAgrees(documents, stage, selected, soleHead, group, c, raw);
    } else {
      KeyGroupAgrees(documents, stage, selected, soleHead, group, c, raw);
    }
  }
}
