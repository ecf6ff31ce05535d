/** No document of a stage is lost on the way to the heads of `resolve_heads_by_identity`
    (revision_resolver.py): a head lists it, or lists the stored file it gave way to. */
module HeadCoverage {
  import opened Options
  import opened Documents
  import opened Lists
  import opened Grouping
  import opened Components
  import opened FileChain
  import opened Revisions
  import opened IdentityHeads
  import opened Recheck

  lemma {:induction false} LooseOrBound(components: seq<seq<Doc>>, c: seq<Doc>)
    requires c in components
    ensures if IsLoose(c) then c[0] in Loose(components) else c in Bound(components)
  {
    var init, last := components[..|components| - 1], components[|components| - 1];
    assert components == init + [last];
    if c != last {
      LooseOrBound(init, c);
    }
  }

  lemma {:induction false} InSingles(docs: seq<Doc>, d: Doc)
    requires d in docs
    ensures [d] in Singles(docs)
  {
    var init, last := docs[..|docs| - 1], docs[|docs| - 1];
    assert docs == init + [last];
    if d != last {
      InSingles(init, d);
    }
  }

  lemma {:induction false} InChainedAll(groups: seq<seq<Doc>>, g: seq<Doc>)
    requires g in groups
    ensures Chained(g) in ChainedAll(groups)
  {
    hide Chained;
    var init, last := groups[..|groups| - 1], groups[|groups| - 1];
    assert groups == init + [last];
    if g != last {
      InChainedAll(init, g);
    }
  }

  /** c is listed where d gave way to it: unkeyed files of one volume name, each alone in its component, with
      one revision number and one content. */
  ghost predicate GaveWay(blanks: seq<Doc>, d: Doc, c: Doc) {
    && d in blanks && c in blanks && [d] in ComponentList(blanks) && [c] in ComponentList(blanks)
    && d.named && c.named && d.volume == c.volume != ""
    && d.mark.number.Some? && c.mark.number == d.mark.number && c.hash == d.hash
  }

  /** The file of the pool that stands in the group for d. */
  ghost predicate StandsIn(blanks: seq<Doc>, group: seq<Doc>, d: Doc, c: Doc) {
    (exists g :: g in group && g.id == c.id) && (c == d || GaveWay(blanks, d, c))
  }

  /** Loose files of one volume name. */
  ghost predicate OneVolume(blanks: seq<Doc>, cluster: seq<Doc>) {
    AllAlone(blanks, cluster) && forall d, c | d in cluster && c in cluster :: d.named && d.volume == c.volume != ""
  }

  /** The stored file behind the link of the chain that covers d. */
  lemma LinkFor(cluster: seq<Doc>, d: Doc) returns (c: Doc, g: Doc)
    requires d in cluster && ChainOf(cluster).Linked?
    ensures c in cluster && g in ChainOf(cluster).docs && g.id == c.id
    ensures d.mark.number.Some? && c.mark.number == d.mark.number && c.hash == d.hash
  {
    ChainShape(cluster);
    RefusedExactly(cluster);
    assert d.mark.number != None;
    hide ChainOf; hide LastOfNumber; hide Unread; hide StrictlyNumbered; hide DoublyLinked; hide HasKind; hide Clash;
    assert Covered(ChainOf(cluster).docs, d);
    g :| g in ChainOf(cluster).docs && g.mark.number == d.mark.number && g.hash == d.hash;
    var k :| 0 <= k < |cluster| && SameFile(cluster[k], g) && LastOfNumber(cluster, k);
    c := cluster[k];
  }

  lemma ChainedStands(blanks: seq<Doc>, cluster: seq<Doc>, d: Doc) returns (c: Doc)
    requires d in cluster && OneVolume(blanks, cluster)
    ensures c in cluster && StandsIn(blanks, Chained(cluster), d, c)
  {
    hide ComponentList; hide ChainOf;
    c := d;
    if |cluster| != 1 && ChainOf(cluster).Linked? {
      var g: Doc;
      c, g := LinkFor(cluster, d);
      assert g in Chained(cluster);
    } else {
      assert d in Chained(cluster);
    }
  }

  lemma ClusterOf(loose: seq<Doc>, d: Doc) returns (cluster: seq<Doc>)
    requires d in loose && d.volume != ""
    ensures cluster in Groups(Volume(), Filter(SomeVolume(), loose)) && d in cluster
    ensures forall c | c in cluster :: c in loose && c.volume == d.volume
  {
    var some := Filter(SomeVolume(), loose);
    assert d in some;
    cluster := Filter(Having(Volume(), d.volume), some);
    assert d in cluster;
    GroupsMembers(Volume(), some, cluster);
    hide Groups;
    assert cluster == Filter(Having(Volume(), Volume()(d)), some);
  }

  lemma {:induction false} LooseIsNamed(components: seq<seq<Doc>>, d: Doc)
    requires d in Loose(components)
    ensures d.named
  {
    var init, last := components[..|components| - 1], components[|components| - 1];
    if d in Loose(init) {
      LooseIsNamed(init, d);
    }
  }

  /** Every unkeyed file, or one it gave way to, stands in a group. */
  lemma BlankStands(blanks: seq<Doc>, stage: Stage, d: Doc) returns (group: seq<Doc>, c: Doc)
    requires d in blanks
    ensures group in BlankGroups(blanks, stage) && c in blanks && StandsIn(blanks, group, d, c)
    ensures stage == ID ==> c == d
  {
    hide Loose; hide Bound; hide Singles; hide ChainedAll; hide Chained; hide Filter; hide Groups; hide ComponentList;
    hide ComponentOf; hide GaveWay;
    var components := ComponentList(blanks);
    group, c := ComponentOf(blanks, d.id), d;
    ComponentsAreClasses(blanks, group);
    InOwnComponent(blanks, d);
    if stage != ID {
      LooseOrBound(components, group);
      if IsLoose(group) {
        assert group == [d];
        group, c := LooseStands(blanks, d);
      }
    }
  }

  lemma LooseStands(blanks: seq<Doc>, d: Doc) returns (group: seq<Doc>, c: Doc)
    requires d in Loose(ComponentList(blanks)) && d in blanks
    ensures var loose := Loose(ComponentList(blanks));
            group in Singles(Filter(NoVolume(), loose)) + ChainedAll(Groups(Volume(), Filter(SomeVolume(), loose)))
    ensures c in blanks && StandsIn(blanks, group, d, c)
  {
    hide Singles; hide ChainedAll; hide Chained; hide Groups; hide ComponentList; hide Loose; hide GaveWay;
    var loose := Loose(ComponentList(blanks));
    if d.volume == "" {
      InSingles(Filter(NoVolume(), loose), d);
      group, c := [d], d;
      assert d in group;
    } else {
      var cluster := ClusterOf(loose, d);
      InChainedAll(Groups(Volume(), Filter(SomeVolume(), loose)), cluster);
      AloneInComponents(blanks);
      forall x | x in cluster ensures x.named { LooseIsNamed(ComponentList(blanks), x); }
      group := Chained(cluster);
      c := ChainedStands(blanks, cluster, d);
    }
  }

  function Blanks(documents: seq<Doc>, stage: Stage): seq<Doc> {
    Filter(HasKey(None), Filter(OfStage(stage), documents))
  }

  /** No document of the stage is lost: a head lists its id, or, for an unkeyed file outside the as-built stage,
      the id of the stored file it gave way to. */
  lemma NoFileIsLost(documents: seq<Doc>, stage: Stage, selected: set<string>, soleHead: bool, d: Doc)
    requires d in documents && d.stage == stage
    ensures exists h, c :: h in Heads(documents, stage, selected, soleHead) && c in documents && c.id in h.files
                           && (c == d || (stage != ID && GaveWay(Blanks(documents, stage), d, c)))
  {
    hide GaveWay; hide HeadsOf; hide HeadOf; hide BlankGroups; hide Groups; hide IdentityKey;
    var stageDocs := Filter(OfStage(stage), documents);
    assert d in stageDocs;
    var h: Head, group: seq<Doc>;
    var c := d;
    if IdentityKey(d).Some? {
      group := KeyGroup(documents, stage, IdentityKey(d));
      assert d in group;
      h := HeadOf(IdentityKey(d), group, stage, selected, soleHead);
      KeyedHead(documents, stage, selected, soleHead, IdentityKey(d).value, h);
      HeadKey(IdentityKey(d), group, stage, selected, soleHead);
    } else {
      var blanks := Blanks(documents, stage);
      assert d in blanks;
      group, c := BlankStands(blanks, stage, d);
      h := HeadOf(None, group, stage, selected, soleHead);
      assert IsHeadOf(false, BlankGroups(blanks, stage), stage, selected, soleHead, h, group);
      HeadsOfMembers(false, BlankGroups(blanks, stage), stage, selected, soleHead, h);
    }
    var g :| g in group && g.id == c.id;
    HeadLists(if IdentityKey(d).Some? then IdentityKey(d) else None, group, g, stage, selected, soleHead);
    hide Filter;
  }

  lemma HeadLists(key: Option<Key>, group: seq<Doc>, g: Doc, stage: Stage, selected: set<string>, soleHead: bool)
    requires g in group
    ensures g.id in HeadOf(key, group, stage, selected, soleHead).files
  {
    hide FilenameConflict; hide Resolve;
    var i :| 0 <= i < |group| && group[i] == g;
    assert FileIds(group)[i] == g.id;
  }
}
