/** `resolve_heads_by_identity` (revision_resolver.py): one head per cipher, per component of linked
    unkeyed files, and per chain of file names. */
module IdentityHeads {
  import opened Options
  import opened Documents
  import opened Lists
  import opened Grouping
  import opened Components
  import opened FileChain
  import opened Revisions
  import opened ChainHead

  /** A conflict stays inside its own head as a clarification. */
  datatype Head = Head(key: Option<Key>, files: seq<string>, resolution: Resolution)

  // ----- groups of unkeyed files ----------------------------------------------------------------------------

  predicate IsLoose(component: seq<Doc>) {
    |component| == 1 && component[0].named
  }

  function Loose(components: seq<seq<Doc>>): seq<Doc> {
    if components == [] then []
    else
      var c := components[|components| - 1];
      Loose(components[..|components| - 1]) + if IsLoose(c) then [c[0]] else []
  }

  function Bound(components: seq<seq<Doc>>): seq<seq<Doc>> {
    if components == [] then []
    else
      var c := components[|components| - 1];
      Bound(components[..|components| - 1]) + if IsLoose(c) then [] else [c]
  }

  function Volume(): Doc -> string {
    (d: Doc) => d.volume
  }

  function NoVolume(): Doc -> bool {
    (d: Doc) => d.volume == ""
  }

  function SomeVolume(): Doc -> bool {
    (d: Doc) => d.volume != ""
  }

  function Singles(docs: seq<Doc>): seq<seq<Doc>> {
    if docs == [] then [] else Singles(docs[..|docs| - 1]) + [[docs[|docs| - 1]]]
  }

  /** A cluster of one volume name: chained when the chain is accepted. */
  function Chained(group: seq<Doc>): seq<Doc> {
    if |group| == 1 then group
    else match ChainOf(group) case Linked(docs) => docs case Refused(_) => group
  }

  function ChainedAll(groups: seq<seq<Doc>>): seq<seq<Doc>> {
    if groups == [] then [] else ChainedAll(groups[..|groups| - 1]) + [Chained(groups[|groups| - 1])]
  }

  ghost function BlankGroups(blanks: seq<Doc>, stage: Stage): seq<seq<Doc>> {
    var components := ComponentList(blanks);
    if stage == ID then components
    else
      var loose := Loose(components);
      Bound(components) + Singles(Filter(NoVolume(), loose)) + ChainedAll(Groups(Volume(), Filter(SomeVolume(), loose)))
  }

  /** The first loop of `_blank_filename_groups`. */
  method SplitLoose(components: seq<seq<Doc>>) returns (kept: seq<seq<Doc>>, loose: seq<Doc>)
    ensures kept == Bound(components) && loose == Loose(components)
  {
    kept, loose := [], [];
    for i := 0 to |components|
      invariant kept == Bound(components[..i]) && loose == Loose(components[..i])
    {
      assert components[..i + 1][..i] == components[..i];
      if IsLoose(components[i]) {
        loose := loose + [components[i][0]];
      } else {
        kept := kept + [components[i]];
      }
    }
    assert components[..|components|] == components;
  }

  /** The second loop: a file without a volume name stays alone, the others are clustered. */
  method Cluster(loose: seq<Doc>) returns (alone: seq<seq<Doc>>, clusters: seq<seq<Doc>>)
    ensures alone == Singles(Filter(NoVolume(), loose))
    ensures clusters == Groups(Volume(), Filter(SomeVolume(), loose))
  {
    alone := [];
    var order: seq<string>, groups: map<string, seq<Doc>> := [], map[];
    GroupedEmpty(Volume());
    NothingKept();
    for i := 0 to |loose|
      invariant alone == Singles(Filter(NoVolume(), loose[..i]))
      invariant Grouped(Volume(), Filter(SomeVolume(), loose[..i]), order, groups)
    {
      hide *;
      var doc := loose[i];
      assert loose[..i + 1] == loose[..i] + [doc];
      ClusterStep(loose[..i], doc, order, groups);
      if doc.volume == "" {
        alone := alone + [[doc]];
      } else {
        if doc.volume !in groups {
          order := order + [doc.volume];
        }
        groups := groups[doc.volume := (if doc.volume in groups then groups[doc.volume] else []) + [doc]];
      }
    }
    assert loose[..|loose|] == loose;
    GroupedValues(Volume(), Filter(SomeVolume(), loose), order, groups);
    clusters := Values(order, groups);
  }

  lemma NothingKept()
    ensures Singles(Filter(NoVolume(), [])) == [] && Filter(SomeVolume(), []) == []
  {
  }

  lemma ClusterStep(loose: seq<Doc>, doc: Doc, order: seq<string>, groups: map<string, seq<Doc>>)
    requires Grouped(Volume(), Filter(SomeVolume(), loose), order, groups)
    ensures doc.volume == "" ==>
              && Singles(Filter(NoVolume(), loose + [doc])) == Singles(Filter(NoVolume(), loose)) + [[doc]]
              && Grouped(Volume(), Filter(SomeVolume(), loose + [doc]), order, groups)
    ensures doc.volume != "" ==>
              && Singles(Filter(NoVolume(), loose + [doc])) == Singles(Filter(NoVolume(), loose))
              && Grouped(Volume(), Filter(SomeVolume(), loose + [doc]),
                         if doc.volume in groups then order else order + [doc.volume],
                         groups[doc.volume := (if doc.volume in groups then groups[doc.volume] else []) + [doc]])
  {
    hide Filter; hide Grouped; hide Singles;
    FilterSnoc(NoVolume(), loose, doc);
    FilterSnoc(SomeVolume(), loose, doc);
    GroupedSnoc(Volume(), Filter(SomeVolume(), loose), order, groups, doc);
    SinglesSnoc(Filter(NoVolume(), loose), doc);
    var none, some := Filter(NoVolume(), loose), Filter(SomeVolume(), loose);
    assert none + [] == none && some + [] == some;
  }

  lemma SinglesSnoc(docs: seq<Doc>, doc: Doc)
    ensures Singles(docs + [doc]) == Singles(docs) + [[doc]]
  {
    assert (docs + [doc])[..|docs|] == docs;
  }

  /** `_blank_filename_groups` */
  method BlankFilenameGroups(blanks: seq<Doc>, stage: Stage) returns (kept: seq<seq<Doc>>)
    ensures kept == BlankGroups(blanks, stage)
  {
    hide ComponentList; hide Groups; hide ChainOf; hide Singles; hide Filter; hide Loose; hide Bound;
    var components := BlankComponents(blanks);
    if stage == ID {
      return components;
    }
    var tight, loose := SplitLoose(components);
    var alone, clusters := Cluster(loose);
    kept := tight + alone;
    for i := 0 to |clusters|
      invariant kept == tight + alone + ChainedAll(clusters[..i])
    {
      assert clusters[..i + 1][..i] == clusters[..i];
      var group := clusters[i];
      if |group| == 1 {
        kept := kept + [group];
      } else {
        var chain := ChainByFilename(group);
        kept := kept + [if chain.Linked? then chain.docs else group];
      }
    }
    assert clusters[..|clusters|] == clusters;
  }

  // ----- heads ------------------------------------------------------------------------------------------------

  predicate HasLink(d: Doc) {
    (d.pred.Some? && d.pred.value != "") || (d.succ.Some? && d.succ.value != "")
  }

  /** `_filename_group_conflict` */
  function FilenameConflict(group: seq<Doc>, stage: Stage): Option<Refusal> {
    if stage == ID || |group| < 2 then None
    else if exists d :: d in group && !d.named then None
    else if group[0].volume == "" || exists d :: d in group && d.volume != group[0].volume then None
    else if exists d :: d in group && HasLink(d) then None
    else match ChainOf(group) case Refused(why) => Some(why) case Linked(_) => None
  }

  function Caught(r: Resolution): Resolution {
    if r.Conflict? then Clarify(r.why) else r
  }

  function FileIds(group: seq<Doc>): seq<string> {
    seq(|group|, i requires 0 <= i < |group| => group[i].id)
  }

  /** A file name conflict comes before any choice of the inspector. */
  ghost function HeadOf(key: Option<Key>, group: seq<Doc>, stage: Stage, selected: set<string>, soleHead: bool): Head {
    var conflict := FilenameConflict(group, stage);
    var resolution :=
      if conflict.Some? then Clarify(Filename(conflict.value))
      else Caught(Resolve(group, stage, None, selected * Ids(group), soleHead));
    Head(key, FileIds(group), resolution)
  }

  function KeyOf(): Doc -> Option<Key> {
    (d: Doc) => IdentityKey(d)
  }

  function IsKeyed(): Doc -> bool {
    (d: Doc) => IdentityKey(d).Some?
  }

  ghost function HeadsOf(keyed: bool, groups: seq<seq<Doc>>, stage: Stage, selected: set<string>,
                         soleHead: bool): seq<Head> {
    if groups == [] then []
    else
      var g := groups[|groups| - 1];
      HeadsOf(keyed, groups[..|groups| - 1], stage, selected, soleHead)
      + [HeadOf(if keyed && g != [] then IdentityKey(g[0]) else None, g, stage, selected, soleHead)]
  }

  ghost function Heads(documents: seq<Doc>, stage: Stage, selected: set<string>, soleHead: bool): seq<Head> {
    var stageDocs := Filter(OfStage(stage), documents);
    HeadsOf(true, Groups(KeyOf(), Filter(IsKeyed(), stageDocs)), stage, selected, soleHead)
    + HeadsOf(false, BlankGroups(Filter(HasKey(None), stageDocs), stage), stage, selected, soleHead)
  }

  /** The body of the last loop of `resolve_heads_by_identity`. */
  method ResolveGroup(key: Option<Key>, group: seq<Doc>, stage: Stage, selected: set<string>, soleHead: bool)
    returns (h: Head)
    ensures h == HeadOf(key, group, stage, selected, soleHead)
  {
    hide Resolve; hide ChainOf;
    var conflict := FilenameConflict(group, stage);
    var resolution: Resolution;
    if conflict.Some? {
      resolution := Clarify(Filename(conflict.value));
    } else {
      resolution := ResolveRevision(group, stage, None, selected * Ids(group), soleHead);
      if resolution.Conflict? {
        resolution := Clarify(resolution.why);
      }
    }
    h := Head(key, FileIds(group), resolution);
  }

  method ResolveGroups(keyed: bool, groups: seq<seq<Doc>>, stage: Stage, selected: set<string>, soleHead: bool)
    returns (heads: seq<Head>)
    ensures heads == HeadsOf(keyed, groups, stage, selected, soleHead)
  {
    hide HeadOf;
    heads := [];
    for i := 0 to |groups|
      invariant heads == HeadsOf(keyed, groups[..i], stage, selected, soleHead)
    {
      assert groups[..i + 1][..i] == groups[..i];
      var key := if keyed && groups[i] != [] then IdentityKey(groups[i][0]) else None;
      var h := ResolveGroup(key, groups[i], stage, selected, soleHead);
      heads := heads + [h];
    }
    assert groups[..|groups|] == groups;
  }

  /** `resolve_heads_by_identity` */
  method ResolveHeads(documents: seq<Doc>, stage: Stage, selected: set<string>, soleHead: bool)
    returns (heads: seq<Head>)
    ensures heads == Heads(documents, stage, selected, soleHead)
  {
    hide HeadsOf; hide BlankGroups; hide Groups; hide Filter;
    var stageDocs := Filter(OfStage(stage), documents);
    var order, groups := GroupBy(KeyOf(), Filter(IsKeyed(), stageDocs));
    var keyed := ResolveGroups(true, Values(order, groups), stage, selected, soleHead);
    var blankGroups := BlankFilenameGroups(Filter(HasKey(None), stageDocs), stage);
    var blank := ResolveGroups(false, blankGroups, stage, selected, soleHead);
    heads := keyed + blank;
  }

  /** The head of several unkeyed files of one volume: the highest of one block of files that are not
      refused, and otherwise a clarification. */
  lemma ChainedHead(docs: seq<Doc>, stage: Stage, soleHead: bool) returns (top: nat)
    requires |docs| != 1 && ChainOf(docs).Linked? && DistinctIds(docs)
    requires forall d | d in docs :: d.stage == stage && d.code == ""
    requires exists c :: c in Chained(docs) && Eligible(c)
    ensures var chain := Chained(docs);
            && chain == ChainOf(docs).docs && IsTop(chain, top)
            && HeadOf(None, chain, stage, {}, soleHead).resolution ==
               if OneBlock(chain) then FinishHead(chain[top], Filter(IsEligible(), chain), false, soleHead)
               else Clarify(SeveralHeads)
  {
    RechainAccepted(docs);
    hide ChainOf; hide Resolve; hide Filter; hide FinishHead; hide OneBlock; hide IsTop;
    top := HeadOfFilenames(docs, stage, soleHead);
    var chain := ChainOf(docs).docs;
    assert {} * Ids(chain) == {};
    HeadIsCaught(chain, top, soleHead);
  }

  lemma HeadIsCaught(chain: seq<Doc>, top: nat, soleHead: bool)
    requires IsTop(chain, top)
    ensures !FinishHead(chain[top], Filter(IsEligible(), chain), false, soleHead).Conflict?
  {
  }

  /** Unlinked files of one volume name whose chain is refused. */
  ghost predicate NamesClash(group: seq<Doc>, stage: Stage) {
    && stage != ID && |group| >= 2
    && (forall d | d in group :: d.named && !HasLink(d) && d.volume == group[0].volume) && group[0].volume != ""
    && (HasKind(group, Mixed) || (HasKind(group, Change) && HasKind(group, Correction)) || Unread(group)
        || Clash(group))
  }

  /** A file name conflict arises exactly then. */
  lemma NameConflictExactly(group: seq<Doc>, stage: Stage)
    ensures FilenameConflict(group, stage).Some? <==> NamesClash(group, stage)
  {
    RefusedExactly(group);
    hide ChainOf; hide HasKind; hide Unread; hide Clash; hide HasLink;
    if |group| >= 2 {
      assert group[0] in group;
    }
  }

  /** It beats every choice of the inspector. */
  lemma NameConflictWins(key: Option<Key>, group: seq<Doc>, stage: Stage, selected: set<string>, soleHead: bool)
    requires NamesClash(group, stage)
    ensures var r := HeadOf(key, group, stage, selected, soleHead).resolution;
            r.Clarify? && r.why.Filename? && r == HeadOf(key, group, stage, {}, soleHead).resolution
  {
    NameConflictExactly(group, stage);
    hide FilenameConflict; hide Resolve; hide NamesClash;
  }
}
