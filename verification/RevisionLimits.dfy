/** What the resolver does not see, and what it always sees: cycles beside a head, cycles without a head, and
    the one page on which the two resolutions disagree. */
module RevisionLimits {
  import opened Options
  import opened Documents
  import opened Lists
  import opened Grouping
  import opened Components
  import opened FileChain
  import opened Revisions
  import opened SuccessorGraph
  import opened IdentityHeads
  import opened Recheck

  // ----- cycles ----------------------------------------------------------------------------------------------

  lemma FinishNeverConflicts(chosen: Doc, eligible: seq<Doc>, inspector: bool, soleHead: bool)
    ensures !FinishHead(chosen, eligible, inspector, soleHead).Conflict?
  {
  }

  lemma SinkIffNoHop(eligible: seq<Doc>, d: Doc)
    requires DistinctIds(eligible) && d in eligible
    ensures SinkIn(Ids(eligible))(d) <==> !exists b :: Hop(eligible, d.id, b)
  {
    if b :| Hop(eligible, d.id, b) {
      var e :| e in eligible && e.id == d.id && e.succ == Some(b);
      SameIdSameFile(eligible, d, e);
    }
    if !SinkIn(Ids(eligible))(d) {
      assert Hop(eligible, d.id, d.succ.value);
    }
  }

  lemma HeadsAreSinks(eligible: seq<Doc>)
    requires DistinctIds(eligible)
    ensures forall d :: d in Filter(SinkIn(Ids(eligible)), eligible) ==> d in eligible
    ensures forall d | d in eligible ::
              d in Filter(SinkIn(Ids(eligible)), eligible) <==> !exists b :: Hop(eligible, d.id, b)
  {
    hide Hop; hide DistinctIds; hide SinkIn;
    forall d | d in eligible
      ensures d in Filter(SinkIn(Ids(eligible)), eligible) <==> !exists b :: Hop(eligible, d.id, b)
    {
      SinkIffNoHop(eligible, d);
    }
  }

  lemma SoleSinkKept(eligible: seq<Doc>, x: Doc)
    requires DistinctIds(eligible) && SoleSink(eligible, x)
    ensures |Filter(SinkIn(Ids(eligible)), eligible)| == 1
  {
    var sink := SinkIn(Ids(eligible));
    hide Hop; hide SinkIn; hide Filter; hide Ids;
    var k :| 0 <= k < |eligible| && eligible[k] == x;
    SinkIffNoHop(eligible, x);
    forall j | 0 <= j < |eligible| && j != k ensures !sink(eligible[j]) {
      SameIdSameFile(eligible, eligible[j], x);
      SinkIffNoHop(eligible, eligible[j]);
    }
    FilterSole(sink, eligible, k);
  }

  /** One file is kept exactly when one is a sink. */
  lemma SinksCounted(eligible: seq<Doc>)
    requires DistinctIds(eligible)
    ensures var heads := Filter(SinkIn(Ids(eligible)), eligible);
            && (|heads| == 1 <==> exists x :: SoleSink(eligible, x))
            && (heads == [] <==> forall d | d in eligible :: exists b :: Hop(eligible, d.id, b))
  {
    hide Hop; hide SinkIn; hide Filter; hide Ids; hide DistinctIds; hide SoleSink;
    HeadsAreSinks(eligible);
    var heads := Filter(SinkIn(Ids(eligible)), eligible);
    if heads != [] {
      assert heads[0] in heads;
    }
    if |heads| == 1 {
      OneSink(eligible, heads);
    }
    if x :| SoleSink(eligible, x) {
      SoleSinkKept(eligible, x);
    }
  }

  lemma OneSink(eligible: seq<Doc>, heads: seq<Doc>)
    requires |heads| == 1 && heads[0] in eligible
    requires forall d | d in eligible :: d in heads <==> !exists b :: Hop(eligible, d.id, b)
    ensures SoleSink(eligible, heads[0])
  {
    hide Hop;
    assert forall d :: d in heads <==> d == heads[0];
  }

  /** Without a choice of the inspector: refused exactly when not just one file is without an eligible
      successor, and as a cycle exactly when none is. */
  lemma RefusedByCount(eligible: seq<Doc>, selected: set<string>, soleHead: bool)
    requires DistinctIds(eligible) && forall d | d in eligible :: d.id !in selected
    ensures PickHead(eligible, selected, soleHead).Conflict? <==> !exists x :: SoleSink(eligible, x)
    ensures PickHead(eligible, selected, soleHead) == Conflict(Cycle) <==>
            forall d | d in eligible :: exists b :: Hop(eligible, d.id, b)
  {
    hide Hop; hide Filter; hide FinishHead; hide SoleSink; hide DistinctIds; hide Ids; hide SinkIn;
    FilterNone(OneOf(selected), eligible);
    SinksCounted(eligible);
    var heads := Filter(SinkIn(Ids(eligible)), eligible);
    if |heads| == 1 {
      FinishNeverConflicts(heads[0], eligible, false, soleHead);
    }
  }

  /** Without a choice of the inspector a cycle goes unreported exactly when one file is without an eligible
      successor and some other file does not lead to it. */
  lemma UnreportedCycleExactly(eligible: seq<Doc>, selected: set<string>, soleHead: bool)
    requires DistinctIds(eligible) && forall d | d in eligible :: d.id !in selected
    ensures HasCycle(eligible) && !PickHead(eligible, selected, soleHead).Conflict? <==>
            exists x, d :: SoleSink(eligible, x) && d in eligible && !Reaches(eligible, d.id, x.id)
  {
    hide *;
    RefusedByCount(eligible, selected, soleHead);
    forall x | SoleSink(eligible, x)
      ensures !HasCycle(eligible) <==> forall d | d in eligible :: Reaches(eligible, d.id, x.id)
    {
      CycleFreeReachesSink(eligible, x);
    }
  }

  /** A reported cycle is one, unless there is no file at all. */
  lemma ReportedCycleIsOne(eligible: seq<Doc>, selected: set<string>, soleHead: bool)
    requires DistinctIds(eligible) && eligible != [] && forall d | d in eligible :: d.id !in selected
    requires PickHead(eligible, selected, soleHead) == Conflict(Cycle)
    ensures HasCycle(eligible)
  {
    hide *;
    RefusedByCount(eligible, selected, soleHead);
    CycleFreeExactly(eligible);
    SomeNeverEnds(eligible);
  }

  lemma SomeNeverEnds(docs: seq<Doc>)
    requires docs != [] && forall d | d in docs :: exists b :: Hop(docs, d.id, b)
    ensures !AllEnd(docs)
  {
    hide Hop; hide Ends;
    assert docs[0] in docs && docs[0].id in Ids(docs);
    forall n ensures !Ends(docs, docs[0].id, n) {
      NeverEnds(docs, docs[0].id, n);
    }
  }

  lemma {:induction false} NeverEnds(docs: seq<Doc>, a: string, n: nat)
    requires forall d | d in docs :: exists b :: Hop(docs, d.id, b)
    ensures !Ends(docs, a, n)
    decreases n
  {
    hide Hop;
    if n > 0 {
      forall b | Hop(docs, a, b) ensures !Ends(docs, b, n - 1) {
        NeverEnds(docs, b, n - 1);
      }
    }
  }

  function Plain(id: string, succ: Option<string>): Doc {
    Doc(id, id, RD, "A-1", "", "", Approved, TitleBlock, None, succ, true, "a", Mark(Unmarked, Some(0)))
  }

  const SIDE := [Plain("a", None), Plain("b", Some("c")), Plain("c", Some("b"))]

  lemma SideIds()
    ensures Ids(SIDE) == {"a", "b", "c"}
  {
    assert SIDE[0] in SIDE && SIDE[1] in SIDE && SIDE[2] in SIDE;
  }

  lemma SideCycle()
    ensures HasCycle(SIDE)
  {
    SideIds();
    assert SIDE[1] in SIDE && SIDE[2] in SIDE;
    assert Hop(SIDE, "b", "c") && Hop(SIDE, "c", "b");
    hide Hop; hide Ids;
    assert Walks(SIDE, "b", "b", 0) && Walks(SIDE, "c", "b", 1) && Walks(SIDE, "b", "b", 2);
  }

  lemma SidePick(soleHead: bool)
    ensures PickHead(SIDE, {}, soleHead) == FinishHead(SIDE[0], SIDE, false, soleHead)
  {
    SideIds();
    hide Filter; hide Ids; hide FinishHead;
    FilterNone(OneOf({}), SIDE);
    FilterSole(SinkIn({"a", "b", "c"}), SIDE, 0);
  }

  /** Two files that succeed each other beside a third without a successor: the third is the head, and the
      cycle is not reported. */
  lemma SideCycleUndetected(soleHead: bool)
    ensures Resolve(SIDE, RD, None, {}, soleHead) == Resolved(SIDE[0], false)
    ensures HasCycle(SIDE)
  {
    SideCycle();
    hide HasCycle; hide ResolvePool; hide Filter; hide Stale;
    FilterAll(OfStage(RD), SIDE);
    SidePool(soleHead);
    SidePick(soleHead);
    SideFresh();
    hide PickHead;
  }

  lemma SidePool(soleHead: bool)
    ensures ResolvePool(SIDE, {}, soleHead) == PickHead(SIDE, {}, soleHead)
  {
    hide Filter; hide PickHead;
    FilterAll(IsEligible(), SIDE);
    assert forall d | d in SIDE :: IdentityKey(d) == Some(Key("A-1", "", ""));
    hide IdentityKey;
  }

  lemma SideFresh()
    ensures !Stale(SIDE[0], SIDE)
  {
  }

  // ----- the page on which the resolutions disagree ---------------------------------------------------------

  function Named(id: string, number: nat, succ: Option<string>): Doc {
    Doc(id, id, RD, "", "", "", Approved, TitleBlock, None, succ, true, "v", Mark(Correction, Some(number)))
  }

  const FIRST := Named("p", 0, None)
  const SECOND := Named("q", 1, Some("q"))
  const PAIR := [FIRST, SECOND]

  lemma PairIds()
    ensures Ids(PAIR) == {"p", "q"} && (forall d :: d in PAIR <==> d == FIRST || d == SECOND)
    ensures DistinctIds(PAIR)
  {
    assert PAIR[0] in PAIR && PAIR[1] in PAIR;
  }

  lemma PairLinks()
    ensures Links(PAIR) == {("q", "q")}
  {
    PairIds();
    hide Ids;
    forall l ensures l in Links(PAIR) <==> l == ("q", "q") {
      assert Mentions(FIRST) == {} && Mentions(SECOND) == {"q"};
    }
  }

  lemma PairApart(a: string, b: string)
    requires a in {"p", "q"} && b in {"p", "q"}
    ensures Connected(Links(PAIR), a, b) <==> a == b
  {
    PairLinks();
    hide Connected; hide Links;
    var root := map["p" := "p", "q" := "q"];
    forall x, y | x in root && y in root && root[x] == root[y] ensures Connected({("q", "q")}, x, y) {
      ConnectedSelf({("q", "q")}, x);
    }
    SameRootIffConnected(root, {("q", "q")}, a, b);
  }

  lemma PairComponents()
    ensures ComponentList(PAIR) == [[FIRST], [SECOND]]
  {
    hide Links; hide Connected;
    PairApart("p", "p");
    PairApart("p", "q");
    PairApart("q", "p");
    PairApart("q", "q");
    FilterSole(With(Links(PAIR), "p"), PAIR, 0);
    FilterSole(With(Links(PAIR), "q"), PAIR, 1);
    hide Filter;
    assert !Seen(PAIR, 0) && !Seen(PAIR, 1);
    assert ComponentsUpto(PAIR, 1) == [] + [[FIRST]];
    assert ComponentsUpto(PAIR, 2) == [[FIRST]] + [[SECOND]];
  }

  lemma PairLoose()
    ensures Loose([[FIRST], [SECOND]]) == PAIR && Bound([[FIRST], [SECOND]]) == []
  {
    TwoLoose(FIRST, SECOND);
  }

  lemma TwoLoose(a: Doc, b: Doc)
    requires a.named && b.named
    ensures Loose([[a], [b]]) == [a, b] && Bound([[a], [b]]) == []
  {
    NoneLoose();
    hide Loose; hide Bound;
    LooseSnoc([], [a]);
    LooseSnoc([[a]], [b]);
    assert [] + [[a]] == [[a]] && [[a]] + [[b]] == [[a], [b]];
    assert [] + [a] == [a] && [a] + [b] == [a, b];
  }

  lemma NoneLoose()
    ensures Loose([]) == [] && Bound([]) == []
  {
  }

  lemma LooseSnoc(components: seq<seq<Doc>>, c: seq<Doc>)
    requires IsLoose(c)
    ensures Loose(components + [c]) == Loose(components) + [c[0]] && Bound(components + [c]) == Bound(components)
  {
    assert (components + [c])[..|components|] == components;
  }

  lemma PairGroups()
    ensures Groups(Volume(), PAIR) == [PAIR]
  {
    hide Filter;
    FilterAll(Having(Volume(), "v"), PAIR);
    var one := [FIRST];
    assert PAIR[..1] == one && one[..0] == [];
    assert Firsts(Volume(), one) == ["v"];
    assert Firsts(Volume(), PAIR) == ["v"];
    ByLabelSnoc(Volume(), PAIR, [], "v");
    assert [] + ["v"] == ["v"];
  }

  lemma PairBlankGroups()
    ensures BlankGroups(PAIR, RD) == [Chained(PAIR)]
  {
    hide Filter; hide ComponentList; hide Loose; hide Bound; hide Groups; hide Chained;
    PairComponents();
    PairLoose();
    PairGroups();
    FilterAll(SomeVolume(), PAIR);
    FilterNone(NoVolume(), PAIR);
    var groups := [PAIR];
    assert groups[..0] == [];
    assert ChainedAll(groups) == [] + [Chained(PAIR)];
  }

  lemma PairChain()
    ensures ChainOf(PAIR).Linked? && Chained(PAIR) == ChainOf(PAIR).docs
    ensures |Chained(PAIR)| == 2 && Chained(PAIR)[0].mark.number == Some(0) && Chained(PAIR)[1].mark.number == Some(1)
    ensures forall c | c in Chained(PAIR) ::
              c.approval == Approved && c.stage == RD && c.id == if c.mark.number == Some(0) then "p" else "q"
  {
    PairIds();
    RefusedExactly(PAIR);
    hide ChainOf; hide Ids;
    assert ChainOf(PAIR).Linked?;
    ChainShape(PAIR);
    var chain := ChainOf(PAIR).docs;
    assert Covered(chain, FIRST) && Covered(chain, SECOND);
    forall c | c in chain
      ensures c.approval == Approved && c.stage == RD && c.id == if c.mark.number == Some(0) then "p" else "q"
    {
      var k :| 0 <= k < |PAIR| && SameFile(PAIR[k], c) && LastOfNumber(PAIR, k);
    }
    TwoNumbers(chain);
  }

  lemma TwoNumbers(chain: seq<Doc>)
    requires StrictlyNumbered(chain) && Covered(chain, FIRST) && Covered(chain, SECOND)
    requires forall c | c in chain :: c.mark.number == Some(0) || c.mark.number == Some(1)
    ensures |chain| == 2 && chain[0].mark.number == Some(0) && chain[1].mark.number == Some(1)
  {
    assert forall i | 0 <= i < |chain| :: chain[i] in chain;
    var c :| c in chain && c.mark.number == Some(0);
    var d :| d in chain && d.mark.number == Some(1);
    var i :| 0 <= i < |chain| && chain[i] == c;
    var j :| 0 <= j < |chain| && chain[j] == d;
    assert i < j;
    AtMostTwo(chain);
  }

  lemma AtMostTwo(chain: seq<Doc>)
    requires StrictlyNumbered(chain) && forall i | 0 <= i < |chain| :: chain[i].mark.number.value <= 1
    ensures |chain| <= 2
  {
    if chain != [] {
      NumberAtLeast(chain, |chain| - 1);
    }
  }

  lemma {:induction false} NumberAtLeast(chain: seq<Doc>, k: nat)
    requires StrictlyNumbered(chain) && k < |chain|
    ensures chain[k].mark.number.value >= k
  {
    if k > 0 {
      NumberAtLeast(chain, k - 1);
    }
  }

  lemma PairHead(soleHead: bool) returns (h: Head)
    ensures h in Heads(PAIR, RD, {}, soleHead) && h.resolution.Resolved? && h.resolution.document.id == "q"
  {
    var chain := Chained(PAIR);
    PairChain();
    PairKeys();
    PairBlankGroups();
    h := HeadOf(None, chain, RD, {}, soleHead);
    PairResolves(chain, soleHead, h);
    HeadsOfMembers(false, [chain], RD, {}, soleHead, h);
    hide HeadOf; hide Chained; hide BlankGroups; hide HeadsOf; hide Filter;
    assert IsHeadOf(false, [chain], RD, {}, soleHead, h, chain);
  }

  lemma PairKeys()
    ensures Filter(HasKey(None), Filter(OfStage(RD), PAIR)) == PAIR
  {
    FilterAll(OfStage(RD), PAIR);
    FilterAll(HasKey(None), PAIR);
  }

  lemma PairResolves(chain: seq<Doc>, soleHead: bool, h: Head)
    requires chain == Chained(PAIR) && h == HeadOf(None, chain, RD, {}, soleHead)
    ensures h.resolution.Resolved? && h.resolution.document.id == "q"
  {
    PairChain();
    PairIds();
    hide ChainOf; hide HeadOf; hide Chained; hide Ids;
    assert chain[0] in chain && chain[1] in chain;
    var top := ChainedHead(PAIR, RD, soleHead);
    hide Stale; hide ApprovedOther; hide Filter;
  }

  /** A file that succeeds itself, chained by its name after another one: the page selects it, and the second
      resolution reports a cycle. */
  lemma SelfSuccessorFails(soleHead: bool)
    ensures exists h :: h in Heads(PAIR, RD, {}, soleHead) && h.resolution.Resolved?
                        && !Passes(PAIR, RD, h.resolution.document, {}, soleHead)
  {
    PairIds();
    var h := PairHead(soleHead);
    assert SECOND in PAIR && SECOND.id == "q" && !NoSelfLoop(SECOND, {});
    hide Heads; hide Passes;
    RecheckAgrees(PAIR, RD, {}, soleHead, h, SECOND);
  }
}
