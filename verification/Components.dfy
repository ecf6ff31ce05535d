/** `_blank_components` (revision_resolver.py): files joined by predecessor and successor links fall
    into one component. The forest of the disjoint-set algorithm is updated in place. */
module Components {
  import opened Options
  import opened Documents
  import opened Lists
  import opened Grouping

  type Link = (string, string)

  // ----- what a component is ------------------------------------------------------------------------

  ghost predicate Adjacent(links: set<Link>, a: string, b: string) {
    (a, b) in links || (b, a) in links
  }

  ghost predicate IsPath(links: set<Link>, p: seq<string>) {
    p != [] && forall i | 0 <= i < |p| - 1 :: Adjacent(links, p[i], p[i + 1])
  }

  ghost predicate Joins(links: set<Link>, p: seq<string>, a: string, b: string) {
    IsPath(links, p) && p[0] == a && p[|p| - 1] == b
  }

  /** The reflexive, symmetric and transitive closure of the links. */
  ghost predicate Connected(links: set<Link>, a: string, b: string) {
    exists p :: Joins(links, p, a, b)
  }

  lemma ConnectedSelf(links: set<Link>, a: string)
    ensures Connected(links, a, a)
  {
    assert Joins(links, [a], a, a);
  }

  lemma ConnectedLink(links: set<Link>, a: string, b: string)
    requires Adjacent(links, a, b)
    ensures Connected(links, a, b)
  {
    assert Joins(links, [a, b], a, b);
  }

  lemma {:induction false} ReversedPath(links: set<Link>, p: seq<string>, a: string, b: string) returns (q: seq<string>)
    requires Joins(links, p, a, b)
    ensures Joins(links, q, b, a)
  {
    q := seq(|p|, i requires 0 <= i < |p| => p[|p| - 1 - i]);
    forall i | 0 <= i < |q| - 1 ensures Adjacent(links, q[i], q[i + 1]) {
      assert Adjacent(links, p[|p| - 2 - i], p[|p| - 2 - i + 1]);
    }
  }

  lemma ConnectedBack(links: set<Link>, a: string, b: string)
    requires Connected(links, a, b)
    ensures Connected(links, b, a)
  {
    hide Joins;
    var p :| Joins(links, p, a, b);
    var q := ReversedPath(links, p, a, b);
  }

  lemma ConnectedOn(links: set<Link>, a: string, b: string, c: string)
    requires Connected(links, a, b) && Connected(links, b, c)
    ensures Connected(links, a, c)
  {
    var p :| Joins(links, p, a, b);
    var q :| Joins(links, q, b, c);
    var r := p + q[1..];
    forall i | 0 <= i < |r| - 1 ensures Adjacent(links, r[i], r[i + 1]) {
      if i < |p| - 1 {
        assert Adjacent(links, p[i], p[i + 1]);
      } else {
        assert Adjacent(links, q[i - |p| + 1], q[i - |p| + 2]);
      }
    }
    assert Joins(links, r, a, c);
  }

  lemma ConnectedMore(links: set<Link>, more: set<Link>, a: string, b: string)
    requires Connected(links, a, b) && links <= more
    ensures Connected(more, a, b)
  {
    var p :| Joins(links, p, a, b);
    forall i | 0 <= i < |p| - 1 ensures Adjacent(more, p[i], p[i + 1]) {
      assert Adjacent(links, p[i], p[i + 1]);
    }
    assert Joins(more, p, a, b);
  }

  /** Two nodes have the same root exactly when the links connect them. */
  ghost predicate Explains(root: map<string, string>, links: set<Link>) {
    && (forall l | l in links :: l.0 in root && l.1 in root && root[l.0] == root[l.1])
    && (forall x, y | x in root && y in root && root[x] == root[y] :: Connected(links, x, y))
  }

  lemma {:induction false} PathKeepsRoot(root: map<string, string>, links: set<Link>, p: seq<string>)
    requires Explains(root, links) && IsPath(links, p) && p[0] in root
    ensures p[|p| - 1] in root && root[p[|p| - 1]] == root[p[0]]
    decreases |p|
  {
    hide Connected;
    if |p| > 1 {
      assert Adjacent(links, p[0], p[1]);
      var rest := p[1..];
      forall i | 0 <= i < |rest| - 1 ensures Adjacent(links, rest[i], rest[i + 1]) {
        assert Adjacent(links, p[i + 1], p[i + 1 + 1]);
      }
      PathKeepsRoot(root, links, rest);
    }
  }

  /** What `Explains` says, as an equivalence. */
  lemma SameRootIffConnected(root: map<string, string>, links: set<Link>, x: string, y: string)
    requires Explains(root, links) && x in root && y in root
    ensures root[x] == root[y] <==> Connected(links, x, y)
  {
    if Connected(links, x, y) {
      var p :| Joins(links, p, x, y);
      PathKeepsRoot(root, links, p);
    }
  }

  /** Every node under the right root moves under the left one. */
  ghost function Regrafted(root: map<string, string>, left: string, right: string): map<string, string> {
    map x | x in root :: if root[x] == right then left else root[x]
  }

  lemma ExplainedUnion(root: map<string, string>, links: set<Link>, l: string, r: string)
    requires Explains(root, links) && l in root && r in root
    ensures Explains(Regrafted(root, root[l], root[r]), links + {(l, r)})
  {
    hide Connected;
    var more, next := links + {(l, r)}, Regrafted(root, root[l], root[r]);
    ConnectedLink(more, l, r);
    ConnectedBack(more, l, r);
    forall x, y | x in next && y in next && next[x] == next[y] ensures Connected(more, x, y) {
      if root[x] == root[y] {
        ConnectedMore(links, more, x, y);
      } else if root[x] == root[r] {
        Bridge(root, links, more, x, r, l, y);
      } else {
        Bridge(root, links, more, x, l, r, y);
      }
    }
  }

  lemma Bridge(root: map<string, string>, links: set<Link>, more: set<Link>, x: string, a: string, b: string, y: string)
    requires Explains(root, links) && links <= more && Connected(more, a, b)
    requires x in root && a in root && b in root && y in root && root[x] == root[a] && root[b] == root[y]
    ensures Connected(more, x, y)
  {
    hide Connected;
    ConnectedMore(links, more, x, a);
    ConnectedMore(links, more, b, y);
    ConnectedOn(more, x, a, b);
    ConnectedOn(more, x, b, y);
  }

  // ----- the forest ---------------------------------------------------------------------------------

  ghost predicate Placed(parent: map<string, string>, root: map<string, string>, level: map<string, nat>, bound: nat,
                         x: string) {
    && x in parent && x in root && x in level
    && parent[x] in parent && root[x] in parent
    && parent[x] in root && root[parent[x]] == root[x]
    && (parent[x] == x <==> root[x] == x)
    && root[x] in root && root[root[x]] == root[x]
    && level[x] <= bound && parent[x] in level
    && (parent[x] != x ==> level[x] < level[parent[x]])
  }

  ghost predicate AllPlaced(parent: map<string, string>, root: map<string, string>, level: map<string, nat>,
                            bound: nat) {
    && root.Keys == parent.Keys && level.Keys == parent.Keys
    && forall x {:trigger Placed(parent, root, level, bound, x)} | x in parent :: Placed(parent, root, level, bound, x)
  }

  lemma PlacedFacts(parent: map<string, string>, root: map<string, string>, level: map<string, nat>, bound: nat,
                    x: string)
    requires AllPlaced(parent, root, level, bound) && x in parent
    ensures x in root && x in level && level[x] <= bound && (parent[x] == x <==> root[x] == x)
  {
    assert Placed(parent, root, level, bound, x);
  }

  /** Path halving keeps every root. */
  lemma HalveKeeps(parent: map<string, string>, root: map<string, string>, level: map<string, nat>, bound: nat,
                   top: string)
    requires AllPlaced(parent, root, level, bound) && top in parent && parent[top] != top
    ensures parent[top] in parent && parent[parent[top]] in parent
    ensures var above := parent[parent[top]];
            && AllPlaced(parent[top := above], root, level, bound)
            && above in root && top in root && root[above] == root[top]
            && above in level && top in level && level[top] < level[above] <= bound
  {
    assert Placed(parent, root, level, bound, top);
    assert Placed(parent, root, level, bound, parent[top]);
    var above := parent[parent[top]];
    assert Placed(parent, root, level, bound, above);
    var next := parent[top := above];
    forall x | x in next ensures Placed(next, root, level, bound, x) {
      assert Placed(parent, root, level, bound, x);
    }
    assert next.Keys == parent.Keys;
  }

  /** Hanging one root under another. */
  lemma JoinKeeps(parent: map<string, string>, root: map<string, string>, level: map<string, nat>, bound: nat,
                  l: string, r: string)
    requires AllPlaced(parent, root, level, bound)
    requires l in parent && r in parent && l in root && r in root && root[l] == l && root[r] == r && l != r
    requires l in level && r in level
    ensures AllPlaced(parent[r := l], Regrafted(root, l, r), level[l := level[l] + level[r] + 1], bound + level[r] + 1)
  {
    assert Placed(parent, root, level, bound, l);
    assert Placed(parent, root, level, bound, r);
    var next, top, height := parent[r := l], Regrafted(root, l, r), level[l := level[l] + level[r] + 1];
    assert next.Keys == parent.Keys && top.Keys == root.Keys && height.Keys == level.Keys;
    forall x | x in next ensures Placed(next, top, height, bound + level[r] + 1, x) {
      assert Placed(parent, root, level, bound, x);
      assert Placed(parent, root, level, bound, root[x]);
      assert Placed(parent, root, level, bound, parent[x]);
    }
  }

  lemma JoinFacts(parent: map<string, string>, root: map<string, string>, level: map<string, nat>, bound: nat,
                  l: string, r: string)
    requires AllPlaced(parent, root, level, bound)
    requires l in parent && r in parent && l in root && r in root && root[l] == l && root[r] == r
    ensures l in level && r in level && parent[r := l].Keys == parent.Keys
    ensures l == r ==> Regrafted(root, l, r) == root
    ensures l != r ==>
              AllPlaced(parent[r := l], Regrafted(root, l, r), level[l := level[l] + level[r] + 1],
                        bound + level[r] + 1)
  {
    if l != r {
      JoinKeeps(parent, root, level, bound, l, r);
    }
  }

  /** `parent` is the dict of the source; `root`, `level`, `bound` and `links` exist for the proof only:
      the root of every node, a height that grows towards it, and the links seen so far. */
  class Forest {
    var parent: map<string, string>
    ghost var root: map<string, string>
    ghost var level: map<string, nat>
    ghost var bound: nat
    ghost var links: set<Link>

    ghost predicate Valid()
      reads this
    {
      AllPlaced(parent, root, level, bound) && Explains(root, links)
    }

    constructor (ids: set<string>)
      ensures Valid() && parent.Keys == ids && links == {}
    {
      parent := map x | x in ids :: x;
      root := map x | x in ids :: x;
      level := map x | x in ids :: 0;
      bound := 0;
      links := {};
      new;
      forall x, y | x in parent && y in parent && root[x] == root[y] ensures Connected(links, x, y) {
        ConnectedSelf(links, x);
      }
    }

    /** `find`: the root, with every second step of the way cut short; no root changes. */
    method Find(start: string) returns (top: string)
      requires Valid() && start in parent
      modifies this`parent
      ensures Valid() && parent.Keys == old(parent.Keys)
      ensures start in root && top == root[start] && top in parent && top in root && root[top] == top
    {
      hide Connected; hide Explains; hide Placed;
      top := start;
      PlacedFacts(parent, root, level, bound, start);
      while parent[top] != top
        invariant AllPlaced(parent, root, level, bound) && parent.Keys == old(parent.Keys)
        invariant top in parent && top in level && level[top] <= bound
        invariant top in root && start in root && root[top] == root[start]
        decreases bound - level[top]
      {
        HalveKeeps(parent, root, level, bound, top);
        parent := parent[top := parent[parent[top]]];
        top := parent[top];
      }
      PlacedFacts(parent, root, level, bound, top);
    }

    /** `union`: a missing or foreign right side is ignored. */
    method Union(left: string, right: Option<string>)
      requires Valid() && left in parent
      modifies this
      ensures Valid() && parent.Keys == old(parent.Keys)
      ensures links == old(links) + LinksTo(left, right, parent.Keys)
    {
      hide Connected; hide Explains; hide AllPlaced; hide Regrafted;
      if right == None || right.value !in parent {
        return;
      }
      var rootLeft := Find(left);
      var rootRight := Find(right.value);
      ExplainedUnion(root, links, left, right.value);
      JoinFacts(parent, root, level, bound, rootLeft, rootRight);
      links := links + LinksTo(left, right, parent.Keys);
      if rootLeft != rootRight {
        parent := parent[rootRight := rootLeft];
        bound, level := bound + level[rootRight] + 1, level[rootLeft := level[rootLeft] + level[rootRight] + 1];
      }
      root := Regrafted(root, rootLeft, rootRight);
    }
  }

  ghost function LinksTo(left: string, right: Option<string>, ids: set<string>): set<Link> {
    if right.Some? && right.value in ids then {(left, right.value)} else {}
  }

  // ----- the components of a list of files --------------------------------------------------------------

  function Mentions(d: Doc): set<string> {
    (if d.pred.Some? then {d.pred.value} else {}) + (if d.succ.Some? then {d.succ.value} else {})
  }

  /** The links between listed files; a link that leaves the list is no link. */
  ghost function LinksIn(docs: seq<Doc>, ids: set<string>): set<Link> {
    set d, x | d in docs && x in Mentions(d) && x in ids :: (d.id, x)
  }

  ghost function Links(docs: seq<Doc>): set<Link> {
    LinksIn(docs, Ids(docs))
  }

  ghost function With(links: set<Link>, id: string): Doc -> bool {
    (d: Doc) => Connected(links, id, d.id)
  }

  /** The files connected with the given one, in list order. */
  ghost function ComponentOf(docs: seq<Doc>, id: string): seq<Doc> {
    Filter(With(Links(docs), id), docs)
  }

  ghost predicate Seen(docs: seq<Doc>, k: nat)
    requires k < |docs|
  {
    exists j :: 0 <= j < k && Connected(Links(docs), docs[j].id, docs[k].id)
  }

  /** The components that start among the first n files. */
  ghost function ComponentsUpto(docs: seq<Doc>, n: nat): seq<seq<Doc>>
    requires n <= |docs|
  {
    if n == 0 then []
    else ComponentsUpto(docs, n - 1) + if Seen(docs, n - 1) then [] else [ComponentOf(docs, docs[n - 1].id)]
  }

  /** Every component once, in the order of first files. */
  ghost function ComponentList(docs: seq<Doc>): seq<seq<Doc>> {
    ComponentsUpto(docs, |docs|)
  }

  ghost predicate IsComponent(docs: seq<Doc>, c: seq<Doc>) {
    exists d :: d in docs && c == ComponentOf(docs, d.id)
  }

  lemma SameComponent(docs: seq<Doc>, a: string, b: string)
    requires Connected(Links(docs), a, b)
    ensures ComponentOf(docs, a) == ComponentOf(docs, b)
  {
    var links := Links(docs);
    hide Connected; hide Links;
    forall d | d in docs ensures With(links, a)(d) == With(links, b)(d) {
      if Connected(links, a, d.id) {
        ConnectedBack(links, a, b);
        ConnectedOn(links, b, a, d.id);
      }
      if Connected(links, b, d.id) {
        ConnectedOn(links, a, b, d.id);
      }
    }
    FilterSame(With(links, a), With(links, b), docs);
  }

  lemma InOwnComponent(docs: seq<Doc>, d: Doc)
    requires d in docs
    ensures d in ComponentOf(docs, d.id)
  {
    ConnectedSelf(Links(docs), d.id);
  }

  lemma {:induction false} ListedComponents(docs: seq<Doc>, n: nat)
    requires n <= |docs|
    ensures forall k | 0 <= k < n :: ComponentOf(docs, docs[k].id) in ComponentsUpto(docs, n)
    ensures forall c | c in ComponentsUpto(docs, n) :: IsComponent(docs, c)
  {
    hide ComponentOf; hide Connected; hide Links;
    if n > 0 {
      ListedComponents(docs, n - 1);
      var d := docs[n - 1];
      assert d in docs;
      if Seen(docs, n - 1) {
        var j :| 0 <= j < n - 1 && Connected(Links(docs), docs[j].id, d.id);
        SameComponent(docs, docs[j].id, d.id);
      }
    }
  }

  /** `_blank_components` gives exactly the classes of the closure: each is the component of all its
      files, and every file is in one. */
  lemma ComponentsAreClasses(docs: seq<Doc>, c: seq<Doc>)
    ensures c in ComponentList(docs) <==> IsComponent(docs, c)
    ensures c in ComponentList(docs) ==> c != [] && forall d | d in c :: d in docs && c == ComponentOf(docs, d.id)
  {
    ListedComponents(docs, |docs|);
    if IsComponent(docs, c) {
      var d :| d in docs && c == ComponentOf(docs, d.id);
      InOwnComponent(docs, d);
      assert c != [];
      forall x | x in c ensures x in docs && c == ComponentOf(docs, x.id) {
        assert Connected(Links(docs), d.id, x.id);
        SameComponent(docs, d.id, x.id);
      }
    }
  }

  // ----- the roots as labels ------------------------------------------------------------------------------

  function RootOf(root: map<string, string>): Doc -> string {
    (d: Doc) => if d.id in root then root[d.id] else d.id
  }

  lemma {:induction false} RootsGiveComponents(root: map<string, string>, docs: seq<Doc>, n: nat)
    requires n <= |docs| && root.Keys == Ids(docs) && Explains(root, Links(docs))
    ensures ByLabel(RootOf(root), docs, Firsts(RootOf(root), docs[..n])) == ComponentsUpto(docs, n)
  {
    hide *;
    if n == 0 {
      NoRoots(root, docs);
    } else {
      var tag, before, d := RootOf(root), docs[..n - 1], docs[n - 1];
      assert docs[..n] == before + [d] && d in docs;
      RootsGiveComponents(root, docs, n - 1);
      SeenIffRootSeen(root, docs, n - 1);
      RootKeepsComponent(root, docs, d);
      FirstsSnoc(tag, before, d);
      ByLabelSnoc(tag, docs, Firsts(tag, before), tag(d));
      ComponentsSnoc(docs, n);
    }
  }

  lemma NoRoots(root: map<string, string>, docs: seq<Doc>)
    ensures ByLabel(RootOf(root), docs, Firsts(RootOf(root), docs[..0])) == [] == ComponentsUpto(docs, 0)
  {
  }

  lemma ComponentsSnoc(docs: seq<Doc>, n: nat)
    requires 0 < n <= |docs|
    ensures ComponentsUpto(docs, n) ==
            ComponentsUpto(docs, n - 1) + if Seen(docs, n - 1) then [] else [ComponentOf(docs, docs[n - 1].id)]
  {
  }

  lemma SeenIffRootSeen(root: map<string, string>, docs: seq<Doc>, k: nat)
    requires k < |docs| && root.Keys == Ids(docs) && Explains(root, Links(docs))
    ensures Seen(docs, k) <==> RootOf(root)(docs[k]) in Firsts(RootOf(root), docs[..k])
  {
    hide Connected; hide Explains; hide Links;
    var tag := RootOf(root);
    FirstsMembers(tag, docs[..k], tag(docs[k]));
    hide Firsts;
    assert docs[k] in docs;
    forall j | 0 <= j < k
      ensures docs[j] in docs[..k]
      ensures Connected(Links(docs), docs[j].id, docs[k].id) <==> tag(docs[j]) == tag(docs[k])
    {
      assert docs[j] in docs && docs[..k][j] == docs[j];
      SameRootIffConnected(root, Links(docs), docs[j].id, docs[k].id);
    }
  }

  lemma RootKeepsComponent(root: map<string, string>, docs: seq<Doc>, d: Doc)
    requires d in docs && root.Keys == Ids(docs) && Explains(root, Links(docs))
    ensures Filter(Having(RootOf(root), RootOf(root)(d)), docs) == ComponentOf(docs, d.id)
  {
    hide Connected; hide Explains; hide Links;
    var under := Having(RootOf(root), RootOf(root)(d));
    forall x | x in docs ensures under(x) == With(Links(docs), d.id)(x) {
      SameRootIffConnected(root, Links(docs), d.id, x.id);
    }
    FilterSame(under, With(Links(docs), d.id), docs);
  }

  // ----- the method -----------------------------------------------------------------------------------------

  lemma LinksSnoc(docs: seq<Doc>, d: Doc, ids: set<string>)
    ensures LinksIn(docs + [d], ids) == LinksIn(docs, ids) + LinksTo(d.id, d.pred, ids) + LinksTo(d.id, d.succ, ids)
  {
    var now := LinksIn(docs + [d], ids);
    var then_ := LinksIn(docs, ids) + LinksTo(d.id, d.pred, ids) + LinksTo(d.id, d.succ, ids);
    forall l ensures l in now <==> l in then_ {
      if l in now {
        var x, y :| x in docs + [d] && y in Mentions(x) && y in ids && l == (x.id, y);
        assert x in docs || x == d;
      }
      if l in LinksIn(docs, ids) {
        var x, y :| x in docs && y in Mentions(x) && y in ids && l == (x.id, y);
        assert x in docs + [d];
      }
      assert d in docs + [d];
    }
  }

  /** `_blank_components` */
  method BlankComponents(blanks: seq<Doc>) returns (components: seq<seq<Doc>>)
    ensures components == ComponentList(blanks)
  {
    hide Connected; hide Explains; hide AllPlaced; hide LinksIn; hide LinksTo; hide ComponentsUpto;
    var ids := Ids(blanks);
    var forest := new Forest(ids);
    NoLinks(ids);
    for i := 0 to |blanks|
      invariant forest.Valid() && forest.parent.Keys == ids
      invariant forest.links == LinksIn(blanks[..i], ids)
    {
      assert blanks[..i + 1] == blanks[..i] + [blanks[i]];
      LinksSnoc(blanks[..i], blanks[i], ids);
      forest.Union(blanks[i].id, blanks[i].pred);
      forest.Union(blanks[i].id, blanks[i].succ);
    }
    assert blanks[..|blanks|] == blanks;
    components := GroupByRoot(forest, blanks);
  }

  lemma NoLinks(ids: set<string>)
    ensures LinksIn([], ids) == {}
  {
  }

  /** The second loop of `_blank_components`. */
  method GroupByRoot(forest: Forest, blanks: seq<Doc>) returns (components: seq<seq<Doc>>)
    requires forest.Valid() && forest.parent.Keys == Ids(blanks) && forest.links == Links(blanks)
    modifies forest
    ensures components == ComponentList(blanks)
  {
    hide Connected; hide Explains; hide Placed; hide Links; hide ComponentList;
    var order: seq<string>, groups: map<string, seq<Doc>> := [], map[];
    GroupedEmpty(RootOf(forest.root));
    for i := 0 to |blanks|
      invariant forest.Valid() && forest.parent.Keys == Ids(blanks) && forest.links == Links(blanks)
      invariant Grouped(RootOf(forest.root), blanks[..i], order, groups)
    {
      hide Grouped;
      var d := blanks[i];
      assert d in blanks && blanks[..i + 1] == blanks[..i] + [d];
      var top := forest.Find(d.id);
      GroupedSnoc(RootOf(forest.root), blanks[..i], order, groups, d);
      if top !in groups {
        order := order + [top];
      }
      groups := groups[top := (if top in groups then groups[top] else []) + [d]];
    }
    assert blanks[..|blanks|] == blanks;
    GroupedValues(RootOf(forest.root), blanks, order, groups);
    GroupsAreComponents(forest.root, blanks);
    components := Values(order, groups);
  }

  lemma GroupsAreComponents(root: map<string, string>, docs: seq<Doc>)
    requires root.Keys == Ids(docs) && Explains(root, Links(docs))
    ensures Groups(RootOf(root), docs) == ComponentList(docs)
  {
    RootsGiveComponents(root, docs, |docs|);
    assert docs[..|docs|] == docs;
  }
}
