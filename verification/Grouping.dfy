/** Lists of files under labels, as `setdefault(tag, []).append(file)` builds them: a dict keeps its
    keys in the order they first came. */
module Grouping {
  import opened Documents
  import opened Lists

  function Having<L(==,!new)>(tag: Doc -> L, l: L): Doc -> bool {
    (d: Doc) => tag(d) == l
  }

  /** The labels in the order of their first files. */
  function Firsts<L(==,!new)>(tag: Doc -> L, docs: seq<Doc>): seq<L> {
    if docs == [] then []
    else
      var before, l := Firsts(tag, docs[..|docs| - 1]), tag(docs[|docs| - 1]);
      if l in before then before else before + [l]
  }

  lemma FirstsSnoc<L(!new)>(tag: Doc -> L, docs: seq<Doc>, d: Doc)
    ensures Firsts(tag, docs + [d]) ==
            if tag(d) in Firsts(tag, docs) then Firsts(tag, docs) else Firsts(tag, docs) + [tag(d)]
  {
    assert (docs + [d])[..|docs|] == docs;
  }

  lemma {:induction false} FirstsMembers<L(!new)>(tag: Doc -> L, docs: seq<Doc>, l: L)
    ensures l in Firsts(tag, docs) <==> exists d :: d in docs && tag(d) == l
  {
    if docs != [] {
      var init, last := docs[..|docs| - 1], docs[|docs| - 1];
      assert docs == init + [last];
      FirstsMembers(tag, init, l);
      FirstsSnoc(tag, init, last);
      hide Firsts;
      assert forall d :: d in docs <==> d in init || d == last;
    }
  }

  lemma {:induction false} FirstsDistinct<L(!new)>(tag: Doc -> L, docs: seq<Doc>)
    ensures forall i, j | 0 <= i < j < |Firsts(tag, docs)| :: Firsts(tag, docs)[i] != Firsts(tag, docs)[j]
  {
    if docs != [] {
      FirstsDistinct(tag, docs[..|docs| - 1]);
    }
  }

  /** The groups of the listed labels. */
  function ByLabel<L(==,!new)>(tag: Doc -> L, docs: seq<Doc>, order: seq<L>): seq<seq<Doc>> {
    if order == [] then []
    else ByLabel(tag, docs, order[..|order| - 1]) + [Filter(Having(tag, order[|order| - 1]), docs)]
  }

  lemma ByLabelSnoc<L(!new)>(tag: Doc -> L, docs: seq<Doc>, order: seq<L>, l: L)
    ensures ByLabel(tag, docs, order + [l]) == ByLabel(tag, docs, order) + [Filter(Having(tag, l), docs)]
  {
    assert (order + [l])[..|order|] == order;
  }

  function Groups<L(==,!new)>(tag: Doc -> L, docs: seq<Doc>): seq<seq<Doc>> {
    ByLabel(tag, docs, Firsts(tag, docs))
  }

  lemma {:induction false} ByLabelMembers<L(!new)>(tag: Doc -> L, docs: seq<Doc>, order: seq<L>, g: seq<Doc>)
    ensures g in ByLabel(tag, docs, order) <==> exists l :: l in order && g == Filter(Having(tag, l), docs)
  {
    if order != [] {
      var init, last := order[..|order| - 1], order[|order| - 1];
      assert order == init + [last];
      ByLabelMembers(tag, docs, init, g);
      ByLabelSnoc(tag, docs, init, last);
      hide ByLabel; hide Filter;
      assert forall l :: l in order <==> l in init || l == last;
    }
  }

  /** Each group is the non-empty list of all files with one tag. */
  lemma GroupsMembers<L(!new)>(tag: Doc -> L, docs: seq<Doc>, g: seq<Doc>)
    ensures g in Groups(tag, docs) <==> exists d :: d in docs && g == Filter(Having(tag, tag(d)), docs)
  {
    ByLabelMembers(tag, docs, Firsts(tag, docs), g);
    hide ByLabel; hide Firsts; hide Filter;
    forall d | d in docs ensures tag(d) in Firsts(tag, docs) {
      FirstsMembers(tag, docs, tag(d));
    }
    if l :| l in Firsts(tag, docs) && g == Filter(Having(tag, l), docs) {
      FirstsMembers(tag, docs, l);
    }
  }

  // ----- the dict ---------------------------------------------------------------------------------------

  ghost predicate Grouped<L(!new)>(tag: Doc -> L, docs: seq<Doc>, order: seq<L>, groups: map<L, seq<Doc>>) {
    && order == Firsts(tag, docs)
    && (forall l :: l in groups <==> l in order)
    && forall l | l in groups :: groups[l] == Filter(Having(tag, l), docs)
  }

  lemma GroupedEmpty<L(!new)>(tag: Doc -> L)
    ensures Grouped(tag, [], [], map[])
  {
  }

  lemma GroupedSnoc<L(!new)>(tag: Doc -> L, docs: seq<Doc>, order: seq<L>, groups: map<L, seq<Doc>>, d: Doc)
    requires Grouped(tag, docs, order, groups)
    ensures Grouped(tag, docs + [d], if tag(d) in groups then order else order + [tag(d)],
                    groups[tag(d) := (if tag(d) in groups then groups[tag(d)] else []) + [d]])
  {
    hide Firsts; hide Filter;
    var l := tag(d);
    FirstsSnoc(tag, docs, d);
    if l !in groups {
      FirstsMembers(tag, docs, l);
      FilterNone(Having(tag, l), docs);
    }
    var next := groups[l := (if l in groups then groups[l] else []) + [d]];
    forall s | s in next ensures next[s] == Filter(Having(tag, s), docs + [d]) {
      FilterSnoc(Having(tag, s), docs, d);
    }
  }

  /** `groups.values()` */
  function Values<L(!new)>(order: seq<L>, groups: map<L, seq<Doc>>): (r: seq<seq<Doc>>)
    requires forall l | l in order :: l in groups
  {
    seq(|order|, k requires 0 <= k < |order| => assert order[k] in order; groups[order[k]])
  }

  lemma {:induction false} ValuesByLabel<L(!new)>(
    tag: Doc -> L, docs: seq<Doc>, order: seq<L>, groups: map<L, seq<Doc>>)
    requires forall l | l in order :: l in groups && groups[l] == Filter(Having(tag, l), docs)
    ensures ByLabel(tag, docs, order) == Values(order, groups)
  {
    hide Filter;
    if order != [] {
      var init, last := order[..|order| - 1], order[|order| - 1];
      assert order == init + [last];
      ValuesByLabel(tag, docs, init, groups);
      assert last in order;
    }
  }

  lemma GroupedValues<L(!new)>(tag: Doc -> L, docs: seq<Doc>, order: seq<L>, groups: map<L, seq<Doc>>)
    requires Grouped(tag, docs, order, groups)
    ensures forall l | l in order :: l in groups
    ensures Values(order, groups) == Groups(tag, docs)
  {
    ValuesByLabel(tag, docs, order, groups);
  }

  /** A loop of `setdefault` and `append`. */
  method GroupBy<L(==,!new)>(tag: Doc -> L, docs: seq<Doc>) returns (order: seq<L>, groups: map<L, seq<Doc>>)
    ensures Grouped(tag, docs, order, groups)
    ensures forall l | l in order :: l in groups
    ensures Values(order, groups) == Groups(tag, docs)
  {
    order, groups := [], map[];
    GroupedEmpty(tag);
    for i := 0 to |docs|
      invariant Grouped(tag, docs[..i], order, groups)
    {
      hide Grouped;
      assert docs[..i + 1] == docs[..i] + [docs[i]];
      GroupedSnoc(tag, docs[..i], order, groups, docs[i]);
      var l := tag(docs[i]);
      if l !in groups {
        order := order + [l];
      }
      groups := groups[l := (if l in groups then groups[l] else []) + [docs[i]]];
    }
    assert docs[..|docs|] == docs;
    GroupedValues(tag, docs, order, groups);
  }
}
