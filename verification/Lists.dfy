/** Filtering a list, as the comprehensions of the program do. */
module Lists {
  function Filter<T(!new)>(p: T -> bool, s: seq<T>): (r: seq<T>)
    ensures forall x :: x in r <==> x in s && p(x)
  {
    if s == [] then []
    else Filter(p, s[..|s| - 1]) + if p(s[|s| - 1]) then [s[|s| - 1]] else []
  }

  lemma FilterSnoc<T(!new)>(p: T -> bool, s: seq<T>, x: T)
    ensures Filter(p, s + [x]) == Filter(p, s) + if p(x) then [x] else []
  {
    assert (s + [x])[..|s|] == s;
  }

  lemma FilterSome<T(!new)>(p: T -> bool, s: seq<T>)
    requires Filter(p, s) != []
    ensures exists k :: 0 <= k < |s| && p(s[k])
  {
    var x := Filter(p, s)[0];
    assert x in Filter(p, s);
    var k :| 0 <= k < |s| && s[k] == x;
  }

  lemma {:induction false} FilterSame<T(!new)>(p: T -> bool, q: T -> bool, s: seq<T>)
    requires forall x | x in s :: p(x) == q(x)
    ensures Filter(p, s) == Filter(q, s)
  {
    if s != [] {
      FilterSame(p, q, s[..|s| - 1]);
      assert s[|s| - 1] in s;
    }
  }

  lemma {:induction false} FilterAll<T(!new)>(p: T -> bool, s: seq<T>)
    requires forall x | x in s :: p(x)
    ensures Filter(p, s) == s
  {
    if s != [] {
      var init, last := s[..|s| - 1], s[|s| - 1];
      assert s == init + [last];
      forall x | x in init ensures p(x) {
        assert x in s;
      }
      assert last in s;
      FilterAll(p, init);
      FilterSnoc(p, init, last);
      hide Filter;
    }
  }

  lemma FilterNone<T(!new)>(p: T -> bool, s: seq<T>)
    requires forall x | x in s :: !p(x)
    ensures Filter(p, s) == []
  {
    if Filter(p, s) != [] {
      FilterSome(p, s);
    }
  }

  function Both<T(!new)>(p: T -> bool, q: T -> bool): T -> bool {
    (x: T) => p(x) && q(x)
  }

  lemma {:induction false} FilterBoth<T(!new)>(p: T -> bool, q: T -> bool, s: seq<T>)
    ensures Filter(q, Filter(p, s)) == Filter(Both(p, q), s)
  {
    if s != [] {
      var init, last := s[..|s| - 1], s[|s| - 1];
      FilterBoth(p, q, init);
      assert s == init + [last];
      FilterSnoc(p, init, last);
      FilterSnoc(Both(p, q), init, last);
      FilterSnoc(q, Filter(p, init), last);
      hide Filter;
      assert Filter(p, init) + [] == Filter(p, init);
    }
  }

  /** Exactly one position is kept. */
  lemma {:induction false} FilterSole<T(!new)>(p: T -> bool, s: seq<T>, k: nat)
    requires k < |s| && p(s[k]) && forall j | 0 <= j < |s| && j != k :: !p(s[j])
    ensures Filter(p, s) == [s[k]]
  {
    var init, last := s[..|s| - 1], s[|s| - 1];
    if k == |s| - 1 {
      FilterNone(p, init);
    } else {
      FilterSole(p, init, k);
    }
  }

  lemma {:induction false} FilterTwo<T(!new)>(p: T -> bool, s: seq<T>, i: nat, j: nat)
    requires i < j < |s| && p(s[i]) && p(s[j])
    ensures |Filter(p, s)| >= 2
  {
    var init := s[..|s| - 1];
    if j < |s| - 1 {
      FilterTwo(p, init, i, j);
    } else {
      assert init[i] in init;
      assert init[i] in Filter(p, init);
    }
  }

  lemma {:induction false} FilterCounts<T(!new)>(p: T -> bool, s: seq<T>, x: T)
    ensures multiset(Filter(p, s))[x] == if p(x) then multiset(s)[x] else 0
  {
    if s != [] {
      FilterCounts(p, s[..|s| - 1], x);
      assert s == s[..|s| - 1] + [s[|s| - 1]];
    }
  }

  /** Filtering commutes with reordering. */
  lemma FilterPermutes<T(!new)>(p: T -> bool, a: seq<T>, b: seq<T>)
    requires multiset(a) == multiset(b)
    ensures multiset(Filter(p, a)) == multiset(Filter(p, b))
    ensures |Filter(p, a)| == |Filter(p, b)|
  {
    var fa, fb := Filter(p, a), Filter(p, b);
    forall x ensures multiset(fa)[x] == multiset(fb)[x] {
      FilterCounts(p, a, x);
      FilterCounts(p, b, x);
    }
    hide Filter;
    assert multiset(fa) == multiset(fb);
    SameMembers(fa, fb);
  }

  lemma SameMembers<T(!new)>(a: seq<T>, b: seq<T>)
    requires multiset(a) == multiset(b)
    ensures forall x :: x in a <==> x in b
    ensures |a| == |b|
  {
    assert |multiset(a)| == |multiset(b)|;
    forall x ensures x in a <==> x in b {
      assert x in a <==> x in multiset(a);
      assert x in b <==> x in multiset(b);
    }
  }

  lemma {:induction false} FilterConcat<T(!new)>(p: T -> bool, a: seq<T>, b: seq<T>)
    ensures Filter(p, a + b) == Filter(p, a) + Filter(p, b)
  {
    if b == [] {
      assert a + b == a;
    } else {
      var init, last := b[..|b| - 1], b[|b| - 1];
      assert a + b == (a + init) + [last] && b == init + [last];
      FilterSnoc(p, a + init, last);
      FilterSnoc(p, init, last);
      FilterConcat(p, a, init);
      hide Filter;
    }
  }

  lemma FilterOne<T(!new)>(p: T -> bool, x: T)
    ensures Filter(p, [x]) == if p(x) then [x] else []
  {
    assert [x][..0] == [];
  }

  /** A filter inside a wider one. */
  lemma FilterWithin<T(!new)>(p: T -> bool, q: T -> bool, s: seq<T>)
    requires forall x | q(x) :: p(x)
    ensures Filter(q, Filter(p, s)) == Filter(q, s)
  {
    FilterBoth(p, q, s);
    FilterSame(Both(p, q), q, s);
  }

  lemma {:induction false} FilterFewer<T(!new)>(p: T -> bool, q: T -> bool, s: seq<T>)
    requires forall i | 0 <= i < |s| && p(s[i]) :: q(s[i])
    ensures |Filter(p, s)| <= |Filter(q, s)|
  {
    if s != [] {
      FilterFewer(p, q, s[..|s| - 1]);
    }
  }
}
