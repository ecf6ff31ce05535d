/** Lexicographic order on strings and the sorted listing of a finite set, as `sorted` gives it. */
module StringOrder {

  predicate Leq(a: string, b: string) {
    a == "" || (b != "" && (a[0] < b[0] || (a[0] == b[0] && Leq(a[1..], b[1..]))))
  }

  lemma {:induction false} LeqTotal(a: string, b: string)
    ensures Leq(a, b) || Leq(b, a)
    ensures Leq(a, b) && Leq(b, a) ==> a == b
  {
    if a != "" && b != "" && a[0] == b[0] {
      LeqTotal(a[1..], b[1..]);
      if a[1..] == b[1..] {
        assert a == [a[0]] + a[1..] && b == [b[0]] + b[1..];
      }
    }
  }

  lemma {:induction false} LeqTransitive(a: string, b: string, c: string)
    requires Leq(a, b) && Leq(b, c)
    ensures Leq(a, c)
  {
    if a != "" && a[0] == b[0] && b[0] == c[0] {
      LeqTransitive(a[1..], b[1..], c[1..]);
    }
  }

  predicate IsLeast(x: string, s: set<string>) {
    x in s && forall y | y in s :: Leq(x, y)
  }

  lemma LeastExists(s: set<string>)
    requires s != {}
    ensures exists x :: x in s && IsLeast(x, s)
    decreases |s|
  {
    hide Leq;
    var x :| x in s;
    LeqTotal(x, x);
    if s == {x} {
      assert IsLeast(x, s);
    } else {
      var rest := s - {x};
      assert s == rest + {x};
      LeastExists(rest);
      var y :| y in rest && IsLeast(y, rest);
      LeqTotal(x, y);
      if Leq(y, x) {
        assert IsLeast(y, s);
      } else {
        forall z | z in s ensures Leq(x, z) {
          if z != x { LeqTransitive(x, y, z); }
        }
        assert IsLeast(x, s);
      }
    }
  }

  lemma LeastUnique(x: string, y: string, s: set<string>)
    requires IsLeast(x, s) && IsLeast(y, s)
    ensures x == y
  {
    LeqTotal(x, y);
  }

  ghost function Sorted(s: set<string>): seq<string>
    decreases |s|
  {
    if s == {} then []
    else
      LeastExists(s);
      var x :| IsLeast(x, s);
      var rest := Sorted(s - {x});
      [x] + rest
  }

  lemma {:induction false} SortedLists(s: set<string>)
    ensures forall x :: x in Sorted(s) <==> x in s
    ensures forall i, j | 0 <= i < j < |Sorted(s)| :: Sorted(s)[i] != Sorted(s)[j] && Leq(Sorted(s)[i], Sorted(s)[j])
    decreases |s|
  {
    hide Leq; hide Sorted;
    if s == {} {
      SortedEmpty();
    } else {
      LeastExists(s);
      var x :| x in s && IsLeast(x, s);
      SortedStep(s, x);
      SortedLists(s - {x});
      assert forall y | y in s :: y == x || y in s - {x};
    }
  }

  lemma SortedEmpty()
    ensures Sorted({}) == []
  {
  }

  lemma SortedStep(s: set<string>, x: string)
    requires IsLeast(x, s)
    ensures Sorted(s) == [x] + Sorted(s - {x})
  {
    var y :| IsLeast(y, s) && Sorted(s) == [y] + Sorted(s - {y});
    LeastUnique(x, y, s);
  }

  /** A distinct ascending listing of a set is the sorted one. */
  lemma {:induction false} SortedIsUnique(s: set<string>, r: seq<string>)
    requires forall x :: x in r <==> x in s
    requires forall i, j | 0 <= i < j < |r| :: r[i] != r[j] && Leq(r[i], r[j])
    ensures r == Sorted(s)
    decreases |r|
  {
    if r == [] {
      assert s == {};
    } else {
      var x, rest := r[0], r[1..];
      forall y | y in s ensures Leq(x, y) {
        LeqTotal(x, x);
        var k :| 0 <= k < |r| && r[k] == y;
      }
      assert r[0] in r;
      forall y ensures y in rest <==> y in s - {x} {
        if y in rest {
          var k :| 0 <= k < |rest| && rest[k] == y;
          assert r[k + 1] == y;
        }
      }
      SortedIsUnique(s - {x}, rest);
      SortedStep(s, x);
    }
  }

  /** `sorted(keys)` */
  method SortedKeys(keys: set<string>) returns (r: seq<string>)
    ensures r == Sorted(keys)
  {
    hide Leq; hide IsLeast; hide Sorted;
    SortedEmpty();
    r := [];
    var rest := keys;
    while rest != {}
      invariant rest <= keys && r + Sorted(rest) == Sorted(keys)
      decreases |rest|
    {
      LeastExists(rest);
      var x :| x in rest && IsLeast(x, rest);
      SortedStep(rest, x);
      assert r + ([x] + Sorted(rest - {x})) == (r + [x]) + Sorted(rest - {x});
      r := r + [x];
      rest := rest - {x};
    }
  }
}
