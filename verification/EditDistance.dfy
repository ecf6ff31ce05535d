/** The edit distance behind character and word accuracy (metrics.py).
    `Prefix(a, b, i, j)` is the textbook recurrence on prefixes; `Script` gives an independent
    meaning to it: the least cost of any script of keeps, replacements, deletions and insertions. */
module EditDistance {

  function Min(a: nat, b: nat): nat {
    if a <= b then a else b
  }

  /** One table cell: drop an item of a, drop an item of b, or pair the two last items. */
  function Cell(up: nat, side: nat, diagonal: nat, same: bool): nat {
    Min(Min(up + 1, side + 1), diagonal + if same then 0 else 1)
  }

  /** Distance between the first i items of a and the first j items of b. */
  function Prefix<T(==)>(a: seq<T>, b: seq<T>, i: nat, j: nat): nat
    requires i <= |a| && j <= |b|
    decreases i + j
  {
    if i == 0 then j
    else if j == 0 then i
    else Cell(Prefix(a, b, i - 1, j), Prefix(a, b, i, j - 1), Prefix(a, b, i - 1, j - 1), a[i - 1] == b[j - 1])
  }

  function Distance<T(==)>(a: seq<T>, b: seq<T>): nat {
    Prefix(a, b, |a|, |b|)
  }

  // ----- one cell ------------------------------------------------------------------------------

  lemma CellSymmetric(up: nat, side: nat, diagonal: nat, same: bool)
    ensures Cell(up, side, diagonal, same) == Cell(side, up, diagonal, same)
  {
  }

  lemma CellBounds(up: nat, side: nat, diagonal: nat, same: bool, i: nat, j: nat)
    requires 0 < i && 0 < j
    requires i - 1 - j <= up && j - i + 1 <= up && (up <= i - 1 || up <= j)
    requires i - j + 1 <= side && j - 1 - i <= side && (side <= i || side <= j - 1)
    requires i - j <= diagonal && j - i <= diagonal && (diagonal <= i - 1 || diagonal <= j - 1)
    ensures i - j <= Cell(up, side, diagonal, same) && j - i <= Cell(up, side, diagonal, same)
    ensures Cell(up, side, diagonal, same) <= i || Cell(up, side, diagonal, same) <= j
  {
  }

  /** The triangle inequality for three cells, from the inequality for their neighbours. */
  lemma CellTriangle(ab: nat, abUp: nat, abSide: nat, abDiag: nat, abSame: bool,
                     bc: nat, bcUp: nat, bcSide: nat, bcDiag: nat, bcSame: bool,
                     ac: nat, acUp: nat, acSide: nat, acDiag: nat, acSame: bool)
    requires ab == Cell(abUp, abSide, abDiag, abSame)
    requires bc == Cell(bcUp, bcSide, bcDiag, bcSame)
    requires ac == Cell(acUp, acSide, acDiag, acSame)
    requires abSame && bcSame ==> acSame
    requires acUp <= abUp + bc && acSide <= ab + bcSide && ac <= abSide + bcUp
    requires acUp <= abDiag + bcUp && acSide <= abSide + bcDiag && acDiag <= abDiag + bcDiag
    ensures ac <= ab + bc
  {
  }

  // ----- metric laws ---------------------------------------------------------------------------

  lemma {:induction false} PrefixSymmetric<T>(a: seq<T>, b: seq<T>, i: nat, j: nat)
    requires i <= |a| && j <= |b|
    ensures Prefix(a, b, i, j) == Prefix(b, a, j, i)
    decreases i + j
  {
    hide Cell;
    if i > 0 && j > 0 {
      PrefixSymmetric(a, b, i - 1, j);
      PrefixSymmetric(a, b, i, j - 1);
      PrefixSymmetric(a, b, i - 1, j - 1);
      CellSymmetric(Prefix(a, b, i - 1, j), Prefix(a, b, i, j - 1), Prefix(a, b, i - 1, j - 1), a[i - 1] == b[j - 1]);
    }
  }

  /** Swapping the arguments, as `_edit_distance` does for the shorter row, changes nothing. */
  lemma DistanceSymmetric<T>(a: seq<T>, b: seq<T>)
    ensures Distance(a, b) == Distance(b, a)
  {
    PrefixSymmetric(a, b, |a|, |b|);
  }

  lemma {:induction false} PrefixBounds<T>(a: seq<T>, b: seq<T>, i: nat, j: nat)
    requires i <= |a| && j <= |b|
    ensures i - j <= Prefix(a, b, i, j) && j - i <= Prefix(a, b, i, j)
    ensures Prefix(a, b, i, j) <= i || Prefix(a, b, i, j) <= j
    decreases i + j
  {
    hide Cell;
    if i > 0 && j > 0 {
      PrefixBounds(a, b, i - 1, j);
      PrefixBounds(a, b, i, j - 1);
      PrefixBounds(a, b, i - 1, j - 1);
      CellBounds(Prefix(a, b, i - 1, j), Prefix(a, b, i, j - 1), Prefix(a, b, i - 1, j - 1),
                 a[i - 1] == b[j - 1], i, j);
    }
  }

  lemma DistanceBounds<T>(a: seq<T>, b: seq<T>)
    ensures |a| - |b| <= Distance(a, b) && |b| - |a| <= Distance(a, b)
    ensures Distance(a, b) <= if |a| >= |b| then |a| else |b|
  {
    PrefixBounds(a, b, |a|, |b|);
  }

  lemma {:induction false} PrefixZero<T>(a: seq<T>, b: seq<T>, i: nat, j: nat)
    requires i <= |a| && j <= |b|
    ensures Prefix(a, b, i, j) == 0 <==> a[..i] == b[..j]
    decreases i + j
  {
    if i == 0 || j == 0 {
    } else {
      PrefixZero(a, b, i - 1, j - 1);
      assert a[..i] == a[..i - 1] + [a[i - 1]];
      assert b[..j] == b[..j - 1] + [b[j - 1]];
    }
  }

  lemma DistanceZero<T>(a: seq<T>, b: seq<T>)
    ensures Distance(a, b) == 0 <==> a == b
  {
    PrefixZero(a, b, |a|, |b|);
    assert a[..|a|] == a && b[..|b|] == b;
  }

  lemma {:induction false} PrefixTriangle<T>(a: seq<T>, b: seq<T>, c: seq<T>, i: nat, j: nat, k: nat)
    requires i <= |a| && j <= |b| && k <= |c|
    ensures Prefix(a, c, i, k) <= Prefix(a, b, i, j) + Prefix(b, c, j, k)
    decreases i + j + k
  {
    hide Cell;
    if i == 0 || j == 0 || k == 0 {
      PrefixBounds(a, b, i, j);
      PrefixBounds(b, c, j, k);
      PrefixBounds(a, c, i, k);
    } else {
      PrefixTriangle(a, b, c, i - 1, j, k);
      PrefixTriangle(a, b, c, i, j, k - 1);
      PrefixTriangle(a, b, c, i, j - 1, k);
      PrefixTriangle(a, b, c, i - 1, j - 1, k);
      PrefixTriangle(a, b, c, i, j - 1, k - 1);
      PrefixTriangle(a, b, c, i - 1, j - 1, k - 1);
      CellTriangle(
        Prefix(a, b, i, j), Prefix(a, b, i - 1, j), Prefix(a, b, i, j - 1), Prefix(a, b, i - 1, j - 1),
        a[i - 1] == b[j - 1],
        Prefix(b, c, j, k), Prefix(b, c, j - 1, k), Prefix(b, c, j, k - 1), Prefix(b, c, j - 1, k - 1),
        b[j - 1] == c[k - 1],
        Prefix(a, c, i, k), Prefix(a, c, i - 1, k), Prefix(a, c, i, k - 1), Prefix(a, c, i - 1, k - 1),
        a[i - 1] == c[k - 1]);
    }
  }

  lemma DistanceTriangle<T>(a: seq<T>, b: seq<T>, c: seq<T>)
    ensures Distance(a, c) <= Distance(a, b) + Distance(b, c)
  {
    PrefixTriangle(a, b, c, |a|, |b|, |c|);
  }

  // ----- meaning: the cheapest edit script ------------------------------------------------------

  datatype Edit<T> = Keep(item: T) | Replace(was: T, now: T) | Delete(gone: T) | Insert(come: T)

  function Source<T>(script: seq<Edit<T>>): (s: seq<T>) {
    if script == [] then []
    else
      var last := script[|script| - 1];
      Source(script[..|script| - 1]) +
      match last { case Keep(x) => [x] case Replace(x, _) => [x] case Delete(x) => [x] case Insert(_) => [] }
  }

  function Target<T>(script: seq<Edit<T>>): (s: seq<T>) {
    if script == [] then []
    else
      var last := script[|script| - 1];
      Target(script[..|script| - 1]) +
      match last { case Keep(x) => [x] case Replace(_, y) => [y] case Delete(_) => [] case Insert(y) => [y] }
  }

  function Price<T>(script: seq<Edit<T>>): nat {
    if script == [] then 0
    else Price(script[..|script| - 1]) + if script[|script| - 1].Keep? then 0 else 1
  }

  /** Prefixes are all the recurrence looks at. */
  lemma {:induction false} PrefixLocal<T>(a: seq<T>, b: seq<T>, a': seq<T>, b': seq<T>, i: nat, j: nat)
    requires i <= |a| && j <= |b| && i <= |a'| && j <= |b'|
    requires a[..i] == a'[..i] && b[..j] == b'[..j]
    ensures Prefix(a, b, i, j) == Prefix(a', b', i, j)
    decreases i + j
  {
    if i > 0 && j > 0 {
      assert a[..i][i - 1] == a'[..i][i - 1] && b[..j][j - 1] == b'[..j][j - 1];
      assert a[..i - 1] == a[..i][..i - 1] && a'[..i - 1] == a'[..i][..i - 1];
      assert b[..j - 1] == b[..j][..j - 1] && b'[..j - 1] == b'[..j][..j - 1];
      PrefixLocal(a, b, a', b', i - 1, j);
      PrefixLocal(a, b, a', b', i, j - 1);
      PrefixLocal(a, b, a', b', i - 1, j - 1);
    }
  }

  /** No script is cheaper than the distance. */
  lemma {:induction false} NoCheaperScript<T>(script: seq<Edit<T>>)
    ensures Distance(Source(script), Target(script)) <= Price(script)
  {
    if script != [] {
      var rest := script[..|script| - 1];
      NoCheaperScript(rest);
      var a, b := Source(script), Target(script);
      var a', b' := Source(rest), Target(rest);
      assert a[..|a'|] == a' && b[..|b'|] == b';
      assert a'[..|a'|] == a' && b'[..|b'|] == b';
      PrefixLocal(a, b, a', b', |a'|, |b'|);
    }
  }

  /** Adding one edit at the end. */
  lemma AppendEdit<T>(rest: seq<Edit<T>>, last: Edit<T>)
    ensures Source(rest + [last]) == Source(rest) +
              match last { case Keep(x) => [x] case Replace(x, _) => [x] case Delete(x) => [x] case Insert(_) => [] }
    ensures Target(rest + [last]) == Target(rest) +
              match last { case Keep(x) => [x] case Replace(_, y) => [y] case Delete(_) => [] case Insert(y) => [y] }
    ensures Price(rest + [last]) == Price(rest) + if last.Keep? then 0 else 1
  {
    assert (rest + [last])[..|rest|] == rest;
  }

  lemma CellIsOneOf(up: nat, side: nat, diagonal: nat, same: bool)
    ensures Cell(up, side, diagonal, same) == up + 1 || Cell(up, side, diagonal, same) == side + 1 ||
            Cell(up, side, diagonal, same) == diagonal + if same then 0 else 1
  {
  }

  /** Some script costs exactly the distance. */
  lemma {:induction false} CheapestScript<T>(a: seq<T>, b: seq<T>, i: nat, j: nat) returns (script: seq<Edit<T>>)
    requires i <= |a| && j <= |b|
    ensures Source(script) == a[..i] && Target(script) == b[..j] && Price(script) == Prefix(a, b, i, j)
    decreases i + j
  {
    hide Source;
    hide Target;
    hide Price;
    hide Cell;
    if i == 0 && j == 0 {
      script := [];
      EmptyScript<T>();
      return;
    }
    if i > 0 && j > 0 {
      CellIsOneOf(Prefix(a, b, i - 1, j), Prefix(a, b, i, j - 1), Prefix(a, b, i - 1, j - 1), a[i - 1] == b[j - 1]);
    }
    var rest, last;
    if j == 0 || (i > 0 && Prefix(a, b, i, j) == Prefix(a, b, i - 1, j) + 1) {
      rest := CheapestScript(a, b, i - 1, j);
      last := Delete(a[i - 1]);
    } else if i == 0 || Prefix(a, b, i, j) == Prefix(a, b, i, j - 1) + 1 {
      rest := CheapestScript(a, b, i, j - 1);
      last := Insert(b[j - 1]);
    } else {
      rest := CheapestScript(a, b, i - 1, j - 1);
      last := if a[i - 1] == b[j - 1] then Keep(a[i - 1]) else Replace(a[i - 1], b[j - 1]);
    }
    script := rest + [last];
    AppendEdit(rest, last);
    if i > 0 { assert a[..i] == a[..i - 1] + [a[i - 1]]; }
    if j > 0 { assert b[..j] == b[..j - 1] + [b[j - 1]]; }
  }

  lemma EmptyScript<T>()
    ensures Source<T>([]) == [] && Target<T>([]) == [] && Price<T>([]) == 0
  {
  }

  /** The distance is the least number of edits that turn a into b. */
  lemma DistanceIsLeastPrice<T>(a: seq<T>, b: seq<T>)
    ensures exists script: seq<Edit<T>> ::
              Source(script) == a && Target(script) == b && Price(script) == Distance(a, b)
    ensures forall script: seq<Edit<T>> ::
              Source(script) == a && Target(script) == b ==> Distance(a, b) <= Price(script)
  {
    var script := CheapestScript(a, b, |a|, |b|);
    assert a[..|a|] == a && b[..|b|] == b;
    forall script: seq<Edit<T>> | Source(script) == a && Target(script) == b
      ensures Distance(a, b) <= Price(script)
    {
      NoCheaperScript(script);
    }
  }

  // ----- the two-row loop -----------------------------------------------------------------------

  /** `_edit_distance`: the longer sequence drives the outer loop, two rows are kept. */
  method EditDistance<T(==)>(l: seq<T>, r: seq<T>) returns (d: nat)
    ensures d == Distance(l, r)
  {
    hide Cell;
    var left, right := l, r;
    if |left| < |right| {
      left, right := right, left;
    }
    var previous := seq(|right| + 1, j => j);
    for i := 1 to |left| + 1
      invariant |previous| == |right| + 1
      invariant forall k | 0 <= k <= |right| :: previous[k] == Prefix(left, right, i - 1, k)
    {
      var current := [i];
      for j := 1 to |right| + 1
        invariant |current| == j
        invariant forall k | 0 <= k < j :: current[k] == Prefix(left, right, i, k)
      {
        current := current +
          [Cell(previous[j], current[j - 1], previous[j - 1], left[i - 1] == right[j - 1])];
      }
      previous := current;
    }
    DistanceSymmetric(l, r);
    d := previous[|previous| - 1];
  }

  /** `levenshtein`: equal strings are answered without the table. */
  method Levenshtein(left: string, right: string) returns (d: nat)
    ensures d == Distance(left, right)
  {
    if left == right {
      DistanceZero(left, right);
      d := 0;
    } else {
      d := EditDistance(left, right);
    }
  }

  /** `character_accuracy` on prepared texts. */
  function CharacterAccuracy(reference: string, hypothesis: string): (ca: real) {
    if reference == "" && hypothesis == "" then 1.0
    else if reference == "" then 0.0
    else if reference == hypothesis then 1.0
    else
      var raw := 1.0 - Distance(reference, hypothesis) as real / |reference| as real;
      if raw < 0.0 then 0.0 else raw
  }

  /** A full score is reached by the reference text and by nothing else; a zero score means the
      hypothesis is at least as far from a non-empty reference as the empty text is. */
  lemma CharacterAccuracyMeaning(reference: string, hypothesis: string)
    ensures 0.0 <= CharacterAccuracy(reference, hypothesis) <= 1.0
    ensures CharacterAccuracy(reference, hypothesis) == 1.0 <==> reference == hypothesis
    ensures reference != "" ==>
              (CharacterAccuracy(reference, hypothesis) == 0.0 <==>
               Distance(reference, hypothesis) >= Distance(reference, ""))
  {
    DistanceZero(reference, hypothesis);
    if reference != "" {
      var d, n := Distance(reference, hypothesis), |reference|;
      RatioAgainstOne(d, n);
    }
  }

  lemma RatioAgainstOne(d: nat, n: nat)
    requires n > 0
    ensures (d as real / n as real) >= 0.0
    ensures (d as real / n as real >= 1.0) <==> d >= n
    ensures (d as real / n as real == 0.0) <==> d == 0
  {
    var q := d as real / n as real;
    assert q * n as real == d as real;
    if q >= 1.0 { assert q * n as real >= n as real; }
    if q < 1.0 { assert q * n as real < n as real; }
  }
}
