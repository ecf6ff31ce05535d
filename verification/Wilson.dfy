/** The Wilson interval and the acceptance thresholds built on it (metrics.py, frozen_val.py).
    Floats are exact reals; the square root is a non-negative number given by its square. */
module Wilson {
  import opened Reals

  /** The normal quantile and its square. */
  const Z: real := 1.96
  const Z2: real := 3.8416

  datatype Interval = Interval(point: real, low: real, high: real, n: nat)

  datatype Metric =
    | CharacterAccuracy | KeyFieldExactMatch | DocumentLinkage | EvidenceLocalization
    | Precision | Recall | F1 | FalsePositiveRate

  /** Minima of the acceptance specification; for the false positive rate a maximum. */
  function Threshold(m: Metric): (t: real)
    ensures 0.0 < t < 1.0
  {
    match m
    case CharacterAccuracy => 0.95
    case KeyFieldExactMatch => 0.90
    case DocumentLinkage => 0.95
    case EvidenceLocalization => 0.95
    case Precision => 0.90
    case Recall => 0.80
    case F1 => 0.85
    case FalsePositiveRate => 0.10
  }

  predicate IsRoot(root: real, square: real) {
    root >= 0.0 && root * root == square
  }

  /** The observed share, and the squared quantile per trial. */
  function Share(k: nat, n: nat): real
    requires 0 < n
  {
    k as real / n as real
  }

  function Weight(n: nat): real
    requires 0 < n
  {
    Z2 / n as real
  }

  /** The number under the root. */
  function Radicand(k: nat, n: nat): real
    requires 0 < n
  {
    var p, r := Share(k, n), n as real;
    p * (1.0 - p) / r + Z2 / (4.0 * (r * r))
  }

  /** `wilson`: `root` is the square root the program takes; without trials the interval is [0;1]. */
  function Interval95(k: nat, n: nat, root: real): Interval
    requires 0 < n ==> IsRoot(root, Radicand(k, n))
  {
    if n == 0 then Interval(0.0, 0.0, 1.0, 0)
    else
      var p, r := Share(k, n), n as real;
      var denom := 1.0 + Z2 / r;
      var centre := (p + Z2 / (2.0 * r)) / denom;
      var spread := Z * root / denom;
      Interval(p, Max(0.0, centre - spread), Min(1.0, centre + spread), n)
  }

  /** `meets_threshold`: the conservative end decides. */
  predicate MeetsThreshold(m: Metric, interval: Interval) {
    if m == FalsePositiveRate then interval.high <= Threshold(m) else interval.low >= Threshold(m)
  }

  // ----- algebra in p (the share), q = z*z/n and s = z*root -------------------------------------

  lemma StrictSquares(x: real, y: real)
    requires x > y >= 0.0
    ensures x * x > y * y
  {
    ProductPositive(x - y, x + y);
    assert (x - y) * (x + y) == x * x - y * y;
  }

  lemma SquareOrder(x: real, y: real)
    requires y >= 0.0 && x * x <= y * y
    ensures x <= y
  {
    if x > y {
      StrictSquares(x, y);
    }
  }

  lemma MulMono(a: real, b: real, c: real)
    requires a <= b && c >= 0.0
    ensures a * c <= b * c
  {
  }

  lemma StrictMul(a: real, b: real, c: real)
    requires a < b && c > 0.0
    ensures a * c < b * c
  {
  }

  lemma Cancel(x: real, y: real, c: real)
    requires c > 0.0 && y * c >= x * c
    ensures y >= x
  {
    if y < x {
      StrictMul(y, x, c);
    }
  }

  ghost predicate Scaled(p: real, q: real, s: real) {
    0.0 <= p <= 1.0 && q > 0.0 && IsRoot(s, q * (p * (1.0 - p)) + q * q / 4.0)
  }

  lemma MirrorScaled(p: real, q: real, s: real)
    requires Scaled(p, q, s)
    ensures Scaled(1.0 - p, q, s)
  {
    assert (1.0 - p) * (1.0 - (1.0 - p)) == p * (1.0 - p);
  }

  lemma RootNotAboveLeft(p: real, q: real, s: real)
    requires Scaled(p, q, s)
    ensures s <= p + q / 2.0
  {
    var left := p + q / 2.0;
    ProductNonNegative(p, p);
    ProductNonNegative(p * p, q);
    assert left * left == p * p + q * p + q * q / 4.0;
    assert q * (p * (1.0 - p)) == q * p - p * p * q;
    SquareOrder(s, left);
  }

  lemma RootCoversShift(p: real, q: real, s: real)
    requires Scaled(p, q, s)
    ensures q * (p - 0.5) <= s
  {
    var v := p * (1.0 - p);
    ProductNonNegative(p, 1.0 - p);
    ProductNonNegative(q, v);
    ProductNonNegative(q * q, v);
    var d := q * (p - 0.5);
    assert d * d == q * q / 4.0 - (q * q) * v by {
      assert (p - 0.5) * (p - 0.5) == 0.25 - v;
      assert d * d == (q * q) * ((p - 0.5) * (p - 0.5));
    }
    SquareOrder(d, s);
  }

  /** The raw interval contains p and does not leave [0;1]. */
  lemma RawInterval(p: real, q: real, s: real)
    requires Scaled(p, q, s)
    ensures 0.0 <= p + q / 2.0 - s <= p * (1.0 + q) <= p + q / 2.0 + s <= 1.0 + q
  {
    RootNotAboveLeft(p, q, s);
    RootCoversShift(p, q, s);
    MirrorScaled(p, q, s);
    RootNotAboveLeft(1.0 - p, q, s);
    RootCoversShift(1.0 - p, q, s);
    assert q * ((1.0 - p) - 0.5) == -(q * (p - 0.5));
    assert p * (1.0 + q) == p + q / 2.0 + q * (p - 0.5);
  }

  /** The identity that turns the interval into the score test. */
  lemma ScoreIdentity(p: real, q: real, s: real, t: real)
    requires Scaled(p, q, s)
    ensures var a := p + q / 2.0 - t * (1.0 + q);
            a * a - s * s == (1.0 + q) * ((p - t) * (p - t) - q * (t * (1.0 - t)))
  {
    var a := p + q / 2.0 - t * (1.0 + q);
    var u := p - t;
    var w := 0.5 - t;
    assert a == u + q * w;
    assert a * a == u * u + 2.0 * (u * (q * w)) + (q * w) * (q * w);
    assert (q * w) * (q * w) == q * q / 4.0 - q * q * (t * (1.0 - t));
    assert 2.0 * (u * (q * w)) - q * (p * (1.0 - p)) == q * (u * u) - q * (t * (1.0 - t)) by {
      assert 2.0 * (u * (q * w)) == q * (u * (1.0 - 2.0 * t));
      assert u * (1.0 - 2.0 * t) - p * (1.0 - p) == u * u - t * (1.0 - t);
    }
    assert (1.0 + q) * (u * u - q * (t * (1.0 - t))) ==
           u * u + q * (u * u) - q * (t * (1.0 - t)) - q * q * (t * (1.0 - t));
  }

  /** The squared distance from t is at least q times the variance at t. */
  ghost predicate Far(p: real, q: real, t: real) {
    (p - t) * (p - t) >= q * (t * (1.0 - t))
  }

  lemma SignOfProduct(c: real, x: real)
    requires c > 0.0
    ensures c * x >= 0.0 <==> x >= 0.0
  {
    if x < 0.0 { StrictMul(x, 0.0, c); }
  }

  /** A share significantly away from t is far enough for the shifted centre. */
  lemma FarEnough(u: real, q: real, t: real)
    requires 0.0 <= u <= t <= 1.0 && t > 0.0 && q > 0.0 && u * u >= q * (t * (1.0 - t))
    ensures u >= q * (1.0 - t)
  {
    MulMono(u, t, u);
    assert q * (t * (1.0 - t)) == (q * (1.0 - t)) * t;
    Cancel(q * (1.0 - t), u, t);
  }

  /** The lower end reaches t exactly when the score test rejects every share below t. */
  lemma LowerEnd(p: real, q: real, s: real, t: real)
    requires Scaled(p, q, s) && 0.0 < t < 1.0
    ensures p + q / 2.0 - s >= t * (1.0 + q) <==> p >= t && Far(p, q, t)
  {
    var a := p + q / 2.0 - t * (1.0 + q);
    var gap := (p - t) * (p - t) - q * (t * (1.0 - t));
    ScoreIdentity(p, q, s, t);
    SignOfProduct(1.0 + q, gap);
    assert a == (p - t) + q * 0.5 - q * t;
    if a >= s {
      MulMono(s, a, s);
      MulMono(s, a, a);
      assert gap >= 0.0;
      if p < t {
        assert (t - p) * (t - p) == (p - t) * (p - t);
        FarEnough(t - p, q, t);
      }
    }
    if p >= t && gap >= 0.0 {
      FarEnough(p - t, q, 1.0 - t);
      assert q * (1.0 - (1.0 - t)) == q * t;
      SquareOrder(s, a);
    }
  }

  /** The mirror image: share 1 - p with the same q and s. */
  lemma UpperEnd(p: real, q: real, s: real, t: real)
    requires Scaled(p, q, s) && 0.0 < t < 1.0
    ensures p + q / 2.0 + s <= t * (1.0 + q) <==> p <= t && Far(p, q, t)
  {
    var p', t' := 1.0 - p, 1.0 - t;
    assert p' * (1.0 - p') == p * (1.0 - p) && t' * (1.0 - t') == t * (1.0 - t);
    LowerEnd(p', q, s, t');
    assert (p' - t') * (p' - t') == (p - t) * (p - t);
    assert t' * (1.0 + q) == (1.0 + q) - t * (1.0 + q);
  }

  // ----- the interval ---------------------------------------------------------------------------

  lemma ShareFacts(k: nat, n: nat)
    requires k <= n && 0 < n
    ensures 0.0 <= Share(k, n) <= 1.0 && Share(k, n) * n as real == k as real
  {
    var p := Share(k, n);
    assert p * n as real == k as real;
    Cancel(p, 1.0, n as real);
    Cancel(0.0, p, n as real);
  }

  lemma RootScales(k: nat, n: nat, root: real)
    requires k <= n && 0 < n && IsRoot(root, Radicand(k, n))
    ensures Scaled(Share(k, n), Weight(n), Z * root)
  {
    var p, r := Share(k, n), n as real;
    var q, v := Weight(n), p * (1.0 - p);
    ShareFacts(k, n);
    assert q * r == Z2;
    assert q > 0.0 by { if q <= 0.0 { MulMono(q, 0.0, r); } }
    var x, y := v / r, Z2 / (4.0 * (r * r));
    assert (Z * root) * (Z * root) == Z2 * (x + y);
    assert Z2 * x == q * v by {
      assert x * r == v;
      assert Z2 * x == q * r * x == q * (x * r);
    }
    assert Z2 * y == q * q / 4.0 by {
      assert y * (4.0 * (r * r)) == Z2;
      assert Z2 * y == (q * r) * y;
      assert (q * r) * (q * r) == (Z2) * (q * r);
      assert q * (q * r) == q * (y * (4.0 * (r * r)));
      assert q * r == 4.0 * y * r * r;
      Cancel(q, 4.0 * y * r, r);
      Cancel(4.0 * y * r, q, r);
      assert q == 4.0 * y * r;
      assert q * q == 4.0 * (q * r) * y;
    }
  }

  lemma Quotients(p: real, q: real, s: real, low: real, high: real)
    requires Scaled(p, q, s)
    requires low * (1.0 + q) == p + q / 2.0 - s && high * (1.0 + q) == p + q / 2.0 + s
    ensures 0.0 <= low <= p <= high <= 1.0
  {
    RawInterval(p, q, s);
    hide IsRoot;
    assert 1.0 + q > 0.0;
    hide Scaled;
    var d, left, right := 1.0 + q, p + q / 2.0 - s, p + q / 2.0 + s;
    CancelTo(0.0, low, d, 0.0, left);
    CancelTo(low, p, d, left, p * d);
    CancelTo(p, high, d, p * d, right);
    CancelTo(high, 1.0, d, right, d);
  }

  lemma CancelTo(x: real, y: real, c: real, xc: real, yc: real)
    requires c > 0.0 && x * c == xc && y * c == yc && xc <= yc
    ensures x <= y
  {
    Cancel(x, y, c);
  }

  lemma DivideBoth(a: real, s: real, d: real)
    requires d > 0.0
    ensures (a / d - s / d) * d == a - s && (a / d + s / d) * d == a + s
  {
    var x, y := a / d, s / d;
    assert x * d == a && y * d == s;
  }

  function Lower(p: real, q: real, s: real): real
    requires q > 0.0
  {
    (p + q / 2.0) / (1.0 + q) - s / (1.0 + q)
  }

  function Upper(p: real, q: real, s: real): real
    requires q > 0.0
  {
    (p + q / 2.0) / (1.0 + q) + s / (1.0 + q)
  }

  lemma Unclamped(k: nat, n: nat, root: real)
    requires 0 < n && IsRoot(root, Radicand(k, n))
    ensures Weight(n) > 0.0
    ensures var p, q, s := Share(k, n), Weight(n), Z * root;
            Interval95(k, n, root) == Interval(p, Max(0.0, Lower(p, q, s)), Min(1.0, Upper(p, q, s)), n)
  {
    hide IsRoot;
    hide Radicand;
    hide Share;
    hide Max;
    hide Min;
    PositiveQuotient(Z2, n as real);
    HalfQuotient(Z2, n as real);
  }

  lemma RawEnds(p: real, q: real, s: real)
    requires Scaled(p, q, s)
    ensures Lower(p, q, s) * (1.0 + q) == p + q / 2.0 - s
    ensures Upper(p, q, s) * (1.0 + q) == p + q / 2.0 + s
  {
    DivideBoth(p + q / 2.0, s, 1.0 + q);
  }

  lemma RawEndsInside(p: real, q: real, s: real)
    requires Scaled(p, q, s)
    ensures 0.0 <= Lower(p, q, s) <= p <= Upper(p, q, s) <= 1.0
  {
    RawEnds(p, q, s);
    hide Lower;
    hide Upper;
    Quotients(p, q, s, Lower(p, q, s), Upper(p, q, s));
  }

  /** The clamped ends are the raw ones. */
  lemma Ends(k: nat, n: nat, root: real)
    requires k <= n && 0 < n && IsRoot(root, Radicand(k, n))
    ensures var p, q, s := Share(k, n), Weight(n), Z * root;
            && Scaled(p, q, s)
            && Interval95(k, n, root) == Interval(p, Lower(p, q, s), Upper(p, q, s), n)
            && 0.0 <= Lower(p, q, s) <= p <= Upper(p, q, s) <= 1.0
  {
    hide Radicand;
    hide IsRoot;
    hide Share;
    hide Weight;
    hide Interval95;
    hide Lower;
    hide Upper;
    Unclamped(k, n, root);
    RootScales(k, n, root);
    hide Scaled;
    RawEndsInside(Share(k, n), Weight(n), Z * root);
  }

  lemma HalfQuotient(a: real, r: real)
    requires r > 0.0
    ensures a / (2.0 * r) == a / r / 2.0
  {
    var h, q := a / (2.0 * r), a / r;
    assert h * (2.0 * r) == a && q * r == a;
    assert (h * 2.0) * r == q * r;
    Cancel(h * 2.0, q, r);
    Cancel(q, h * 2.0, r);
  }

  lemma PositiveQuotient(a: real, b: real)
    requires a > 0.0 && b > 0.0
    ensures a / b > 0.0
  {
  }

  /** The interval contains the observed share and stays inside [0;1]; no clamping is ever needed. */
  lemma ContainsShare(k: nat, n: nat, root: real)
    requires k <= n && 0 < n && IsRoot(root, Radicand(k, n))
    ensures var i := Interval95(k, n, root);
            0.0 <= i.low <= i.point <= i.high <= 1.0 && i.point * n as real == k as real
  {
    hide Radicand;
    hide IsRoot;
    hide Share;
    hide Weight;
    hide Interval95;
    hide Lower;
    hide Upper;
    hide Scaled;
    Ends(k, n, root);
    ShareFacts(k, n);
  }

  /** The score test at t, in whole numbers of trials: the deviation of k from t*n is at least
      1.96 standard deviations of a binomial count with share t. */
  predicate Significant(k: nat, n: nat, t: real) {
    var dev := k as real - t * n as real;
    dev * dev >= Z2 * (t * (1.0 - t)) * n as real
  }

  lemma ScaleDeviation(k: nat, n: nat, t: real)
    requires k <= n && 0 < n
    ensures Far(Share(k, n), Weight(n), t) <==> Significant(k, n, t)
    ensures Share(k, n) >= t <==> k as real >= t * n as real
    ensures Share(k, n) <= t <==> k as real <= t * n as real
  {
    var p, q, r := Share(k, n), Weight(n), n as real;
    ShareFacts(k, n);
    assert q * r == Z2;
    OrderScales(p, t, r);
    OrderScales(t, p, r);
    FarScales(p, q, r, t, k as real);
  }

  lemma FarScales(p: real, q: real, r: real, t: real, k: real)
    requires r > 0.0 && p * r == k && q * r == Z2
    ensures Far(p, q, t) <==> (k - t * r) * (k - t * r) >= Z2 * (t * (1.0 - t)) * r
  {
    MinusTimes(p, t, r);
    FarProduct(p - t, t * (1.0 - t), q, r, k - t * r);
  }

  lemma MinusTimes(p: real, t: real, r: real)
    ensures (p - t) * r == p * r - t * r
  {
  }

  lemma FarProduct(u: real, m: real, q: real, r: real, v: real)
    requires r > 0.0 && u * r == v && q * r == Z2
    ensures u * u >= q * m <==> v * v >= Z2 * m * r
  {
    SquareTimes(u, r);
    RegroupTimes(q, m, r);
    ProductPositive(r, r);
    OrderScales(u * u, q * m, r * r);
  }

  lemma SquareTimes(u: real, r: real)
    ensures (u * r) * (u * r) == (u * u) * (r * r)
  {
    assert (u * r) * (u * r) == u * (r * (u * r));
    assert r * (u * r) == u * (r * r);
    assert u * (u * (r * r)) == (u * u) * (r * r);
  }

  lemma RegroupTimes(q: real, m: real, r: real)
    ensures (q * r) * m * r == (q * m) * (r * r)
  {
    assert (q * r) * m == (q * m) * r;
    assert (q * m) * r * r == (q * m) * (r * r);
  }

  lemma LowerThreshold(p: real, q: real, s: real, t: real)
    requires Scaled(p, q, s) && 0.0 < t < 1.0
    ensures Lower(p, q, s) >= t <==> p >= t && Far(p, q, t)
  {
    RawEnds(p, q, s);
    hide Lower;
    hide Far;
    LowerEnd(p, q, s, t);
    OrderScales(Lower(p, q, s), t, 1.0 + q);
  }

  lemma UpperThreshold(p: real, q: real, s: real, t: real)
    requires Scaled(p, q, s) && 0.0 < t < 1.0
    ensures Upper(p, q, s) <= t <==> p <= t && Far(p, q, t)
  {
    RawEnds(p, q, s);
    UpperEnd(p, q, s, t);
    hide Upper; hide Far; hide Scaled;
    var upper, d := Upper(p, q, s), 1.0 + q;
    assert upper * d == p + q / 2.0 + s;
    OrderScales(t, upper, d);
  }

  /** Every threshold check is the score test, whatever the metric: a lower end at or above the
      threshold means the share is significantly above it, and for the false positive rate an upper
      end at or below the threshold means the share is significantly below it. */
  lemma ThresholdIsScoreTest(m: Metric, k: nat, n: nat, root: real)
    requires k <= n && 0 < n && IsRoot(root, Radicand(k, n))
    ensures var t := Threshold(m);
            MeetsThreshold(m, Interval95(k, n, root)) <==>
            Significant(k, n, t) &&
            if m == FalsePositiveRate then k as real <= t * n as real else k as real >= t * n as real
  {
    hide Radicand;
    hide Far;
    hide Significant;
    hide Interval95;
    hide Share;
    hide Weight;
    hide IsRoot;
    hide Lower;
    hide Upper;
    var t := Threshold(m);
    Ends(k, n, root);
    hide Scaled;
    ScaleDeviation(k, n, t);
    LowerThreshold(Share(k, n), Weight(n), Z * root, t);
    UpperThreshold(Share(k, n), Weight(n), Z * root, t);
  }

  lemma OrderScales(a: real, b: real, c: real)
    requires c > 0.0
    ensures a * c >= b * c <==> a >= b
  {
    if a < b { StrictMul(a, b, c); } else { MulMono(b, a, c); }
  }

  // ----- critical recall ------------------------------------------------------------------------

  function Positives(gold: seq<bool>): (n: nat)
    ensures n <= |gold|
  {
    if gold == [] then 0 else Positives(gold[1..]) + if gold[0] then 1 else 0
  }

  function Hits(gold: seq<bool>, predicted: seq<bool>): (n: nat)
    requires |gold| == |predicted|
    ensures n <= Positives(gold)
  {
    if gold == [] then 0 else Hits(gold[1..], predicted[1..]) + if gold[0] && predicted[0] then 1 else 0
  }

  lemma {:induction false} PerfectHits(gold: seq<bool>, predicted: seq<bool>)
    requires |gold| == |predicted|
    ensures Hits(gold, predicted) == Positives(gold) <==> forall i | 0 <= i < |gold| && gold[i] :: predicted[i]
  {
    if gold != [] {
      PerfectHits(gold[1..], predicted[1..]);
      assert forall i | 0 < i < |gold| :: gold[i] == gold[1..][i - 1] && predicted[i] == predicted[1..][i - 1];
      if forall i | 0 <= i < |gold| && gold[i] :: predicted[i] {
        forall i | 0 <= i < |gold[1..]| && gold[1..][i] ensures predicted[1..][i] {
          assert gold[i + 1];
        }
      }
    }
  }

  /** `critical_recall` needs sequences of one length, otherwise it raises. */
  datatype RecallResult = Measured(interval: Interval) | LengthMismatch

  function CriticalRecall(gold: seq<bool>, predicted: seq<bool>, root: real): RecallResult
    requires |gold| == |predicted| && Positives(gold) > 0 ==>
               IsRoot(root, Radicand(Hits(gold, predicted), Positives(gold)))
  {
    if |gold| != |predicted| then LengthMismatch
    else Measured(Interval95(Hits(gold, predicted), Positives(gold), root))
  }

  predicate RecallMeets(r: RecallResult) {
    r.Measured? && MeetsThreshold(Recall, r.interval)
  }

  /** The recall gate in whole numbers: k hits out of n critical positives. */
  predicate WholeTest(k: nat, n: nat) {
    10000 * ((5 * k - 4 * n) * (5 * k - 4 * n)) >= 153664 * n
  }

  lemma EmptySample(root: real)
    ensures Interval95(0, 0, root) == Interval(0.0, 0.0, 1.0, 0)
  {
  }

  /** For every gold and prediction the gate is decided by two integer comparisons. */
  lemma RecallGate(gold: seq<bool>, predicted: seq<bool>, root: real)
    requires |gold| == |predicted| && Positives(gold) > 0 ==>
               IsRoot(root, Radicand(Hits(gold, predicted), Positives(gold)))
    ensures RecallMeets(CriticalRecall(gold, predicted, root)) <==>
            && |gold| == |predicted| && Positives(gold) > 0
            && 5 * Hits(gold, predicted) >= 4 * Positives(gold)
            && WholeTest(Hits(gold, predicted), Positives(gold))
  {
    hide Radicand;
    hide WholeTest;
    hide Significant;
    hide IsRoot;
    hide Interval95;
    hide Positives;
    hide Hits;
    EmptySample(root);
    if |gold| == |predicted| && Positives(gold) > 0 {
      var k, n := Hits(gold, predicted), Positives(gold);
      ThresholdIsScoreTest(Recall, k, n, root);
      IntegerDeviation(k, n);
      assert 0.8 * n as real <= k as real <==> 4 * n <= 5 * k;
    }
  }

  lemma IntegerDeviation(k: nat, n: nat)
    ensures Significant(k, n, 0.8) <==> WholeTest(k, n)
  {
    var dev := k as real - 0.8 * n as real;
    var d := 5 * k - 4 * n;
    assert 5.0 * dev == d as real;
    SquareCast(d);
    assert (d * d) as real == 25.0 * (dev * dev);
    assert (10000 * (d * d)) as real == 250000.0 * (dev * dev);
    assert (153664 * n) as real == 250000.0 * (Z2 * (0.8 * (1.0 - 0.8)) * n as real);
  }

  lemma SquareCast(d: int)
    ensures (d * d) as real == d as real * d as real
  {
  }

  lemma IntMono(a: nat, b: nat, c: nat)
    requires a <= b
    ensures a * c <= b * c
  {
  }

  lemma WholeTestBound(k: nat, n: nat)
    requires k <= n && 0 < n && 5 * k >= 4 * n
    ensures WholeTest(k, n) ==> n >= 16
    ensures k == n && n >= 16 ==> WholeTest(k, n)
  {
    var d: nat := 5 * k - 4 * n;
    IntMono(d, n, d);
    IntMono(d, n, n);
    if n < 16 {
      IntMono(n, 15, n);
    } else {
      IntMono(16, n, n);
    }
  }

  /** Fewer than 16 positives never pass; a perfect prediction passes from 16 on. */
  lemma SixteenPositives(gold: seq<bool>, predicted: seq<bool>, root: real)
    requires |gold| == |predicted| && Positives(gold) > 0 ==>
               IsRoot(root, Radicand(Hits(gold, predicted), Positives(gold)))
    ensures RecallMeets(CriticalRecall(gold, predicted, root)) ==> Positives(gold) >= 16
    ensures |gold| == |predicted| && (forall i | 0 <= i < |gold| && gold[i] :: predicted[i]) ==>
              (RecallMeets(CriticalRecall(gold, predicted, root)) <==> Positives(gold) >= 16)
  {
    RecallGate(gold, predicted, root);
    hide RecallMeets;
    hide CriticalRecall;
    hide Radicand;
    hide WholeTest;
    if |gold| == |predicted| {
      PerfectHits(gold, predicted);
      var k, n := Hits(gold, predicted), Positives(gold);
      if 0 < n && 5 * k >= 4 * n {
        WholeTestBound(k, n);
      }
    }
  }
}
