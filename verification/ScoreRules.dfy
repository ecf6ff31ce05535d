/** Acceptance scores between their ends, and the minima they are held against. */
module ScoreRules {
  import EditDistance
  import Wilson

  /** A score strictly between zero and one is the share of the reference that needs no edit; below that it is zero. */
  lemma AccuracyExactly(reference: string, hypothesis: string)
    requires reference != ""
    ensures var score, d := EditDistance.CharacterAccuracy(reference, hypothesis),
                            EditDistance.Distance(reference, hypothesis);
            if d <= |reference| then score * |reference| as real == (|reference| - d) as real else score == 0.0
  {
    EditDistance.DistanceZero(reference, hypothesis);
    EditDistance.RatioAgainstOne(EditDistance.Distance(reference, hypothesis), |reference|);
    var d, n := EditDistance.Distance(reference, hypothesis), |reference|;
    var q := d as real / n as real;
    assert q * n as real == d as real;
    assert (1.0 - q) * n as real == n as real - q * n as real;
  }

  /** Without a reference only an empty text scores, and fully. */
  lemma EmptyReference(hypothesis: string)
    ensures EditDistance.CharacterAccuracy("", hypothesis) == if hypothesis == "" then 1.0 else 0.0
  {
  }

  /** A less distant text never scores less. */
  lemma CloserScoresMore(reference: string, a: string, b: string)
    requires EditDistance.Distance(reference, a) <= EditDistance.Distance(reference, b)
    ensures EditDistance.CharacterAccuracy(reference, a) >= EditDistance.CharacterAccuracy(reference, b)
  {
    hide *;
    if reference == "" {
      EditDistance.DistanceBounds("", a);
      EditDistance.DistanceBounds("", b);
      EmptyReference(a);
      EmptyReference(b);
    } else {
      AccuracyExactly(reference, a);
      AccuracyExactly(reference, b);
      EditDistance.CharacterAccuracyMeaning(reference, a);
      Compare(EditDistance.CharacterAccuracy(reference, a), EditDistance.CharacterAccuracy(reference, b), |reference|,
              EditDistance.Distance(reference, a), EditDistance.Distance(reference, b));
    }
  }

  lemma Positive(n: nat)
    requires n > 0
    ensures n as real > 0.0
  {
  }

  lemma Ordered(a: int, b: int)
    requires a >= b
    ensures a as real >= b as real
  {
  }

  lemma Compare(x: real, y: real, n: nat, d: nat, e: nat)
    requires n > 0 && d <= e && x >= 0.0
    requires if d <= n then x * n as real == (n - d) as real else x == 0.0
    requires if e <= n then y * n as real == (n - e) as real else y == 0.0
    ensures x >= y
  {
    if d <= n && e <= n {
      Ordered(n - d, n - e);
      Positive(n);
      Wilson.CancelTo(y, x, n as real, (n - e) as real, (n - d) as real);
    } else if d <= n {
      assert y == 0.0;
    }
  }

  /** The minima of the acceptance specification; for false alarms it is a maximum. */
  lemma Minima()
    ensures Wilson.Threshold(Wilson.CharacterAccuracy) == 0.95 && Wilson.Threshold(Wilson.KeyFieldExactMatch) == 0.9
    ensures Wilson.Threshold(Wilson.DocumentLinkage) == 0.95 && Wilson.Threshold(Wilson.EvidenceLocalization) == 0.95
    ensures Wilson.Threshold(Wilson.Precision) == 0.9 && Wilson.Threshold(Wilson.Recall) == 0.8
    ensures Wilson.Threshold(Wilson.F1) == 0.85 && Wilson.Threshold(Wilson.FalsePositiveRate) == 0.1
  {
  }
}
