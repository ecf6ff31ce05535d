/** The successor links among the files that may become the head: walks, cycles, and what a sole head misses. */
module SuccessorGraph {
  import opened Options
  import opened Documents

  /** The file named a names b, which is among the files, as its successor. */
  ghost predicate Hop(docs: seq<Doc>, a: string, b: string) {
    b in Ids(docs) && exists d :: d in docs && d.id == a && d.succ == Some(b)
  }

  /** n successor links lead from a to b. */
  ghost predicate Walks(docs: seq<Doc>, a: string, b: string, n: nat)
    decreases n
  {
    if n == 0 then a == b else exists c :: Hop(docs, a, c) && Walks(docs, c, b, n - 1)
  }

  ghost predicate Reaches(docs: seq<Doc>, a: string, b: string) {
    exists n :: Walks(docs, a, b, n)
  }

  ghost predicate HasCycle(docs: seq<Doc>) {
    exists a, n :: n > 0 && a in Ids(docs) && Walks(docs, a, a, n)
  }

  /** After n links there is no further one. */
  ghost predicate Ends(docs: seq<Doc>, a: string, n: nat)
    decreases n
  {
    if n == 0 then a in Ids(docs) && !exists b :: Hop(docs, a, b)
    else exists b :: Hop(docs, a, b) && Ends(docs, b, n - 1)
  }

  ghost predicate Stops(docs: seq<Doc>, a: string) {
    exists n :: Ends(docs, a, n)
  }

  /** Every successor ranks higher. */
  ghost predicate Ranked(docs: seq<Doc>, rank: map<string, nat>) {
    && (forall a | a in Ids(docs) :: a in rank)
    && forall a, b | Hop(docs, a, b) :: a in rank && b in rank && rank[a] < rank[b]
  }

  lemma HopInside(docs: seq<Doc>, a: string, b: string)
    requires Hop(docs, a, b)
    ensures a in Ids(docs) && b in Ids(docs)
  {
  }

  lemma HopIsFunctional(docs: seq<Doc>, a: string, b: string, c: string)
    requires DistinctIds(docs) && Hop(docs, a, b) && Hop(docs, a, c)
    ensures b == c
  {
    var d :| d in docs && d.id == a && d.succ == Some(b);
    var e :| e in docs && e.id == a && e.succ == Some(c);
    var i :| 0 <= i < |docs| && docs[i] == d;
    var j :| 0 <= j < |docs| && docs[j] == e;
    assert i == j;
  }

  lemma {:induction false} WalksOn(docs: seq<Doc>, a: string, b: string, c: string, n: nat)
    requires Walks(docs, a, b, n) && Hop(docs, b, c)
    ensures Walks(docs, a, c, n + 1)
    decreases n
  {
    hide Hop;
    if n == 0 {
      assert Walks(docs, c, c, 0);
    } else {
      var x :| Hop(docs, a, x) && Walks(docs, x, b, n - 1);
      WalksOn(docs, x, b, c, n - 1);
    }
  }

  // ----- ranks rule cycles out --------------------------------------------------------------------------------

  lemma {:induction false} RankRises(docs: seq<Doc>, rank: map<string, nat>, a: string, b: string, n: nat)
    requires Ranked(docs, rank) && a in Ids(docs) && Walks(docs, a, b, n)
    ensures a in rank && b in rank && b in Ids(docs) && rank[a] + n <= rank[b]
    decreases n
  {
    hide Hop; hide Ids;
    if n > 0 {
      var c :| Hop(docs, a, c) && Walks(docs, c, b, n - 1);
      HopInside(docs, a, c);
      RankRises(docs, rank, c, b, n - 1);
    }
  }

  lemma RankedHasNoCycle(docs: seq<Doc>, rank: map<string, nat>)
    requires Ranked(docs, rank)
    ensures !HasCycle(docs)
  {
    hide Ranked; hide Walks;
    forall a, n | n > 0 && a in Ids(docs) ensures !Walks(docs, a, a, n) {
      if Walks(docs, a, a, n) {
        RankRises(docs, rank, a, a, n);
      }
    }
  }

  // ----- without a cycle every walk ends ------------------------------------------------------------------------

  ghost predicate IsTrack(docs: seq<Doc>, track: seq<string>) {
    && (forall i | 0 <= i < |track| :: track[i] in Ids(docs))
    && forall i | 0 <= i < |track| - 1 :: Hop(docs, track[i], track[i + 1])
  }

  /** A walk ends within n links or goes on for n. */
  lemma {:induction false} EndsOrGoesOn(docs: seq<Doc>, a: string, n: nat) returns (m: nat, track: seq<string>)
    requires a in Ids(docs)
    ensures Ends(docs, a, m) || (IsTrack(docs, track) && |track| == n + 1 && track[0] == a)
    decreases n
  {
    hide Ids; hide Hop;
    m, track := 0, [a];
    if n > 0 && exists b :: Hop(docs, a, b) {
      var b :| Hop(docs, a, b);
      HopInside(docs, a, b);
      var k, rest := EndsOrGoesOn(docs, b, n - 1);
      if Ends(docs, b, k) {
        m := k + 1;
      } else {
        track := [a] + rest;
        assert forall i | 0 <= i < |rest| :: track[i + 1] == rest[i];
        forall i | 0 <= i < |track| - 1 ensures Hop(docs, track[i], track[i + 1]) {
          if i > 0 {
            assert Hop(docs, rest[i - 1], rest[i - 1 + 1]);
          }
        }
      }
    }
  }

  ghost predicate Distinct(track: seq<string>) {
    forall i, j | 0 <= i < j < |track| :: track[i] != track[j]
  }

  lemma {:induction false} DistinctFits(track: seq<string>, ids: set<string>)
    requires Distinct(track) && forall x | x in track :: x in ids
    ensures |track| <= |ids|
  {
    if track != [] {
      var init, last := track[..|track| - 1], track[|track| - 1];
      assert last in track;
      forall x | x in init ensures x in ids - {last} {
        assert x in track;
      }
      DistinctFits(init, ids - {last});
    }
  }

  lemma {:induction false} TrackWalks(docs: seq<Doc>, track: seq<string>, i: nat, j: nat)
    requires IsTrack(docs, track) && i <= j < |track|
    ensures Walks(docs, track[i], track[j], j - i)
    decreases j - i
  {
    hide Hop; hide Ids;
    if i < j {
      TrackWalks(docs, track, i + 1, j);
      assert Hop(docs, track[i], track[i + 1]);
    }
  }

  lemma NoCycleEnds(docs: seq<Doc>, a: string) returns (m: nat)
    requires !HasCycle(docs) && a in Ids(docs)
    ensures Ends(docs, a, m)
  {
    var ids := Ids(docs);
    hide Ids; hide Ends; hide Walks; hide Hop;
    var track;
    m, track := EndsOrGoesOn(docs, a, |ids|);
    if !Ends(docs, a, m) {
      if Distinct(track) {
        DistinctFits(track, ids);
      } else {
        var i, j :| 0 <= i < j < |track| && track[i] == track[j];
        TrackWalks(docs, track, i, j);
      }
    }
  }

  // ----- where every walk ends the files can be ranked -------------------------------------------------------

  lemma {:induction false} EndsOnce(docs: seq<Doc>, a: string, m: nat, n: nat)
    requires DistinctIds(docs) && Ends(docs, a, m) && Ends(docs, a, n)
    ensures m == n
    decreases m
  {
    hide Hop; hide DistinctIds;
    if m > 0 && n > 0 {
      var b :| Hop(docs, a, b) && Ends(docs, b, m - 1);
      var c :| Hop(docs, a, c) && Ends(docs, c, n - 1);
      HopIsFunctional(docs, a, b, c);
      EndsOnce(docs, b, m - 1, n - 1);
    }
  }

  ghost predicate AllEnd(docs: seq<Doc>) {
    forall a | a in Ids(docs) :: Stops(docs, a)
  }

  /** The number of links left. */
  ghost function Left(docs: seq<Doc>, a: string): (n: nat)
    requires Stops(docs, a)
    ensures Ends(docs, a, n)
  {
    var n :| Ends(docs, a, n);
    n
  }

  lemma {:induction false} LeftBound(docs: seq<Doc>, ids: set<string>) returns (bound: nat)
    requires forall a | a in ids :: Stops(docs, a)
    ensures forall a | a in ids :: Left(docs, a) <= bound
    decreases |ids|
  {
    hide Ends; hide Stops;
    bound := 0;
    if ids != {} {
      var x :| x in ids;
      var rest := LeftBound(docs, ids - {x});
      bound := if rest < Left(docs, x) then Left(docs, x) else rest;
      forall a | a in ids ensures Left(docs, a) <= bound {
        assert a == x || a in ids - {x};
      }
    }
  }

  lemma EndsAreRanked(docs: seq<Doc>) returns (rank: map<string, nat>)
    requires DistinctIds(docs) && AllEnd(docs)
    ensures Ranked(docs, rank)
  {
    hide Ends; hide Stops; hide Hop; hide DistinctIds;
    var bound := LeftBound(docs, Ids(docs));
    rank := map a | a in Ids(docs) :: bound - Left(docs, a);
    forall a, b | Hop(docs, a, b) ensures a in rank && b in rank && rank[a] < rank[b] {
      HopInside(docs, a, b);
      LeftFalls(docs, a, b);
    }
  }

  lemma LeftFalls(docs: seq<Doc>, a: string, b: string)
    requires DistinctIds(docs) && Hop(docs, a, b)
    requires Stops(docs, a) && Stops(docs, b)
    ensures Left(docs, a) == Left(docs, b) + 1
  {
    var n := Left(docs, b);
    hide Hop; hide DistinctIds; hide Left;
    assert Ends(docs, a, n + 1);
    EndsOnce(docs, a, Left(docs, a), n + 1);
  }

  /** Without a cycle, ranked, and ending everywhere are the same. */
  lemma CycleFreeExactly(docs: seq<Doc>)
    requires DistinctIds(docs)
    ensures !HasCycle(docs) <==> exists rank :: Ranked(docs, rank)
    ensures !HasCycle(docs) <==> AllEnd(docs)
  {
    hide HasCycle; hide Ranked; hide Ends; hide DistinctIds; hide Ids;
    if !HasCycle(docs) {
      forall a | a in Ids(docs) ensures Stops(docs, a) {
        var n := NoCycleEnds(docs, a);
      }
    }
    if AllEnd(docs) {
      var rank := EndsAreRanked(docs);
    }
    if rank :| Ranked(docs, rank) {
      RankedHasNoCycle(docs, rank);
    }
  }

  // ----- one sink ---------------------------------------------------------------------------------------------------

  /** No file but x is without a successor among the files. */
  ghost predicate SoleSink(docs: seq<Doc>, x: Doc) {
    x in docs && forall d | d in docs :: (exists b :: Hop(docs, d.id, b)) <==> d != x
  }

  lemma {:induction false} EndsAtSink(docs: seq<Doc>, x: Doc, a: string, n: nat)
    requires DistinctIds(docs) && SoleSink(docs, x) && a in Ids(docs)
    ensures Ends(docs, a, n) <==> Walks(docs, a, x.id, n)
    decreases n
  {
    hide Hop; hide DistinctIds;
    if n == 0 {
      var d :| d in docs && d.id == a;
      SameIdSameFile(docs, d, x);
    } else {
      hide SoleSink;
      forall b | Hop(docs, a, b) ensures Ends(docs, b, n - 1) <==> Walks(docs, b, x.id, n - 1) {
        HopInside(docs, a, b);
        EndsAtSink(docs, x, b, n - 1);
      }
    }
  }

  lemma SameIdSameFile(docs: seq<Doc>, c: Doc, d: Doc)
    requires DistinctIds(docs) && c in docs && d in docs
    ensures c.id == d.id <==> c == d
  {
    var i :| 0 <= i < |docs| && docs[i] == c;
    var j :| 0 <= j < |docs| && docs[j] == d;
    assert c.id == d.id ==> i == j;
  }

  /** With one sink there is no cycle exactly when every file reaches it. */
  lemma CycleFreeReachesSink(docs: seq<Doc>, x: Doc)
    requires DistinctIds(docs) && SoleSink(docs, x)
    ensures !HasCycle(docs) <==> forall d | d in docs :: Reaches(docs, d.id, x.id)
  {
    CycleFreeExactly(docs);
    hide HasCycle; hide Ends; hide Walks; hide SoleSink; hide DistinctIds;
    forall a | a in Ids(docs) ensures Stops(docs, a) <==> Reaches(docs, a, x.id) {
      forall n ensures Ends(docs, a, n) <==> Walks(docs, a, x.id, n) {
        EndsAtSink(docs, x, a, n);
      }
    }
    assert forall d | d in docs :: d.id in Ids(docs);
  }
}
