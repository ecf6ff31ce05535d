/** What the comparison of two stages says, in terms of the rooms and marks on the sheets alone. */
module PairVerdicts {
  import opened Options
  import opened Lists
  import opened RoomMerge
  import opened RoomCompare

  // ----- one pair of sheets ---------------------------------------------------------------------------------------

  /** A room on one sheet only, or marked on one sheet only. */
  function Unequal(pd: map<string, Spot>, rd: map<string, Spot>): set<string> {
    set r | r in pd.Keys + rd.Keys && !(r in pd && r in rd && pd[r].marked == rd[r].marked)
  }

  /** A room only one sheet has is suspicious, with the spot of that sheet alone; a room of both is a candidate when
      the project alone marks it and suspicious when the working document alone does. */
  predicate Shows(pd: map<string, Spot>, rd: map<string, Spot>, r: string, d: Diff) {
    || (r in rd && r !in pd && d.kind == Suspicion && d.room == r && d.pd == None && d.rd == Some(rd[r]))
    || (r in pd && r !in rd && d.kind == Suspicion && d.room == r && d.pd == Some(pd[r]) && d.rd == None)
    || (r in pd && r in rd && d.room == r && d.pd == Some(pd[r]) && d.rd == Some(rd[r])
        && ((d.kind == Candidate && pd[r].marked && !rd[r].marked)
            || (d.kind == Suspicion && !pd[r].marked && rd[r].marked)))
  }

  lemma DiffShows(pd: map<string, Spot>, rd: map<string, Spot>, r: string)
    requires r in pd || r in rd
    ensures forall d :: DiffAt(pd, rd, r) == Some(d) <==> Shows(pd, rd, r, d)
    ensures DiffAt(pd, rd, r).Some? <==> r in Unequal(pd, rd)
  {
  }

  lemma DifferingIsUnequal(pd: map<string, Spot>, rd: map<string, Spot>)
    ensures Differing(pd, rd) == Unequal(pd, rd)
  {
    hide DiffAt; hide Unequal;
    forall r ensures r in Differing(pd, rd) <==> r in Unequal(pd, rd) {
      if r in pd || r in rd {
        DiffShows(pd, rd, r);
      } else {
        OnlyRooms(pd, rd, r);
      }
    }
  }

  lemma OnlyRooms(pd: map<string, Spot>, rd: map<string, Spot>, r: string)
    requires r !in pd && r !in rd
    ensures r !in Unequal(pd, rd)
  {
  }

  /** A pair of sheets is given up when a room number repeats on one of them or more rooms are unequal than the rule
      allows; it matches in its first room when none is; otherwise each unequal room has one verdict. */
  ghost predicate PairMeans(pd: Sheet, rd: Sheet, maxDiff: int, diffs: seq<Diff>) {
    var unequal := Unequal(pd.rooms, rd.rooms);
    if DUPLICATE in pd.rooms || DUPLICATE in rd.rooms || |unequal| > maxDiff then
      diffs == [Diff(Abstain, "", None, None)]
    else if unequal == {} then
      pd.first in pd.rooms && pd.first in rd.rooms
      && diffs == [Diff(Match, pd.first, Some(pd.rooms[pd.first]), Some(rd.rooms[pd.first]))]
    else EachOnce(pd.rooms, rd.rooms, diffs)
  }

  /** Each unequal room has one verdict, the one it shows. */
  ghost predicate EachOnce(pd: map<string, Spot>, rd: map<string, Spot>, diffs: seq<Diff>) {
    AsShown(pd, rd, diffs) && OncePerRoom(diffs, Unequal(pd, rd))
  }

  ghost predicate AsShown(pd: map<string, Spot>, rd: map<string, Spot>, diffs: seq<Diff>) {
    forall d :: d in diffs <==> exists r :: r in Unequal(pd, rd) && Shows(pd, rd, r, d)
  }

  ghost predicate OncePerRoom(diffs: seq<Diff>, rooms: set<string>) {
    && (forall r | r in rooms :: exists i :: 0 <= i < |diffs| && diffs[i].room == r)
    && forall i, j | 0 <= i < j < |diffs| :: diffs[i].room != diffs[j].room
  }

  /** The verdicts are about these rooms, at least one about each. */
  ghost predicate AboutRooms(diffs: seq<Diff>, rooms: set<string>) {
    && (forall r | r in rooms :: exists d :: d in diffs && d.room == r)
    && (forall d | d in diffs :: d.room in rooms)
  }

  lemma PairDiffsMeaning(pd: Sheet, rd: Sheet, maxDiff: int, diffs: seq<Diff>)
    requires PairAnswer(pd, rd, maxDiff, diffs)
    ensures PairMeans(pd, rd, maxDiff, diffs)
  {
    DifferingIsUnequal(pd.rooms, rd.rooms);
    var unequal := Unequal(pd.rooms, rd.rooms);
    hide DiffAt; hide Shows; hide Differing; hide Unequal; hide EachOnce;
    if !(DUPLICATE in pd.rooms || DUPLICATE in rd.rooms || |unequal| > maxDiff) && unequal != {} {
      UnequalOnce(pd.rooms, rd.rooms, diffs);
    }
  }

  lemma UnequalOnce(pd: map<string, Spot>, rd: map<string, Spot>, diffs: seq<Diff>)
    requires forall d :: d in diffs <==> exists r :: (r in pd || r in rd) && DiffAt(pd, rd, r) == Some(d)
    requires |diffs| == |Unequal(pd, rd)|
    ensures EachOnce(pd, rd, diffs)
  {
    EachUnequal(pd, rd, diffs);
    hide AsShown; hide OncePerRoom; hide AboutRooms; hide Unequal;
    OneEach(diffs, Unequal(pd, rd));
  }

  lemma EachUnequal(pd: map<string, Spot>, rd: map<string, Spot>, diffs: seq<Diff>)
    requires forall d :: d in diffs <==> exists r :: (r in pd || r in rd) && DiffAt(pd, rd, r) == Some(d)
    ensures AsShown(pd, rd, diffs) && AboutRooms(diffs, Unequal(pd, rd))
  {
    hide DiffAt; hide Unequal; hide Shows;
    forall r | r in pd || r in rd
      ensures forall d :: DiffAt(pd, rd, r) == Some(d) <==> Shows(pd, rd, r, d)
      ensures DiffAt(pd, rd, r).Some? <==> r in Unequal(pd, rd)
      ensures forall d | Shows(pd, rd, r, d) :: d.room == r
    {
      DiffShows(pd, rd, r);
      ShowsRoom(pd, rd, r);
    }
    forall r | r !in pd && r !in rd ensures r !in Unequal(pd, rd) {
      OnlyRooms(pd, rd, r);
    }
    forall r | r in Unequal(pd, rd) ensures exists d :: d in diffs && d.room == r {
      var d := DiffAt(pd, rd, r).value;
      assert d in diffs;
    }
  }

  lemma ShowsRoom(pd: map<string, Spot>, rd: map<string, Spot>, r: string)
    ensures forall d | Shows(pd, rd, r, d) :: d.room == r
  {
  }

  /** As many verdicts as rooms, and one at least for each, is one for each. */
  lemma OneEach(diffs: seq<Diff>, rooms: set<string>)
    requires |diffs| == |rooms| && AboutRooms(diffs, rooms)
    ensures OncePerRoom(diffs, rooms)
  {
    forall r | r in rooms ensures exists i :: 0 <= i < |diffs| && diffs[i].room == r {
      var d :| d in diffs && d.room == r;
      var i :| 0 <= i < |diffs| && diffs[i] == d;
    }
    assert rooms == RoomsOf(diffs);
    if i, j :| 0 <= i < j < |diffs| && diffs[i].room == diffs[j].room {
      FewerRooms(diffs, i, j);
    }
  }

  function RoomsOf(diffs: seq<Diff>): set<string> {
    set d | d in diffs :: d.room
  }

  lemma {:induction false} RoomCount(diffs: seq<Diff>)
    ensures |RoomsOf(diffs)| <= |diffs|
  {
    if diffs != [] {
      var init, last := diffs[..|diffs| - 1], diffs[|diffs| - 1];
      assert diffs == init + [last];
      RoomCount(init);
      assert forall d :: d in diffs <==> d in init || d == last;
      assert RoomsOf(diffs) == RoomsOf(init) + {last.room};
    }
  }

  lemma FewerRooms(diffs: seq<Diff>, i: nat, j: nat)
    requires i < j < |diffs| && diffs[i].room == diffs[j].room
    ensures |RoomsOf(diffs)| < |diffs|
  {
    var a, b := diffs[..j], diffs[j + 1..];
    assert diffs == a + [diffs[j]] + b;
    assert forall d :: d in diffs <==> d in a + b || d == diffs[j];
    assert a[i] in a + b;
    assert RoomsOf(diffs) == RoomsOf(a + b);
    RoomCount(a + b);
  }

  // ----- what all pairs say ---------------------------------------------------------------------------------------

  ghost predicate GivesUp(pd: Sheet, rd: Sheet, maxDiff: int) {
    DUPLICATE in pd.rooms || DUPLICATE in rd.rooms || |Unequal(pd.rooms, rd.rooms)| > maxDiff
  }

  /** d is a first verdict: a repeated number, or what a pair of sheets shows. */
  ghost predicate FirstVerdict(dups: seq<string>, pairs: seq<(Sheet, Sheet)>, maxDiff: int, d: Diff) {
    || (d.kind == Abstain && d.pd == None && d.rd == None && d.room in dups)
    || exists p :: p in pairs && PairShows(p.0, p.1, maxDiff, d)
  }

  ghost predicate PairShows(pd: Sheet, rd: Sheet, maxDiff: int, d: Diff) {
    if GivesUp(pd, rd, maxDiff) then d == Diff(Abstain, "", None, None)
    else if Unequal(pd.rooms, rd.rooms) == {} then
      pd.first in pd.rooms && pd.first in rd.rooms
      && d == Diff(Match, pd.first, Some(pd.rooms[pd.first]), Some(rd.rooms[pd.first]))
    else exists r :: r in Unequal(pd.rooms, rd.rooms) && Shows(pd.rooms, rd.rooms, r, d)
  }

  lemma PairSaysShows(pd: Sheet, rd: Sheet, maxDiff: int, d: Diff)
    ensures PairSays(pd, rd, maxDiff, d) <==> PairShows(pd, rd, maxDiff, d)
    ensures TooMany(pd, rd, maxDiff) <==> GivesUp(pd, rd, maxDiff)
  {
    DifferingIsUnequal(pd.rooms, rd.rooms);
    hide DiffAt; hide Unequal; hide Shows; hide Differing;
    if r :| (r in pd.rooms || r in rd.rooms) && DiffAt(pd.rooms, rd.rooms, r) == Some(d) {
      DiffShows(pd.rooms, rd.rooms, r);
    }
    if r :| r in Unequal(pd.rooms, rd.rooms) && Shows(pd.rooms, rd.rooms, r, d) {
      if r in pd.rooms || r in rd.rooms {
        DiffShows(pd.rooms, rd.rooms, r);
      } else {
        OnlyRooms(pd.rooms, rd.rooms, r);
      }
    }
  }

  /** The first verdicts of a comparison, and the rooms of pairs given up, on the sheets alone. */
  lemma SaidMeaning(dups: seq<string>, pairs: seq<(Sheet, Sheet)>, maxDiff: int)
    ensures forall d :: Said(dups, pairs, maxDiff, d) <==> FirstVerdict(dups, pairs, maxDiff, d)
    ensures forall r :: GivenUp(pairs, maxDiff, r) <==>
              exists p :: p in pairs && GivesUp(p.0, p.1, maxDiff) && r in p.0.rooms && r in p.1.rooms
  {
    hide PairSays; hide PairShows; hide TooMany; hide GivesUp;
    forall p: (Sheet, Sheet), d: Diff
      ensures PairSays(p.0, p.1, maxDiff, d) <==> PairShows(p.0, p.1, maxDiff, d)
      ensures TooMany(p.0, p.1, maxDiff) <==> GivesUp(p.0, p.1, maxDiff)
    {
      PairSaysShows(p.0, p.1, maxDiff, d);
    }
    forall r
      ensures GivenUp(pairs, maxDiff, r) <==>
              exists p :: p in pairs && GivesUp(p.0, p.1, maxDiff) && r in p.0.rooms && r in p.1.rooms
    {
      if p :| p in pairs && TooMany(p.0, p.1, maxDiff) && r in p.0.rooms && r in p.1.rooms {
        PairSaysShows(p.0, p.1, maxDiff, AbstainOf(""));
      }
      if p :| p in pairs && GivesUp(p.0, p.1, maxDiff) && r in p.0.rooms && r in p.1.rooms {
        PairSaysShows(p.0, p.1, maxDiff, AbstainOf(""));
      }
    }
  }

  // ----- the whole answer -----------------------------------------------------------------------------------------

  lemma OutOfCollapse(diffs: seq<Diff>, d: Diff)
    requires d in Collapse(diffs) && d.room != ""
    ensures d.kind != Abstain ==> d in diffs
    ensures d.kind == Abstain ==> d == AbstainOf(d.room)
  {
    OneVerdictPerRoom(diffs, d.room);
    GroupMembers(Collapse(diffs), d.room);
    GroupMembers(diffs, d.room);
    hide Collapse;
    assert d in Group(Collapse(diffs), d.room);
    var group := Group(diffs, d.room);
    if group == [] {
      GroupOfNone(diffs, d.room);
    } else {
      VerdictOutcome(d.room, group);
      AbstainIsBare(d.room, group);
    }
  }

  lemma GroupOfNone(diffs: seq<Diff>, room: string)
    requires Group(diffs, room) == [] && room != ""
    ensures room !in Rooms(diffs)
  {
    GroupMembers(diffs, room);
  }

  lemma AbstainIsBare(room: string, group: seq<Diff>)
    ensures var v := Verdict(room, group); v.Some? && v.value.kind == Abstain ==> v.value == AbstainOf(room)
  {
    var v := Verdict(room, group);
    if v.Some? && v.value != AbstainOf(room) {
      var sided := Filter(Sided, group);
      assert v.value in group;
      assert v.value.kind in Kinds(group);
    }
  }

  /** Every verdict of the answer about a room was said by a pair of sheets or read from the marks, or abstains without
      spots; no room has two; and verdicts about whole sheets stand as the pairs gave them. */
  lemma AnswerMeaning(pdSheets: seq<Sheet>, rdSheets: seq<Sheet>, maxDiff: int, pairs: seq<(Sheet, Sheet)>,
                      flat: seq<Diff>, out: seq<Diff>, found: seq<Diff>, blocked: set<string>)
    requires found == AcrossDiffs(pdSheets, rdSheets, Rooms(flat) + blocked)
    requires forall d :: d in found <==>
               SettlesAs(PreferMarked(pdSheets), PreferMarked(rdSheets), Rooms(flat) + blocked, d)
    requires forall s | s in pdSheets :: Proper(s)
    requires out == Collapse(Collapse(flat) + found)
    ensures Group(out, "") == Group(flat, "")
    ensures forall d | d in out && d.room != "" ::
              if d.kind == Abstain then d == AbstainOf(d.room)
              else d in flat || SettlesAs(PreferMarked(pdSheets), PreferMarked(rdSheets), Rooms(flat) + blocked, d)
    ensures forall room | room != "" :: |Group(out, room)| <= 1
  {
    var all := Collapse(flat) + found;
    hide Collapse; hide Rooms; hide AcrossDiffs; hide SettlesAs; hide Verdict;
    OneVerdictPerRoom(all, "");
    OneVerdictPerRoom(flat, "");
    FoundAreNamed(pdSheets, rdSheets, Rooms(flat) + blocked, found);
    NoSheetVerdicts(Collapse(flat), found);
    forall d | d in out && d.room != ""
      ensures if d.kind == Abstain then d == AbstainOf(d.room)
              else d in flat || SettlesAs(PreferMarked(pdSheets), PreferMarked(rdSheets), Rooms(flat) + blocked, d)
    {
      OutOfCollapse(all, d);
      if d.kind != Abstain && d in Collapse(flat) {
        OutOfCollapse(flat, d);
      }
    }
    forall room | room != "" ensures |Group(out, room)| <= 1 {
      OneVerdictPerRoom(all, room);
    }
  }

  lemma FoundAreNamed(pdSheets: seq<Sheet>, rdSheets: seq<Sheet>, settled: set<string>, found: seq<Diff>)
    requires forall d :: d in found <==> SettlesAs(PreferMarked(pdSheets), PreferMarked(rdSheets), settled, d)
    requires forall s | s in pdSheets :: Proper(s)
    ensures forall d | d in found :: d.room != ""
  {
    hide PreferMarked;
    forall d | d in found ensures d.room != "" {
      PreferMarkedFacts(pdSheets, d.room);
    }
  }

  lemma NoSheetVerdicts(a: seq<Diff>, found: seq<Diff>)
    requires forall d | d in found :: d.room != ""
    ensures Group(a + found, "") == Group(a, "")
  {
    FilterConcat(InRoom(""), a, found);
    FilterNone(InRoom(""), found);
    assert Group(a, "") + [] == Group(a, "");
  }

  // ----- which sheets are paired ----------------------------------------------------------------------------------

  /** The quotient of two sets of room numbers is their common part over their union: none without a common number, one
      exactly for equal sets, the same from either side. */
  lemma JaccardMeaning(a: set<string>, b: set<string>)
    ensures Jaccard(a, b) == Jaccard(b, a) && 0.0 <= Jaccard(a, b) <= 1.0
    ensures Jaccard(a, b) * (|a| + |b| - |a * b|) as real == |a * b| as real
    ensures Jaccard(a, b) == 0.0 <==> a !! b
    ensures Jaccard(a, b) == 1.0 <==> a == b && a != {}
  {
    var both, all := a * b, a + b;
    if both == {} {
      forall x | x in a ensures x !in b {
        assert x in b ==> x in both;
      }
    }
    assert b * a == both && b + a == all;
    assert |all| == |a| + |b| - |both|;
    if all != {} {
      Within(both, all);
      assert Jaccard(a, b) == |both| as real / |all| as real;
      Quotient(|both|, |all|);
      assert both == all ==> a == b;
    }
  }

  lemma Within(a: set<string>, b: set<string>)
    requires a <= b
    ensures |a| <= |b| && (|a| == |b| ==> a == b) && (|a| == 0 <==> a == {})
  {
    assert b == a + (b - a);
  }

  lemma Quotient(m: nat, n: nat)
    requires m <= n && n > 0
    ensures var q := m as real / n as real;
            0.0 <= q <= 1.0 && q * n as real == m as real && (q == 0.0 <==> m == 0) && (q == 1.0 <==> m == n)
  {
    var q := m as real / n as real;
    assert q * n as real == m as real;
  }
}
