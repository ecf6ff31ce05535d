/** Comparing the rooms of two stages (room_compare.py): pairs of sheets, the difference limit of the
    rule, rooms that no pair settled, and the final merge. Tokens, labels and polygons are given as
    spots already read. */
module RoomCompare {
  import opened Options
  import opened StringOrder
  import opened RoomMerge

  const DUPLICATE := "__duplicate__"

  /** The rooms bound on one sheet and the first of them in dict order; a sheet without rooms is not kept. */
  datatype Sheet = Sheet(first: string, rooms: map<string, Spot>)

  predicate Proper(s: Sheet) {
    s.first in s.rooms && "" !in s.rooms && forall r | r in s.rooms :: s.rooms[r].room == r
  }

  /** What two marks say about a room that is on both sides. */
  function MarkDiff(room: string, pd: Spot, rd: Spot): Option<Diff> {
    if pd.marked && !rd.marked then Some(Diff(Candidate, room, Some(pd), Some(rd)))
    else if rd.marked && !pd.marked then Some(Diff(Suspicion, room, Some(pd), Some(rd)))
    else None
  }

  /** What a pair of sheets says about a room on either of them. */
  function DiffAt(pd: map<string, Spot>, rd: map<string, Spot>, room: string): Option<Diff>
    requires room in pd || room in rd
  {
    if room in pd && room in rd then MarkDiff(room, pd[room], rd[room])
    else if room in rd then Some(Diff(Suspicion, room, None, Some(rd[room])))
    else Some(Diff(Suspicion, room, Some(pd[room]), None))
  }

  function Differing(pd: map<string, Spot>, rd: map<string, Spot>): set<string> {
    set room | room in pd.Keys + rd.Keys && DiffAt(pd, rd, room).Some?
  }

  /** The verdicts of the listed rooms. */
  function DiffsOf(pd: map<string, Spot>, rd: map<string, Spot>, order: seq<string>): seq<Diff>
    requires forall r | r in order :: r in pd || r in rd
  {
    if order == [] then []
    else
      var last := order[|order| - 1];
      DiffsOf(pd, rd, order[..|order| - 1]) + Listed(DiffAt(pd, rd, last))
  }

  ghost predicate Distinct(order: seq<string>) {
    forall i, j | 0 <= i < j < |order| :: order[i] != order[j]
  }

  function Spoken(pd: map<string, Spot>, rd: map<string, Spot>, order: seq<string>): set<string>
    requires forall r | r in order :: r in pd || r in rd
  {
    set r | r in order && DiffAt(pd, rd, r).Some?
  }

  lemma SpokenStep(pd: map<string, Spot>, rd: map<string, Spot>, init: seq<string>, last: string)
    requires last !in init && forall r | r in init + [last] :: r in pd || r in rd
    ensures (forall r | r in init :: r in pd || r in rd) && (last in pd || last in rd)
    ensures |Spoken(pd, rd, init + [last])| == |Spoken(pd, rd, init)| + |Listed(DiffAt(pd, rd, last))|
  {
    hide DiffAt;
    assert last in init + [last] && forall r | r in init :: r in init + [last];
    var before, now := Spoken(pd, rd, init), Spoken(pd, rd, init + [last]);
    assert last !in before;
    assert now == if DiffAt(pd, rd, last).Some? then before + {last} else before;
  }

  lemma {:induction false} DiffsOfCount(pd: map<string, Spot>, rd: map<string, Spot>, order: seq<string>)
    requires Distinct(order) && forall r | r in order :: r in pd || r in rd
    ensures |DiffsOf(pd, rd, order)| == |Spoken(pd, rd, order)|
  {
    hide DiffAt;
    if order == [] {
      assert Spoken(pd, rd, order) == {};
    } else {
      var init, last := order[..|order| - 1], order[|order| - 1];
      assert order == init + [last];
      DiffsOfCount(pd, rd, init);
      hide Spoken;
      SpokenStep(pd, rd, init, last);
    }
  }

  ghost predicate SaidOf(pd: map<string, Spot>, rd: map<string, Spot>, order: seq<string>, d: Diff)
    requires forall r | r in order :: r in pd || r in rd
  {
    exists r :: r in order && DiffAt(pd, rd, r) == Some(d)
  }

  lemma {:induction false} DiffsOfMembers(pd: map<string, Spot>, rd: map<string, Spot>, order: seq<string>, d: Diff)
    requires forall r | r in order :: r in pd || r in rd
    ensures d in DiffsOf(pd, rd, order) <==> SaidOf(pd, rd, order, d)
  {
    hide DiffAt;
    if order != [] {
      var n := |order| - 1;
      var init, last := order[..n], order[n];
      assert order == init + [last];
      DiffsOfMembers(pd, rd, init, d);
      if SaidOf(pd, rd, init, d) {
        var r :| r in init && DiffAt(pd, rd, r) == Some(d);
        assert r in order;
      }
      if SaidOf(pd, rd, order, d) {
        var r :| r in order && DiffAt(pd, rd, r) == Some(d);
        assert r in init || r == last;
      }
      assert last in order;
    }
  }

  /** One of the three loops of `_pair_diffs`. */
  method ListDiffs(pd: map<string, Spot>, rd: map<string, Spot>, rooms: set<string>) returns (diffs: seq<Diff>)
    requires rooms <= pd.Keys + rd.Keys
    ensures (forall r | r in Sorted(rooms) :: r in pd || r in rd) && diffs == DiffsOf(pd, rd, Sorted(rooms))
  {
    var order := SortedKeys(rooms);
    SortedLists(rooms);
    hide Sorted; hide DiffAt; hide Leq;
    assert forall r | r in order :: r in pd || r in rd;
    diffs := [];
    for i := 0 to |order|
      invariant forall r | r in order[..i] :: r in order
      invariant diffs == DiffsOf(pd, rd, order[..i])
    {
      assert order[..i + 1][..i] == order[..i] && order[i] in order;
      var d := DiffAt(pd, rd, order[i]);
      if d.Some? {
        diffs := diffs + [d.value];
      }
    }
    assert order[..|order|] == order;
  }

  /** The rooms of a pair in the order they are visited. */
  ghost function Visit(pd: map<string, Spot>, rd: map<string, Spot>): seq<string> {
    Sorted(pd.Keys * rd.Keys) + Sorted(rd.Keys - pd.Keys) + Sorted(pd.Keys - rd.Keys)
  }

  lemma VisitFacts(pd: map<string, Spot>, rd: map<string, Spot>)
    ensures Distinct(Visit(pd, rd)) && forall r :: r in Visit(pd, rd) <==> r in pd || r in rd
  {
    SortedLists(pd.Keys * rd.Keys);
    SortedLists(rd.Keys - pd.Keys);
    SortedLists(pd.Keys - rd.Keys);
    hide Sorted; hide Leq;
    var a, b, c := Sorted(pd.Keys * rd.Keys), Sorted(rd.Keys - pd.Keys), Sorted(pd.Keys - rd.Keys);
    forall r ensures r in a + b + c <==> r in pd || r in rd {
      assert r in a + b + c <==> r in a || r in b || r in c;
    }
    DistinctConcat(a, b);
    DistinctConcat(a + b, c);
  }

  lemma DistinctConcat(a: seq<string>, b: seq<string>)
    requires Distinct(a) && Distinct(b) && forall x | x in a :: x !in b
    ensures Distinct(a + b)
  {
    forall i, j | 0 <= i < j < |a + b| ensures (a + b)[i] != (a + b)[j] {
      if i < |a| <= j {
        assert a[i] in a && b[j - |a|] in b;
      }
    }
  }

  lemma {:induction false} DiffsOfConcat(pd: map<string, Spot>, rd: map<string, Spot>, a: seq<string>, b: seq<string>)
    requires forall r | r in a + b :: r in pd || r in rd
    ensures (forall r | r in a :: r in pd || r in rd) && (forall r | r in b :: r in pd || r in rd)
    ensures DiffsOf(pd, rd, a + b) == DiffsOf(pd, rd, a) + DiffsOf(pd, rd, b)
  {
    hide *;
    BothInside(pd, rd, a, b);
    if b == [] {
      assert a + b == a;
      NoDiffs(pd, rd, a);
    } else {
      var init, last := b[..|b| - 1], b[|b| - 1];
      assert b == init + [last] && a + b == (a + init) + [last];
      BothInside(pd, rd, a + init, [last]);
      assert last in [last];
      DiffsOfConcat(pd, rd, a, init);
      DiffsOfSnoc(pd, rd, a + init, last);
      DiffsOfSnoc(pd, rd, init, last);
    }
  }

  lemma NoDiffs(pd: map<string, Spot>, rd: map<string, Spot>, a: seq<string>)
    requires forall r | r in a :: r in pd || r in rd
    ensures DiffsOf(pd, rd, a) + DiffsOf(pd, rd, []) == DiffsOf(pd, rd, a)
  {
  }

  lemma BothInside(pd: map<string, Spot>, rd: map<string, Spot>, a: seq<string>, b: seq<string>)
    requires forall r | r in a + b :: r in pd || r in rd
    ensures (forall r | r in a :: r in pd || r in rd) && (forall r | r in b :: r in pd || r in rd)
  {
    assert forall r | r in a :: r in a + b;
    assert forall r | r in b :: r in a + b;
  }

  lemma DiffsOfSnoc(pd: map<string, Spot>, rd: map<string, Spot>, order: seq<string>, last: string)
    requires (forall r | r in order :: r in pd || r in rd) && (last in pd || last in rd)
    ensures forall r | r in order + [last] :: r in pd || r in rd
    ensures DiffsOf(pd, rd, order + [last]) == DiffsOf(pd, rd, order) + Listed(DiffAt(pd, rd, last))
  {
    hide DiffAt;
    assert (order + [last])[..|order|] == order;
    assert forall r | r in order + [last] :: r in order || r == last;
  }

  /** What `_pair_diffs` answers for a pair of sheets. */
  ghost predicate PairAnswer(pd: Sheet, rd: Sheet, maxDiff: int, diffs: seq<Diff>) {
    if DUPLICATE in pd.rooms || DUPLICATE in rd.rooms || |Differing(pd.rooms, rd.rooms)| > maxDiff then
      diffs == [AbstainOf("")]
    else if Differing(pd.rooms, rd.rooms) == {} then
      pd.first in pd.rooms && pd.first in rd.rooms
      && diffs == [Diff(Match, pd.first, Some(pd.rooms[pd.first]), Some(rd.rooms[pd.first]))]
    else
      && |diffs| == |Differing(pd.rooms, rd.rooms)|
      && forall d :: d in diffs <==>
                     exists r :: (r in pd.rooms || r in rd.rooms) && DiffAt(pd.rooms, rd.rooms, r) == Some(d)
  }

  /** The verdicts of a pair of sheets in the order they are given: rooms of both, of the second alone, of the first. */
  ghost function PairVerdict(pd: Sheet, rd: Sheet, maxDiff: int): seq<Diff>
    requires Proper(pd)
  {
    VisitFacts(pd.rooms, rd.rooms);
    var diffs := DiffsOf(pd.rooms, rd.rooms, Visit(pd.rooms, rd.rooms));
    if DUPLICATE in pd.rooms || DUPLICATE in rd.rooms || |diffs| > maxDiff then [AbstainOf("")]
    else if diffs != [] then diffs
    else [Diff(Match, pd.first, Some(pd.rooms[pd.first]),
               if pd.first in rd.rooms then Some(rd.rooms[pd.first]) else None)]
  }

  /** `_pair_diffs`: one verdict per differing room, one sheet-wide abstain when there are more than
      the rule allows, one two-sided match when there are none. */
  method PairDiffs(pd: Sheet, rd: Sheet, maxDiff: int) returns (diffs: seq<Diff>)
    requires Proper(pd) && Proper(rd)
    ensures PairAnswer(pd, rd, maxDiff, diffs) && diffs == PairVerdict(pd, rd, maxDiff)
  {
    hide Proper; hide Sorted; hide Leq; hide DiffAt; hide DiffsOf; hide Visit; hide Differing; hide Distinct;
    VisitFacts(pd.rooms, rd.rooms);
    if DUPLICATE in pd.rooms || DUPLICATE in rd.rooms {
      return [AbstainOf("")];
    }
    var both := ListDiffs(pd.rooms, rd.rooms, pd.rooms.Keys * rd.rooms.Keys);
    var onlyRd := ListDiffs(pd.rooms, rd.rooms, rd.rooms.Keys - pd.rooms.Keys);
    var onlyPd := ListDiffs(pd.rooms, rd.rooms, pd.rooms.Keys - rd.rooms.Keys);
    diffs := both + onlyRd + onlyPd;
    VisitedDiffs(pd.rooms, rd.rooms, both, onlyRd, onlyPd);
    if |diffs| > maxDiff {
      return [AbstainOf("")];
    }
    if diffs == [] {
      ProperFirst(pd);
      FirstIsShared(pd, rd);
      diffs := [Diff(Match, pd.first, Some(pd.rooms[pd.first]), Some(rd.rooms[pd.first]))];
    }
  }

  lemma FirstIsShared(pd: Sheet, rd: Sheet)
    requires pd.first in pd.rooms && |Differing(pd.rooms, rd.rooms)| == 0
    ensures pd.first in rd.rooms && Differing(pd.rooms, rd.rooms) == {}
  {
    assert pd.first !in rd.rooms ==> pd.first in Differing(pd.rooms, rd.rooms);
  }

  lemma ProperFirst(s: Sheet)
    requires Proper(s)
    ensures s.first in s.rooms
  {
  }

  lemma VisitedDiffs(pd: map<string, Spot>, rd: map<string, Spot>, both: seq<Diff>, onlyRd: seq<Diff>,
                     onlyPd: seq<Diff>)
    requires var a, b, c := Sorted(pd.Keys * rd.Keys), Sorted(rd.Keys - pd.Keys), Sorted(pd.Keys - rd.Keys);
             && (forall r | r in a :: r in pd || r in rd) && (forall r | r in b :: r in pd || r in rd)
             && (forall r | r in c :: r in pd || r in rd)
             && both == DiffsOf(pd, rd, a) && onlyRd == DiffsOf(pd, rd, b) && onlyPd == DiffsOf(pd, rd, c)
    ensures (forall r | r in Visit(pd, rd) :: r in pd || r in rd)
            && both + onlyRd + onlyPd == DiffsOf(pd, rd, Visit(pd, rd))
    ensures |both + onlyRd + onlyPd| == |Differing(pd, rd)|
    ensures forall d :: d in both + onlyRd + onlyPd <==>
              exists r :: (r in pd || r in rd) && DiffAt(pd, rd, r) == Some(d)
  {
    var a, b, c := Sorted(pd.Keys * rd.Keys), Sorted(rd.Keys - pd.Keys), Sorted(pd.Keys - rd.Keys);
    VisitFacts(pd, rd);
    hide Sorted; hide DiffsOf; hide DiffAt;
    assert forall r | r in a + b :: r in Visit(pd, rd);
    DiffsOfConcat(pd, rd, a, b);
    DiffsOfConcat(pd, rd, a + b, c);
    DiffsOfCount(pd, rd, Visit(pd, rd));
    forall d ensures d in both + onlyRd + onlyPd <==> exists r :: (r in pd || r in rd) && DiffAt(pd, rd, r) == Some(d) {
      DiffsOfMembers(pd, rd, Visit(pd, rd), d);
    }
    hide Visit;
    assert Spoken(pd, rd, Visit(pd, rd)) == Differing(pd, rd);
  }

  /** Whatever a pair of sheets answers has the shape that may be merged in stages. */
  lemma PairAnswerShaped(pd: Sheet, rd: Sheet, maxDiff: int, diffs: seq<Diff>)
    requires PairAnswer(pd, rd, maxDiff, diffs)
    ensures AllShaped(diffs)
  {
    forall d | d in diffs ensures Shaped(d) {
      if |Differing(pd.rooms, rd.rooms)| <= maxDiff && Differing(pd.rooms, rd.rooms) != {}
         && DUPLICATE !in pd.rooms && DUPLICATE !in rd.rooms {
        var r :| (r in pd.rooms || r in rd.rooms) && DiffAt(pd.rooms, rd.rooms, r) == Some(d);
      }
    }
  }

  // ----- all pairs of sheets --------------------------------------------------------------------------

  /** `_jaccard` */
  function Jaccard(left: set<string>, right: set<string>): real {
    if left + right == {} then 0.0 else |left * right| as real / |left + right| as real
  }

  predicate Paired(pd: Sheet, rd: Sheet, jaccardMin: real) {
    Jaccard(pd.rooms.Keys - {DUPLICATE}, rd.rooms.Keys - {DUPLICATE}) >= jaccardMin
  }

  function Row(pd: Sheet, rdSheets: seq<Sheet>, jaccardMin: real): seq<(Sheet, Sheet)> {
    if rdSheets == [] then []
    else
      var last := rdSheets[|rdSheets| - 1];
      Row(pd, rdSheets[..|rdSheets| - 1], jaccardMin) + if Paired(pd, last, jaccardMin) then [(pd, last)] else []
  }

  /** The pairs, sheet by sheet of the first stage. */
  function Pairs(pdSheets: seq<Sheet>, rdSheets: seq<Sheet>, jaccardMin: real): seq<(Sheet, Sheet)> {
    if pdSheets == [] then []
    else
      Pairs(pdSheets[..|pdSheets| - 1], rdSheets, jaccardMin) + Row(pdSheets[|pdSheets| - 1], rdSheets, jaccardMin)
  }

  /** `_pair`: every pair of sheets at or above the threshold, and no other, each as often as its sheets. */
  method PairSheets(pdSheets: seq<Sheet>, rdSheets: seq<Sheet>, jaccardMin: real) returns (pairs: seq<(Sheet, Sheet)>)
    ensures pairs == Pairs(pdSheets, rdSheets, jaccardMin)
    ensures forall pd, rd :: (pd, rd) in pairs <==> pd in pdSheets && rd in rdSheets && Paired(pd, rd, jaccardMin)
  {
    hide Paired;
    pairs := [];
    for i := 0 to |pdSheets|
      invariant pairs == Pairs(pdSheets[..i], rdSheets, jaccardMin)
      invariant forall pd, rd :: (pd, rd) in pairs <==>
                  pd in pdSheets[..i] && rd in rdSheets && Paired(pd, rd, jaccardMin)
    {
      var row := [];
      assert pdSheets[..i + 1][..i] == pdSheets[..i];
      for j := 0 to |rdSheets|
        invariant row == Row(pdSheets[i], rdSheets[..j], jaccardMin)
        invariant forall pd, rd :: (pd, rd) in row <==>
                    pd == pdSheets[i] && rd in rdSheets[..j] && Paired(pd, rd, jaccardMin)
      {
        assert rdSheets[..j + 1][..j] == rdSheets[..j];
        if Paired(pdSheets[i], rdSheets[j], jaccardMin) {
          row := row + [(pdSheets[i], rdSheets[j])];
        }
      }
      assert rdSheets[..|rdSheets|] == rdSheets;
      pairs := pairs + row;
    }
    assert pdSheets[..|pdSheets|] == pdSheets;
  }

  // ----- rooms no pair settled --------------------------------------------------------------------------

  /** `_prefer_marked`: one spot per room, a marked one if any sheet has it. */
  function PreferMarked(sheets: seq<Sheet>): map<string, Spot> {
    if sheets == [] then map[]
    else
      var chosen, rooms := PreferMarked(sheets[..|sheets| - 1]), sheets[|sheets| - 1].rooms;
      map r | r in chosen.Keys + rooms.Keys ::
        if r in rooms && (r !in chosen || (!chosen[r].marked && rooms[r].marked)) then rooms[r] else chosen[r]
  }

  ghost predicate OnSome(sheets: seq<Sheet>, room: string) {
    exists s :: s in sheets && room in s.rooms
  }

  ghost predicate MarkedOnSome(sheets: seq<Sheet>, room: string) {
    exists s :: s in sheets && room in s.rooms && s.rooms[room].marked
  }

  /** A room is kept if it is on some sheet, and its spot is marked if it is marked on some sheet. */
  lemma {:induction false} PreferMarkedFacts(sheets: seq<Sheet>, room: string)
    ensures room in PreferMarked(sheets) <==> OnSome(sheets, room)
    ensures room in PreferMarked(sheets) ==> (PreferMarked(sheets)[room].marked <==> MarkedOnSome(sheets, room))
    ensures room in PreferMarked(sheets) && (forall s | s in sheets :: Proper(s)) ==>
              PreferMarked(sheets)[room].room == room
  {
    if sheets != [] {
      var init, last := sheets[..|sheets| - 1], sheets[|sheets| - 1];
      PreferMarkedFacts(init, room);
      assert sheets == init + [last];
      assert forall s :: s in sheets <==> s in init || s == last;
    }
  }

  ghost predicate SettlesAs(pd: map<string, Spot>, rd: map<string, Spot>, settled: set<string>, d: Diff) {
    && d.room in pd && d.room in rd && d.room !in settled
    && MarkDiff(d.room, pd[d.room], rd[d.room]) == Some(d)
  }

  /** The verdicts by marks of the listed rooms, those settled left out. */
  function ByMarks(pd: map<string, Spot>, rd: map<string, Spot>, settled: set<string>, order: seq<string>): seq<Diff>
    requires forall r | r in order :: r in pd && r in rd
  {
    if order == [] then []
    else
      var last := order[|order| - 1];
      ByMarks(pd, rd, settled, order[..|order| - 1])
      + if last in settled then [] else Listed(MarkDiff(last, pd[last], rd[last]))
  }

  ghost function AcrossDiffs(pdSheets: seq<Sheet>, rdSheets: seq<Sheet>, settled: set<string>): seq<Diff> {
    var pd, rd := PreferMarked(pdSheets), PreferMarked(rdSheets);
    SortedLists(pd.Keys * rd.Keys);
    ByMarks(pd, rd, settled, Sorted(pd.Keys * rd.Keys))
  }

  /** `_across_sheets`: a verdict for every unsettled room of both stages whose marks differ, by room number. */
  method AcrossSheets(pdSheets: seq<Sheet>, rdSheets: seq<Sheet>, settled: set<string>) returns (found: seq<Diff>)
    ensures forall d :: d in found <==> SettlesAs(PreferMarked(pdSheets), PreferMarked(rdSheets), settled, d)
    ensures found == AcrossDiffs(pdSheets, rdSheets, settled)
  {
    var pd, rd := PreferMarked(pdSheets), PreferMarked(rdSheets);
    var order := SortedKeys(pd.Keys * rd.Keys);
    SortedLists(pd.Keys * rd.Keys);
    hide Sorted; hide Leq; hide PreferMarked;
    found := [];
    for i := 0 to |order|
      invariant forall d :: d in found <==> d.room in order[..i] && SettlesAs(pd, rd, settled, d)
      invariant forall r | r in order[..i] :: r in order
      invariant found == ByMarks(pd, rd, settled, order[..i])
    {
      var room := order[i];
      assert order[..i + 1][..i] == order[..i];
      assert room in order && order[..i + 1] == order[..i] + [room];
      if room !in settled {
        var d := MarkDiff(room, pd[room], rd[room]);
        if d.Some? {
          found := found + [d.value];
        }
      }
    }
    assert order[..|order|] == order;
  }

  // ----- the comparison of two stages -----------------------------------------------------------------

  ghost predicate TooMany(pd: Sheet, rd: Sheet, maxDiff: int) {
    DUPLICATE in pd.rooms || DUPLICATE in rd.rooms || |Differing(pd.rooms, rd.rooms)| > maxDiff
  }

  /** d is among the verdicts of a pair of sheets. */
  ghost predicate PairSays(pd: Sheet, rd: Sheet, maxDiff: int, d: Diff) {
    if TooMany(pd, rd, maxDiff) then d == AbstainOf("")
    else if Differing(pd.rooms, rd.rooms) == {} then
      pd.first in pd.rooms && pd.first in rd.rooms
      && d == Diff(Match, pd.first, Some(pd.rooms[pd.first]), Some(rd.rooms[pd.first]))
    else exists r :: (r in pd.rooms || r in rd.rooms) && DiffAt(pd.rooms, rd.rooms, r) == Some(d)
  }

  lemma AnswerSays(pd: Sheet, rd: Sheet, maxDiff: int, diffs: seq<Diff>)
    requires PairAnswer(pd, rd, maxDiff, diffs) && Proper(pd) && Proper(rd)
    ensures forall d :: d in diffs <==> PairSays(pd, rd, maxDiff, d)
    ensures AbstainOf("") in diffs <==> TooMany(pd, rd, maxDiff)
  {
    hide Differing;
  }

  /** All first-stage verdicts: repeated room numbers and what the pairs say. */
  ghost predicate Said(dups: seq<string>, pairs: seq<(Sheet, Sheet)>, maxDiff: int, d: Diff) {
    (exists r :: r in dups && d == AbstainOf(r)) || exists p :: p in pairs && PairSays(p.0, p.1, maxDiff, d)
  }

  /** The room stands on both sheets of a pair that was given up as a whole. */
  ghost predicate GivenUp(pairs: seq<(Sheet, Sheet)>, maxDiff: int, room: string) {
    exists p :: p in pairs && TooMany(p.0, p.1, maxDiff) && room in p.0.rooms && room in p.1.rooms
  }

  /** The verdicts of the first stage in their order: repeated numbers, then pair after pair. */
  ghost function FirstVerdicts(dups: seq<string>, pairs: seq<(Sheet, Sheet)>, maxDiff: int): seq<Diff>
    requires forall p | p in pairs :: Proper(p.0) && Proper(p.1)
  {
    if pairs == [] then seq(|dups|, i requires 0 <= i < |dups| => AbstainOf(dups[i]))
    else
      var last := pairs[|pairs| - 1];
      FirstVerdicts(dups, pairs[..|pairs| - 1], maxDiff) + PairVerdict(last.0, last.1, maxDiff)
  }

  /** The pair loop of `compare_room_tokens`. */
  method CollectPairs(dups: seq<string>, pairs: seq<(Sheet, Sheet)>, maxDiff: int)
    returns (out: seq<Diff>, blocked: set<string>)
    requires forall p | p in pairs :: Proper(p.0) && Proper(p.1)
    ensures forall d :: d in out <==> Said(dups, pairs, maxDiff, d)
    ensures forall r :: r in blocked <==> GivenUp(pairs, maxDiff, r)
    ensures out == FirstVerdicts(dups, pairs, maxDiff)
  {
    hide PairSays; hide TooMany; hide Proper; hide PairVerdict;
    out, blocked := seq(|dups|, i requires 0 <= i < |dups| => AbstainOf(dups[i])), {};
    forall d ensures d in out <==> exists r :: r in dups && d == AbstainOf(r) {
      if r :| r in dups && d == AbstainOf(r) {
        var k :| 0 <= k < |dups| && dups[k] == r;
        assert out[k] == d;
      }
    }
    for i := 0 to |pairs|
      invariant forall p | p in pairs[..i] :: p in pairs
      invariant out == FirstVerdicts(dups, pairs[..i], maxDiff)
      invariant forall d :: d in out <==> Said(dups, pairs[..i], maxDiff, d)
      invariant forall r :: r in blocked <==> GivenUp(pairs[..i], maxDiff, r)
    {
      var pair := pairs[i];
      assert pair in pairs && pairs[..i + 1] == pairs[..i] + [pair] && pairs[..i + 1][..i] == pairs[..i];
      var diffs := PairDiffs(pair.0, pair.1, maxDiff);
      AnswerSays(pair.0, pair.1, maxDiff, diffs);
      hide PairAnswer;
      if AbstainOf("") in diffs {
        blocked := blocked + (pair.0.rooms.Keys * pair.1.rooms.Keys);
      }
      out := out + diffs;
    }
    assert pairs[..|pairs|] == pairs;
  }

  /** The kind a room gets from its marks when no pair has settled it. */
  ghost function AcrossKind(pdSheets: seq<Sheet>, rdSheets: seq<Sheet>, room: string): Option<Kind> {
    if !OnSome(pdSheets, room) || !OnSome(rdSheets, room) then None
    else if MarkedOnSome(pdSheets, room) && !MarkedOnSome(rdSheets, room) then Some(Candidate)
    else if MarkedOnSome(rdSheets, room) && !MarkedOnSome(pdSheets, room) then Some(Suspicion)
    else None
  }

  lemma AcrossProfile(pdSheets: seq<Sheet>, rdSheets: seq<Sheet>, settled: set<string>, found: seq<Diff>, room: string)
    requires forall s | s in pdSheets :: Proper(s)
    requires forall s | s in rdSheets :: Proper(s)
    requires forall d :: d in found <==> SettlesAs(PreferMarked(pdSheets), PreferMarked(rdSheets), settled, d)
    ensures RoomProfile(found, room) ==
            if room in settled || AcrossKind(pdSheets, rdSheets, room) == None then Profile(false, {}, {})
            else Profile(false, {AcrossKind(pdSheets, rdSheets, room).value}, {})
  {
    var pd, rd := PreferMarked(pdSheets), PreferMarked(rdSheets);
    PreferMarkedFacts(pdSheets, room);
    PreferMarkedFacts(rdSheets, room);
    hide PreferMarked; hide MarkedOnSome; hide OnSome;
    GroupMembers(found, room);
    var g := Group(found, room);
    if room in pd && room in rd && room !in settled && MarkDiff(room, pd[room], rd[room]).Some? {
      var d := MarkDiff(room, pd[room], rd[room]).value;
      assert d in found && d in g;
      assert forall x | x in g :: x == d;
      SameMembersProfile(g, [d]);
      ProfileOfOne(d);
    } else {
      assert forall x :: x !in g;
      SameMembersProfile(g, []);
      assert ProfileOf([]) == Profile(false, {}, {});
    }
  }

  ghost function LoneKind(k: Option<Kind>): Profile {
    Profile(false, if k.Some? then {k.value} else {}, {})
  }

  lemma LoneOutcome(k: Option<Kind>)
    requires k != Some(Abstain)
    ensures Outcome(LoneKind(k)) == k && Outcome(Reduced(LoneKind(k))) == k
  {
    var kinds: set<Kind> := if k.Some? then {k.value} else {};
    match k
    case None =>
    case Some(x) =>
      assert forall y :: y in kinds <==> y == x;
      assert x == Candidate || x == Suspicion || x == Match;
  }

  lemma PlusNothing(p: Profile, q: Profile)
    requires q == Profile(false, {}, {})
    ensures Plus(p, q) == p && Plus(q, p) == p && Reduced(q) == q
  {
  }

  lemma FinalKind(flat: seq<Diff>, found: seq<Diff>, room: string, k: Option<Kind>)
    requires room != "" && k != Some(Abstain)
    requires RoomProfile(found, room) == LoneKind(k) && (room in Rooms(flat) ==> k == None)
    ensures RoomKind(Collapse(Collapse(flat) + found), room) == if room in Rooms(flat) then RoomKind(flat, room) else k
  {
    if room !in Rooms(flat) {
      GroupEmpty(flat, room);
      assert RoomProfile(flat, room) == Profile(false, {}, {});
    }
    LoneOutcome(k);
    hide RoomProfile; hide RoomKind; hide Collapse; hide Rooms; hide Reduced; hide Plus; hide Outcome;
    CollapseReduces(flat, room);
    ProfileOfAll(Collapse(flat), found, room);
    CollapseReduces(Collapse(flat) + found, room);
    KindFromProfile(Collapse(Collapse(flat) + found), room);
    KindFromProfile(flat, room);
    OutcomeOfReduced(RoomProfile(Collapse(flat) + found, room));
    OutcomeOfReduced(RoomProfile(flat, room));
    if room in Rooms(flat) {
      PlusNothing(Reduced(RoomProfile(flat, room)), RoomProfile(found, room));
    } else {
      PlusNothing(RoomProfile(found, room), RoomProfile(flat, room));
    }
  }

  /** `compare_room_tokens`: a room named by any first-stage verdict ends with the kind of their flat
      merge; a room of both stages that no pair named or gave up is decided by its marks alone; every
      other room is left out. `flat` lists the first-stage verdicts. */
  method CompareRooms(dups: seq<string>, pdSheets: seq<Sheet>, rdSheets: seq<Sheet>, jaccardMin: real, maxDiff: int)
    returns (out: seq<Diff>, ghost flat: seq<Diff>, ghost pairs: seq<(Sheet, Sheet)>)
    requires forall s | s in pdSheets :: Proper(s)
    requires forall s | s in rdSheets :: Proper(s)
    ensures forall pd, rd :: (pd, rd) in pairs <==> pd in pdSheets && rd in rdSheets && Paired(pd, rd, jaccardMin)
    ensures forall d :: d in flat <==> Said(dups, pairs, maxDiff, d)
    ensures forall room | room != "" ::
              RoomKind(out, room) ==
              if room in Rooms(flat) then RoomKind(flat, room)
              else if GivenUp(pairs, maxDiff, room) then None
              else AcrossKind(pdSheets, rdSheets, room)
    ensures AllShaped(out)
    ensures pairs == Pairs(pdSheets, rdSheets, jaccardMin) && forall p | p in pairs :: Proper(p.0) && Proper(p.1)
    ensures flat == FirstVerdicts(dups, pairs, maxDiff) && Compared(pdSheets, rdSheets, maxDiff, pairs, flat, out)
  {
    hide FirstVerdicts; hide AcrossDiffs; hide Pairs; hide Paired; hide Proper; hide GivenUp; hide Said; hide RoomKind;
    hide RoomProfile; hide SettlesAs; hide AcrossKind; hide AllShaped; hide Collapse; hide Rooms;
    hide Conflict; hide Outcome; hide Single;
    var chosen := PairSheets(pdSheets, rdSheets, jaccardMin);
    pairs := chosen;
    assert forall p | p in chosen :: (p.0, p.1) in chosen;
    var first, blocked := CollectPairs(dups, chosen, maxDiff);
    flat := first;
    var collapsed := CollapseRoomDiffs(first);
    var settled := (set d | d in collapsed && d.room != "" :: d.room) + blocked;
    SettledRooms(first, collapsed);
    var found := AcrossSheets(pdSheets, rdSheets, settled);
    out := CollapseRoomDiffs(collapsed + found);
    forall room | room != ""
      ensures RoomKind(out, room) ==
              if room in Rooms(flat) then RoomKind(flat, room)
              else if GivenUp(pairs, maxDiff, room) then None
              else AcrossKind(pdSheets, rdSheets, room)
    {
      AcrossProfile(pdSheets, rdSheets, settled, found, room);
      AcrossKindPositive(pdSheets, rdSheets, room);
      FinalKind(first, found, room, if room in settled then None else AcrossKind(pdSheets, rdSheets, room));
    }
    FirstShaped(dups, chosen, maxDiff, first);
    CollapseShaped(first);
    FoundShaped(pdSheets, rdSheets, settled, collapsed, found);
    CollapseShaped(collapsed + found);
    assert settled == Rooms(flat) + blocked;
  }

  /** The whole answer: the first verdicts merged, joined by those of the rooms no pair settled, and merged again. */
  ghost predicate Compared(pdSheets: seq<Sheet>, rdSheets: seq<Sheet>, maxDiff: int, pairs: seq<(Sheet, Sheet)>,
                           flat: seq<Diff>, out: seq<Diff>) {
    exists blocked: set<string> ::
      && (forall r :: r in blocked <==> GivenUp(pairs, maxDiff, r))
      && out == Collapse(Collapse(flat) + AcrossDiffs(pdSheets, rdSheets, Rooms(flat) + blocked))
  }

  lemma SettledRooms(flat: seq<Diff>, collapsed: seq<Diff>)
    requires collapsed == Collapse(flat)
    ensures (set d | d in collapsed && d.room != "" :: d.room) == Rooms(flat)
  {
    hide Collapse;
    forall room | room != ""
      ensures room in Rooms(flat) <==> exists d :: d in collapsed && d.room == room
    {
      OneVerdictPerRoom(flat, room);
      var g := Group(collapsed, room);
      GroupMembers(collapsed, room);
      if room in Rooms(flat) {
        assert g[0] in g;
      }
      if d :| d in collapsed && d.room == room {
        assert d in g;
      }
    }
  }

  lemma AcrossKindPositive(pdSheets: seq<Sheet>, rdSheets: seq<Sheet>, room: string)
    ensures AcrossKind(pdSheets, rdSheets, room) != Some(Abstain) && AcrossKind(pdSheets, rdSheets, room) != Some(Match)
  {
  }

  lemma FirstShaped(dups: seq<string>, pairs: seq<(Sheet, Sheet)>, maxDiff: int, first: seq<Diff>)
    requires forall d :: d in first <==> Said(dups, pairs, maxDiff, d)
    ensures AllShaped(first)
  {
    hide TooMany; hide Differing;
    forall d | d in first ensures Shaped(d) {
      if p :| p in pairs && PairSays(p.0, p.1, maxDiff, d) {
        if r :| (r in p.0.rooms || r in p.1.rooms) && DiffAt(p.0.rooms, p.1.rooms, r) == Some(d) {
        }
      }
    }
  }

  lemma FoundShaped(pdSheets: seq<Sheet>, rdSheets: seq<Sheet>, settled: set<string>, collapsed: seq<Diff>,
                    found: seq<Diff>)
    requires AllShaped(collapsed)
    requires forall d :: d in found <==> SettlesAs(PreferMarked(pdSheets), PreferMarked(rdSheets), settled, d)
    ensures AllShaped(collapsed + found)
  {
    hide PreferMarked;
  }
}
