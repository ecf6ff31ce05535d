/** Room verdicts (room_compare.py): what one pair of sheets says about each room, and how verdicts of
    many sheet pairs and volume pairs are merged into one per room. The rationale texts are left out. */
module RoomMerge {
  import opened Options
  import opened Lists
  import opened StringOrder

  datatype Kind = Candidate | Suspicion | Match | Abstain

  /** A room on a sheet; `marked` when a feature label belongs to it. */
  datatype Spot = Spot(room: string, page: nat, marked: bool)

  datatype Diff = Diff(kind: Kind, room: string, pd: Option<Spot>, rd: Option<Spot>)

  predicate Sided(d: Diff) {
    d.pd.Some? && d.rd.Some?
  }

  function AbstainOf(room: string): Diff {
    Diff(Abstain, room, None, None)
  }

  // ----- groups -------------------------------------------------------------------------------------

  function InRoom(room: string): Diff -> bool {
    (d: Diff) => d.room == room
  }

  /** The verdicts of one room, in order; the empty name is the whole sheet. */
  function Group(diffs: seq<Diff>, room: string): seq<Diff> {
    Filter(InRoom(room), diffs)
  }

  function Rooms(diffs: seq<Diff>): set<string> {
    set d | d in diffs && d.room != "" :: d.room
  }

  // ----- the verdict of one group ---------------------------------------------------------------------

  /** Page order, as `_diff_order` compares it. */
  predicate PageLess(a: Diff, b: Diff) {
    var ap, bp := if a.pd.Some? then a.pd.value.page else 0, if b.pd.Some? then b.pd.value.page else 0;
    var ar, br := if a.rd.Some? then a.rd.value.page else 0, if b.rd.Some? then b.rd.value.page else 0;
    ap < bp || (ap == bp && ar < br)
  }

  /** `min(chosen, key=_diff_order)`: the first of the least. */
  function First(s: seq<Diff>): (r: Diff)
    requires s != []
    ensures r in s && forall d | d in s :: !PageLess(d, r)
  {
    if |s| == 1 then s[0]
    else
      var head := First(s[..|s| - 1]);
      assert forall d | d in s :: d in s[..|s| - 1] || d == s[|s| - 1];
      if PageLess(s[|s| - 1], head) then s[|s| - 1] else head
  }

  function Kinds(s: seq<Diff>): set<Kind> {
    set d | d in s :: d.kind
  }

  /** More than one positive kind, or a positive kind beside a match. */
  predicate Conflict(kinds: set<Kind>) {
    (Candidate in kinds && Suspicion in kinds) || (Match in kinds && (Candidate in kinds || Suspicion in kinds))
  }

  function OfKind(k: Kind): Diff -> bool {
    (d: Diff) => d.kind == k
  }

  /** The loop body of `collapse_room_diffs` for one room: an abstain stops it; two-sided verdicts
      outweigh one-sided ones; conflicting kinds abstain; otherwise the first of the single kind. */
  function Verdict(room: string, group: seq<Diff>): Option<Diff> {
    if Abstain in Kinds(group) then Some(AbstainOf(room))
    else
      var sided := Filter(Sided, group);
      var use := if sided != [] then sided else group;
      if Conflict(Kinds(use)) then Some(AbstainOf(room))
      else
        var k := if Candidate in Kinds(use) then Candidate else if Suspicion in Kinds(use) then Suspicion else Match;
        var chosen := Filter(OfKind(k), use);
        if chosen == [] then None else Some(First(chosen))
  }

  function Verdicts(diffs: seq<Diff>, rooms: seq<string>): seq<Diff> {
    if rooms == [] then []
    else
      var last := rooms[|rooms| - 1];
      Verdicts(diffs, rooms[..|rooms| - 1]) + Listed(Verdict(last, Group(diffs, last)))
  }

  ghost function Collapse(diffs: seq<Diff>): seq<Diff> {
    Group(diffs, "") + Verdicts(diffs, Sorted(Rooms(diffs)))
  }

  /** `collapse_room_diffs`, loop by loop. */
  method CollapseRoomDiffs(diffs: seq<Diff>) returns (out: seq<Diff>)
    ensures out == Collapse(diffs)
  {
    hide Verdict; hide Filter; hide Group; hide Rooms; hide Sorted; hide Leq;
    var sheet, byRoom := Bucket(diffs);
    var order := SortedKeys(byRoom.Keys);
    assert forall r | r in order :: r in byRoom by { SortedLists(byRoom.Keys); }
    var found := [];
    for i := 0 to |order|
      invariant found == Verdicts(diffs, order[..i])
    {
      assert order[..i + 1][..i] == order[..i];
      assert order[i] in byRoom;
      var v := Verdict(order[i], byRoom[order[i]]);
      if v.Some? {
        found := found + [v.value];
      }
    }
    assert order[..|order|] == order;
    out := sheet + found;
  }

  ghost predicate Bucketed(diffs: seq<Diff>, sheet: seq<Diff>, byRoom: map<string, seq<Diff>>) {
    && sheet == Group(diffs, "") && byRoom.Keys == Rooms(diffs)
    && forall r | r in byRoom :: byRoom[r] == Group(diffs, r)
  }

  /** The first loop: sheet verdicts apart, the others by room. */
  method Bucket(diffs: seq<Diff>) returns (sheet: seq<Diff>, byRoom: map<string, seq<Diff>>)
    ensures sheet == Group(diffs, "") && byRoom.Keys == Rooms(diffs)
    ensures forall r | r in byRoom :: byRoom[r] == Group(diffs, r)
  {
    sheet, byRoom := [], map[];
    for i := 0 to |diffs|
      invariant Bucketed(diffs[..i], sheet, byRoom)
    {
      var item := diffs[i];
      assert diffs[..i + 1] == diffs[..i] + [item];
      hide Bucketed;
      if item.room == "" {
        BucketSheet(diffs[..i], sheet, byRoom, item);
        sheet := sheet + [item];
      } else {
        BucketRoom(diffs[..i], sheet, byRoom, item);
        byRoom := byRoom[item.room := (if item.room in byRoom then byRoom[item.room] else []) + [item]];
      }
    }
    assert diffs[..|diffs|] == diffs;
  }

  lemma BucketSheet(diffs: seq<Diff>, sheet: seq<Diff>, byRoom: map<string, seq<Diff>>, item: Diff)
    requires Bucketed(diffs, sheet, byRoom) && item.room == ""
    ensures Bucketed(diffs + [item], sheet + [item], byRoom)
  {
    GroupSnoc(diffs, item, "");
    RoomsSnoc(diffs, item);
    forall r | r in byRoom ensures r != "" && byRoom[r] == Group(diffs + [item], r) {
      RoomsAreNamed(diffs, r);
      GroupSnoc(diffs, item, r);
      hide Group; hide Rooms;
    }
    hide Group; hide Rooms;
  }

  lemma BucketRoom(diffs: seq<Diff>, sheet: seq<Diff>, byRoom: map<string, seq<Diff>>, item: Diff)
    requires Bucketed(diffs, sheet, byRoom) && item.room != ""
    ensures Bucketed(diffs + [item], sheet,
                     byRoom[item.room := (if item.room in byRoom then byRoom[item.room] else []) + [item]])
  {
    var known := if item.room in byRoom then byRoom[item.room] else [];
    assert known == Group(diffs, item.room) by {
      if item.room !in Rooms(diffs) { GroupEmpty(diffs, item.room); }
    }
    hide Group; hide Rooms;
    RoomsSnoc(diffs, item);
    GroupSnoc(diffs, item, "");
    var after := byRoom[item.room := known + [item]];
    assert after.Keys == byRoom.Keys + {item.room};
    forall r | r in after ensures after[r] == Group(diffs + [item], r) {
      GroupSnoc(diffs, item, r);
      if r != item.room { assert byRoom[r] == Group(diffs, r); }
    }
  }

  lemma GroupSnoc(diffs: seq<Diff>, item: Diff, r: string)
    ensures Group(diffs + [item], r) == Group(diffs, r) + if item.room == r then [item] else []
  {
    assert (diffs + [item])[..|diffs|] == diffs;
  }

  lemma RoomsSnoc(diffs: seq<Diff>, item: Diff)
    ensures Rooms(diffs + [item]) == Rooms(diffs) + if item.room != "" then {item.room} else {}
  {
    assert forall d :: d in diffs + [item] <==> d in diffs || d == item;
  }

  lemma GroupEmpty(diffs: seq<Diff>, room: string)
    requires room !in Rooms(diffs) && room != ""
    ensures Group(diffs, room) == []
  {
    var g := Group(diffs, room);
    if g != [] {
      HeadIsMember(g);
    }
  }

  lemma HeadIsMember(s: seq<Diff>)
    requires s != []
    ensures s[0] in s
  {
  }

  // ----- the profile of a group ------------------------------------------------------------------------

  /** All that decides the kind of a verdict: an abstain, the kinds seen on both sides, the others. */
  datatype Profile = Profile(stop: bool, sided: set<Kind>, lone: set<Kind>)

  function ProfileOf(group: seq<Diff>): Profile {
    Profile(
      Abstain in Kinds(group),
      set d | d in group && Sided(d) && d.kind != Abstain :: d.kind,
      set d | d in group && !Sided(d) && d.kind != Abstain :: d.kind)
  }

  function Plus(a: Profile, b: Profile): Profile {
    Profile(a.stop || b.stop, a.sided + b.sided, a.lone + b.lone)
  }

  function Single(kinds: set<Kind>): Option<Kind> {
    if Conflict(kinds) then Some(Abstain)
    else if Candidate in kinds then Some(Candidate)
    else if Suspicion in kinds then Some(Suspicion)
    else if Match in kinds then Some(Match)
    else None
  }

  function Outcome(p: Profile): Option<Kind> {
    if p.stop then Some(Abstain) else if p.sided != {} then Single(p.sided) else Single(p.lone)
  }

  function KindOf(v: Option<Diff>): Option<Kind> {
    match v { case None => None case Some(d) => Some(d.kind) }
  }

  /** Everything the profile of the verdict itself keeps. */
  function Reduced(p: Profile): Profile {
    match Outcome(p)
    case None => Profile(false, {}, {})
    case Some(Abstain) => Profile(true, {}, {})
    case Some(k) => if p.sided != {} then Profile(false, {k}, {}) else Profile(false, {}, {k})
  }

  lemma ProfileConcat(a: seq<Diff>, b: seq<Diff>)
    ensures ProfileOf(a + b) == Plus(ProfileOf(a), ProfileOf(b))
  {
    assert forall d :: d in a + b <==> d in a || d in b;
  }

  lemma FilterNonEmpty(p: Diff -> bool, s: seq<Diff>, d: Diff)
    requires d in s && p(d)
    ensures Filter(p, s) != []
  {
    assert d in Filter(p, s);
  }

  lemma UseKinds(group: seq<Diff>)
    requires Abstain !in Kinds(group)
    ensures var sided := Filter(Sided, group);
            && (sided != [] <==> ProfileOf(group).sided != {})
            && Kinds(sided) == ProfileOf(group).sided
            && (sided == [] ==> Kinds(group) == ProfileOf(group).lone)
  {
    var sided := Filter(Sided, group);
    if sided != [] {
      assert sided[0] in sided;
      assert sided[0].kind in ProfileOf(group).sided;
    }
    forall k ensures k in Kinds(sided) <==> k in ProfileOf(group).sided {
      if k in Kinds(sided) {
        var d :| d in sided && d.kind == k;
        assert d in group && d.kind in Kinds(group);
      }
      if k in ProfileOf(group).sided {
        var d :| d in group && Sided(d) && d.kind != Abstain && d.kind == k;
        assert d in sided;
      }
    }
    if sided == [] {
      forall k ensures k in Kinds(group) <==> k in ProfileOf(group).lone {
        if k in Kinds(group) {
          var d :| d in group && d.kind == k;
          assert Sided(d) ==> d in sided;
        }
      }
    }
  }

  /** The verdict exists, has the kind its profile tells, belongs to the room, is a member of the group
      unless it abstains, and reduces the profile. */
  lemma VerdictOutcome(room: string, group: seq<Diff>)
    requires group != [] && forall d | d in group :: d.room == room
    ensures var v := Verdict(room, group);
            && v.Some? && v.value.room == room
            && Some(v.value.kind) == Outcome(ProfileOf(group))
            && (v.value.kind != Abstain ==> v.value in group)
            && ProfileOf([v.value]) == Reduced(ProfileOf(group))
  {
    ProfileOfOne(AbstainOf(room));
    if Abstain !in Kinds(group) {
      UseKinds(group);
      var sided := Filter(Sided, group);
      var use := if sided != [] then sided else group;
      if !Conflict(Kinds(use)) {
        hide Filter; hide Reduced; hide Outcome; hide Kinds; hide ProfileOf; hide Conflict;
        SingleVerdict(room, group, sided, use);
      }
    }
  }

  /** The verdict when there is no abstain and no conflict: a member of the one kind. */
  lemma SingleVerdict(room: string, group: seq<Diff>, sided: seq<Diff>, use: seq<Diff>)
    requires group != [] && Abstain !in Kinds(group) && sided == Filter(Sided, group)
    requires use == (if sided != [] then sided else group) && !Conflict(Kinds(use))
    ensures var v := Verdict(room, group);
            && v.Some? && v.value in group
            && Some(v.value.kind) == Outcome(ProfileOf(group))
            && ProfileOf([v.value]) == Reduced(ProfileOf(group))
  {
    var k := SomeKind(group, use);
    var d :| d in use && d.kind == k;
    FilterNonEmpty(OfKind(k), use, d);
    var v := First(Filter(OfKind(k), use));
    assert v in use && v.kind == k;
    ProfileOfOne(v);
    UseKinds(group);
    assert sided == [] && Sided(v) ==> v in sided;
    hide First; hide Filter; hide ProfileOf;
    assert Verdict(room, group) == Some(v);
  }

  lemma SomeKind(group: seq<Diff>, use: seq<Diff>) returns (k: Kind)
    requires use != [] && Abstain !in Kinds(group) && (forall d | d in use :: d in group) && !Conflict(Kinds(use))
    ensures k == if Candidate in Kinds(use) then Candidate else if Suspicion in Kinds(use) then Suspicion else Match
    ensures k in Kinds(use) && (exists d :: d in use && d.kind == k)
    ensures Kinds(use) == {k}
  {
    k := if Candidate in Kinds(use) then Candidate else if Suspicion in Kinds(use) then Suspicion else Match;
    HeadIsMember(use);
    assert use[0].kind in Kinds(use) && use[0].kind in Kinds(group);
    forall x | x in Kinds(use) ensures x == k {
      var d :| d in use && d.kind == x;
      assert d.kind in Kinds(group);
    }
  }

  lemma ProfileOfOne(d: Diff)
    ensures ProfileOf([d]) ==
            if d.kind == Abstain then Profile(true, {}, {})
            else if Sided(d) then Profile(false, {d.kind}, {})
            else Profile(false, {}, {d.kind})
  {
    assert [d][0] == d;
  }

  // ----- one verdict per room ----------------------------------------------------------------------------

  lemma GroupMembers(diffs: seq<Diff>, room: string)
    ensures forall d | d in Group(diffs, room) :: d.room == room && d in diffs
    ensures room in Rooms(diffs) ==> Group(diffs, room) != []
  {
    if room in Rooms(diffs) {
      var d :| d in diffs && d.room == room;
      FilterNonEmpty(InRoom(room), diffs, d);
    }
  }

  lemma {:induction false} VerdictsGroup(diffs: seq<Diff>, rooms: seq<string>, room: string)
    requires room != "" && forall r | r in rooms :: r in Rooms(diffs)
    requires forall i, j | 0 <= i < j < |rooms| :: rooms[i] != rooms[j]
    ensures Group(Verdicts(diffs, rooms), room) ==
            if room in rooms then Listed(Verdict(room, Group(diffs, room))) else []
    ensures Group(Verdicts(diffs, rooms), "") == []
  {
    hide *;
    if rooms == [] {
      NoVerdicts(diffs, room);
    } else {
      var n := |rooms| - 1;
      var init, last := rooms[..n], rooms[n];
      assert rooms == init + [last] && last in rooms;
      VerdictsGroup(diffs, init, room);
      VerdictsSnoc(diffs, init, last);
      var v := LoneVerdict(diffs, last);
      FilterConcat(InRoom(room), Verdicts(diffs, init), [v]);
      FilterConcat(InRoom(""), Verdicts(diffs, init), [v]);
      GroupIsFilter(Verdicts(diffs, init), [v], room);
      GroupIsFilter(Verdicts(diffs, init), [v], "");
    }
  }

  lemma NoVerdicts(diffs: seq<Diff>, room: string)
    ensures Group(Verdicts(diffs, []), room) == [] == Group(Verdicts(diffs, []), "")
  {
  }

  lemma VerdictsSnoc(diffs: seq<Diff>, rooms: seq<string>, last: string)
    ensures Verdicts(diffs, rooms + [last]) == Verdicts(diffs, rooms) + Listed(Verdict(last, Group(diffs, last)))
  {
    hide Verdict; hide Group;
    assert (rooms + [last])[..|rooms|] == rooms;
  }

  lemma LoneVerdict(diffs: seq<Diff>, last: string) returns (v: Diff)
    requires last in Rooms(diffs)
    ensures Verdict(last, Group(diffs, last)) == Some(v) && Listed(Verdict(last, Group(diffs, last))) == [v]
    ensures v.room == last && last != ""
  {
    GroupMembers(diffs, last);
    RoomsAreNamed(diffs, last);
    VerdictOutcome(last, Group(diffs, last));
    v := Verdict(last, Group(diffs, last)).value;
    hide Verdict; hide Group; hide Rooms;
  }

  lemma GroupIsFilter(a: seq<Diff>, b: seq<Diff>, room: string)
    requires |b| == 1 && Filter(InRoom(room), a + b) == Filter(InRoom(room), a) + Filter(InRoom(room), b)
    ensures Group(a + b, room) == Group(a, room) + if b[0].room == room then b else []
  {
    FilterOne(InRoom(room), b[0]);
    assert b == [b[0]];
    hide Filter;
  }

  lemma RoomsAreNamed(diffs: seq<Diff>, room: string)
    requires room in Rooms(diffs)
    ensures room != ""
  {
  }

  /** After collapsing, a named room has exactly its verdict, an unknown room has none, and sheet
      verdicts are untouched. */
  lemma OneVerdictPerRoom(diffs: seq<Diff>, room: string)
    ensures Group(Collapse(diffs), "") == Group(diffs, "")
    ensures room != "" ==> Group(Collapse(diffs), room) == Listed(Verdict(room, Group(diffs, room)))
    ensures room != "" ==> (|Group(Collapse(diffs), room)| == 1 <==> room in Rooms(diffs))
    ensures room !in Rooms(diffs) && room != "" ==> Group(Collapse(diffs), room) == []
  {
    hide Verdict; hide Sorted; hide Filter; hide Leq; hide Outcome; hide ProfileOf; hide Reduced;
    SortedLists(Rooms(diffs));
    var order := Sorted(Rooms(diffs));
    var named := if room == "" then "?" else room;
    VerdictsGroup(diffs, order, named);
    var sheet := Group(diffs, "");
    FilterConcat(InRoom(""), sheet, Verdicts(diffs, order));
    FilterConcat(InRoom(named), sheet, Verdicts(diffs, order));
    FilterAll(InRoom(""), sheet);
    FilterNone(InRoom(named), sheet);
    GroupMembers(diffs, named);
    if named in Rooms(diffs) {
      VerdictOutcome(named, Group(diffs, named));
    } else {
      GroupEmpty(diffs, named);
      EmptyVerdict(named);
    }
  }

  lemma EmptyVerdict(room: string)
    ensures Verdict(room, []) == None
  {
    assert Filter(Sided, []) == [];
  }

  // ----- merging in stages ---------------------------------------------------------------------------------

  /** The kind a room ends with. */
  ghost function RoomKind(diffs: seq<Diff>, room: string): Option<Kind> {
    KindOf(Verdict(room, Group(diffs, room)))
  }

  ghost function RoomProfile(diffs: seq<Diff>, room: string): Profile {
    ProfileOf(Group(diffs, room))
  }

  lemma KindFromProfile(diffs: seq<Diff>, room: string)
    ensures RoomKind(diffs, room) == Outcome(RoomProfile(diffs, room))
  {
    GroupMembers(diffs, room);
    var g := Group(diffs, room);
    if g != [] {
      VerdictOutcome(room, g);
    } else {
      EmptyVerdict(room);
      assert ProfileOf([]) == Profile(false, {}, {});
    }
  }

  lemma ProfileOfAll(a: seq<Diff>, b: seq<Diff>, room: string)
    ensures RoomProfile(a + b, room) == Plus(RoomProfile(a, room), RoomProfile(b, room))
  {
    FilterConcat(InRoom(room), a, b);
    ProfileConcat(Group(a, room), Group(b, room));
  }

  lemma CollapseReduces(diffs: seq<Diff>, room: string)
    requires room != ""
    ensures RoomProfile(Collapse(diffs), room) == Reduced(RoomProfile(diffs, room))
  {
    OneVerdictPerRoom(diffs, room);
    GroupMembers(diffs, room);
    hide Collapse; hide Verdict;
    if room in Rooms(diffs) {
      VerdictOutcome(room, Group(diffs, room));
    } else {
      GroupEmpty(diffs, room);
      assert ProfileOf([]) == Profile(false, {}, {});
    }
  }

  /** The batch may be merged early: an abstain or a two-sided verdict settles the room, or its
      one-sided verdicts agree. */
  predicate SafeToStage(p: Profile) {
    p.stop || p.sided != {} || !Conflict(p.lone)
  }

  ghost predicate NoAbstainInside(p: Profile) {
    Abstain !in p.sided && Abstain !in p.lone
  }

  lemma ReducedPlus(a: Profile, b: Profile)
    requires NoAbstainInside(a) && NoAbstainInside(b) && SafeToStage(a)
    ensures Outcome(Plus(Reduced(a), b)) == Outcome(Plus(a, b))
  {
    hide Single;
    if !a.stop && a.sided != {} {
      SingleFacts(a.sided);
      SingleUnion(a.sided, b.sided);
      if Single(a.sided).value != Abstain {
        assert Plus(Reduced(a), b).sided == {Single(a.sided).value} + b.sided;
      }
    } else if !a.stop {
      assert a.sided + b.sided == b.sided;
      SingleFacts(a.lone);
      if a.lone != {} {
        SingleUnion(a.lone, b.lone);
      } else {
        SingleEmpty();
        assert a.lone + b.lone == b.lone;
      }
    }
  }

  lemma SingleEmpty()
    ensures Single({}) == None
  {
  }

  lemma SingleFacts(a: set<Kind>)
    requires Abstain !in a
    ensures a != {} ==> Single(a).Some? && (Single(a) == Some(Abstain) <==> Conflict(a))
    ensures a != {} && !Conflict(a) ==> a == {Single(a).value}
  {
    if a != {} {
      var k :| k in a;
      if !Conflict(a) {
        forall x ensures x in a <==> x == k {}
      }
    }
  }

  lemma SingleUnion(a: set<Kind>, b: set<Kind>)
    requires a != {} && Abstain !in a && Abstain !in b
    ensures Conflict(a) ==> Single(a + b) == Some(Abstain)
  {
  }

  lemma UnsafeProfiles(p: Profile)
    requires !SafeToStage(p)
    ensures Outcome(Plus(p, Profile(false, {Match}, {}))) == Some(Match)
    ensures Outcome(Plus(Reduced(p), Profile(false, {Match}, {}))) == Some(Abstain)
  {
    assert p.sided + {Match} == {Match};
  }

  lemma MatchProfile(room: string) returns (b: seq<Diff>)
    ensures RoomProfile(b, room) == Profile(false, {Match}, {})
  {
    var spot := Spot(room, 1, false);
    var d := Diff(Match, room, Some(spot), Some(spot));
    FilterOne(InRoom(room), d);
    ProfileOfOne(d);
    b := [d];
  }

  /** An unsafe batch and a later two-sided match tell the two ways apart. */
  lemma UnsafeDiffers(merged: seq<Diff>, a: seq<Diff>, room: string)
    requires RoomProfile(merged, room) == Reduced(RoomProfile(a, room)) && !SafeToStage(RoomProfile(a, room))
    ensures exists b :: RoomKind(merged + b, room) != RoomKind(a + b, room)
  {
    hide RoomProfile; hide RoomKind; hide SafeToStage; hide Reduced; hide Plus; hide Outcome;
    var b := MatchProfile(room);
    ProfileOfAll(merged, b, room);
    ProfileOfAll(a, b, room);
    KindFromProfile(merged + b, room);
    KindFromProfile(a + b, room);
    UnsafeProfiles(RoomProfile(a, room));
  }

  /** Early merging is invisible to every later batch exactly when the batch is safe. */
  lemma StagingExact(a: seq<Diff>, room: string)
    requires room != ""
    ensures SafeToStage(RoomProfile(a, room)) <==>
            forall b :: RoomKind(Collapse(a) + b, room) == RoomKind(a + b, room)
  {
    CollapseReduces(a, room);
    hide Collapse; hide RoomProfile; hide RoomKind; hide SafeToStage; hide Reduced;
    if SafeToStage(RoomProfile(a, room)) {
      forall b ensures RoomKind(Collapse(a) + b, room) == RoomKind(a + b, room) {
        StageOne(Collapse(a), a, b, room);
      }
    } else {
      UnsafeDiffers(Collapse(a), a, room);
    }
  }

  lemma ProfileHasNoAbstain(diffs: seq<Diff>, room: string)
    ensures NoAbstainInside(RoomProfile(diffs, room))
  {
  }

  lemma StageOne(merged: seq<Diff>, a: seq<Diff>, b: seq<Diff>, room: string)
    requires RoomProfile(merged, room) == Reduced(RoomProfile(a, room)) && SafeToStage(RoomProfile(a, room))
    ensures RoomKind(merged + b, room) == RoomKind(a + b, room)
  {
    ProfileHasNoAbstain(a, room);
    ProfileHasNoAbstain(b, room);
    hide RoomProfile; hide RoomKind; hide SafeToStage; hide Reduced; hide Plus; hide Outcome; hide NoAbstainInside;
    ProfileOfAll(merged, b, room);
    ProfileOfAll(a, b, room);
    KindFromProfile(merged + b, room);
    KindFromProfile(a + b, room);
    ReducedPlus(RoomProfile(a, room), RoomProfile(b, room));
  }

  /** The shapes the pair stage emits: a one-sided verdict is a suspicion or a made-up abstain. */
  predicate Shaped(d: Diff) {
    d.kind == Abstain || Sided(d) || d.kind == Suspicion
  }

  predicate AllShaped(diffs: seq<Diff>) {
    forall d | d in diffs :: Shaped(d)
  }

  lemma ShapedIsSafe(diffs: seq<Diff>, room: string)
    requires AllShaped(diffs)
    ensures SafeToStage(RoomProfile(diffs, room)) && RoomProfile(diffs, room).lone <= {Suspicion}
  {
    GroupMembers(diffs, room);
  }

  lemma {:induction false} VerdictsShaped(diffs: seq<Diff>, rooms: seq<string>)
    requires AllShaped(diffs) && forall r | r in rooms :: r in Rooms(diffs)
    ensures AllShaped(Verdicts(diffs, rooms))
  {
    hide Verdict;
    if rooms != [] {
      var last := rooms[|rooms| - 1];
      VerdictsShaped(diffs, rooms[..|rooms| - 1]);
      GroupMembers(diffs, last);
      VerdictOutcome(last, Group(diffs, last));
    }
  }

  lemma CollapseShaped(diffs: seq<Diff>)
    requires AllShaped(diffs)
    ensures AllShaped(Collapse(diffs))
  {
    GroupMembers(diffs, "");
    SortedLists(Rooms(diffs));
    VerdictsShaped(diffs, Sorted(Rooms(diffs)));
  }

  function Flatten(batches: seq<seq<Diff>>): seq<Diff> {
    if batches == [] then [] else batches[0] + Flatten(batches[1..])
  }

  ghost function CollapseEach(batches: seq<seq<Diff>>): seq<seq<Diff>> {
    if batches == [] then [] else [Collapse(batches[0])] + CollapseEach(batches[1..])
  }

  lemma {:induction false} FlattenShaped(batches: seq<seq<Diff>>)
    requires forall b | b in batches :: AllShaped(b)
    ensures AllShaped(Flatten(batches))
  {
    if batches != [] {
      FlattenShaped(batches[1..]);
      assert AllShaped(batches[0]);
    }
  }

  /** Any number of batches: merging each first and then the results gives every room the kind of one
      flat merge. */
  lemma StagedEqualsFlat(batches: seq<seq<Diff>>, room: string)
    requires room != "" && forall b | b in batches :: AllShaped(b)
    ensures RoomKind(Flatten(CollapseEach(batches)), room) == RoomKind(Flatten(batches), room)
  {
    StagedProfiles(batches, room);
    KindFromProfile(Flatten(CollapseEach(batches)), room);
    KindFromProfile(Flatten(batches), room);
    hide RoomProfile; hide RoomKind;
    OutcomeOfReduced(RoomProfile(Flatten(CollapseEach(batches)), room));
    OutcomeOfReduced(RoomProfile(Flatten(batches), room));
  }

  lemma {:induction false} StagedProfiles(batches: seq<seq<Diff>>, room: string)
    requires room != "" && forall b | b in batches :: AllShaped(b)
    ensures Reduced(RoomProfile(Flatten(CollapseEach(batches)), room)) == Reduced(RoomProfile(Flatten(batches), room))
    decreases |batches|
  {
    hide *;
    if batches == [] {
      NothingStaged();
    } else {
      var a, rest := batches[0], batches[1..];
      assert a in batches && forall b | b in rest :: b in batches;
      FlattenHead(batches);
      StagedProfiles(rest, room);
      CollapseReduces(a, room);
      var flat, staged := Flatten(rest), Flatten(CollapseEach(rest));
      ProfileOfAll(a, flat, room);
      ProfileOfAll(Collapse(a), staged, room);
      FlattenShaped(rest);
      EachShaped(rest);
      FlattenShaped(CollapseEach(rest));
      ShapedHasProfile(a, room);
      ShapedHasProfile(flat, room);
      ShapedHasProfile(staged, room);
      StagedStep(RoomProfile(a, room), RoomProfile(flat, room), RoomProfile(staged, room));
    }
  }

  lemma NothingStaged()
    ensures Flatten(CollapseEach([])) == Flatten([])
  {
  }

  lemma FlattenHead(batches: seq<seq<Diff>>)
    requires batches != []
    ensures Flatten(batches) == batches[0] + Flatten(batches[1..])
    ensures Flatten(CollapseEach(batches)) == Collapse(batches[0]) + Flatten(CollapseEach(batches[1..]))
  {
    hide Collapse;
    assert CollapseEach(batches)[1..] == CollapseEach(batches[1..]);
  }

  lemma ShapedHasProfile(diffs: seq<Diff>, room: string)
    requires AllShaped(diffs)
    ensures ShapedProfile(RoomProfile(diffs, room))
  {
    ShapedIsSafe(diffs, room);
    ProfileHasNoAbstain(diffs, room);
    hide RoomProfile; hide AllShaped;
  }

  /** One batch merged early in front of the others, merged early or not. */
  lemma StagedStep(a: Profile, flat: Profile, staged: Profile)
    requires ShapedProfile(a) && ShapedProfile(flat) && ShapedProfile(staged) && Reduced(staged) == Reduced(flat)
    ensures Reduced(Plus(Reduced(a), staged)) == Reduced(Plus(a, flat))
  {
    ReducedShape(a);
    hide Reduced; hide ShapedProfile; hide Plus;
    ReducedCongruence(a, flat);
    ReducedCongruence(flat, Reduced(a));
    ReducedCongruence(staged, Reduced(a));
    PlusCommutes(flat, Reduced(a));
    PlusCommutes(staged, Reduced(a));
  }

  lemma {:induction false} EachShaped(batches: seq<seq<Diff>>)
    requires forall b | b in batches :: AllShaped(b)
    ensures forall b | b in CollapseEach(batches) :: AllShaped(b)
  {
    hide AllShaped;
    if batches != [] {
      CollapseShaped(batches[0]);
      EachShaped(batches[1..]);
    }
  }

  lemma PlusCommutes(a: Profile, b: Profile)
    ensures Plus(a, b) == Plus(b, a)
  {
  }

  predicate ShapedProfile(p: Profile) {
    Abstain !in p.sided && p.lone <= {Suspicion}
  }

  lemma OutcomeOfReduced(p: Profile)
    ensures Outcome(Reduced(p)) == Outcome(p)
  {
  }

  lemma ReducedShape(p: Profile)
    requires ShapedProfile(p)
    ensures ShapedProfile(Reduced(p))
  {
    if p.lone != {} { assert p.lone == {Suspicion}; }
  }

  lemma ReducedCongruence(a: Profile, b: Profile)
    requires ShapedProfile(a) && ShapedProfile(b)
    ensures Reduced(Plus(Reduced(a), b)) == Reduced(Plus(a, b))
  {
    assert a.lone == {} || a.lone == {Suspicion};
    assert !Conflict(a.lone);
    assert NoAbstainInside(a) && NoAbstainInside(b);
    ReducedPlus(a, b);
    if !a.stop && a.sided != {} && !Conflict(a.sided) {
      SingleFacts(a.sided);
    }
  }

  /** The order in which verdicts arrive does not matter. */
  lemma OrderIndependent(a: seq<Diff>, b: seq<Diff>, room: string)
    requires multiset(a) == multiset(b)
    ensures RoomKind(a, room) == RoomKind(b, room)
  {
    forall d ensures d in a <==> d in b {
      assert d in a <==> d in multiset(a);
      assert d in b <==> d in multiset(b);
    }
    forall d ensures d in Group(a, room) <==> d in Group(b, room) {}
    SameMembersProfile(Group(a, room), Group(b, room));
    KindFromProfile(a, room);
    KindFromProfile(b, room);
  }

  lemma SameMembersProfile(a: seq<Diff>, b: seq<Diff>)
    requires forall d :: d in a <==> d in b
    ensures ProfileOf(a) == ProfileOf(b)
  {
  }

  /** A one-sided candidate shows why the shape is needed: merged early with a one-sided suspicion it
      abstains, and the later two-sided match no longer decides. */
  lemma UnshapedBatchDiffers(room: string)
    requires room != ""
    ensures var spot := Spot(room, 1, true);
            var a := [Diff(Candidate, room, Some(spot), None), Diff(Suspicion, room, None, Some(spot))];
            exists b :: RoomKind(Collapse(a) + b, room) != RoomKind(a + b, room)
  {
    var spot := Spot(room, 1, true);
    var a := [Diff(Candidate, room, Some(spot), None), Diff(Suspicion, room, None, Some(spot))];
    FilterAll(InRoom(room), a);
    assert !SafeToStage(RoomProfile(a, room)) by {
      assert a[0] in a && a[1] in a;
      assert Group(a, room) == a;
    }
    StagingExact(a, room);
  }
}
