/** The sliding-window limiter of the gateway (limits.js): it forgets stamps that have left the
    window, and still decides as a limiter over the full history of accepted calls would. */
module UploadLimiter {
  import opened Lists

  type Key = string

  /** One call: the key and the clock reading `now()` gave. */
  datatype Call = Call(key: Key, time: int)

  function Recent(time: int, windowMs: int): int -> bool {
    s => time - s < windowMs
  }

  function Within(from: int, windowMs: int): int -> bool {
    s => from <= s < from + windowMs
  }

  /** `stamps.filter((stamp) => time - stamp < windowMs)` */
  function Kept(stamps: seq<int>, time: int, windowMs: int): seq<int> {
    Filter(Recent(time, windowMs), stamps)
  }

  /** Accepted stamps in the half-open window that starts at `from`. */
  function InWindow(stamps: seq<int>, from: int, windowMs: int): seq<int> {
    Filter(Within(from, windowMs), stamps)
  }

  function Stamps(m: map<Key, seq<int>>, k: Key): seq<int> {
    if k in m then m[k] else []
  }

  // ----- the limiter and its reference on values --------------------------------------------------

  predicate Admits(stamps: seq<int>, time: int, limit: int, windowMs: int) {
    |Kept(stamps, time, windowMs)| < limit
  }

  /** The table after one call: refused calls also drop the stamps that left the window. */
  function After(hits: map<Key, seq<int>>, c: Call, limit: int, windowMs: int): map<Key, seq<int>> {
    var kept := Kept(Stamps(hits, c.key), c.time, windowMs);
    hits[c.key := if |kept| >= limit then kept else kept + [c.time]]
  }

  /** The reference keeps every accepted stamp. */
  function RefAfter(history: map<Key, seq<int>>, c: Call, limit: int, windowMs: int): map<Key, seq<int>> {
    if Admits(Stamps(history, c.key), c.time, limit, windowMs)
    then history[c.key := Stamps(history, c.key) + [c.time]]
    else history
  }

  function Table(calls: seq<Call>, limit: int, windowMs: int): map<Key, seq<int>> {
    if calls == [] then map[]
    else After(Table(calls[..|calls| - 1], limit, windowMs), calls[|calls| - 1], limit, windowMs)
  }

  function History(calls: seq<Call>, limit: int, windowMs: int): map<Key, seq<int>> {
    if calls == [] then map[]
    else RefAfter(History(calls[..|calls| - 1], limit, windowMs), calls[|calls| - 1], limit, windowMs)
  }

  /** The answer to call number i. */
  predicate Decision(calls: seq<Call>, i: nat, limit: int, windowMs: int)
    requires i < |calls|
  {
    Admits(Stamps(Table(calls[..i], limit, windowMs), calls[i].key), calls[i].time, limit, windowMs)
  }

  predicate RefDecision(calls: seq<Call>, i: nat, limit: int, windowMs: int)
    requires i < |calls|
  {
    Admits(Stamps(History(calls[..i], limit, windowMs), calls[i].key), calls[i].time, limit, windowMs)
  }

  /** The clock never runs backwards between two calls of one key. */
  predicate Monotone(calls: seq<Call>) {
    forall i, j | 0 <= i < j < |calls| && calls[i].key == calls[j].key :: calls[i].time <= calls[j].time
  }

  /** Forgetting at an earlier instant does not change what is kept at a later one. */
  lemma KeptTwice(stamps: seq<int>, earlier: int, later: int, windowMs: int)
    requires earlier <= later
    ensures Kept(Kept(stamps, earlier, windowMs), later, windowMs) == Kept(stamps, later, windowMs)
  {
    FilterWithin(Recent(earlier, windowMs), Recent(later, windowMs), stamps);
  }

  // ----- same decisions ---------------------------------------------------------------------------

  /** Seen from `time` on, a table entry and a history entry keep the same stamps. */
  ghost predicate Agree(kept: seq<int>, all: seq<int>, time: int, windowMs: int) {
    forall t | time <= t :: Kept(kept, t, windowMs) == Kept(all, t, windowMs)
  }

  lemma AgreeStep(kept: seq<int>, all: seq<int>, time: int, windowMs: int)
    requires Agree(kept, all, time, windowMs)
    ensures Agree(Kept(kept, time, windowMs), all, time, windowMs)
    ensures Agree(Kept(kept, time, windowMs) + [time], all + [time], time, windowMs)
  {
    var now := Kept(kept, time, windowMs);
    forall t | time <= t ensures Kept(now, t, windowMs) == Kept(all, t, windowMs) {
      KeptTwice(kept, time, t, windowMs);
    }
    forall t | time <= t ensures Kept(now + [time], t, windowMs) == Kept(all + [time], t, windowMs) {
      assert Kept(now, t, windowMs) == Kept(all, t, windowMs) by { KeptTwice(kept, time, t, windowMs); }
      FilterSnoc(Recent(t, windowMs), now, time);
      FilterSnoc(Recent(t, windowMs), all, time);
    }
  }

  lemma {:induction false} TablesAgree(calls: seq<Call>, k: Key, time: int, limit: int, windowMs: int)
    requires Monotone(calls) && forall i | 0 <= i < |calls| && calls[i].key == k :: calls[i].time <= time
    ensures Agree(Stamps(Table(calls, limit, windowMs), k), Stamps(History(calls, limit, windowMs), k), time, windowMs)
  {
    if calls != [] {
      var c, rest := calls[|calls| - 1], calls[..|calls| - 1];
      if c.key != k {
        TablesAgree(rest, k, time, limit, windowMs);
      } else {
        TablesAgree(rest, k, c.time, limit, windowMs);
        var kept, all := Stamps(Table(rest, limit, windowMs), k), Stamps(History(rest, limit, windowMs), k);
        AgreeStep(kept, all, c.time, windowMs);
        assert Kept(kept, c.time, windowMs) == Kept(all, c.time, windowMs);
      }
    }
  }

  /** The limiter that discards stamps answers every call as the limiter that keeps them all. */
  lemma SameDecisions(calls: seq<Call>, i: nat, limit: int, windowMs: int)
    requires Monotone(calls) && i < |calls|
    ensures Decision(calls, i, limit, windowMs) == RefDecision(calls, i, limit, windowMs)
  {
    TablesAgree(calls[..i], calls[i].key, calls[i].time, limit, windowMs);
  }

  // ----- the first step back of the clock -------------------------------------------------------------------

  /** Call j is the last one of its key before n. */
  ghost predicate LastOfKey(calls: seq<Call>, j: nat, n: nat) {
    j < n <= |calls| && forall m | j < m < n :: calls[m].key != calls[j].key
  }

  /** The table of a key holds only stamps that were recent at its last call. */
  lemma {:induction false} TableIsRecent(calls: seq<Call>, j: nat, limit: int, windowMs: int)
    requires LastOfKey(calls, j, |calls|) && windowMs > 0
    ensures forall s | s in Stamps(Table(calls, limit, windowMs), calls[j].key) :: calls[j].time - s < windowMs
  {
    var c, rest := calls[|calls| - 1], calls[..|calls| - 1];
    if j < |calls| - 1 {
      assert c.key != calls[j].key && rest[j] == calls[j];
      TableIsRecent(rest, j, limit, windowMs);
      hide Table;
      OneCall(calls, calls[j].key, limit, windowMs);
    } else {
      hide Table;
      OneCall(calls, c.key, limit, windowMs);
      KeptIsRecent(Stamps(Table(rest, limit, windowMs), c.key), c.time, windowMs);
    }
  }

  lemma OneCall(calls: seq<Call>, key: Key, limit: int, windowMs: int)
    requires calls != []
    ensures var c := calls[|calls| - 1];
            var before := Stamps(Table(calls[..|calls| - 1], limit, windowMs), key);
            var kept, now := Kept(before, c.time, windowMs), Stamps(Table(calls, limit, windowMs), key);
            now == if c.key != key then before else if |kept| >= limit then kept else kept + [c.time]
  {
    hide Kept;
  }

  lemma KeptIsRecent(stamps: seq<int>, time: int, windowMs: int)
    ensures forall s | s in Kept(stamps, time, windowMs) :: time - s < windowMs
  {
  }

  lemma AllKept(stamps: seq<int>, time: int, windowMs: int)
    requires forall s | s in stamps :: time - s < windowMs
    ensures Kept(stamps, time, windowMs) == stamps
  {
    FilterAll(Recent(time, windowMs), stamps);
  }

  /** The clock has not stepped back yet, and call i reads t before the last reading T of its key: the limiter
      still counts what was recent at T, the reference what is recent at t. They differ exactly when the limit
      lies between the two counts, and then the limiter admits a call too many. */
  lemma FirstBackwardStep(calls: seq<Call>, i: nat, j: nat, limit: int, windowMs: int)
    requires i < |calls| && LastOfKey(calls, j, i) && calls[j].key == calls[i].key
    requires Monotone(calls[..i]) && calls[i].time < calls[j].time && windowMs > 0
    ensures var history := Stamps(History(calls[..i], limit, windowMs), calls[i].key);
            var earlier, now := |Kept(history, calls[j].time, windowMs)|, |Kept(history, calls[i].time, windowMs)|;
            && (Decision(calls, i, limit, windowMs) <==> earlier < limit)
            && (Decision(calls, i, limit, windowMs) != RefDecision(calls, i, limit, windowMs) <==>
                  earlier < limit <= now)
            && earlier <= now
  {
    var before, key := calls[..i], calls[i].key;
    var table, history := Stamps(Table(before, limit, windowMs), key), Stamps(History(before, limit, windowMs), key);
    forall m | 0 <= m < |before| && before[m].key == key ensures before[m].time <= calls[j].time {
      assert before[j] == calls[j] && before[m] == calls[m];
    }
    TablesAgree(before, key, calls[j].time, limit, windowMs);
    assert LastOfKey(before, j, |before|);
    TableIsRecent(before, j, limit, windowMs);
    hide Table; hide History; hide Filter;
    AllKept(table, calls[j].time, windowMs);
    AllKept(table, calls[i].time, windowMs);
    FilterFewer(Recent(calls[j].time, windowMs), Recent(calls[i].time, windowMs), history);
  }

  /** With a clock that steps back the discarded stamps are missed: with limit 2 and
      window 5, a third call read at 0 is admitted after accepted calls at 0 and 5, because the call
      at 5 threw the stamp 0 away. */
  lemma BackwardClockDiffers()
    ensures var calls := [Call("k", 0), Call("k", 5), Call("k", 0)];
            Decision(calls, 2, 2, 5) && !RefDecision(calls, 2, 2, 5)
  {
    var c0, c1, c2 := Call("k", 0), Call("k", 5), Call("k", 0);
    var calls := [c0, c1, c2];
    BackwardKept();
    hide Kept;
    var none: seq<int> := [];
    assert none + [0] == [0] && none + [5] == [5] && [0] + [5] == [0, 5];
    assert calls[..2] == [c0, c1] && [c0, c1][..1] == [c0] && [c0][..0] == [];
    assert Table([], 2, 5) == map[] && History([], 2, 5) == map[];
    assert Table([c0], 2, 5) == map["k" := [0]] && History([c0], 2, 5) == map["k" := [0]];
    assert Table([c0, c1], 2, 5) == map["k" := [5]];
    assert History([c0, c1], 2, 5) == map["k" := [0, 5]];
  }

  lemma BackwardKept()
    ensures Kept([], 0, 5) == [] && Kept([0], 5, 5) == [] && Kept([5], 0, 5) == [5] && Kept([0, 5], 0, 5) == [0, 5]
  {
    FilterOne(Recent(5, 5), 0);
    FilterOne(Recent(0, 5), 5);
    FilterAll(Recent(0, 5), [0, 5]);
    hide Filter;
    FilterAll(Recent(0, 5), []);
  }

  // ----- no window overflows ------------------------------------------------------------------------

  ghost predicate Sorted(s: seq<int>) {
    forall i, j | 0 <= i < j < |s| :: s[i] <= s[j]
  }

  lemma SortedSnoc(s: seq<int>, x: int)
    requires Sorted(s) && forall y | y in s :: y <= x
    ensures Sorted(s + [x])
  {
    forall i, j | 0 <= i < j < |s + [x]| ensures (s + [x])[i] <= (s + [x])[j] {
      assert s[i] in s;
    }
  }

  function Cap(limit: int): nat {
    if limit < 0 then 0 else limit
  }

  lemma {:induction false} HistorySorted(calls: seq<Call>, k: Key, limit: int, windowMs: int)
    requires Monotone(calls)
    ensures Sorted(Stamps(History(calls, limit, windowMs), k))
    ensures forall s | s in Stamps(History(calls, limit, windowMs), k) ::
              exists i :: 0 <= i < |calls| && calls[i] == Call(k, s)
  {
    if calls != [] {
      var c, rest := calls[|calls| - 1], calls[..|calls| - 1];
      HistorySorted(rest, k, limit, windowMs);
      var prior := Stamps(History(rest, limit, windowMs), k);
      forall s | s in prior
        ensures (exists i :: 0 <= i < |calls| && calls[i] == Call(k, s)) && (c.key == k ==> s <= c.time)
      {
        var i :| 0 <= i < |rest| && rest[i] == Call(k, s);
        assert calls[i] == Call(k, s);
      }
      assert c.key == k ==> Sorted(prior + [c.time]) by { if c.key == k { SortedSnoc(prior, c.time); } }
      assert calls[|calls| - 1] == c;
    }
  }

  /** One accepted call keeps every window within the limit. */
  lemma AppendKeepsWindow(all: seq<int>, time: int, from: int, limit: int, windowMs: int)
    requires Admits(all, time, limit, windowMs) && forall s | s in all :: s <= time
    requires |InWindow(all, from, windowMs)| <= Cap(limit)
    ensures |InWindow(all + [time], from, windowMs)| <= Cap(limit)
  {
    var p := Within(from, windowMs);
    FilterSnoc(p, all, time);
    if p(time) {
      FilterFewer(p, Recent(time, windowMs), all);
    }
  }

  /** No half-open window of windowMs holds more than `limit` accepted calls of a key. */
  lemma {:induction false} WindowNeverOverflows(calls: seq<Call>, k: Key, from: int, limit: int, windowMs: int)
    requires Monotone(calls)
    ensures |InWindow(Stamps(History(calls, limit, windowMs), k), from, windowMs)| <= Cap(limit)
  {
    if calls != [] {
      var c, rest := calls[|calls| - 1], calls[..|calls| - 1];
      WindowNeverOverflows(rest, k, from, limit, windowMs);
      var all := Stamps(History(rest, limit, windowMs), k);
      if c.key == k && Admits(all, c.time, limit, windowMs) {
        HistorySorted(rest, k, limit, windowMs);
        forall s | s in all ensures s <= c.time {
          var i :| 0 <= i < |rest| && rest[i] == Call(k, s);
          assert calls[i] == Call(k, s) && calls[|calls| - 1] == c;
        }
        AppendKeepsWindow(all, c.time, from, limit, windowMs);
      }
    }
  }

  // ----- the closure ----------------------------------------------------------------------------------

  class Limiter {
    const limit: int
    const windowMs: int
    var hits: map<Key, seq<int>>
    /** The calls so far, for the specification. */
    ghost var calls: seq<Call>

    ghost predicate Valid()
      reads this
    {
      hits == Table(calls, limit, windowMs)
    }

    constructor (limit: int, windowMs: int)
      ensures Valid() && calls == [] && this.limit == limit && this.windowMs == windowMs
    {
      this.limit, this.windowMs, hits, calls := limit, windowMs, map[], [];
    }

    method Admit(key: Key, time: int) returns (ok: bool)
      requires Valid()
      modifies this
      ensures Valid() && calls == old(calls) + [Call(key, time)]
      ensures ok == Decision(calls, |old(calls)|, limit, windowMs)
      ensures Monotone(calls) ==> ok == RefDecision(calls, |old(calls)|, limit, windowMs)
    {
      ghost var n := |calls|;
      var kept := Kept(if key in hits then hits[key] else [], time, windowMs);
      calls := calls + [Call(key, time)];
      assert calls[..n] == old(calls);
      if |kept| >= limit {
        hits := hits[key := kept];
        ok := false;
      } else {
        kept := kept + [time];
        hits := hits[key := kept];
        ok := true;
      }
      if Monotone(calls) {
        SameDecisions(calls, n, limit, windowMs);
      }
    }
  }
}
