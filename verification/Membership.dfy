/** Which hosts were in a pool and when: the observer logs a join on creation and a leave and a
    join on every move; the graph code rebuilds time ranges from the logged events. */
module Membership {
  import opened Util

  datatype Action = Join | Leave

  datatype Event = Event(pool: nat, action: Action, at: int)

  /** One stay of a host in a pool; still open while `left` is empty. */
  datatype Stay = Stay(pool: nat, joined: int, left: Option<int>)

  /** Stays that are over follow one another, the last ending by `until`. */
  predicate Closed(stays: seq<Stay>, until: int) {
    stays == [] ||
    var s := stays[|stays| - 1];
    s.left.Some? && s.joined <= s.left.value <= until && Closed(stays[..|stays| - 1], s.joined)
  }

  /** A host's history: closed stays and then the present one, still open. */
  predicate History(stays: seq<Stay>) {
    stays != [] &&
    var s := stays[|stays| - 1];
    s.left.None? && Closed(stays[..|stays| - 1], s.joined)
  }

  ghost predicate MemberAt(stays: seq<Stay>, pool: nat, x: int) {
    exists i :: 0 <= i < |stays| && stays[i].pool == pool && stays[i].joined <= x &&
      (stays[i].left.Some? ==> x < stays[i].left.value)
  }

  // ---------- recording ----------

  function EventsOf(s: Stay): seq<Event> {
    [Event(s.pool, Join, s.joined)] + if s.left.Some? then [Event(s.pool, Leave, s.left.value)] else []
  }

  function Log(stays: seq<Stay>): seq<Event> {
    if stays == [] then [] else Log(stays[..|stays| - 1]) + EventsOf(stays[|stays| - 1])
  }

  class Host {
    var pool: nat
    var events: seq<Event>
    ghost var stays: seq<Stay>

    ghost predicate Valid()
      reads this
    {
      History(stays) && events == Log(stays) && pool == stays[|stays| - 1].pool
    }

    /** `after_create`. */
    constructor (pool: nat, now: int)
      ensures Valid() && stays == [Stay(pool, now, None)]
    {
      this.pool := pool;
      events := [Event(pool, Join, now)];
      stays := [Stay(pool, now, None)];
      new;
      assert stays[..0] == [];
    }

    /** `before_update`: the leave and the join are saved one after the other. */
    method Move(target: nat, leaveAt: int, joinAt: int)
      requires Valid() && stays[|stays| - 1].joined <= leaveAt <= joinAt
      modifies this
      ensures Valid() && pool == target
      ensures stays == if target == old(pool) then old(stays)
                       else Moved(old(stays), target, leaveAt, joinAt)
    {
      hide Closed, Log;
      if target != pool {
        events := events + [Event(pool, Leave, leaveAt)];
        events := events + [Event(target, Join, joinAt)];
        MoveIsLogged(stays, target, leaveAt, joinAt);
        pool := target;
        stays := Moved(stays, target, leaveAt, joinAt);
      }
    }
  }

  lemma MoveIsHistory(stays: seq<Stay>, target: nat, leaveAt: int, joinAt: int)
    requires History(stays) && stays[|stays| - 1].joined <= leaveAt <= joinAt
    ensures History(Moved(stays, target, leaveAt, joinAt))
  {
    var init, last := stays[..|stays| - 1], stays[|stays| - 1];
    var closed, next := init + [last.(left := Some(leaveAt))], Stay(target, joinAt, None);
    assert closed[..|init|] == init;
    assert (closed + [next])[..|closed|] == closed;
  }

  lemma MoveIsLogged(stays: seq<Stay>, target: nat, leaveAt: int, joinAt: int)
    requires History(stays) && stays[|stays| - 1].joined <= leaveAt <= joinAt
    ensures var moved := Moved(stays, target, leaveAt, joinAt);
            History(moved) && moved[|moved| - 1] == Stay(target, joinAt, None) &&
            Log(moved) ==
            Log(stays) + [Event(stays[|stays| - 1].pool, Leave, leaveAt)] + [Event(target, Join, joinAt)]
  {
    MoveIsHistory(stays, target, leaveAt, joinAt);
    hide Closed, Log;
    var init, last := stays[..|stays| - 1], stays[|stays| - 1];
    var left, next := last.(left := Some(leaveAt)), Stay(target, joinAt, None);
    assert stays == init + [last];
    LogSnoc(init, last);
    LogSnoc(init, left);
    LogSnoc(init + [left], next);
    AssocFour(Log(init), Event(last.pool, Join, last.joined), Event(last.pool, Leave, leaveAt));
  }

  lemma AssocFour(log: seq<Event>, a: Event, b: Event)
    ensures log + ([a] + [b]) == log + ([a] + []) + [b]
  {}

  ghost function Moved(stays: seq<Stay>, target: nat, leaveAt: int, joinAt: int): seq<Stay>
    requires stays != []
  {
    stays[..|stays| - 1] + [stays[|stays| - 1].(left := Some(leaveAt))] + [Stay(target, joinAt, None)]
  }

  // ---------- querying ----------

  /** The events kept by a query, in the order of the log. */
  function Where(log: seq<Event>, keep: Event -> bool): seq<Event> {
    if log == [] then []
    else
      var before, last := Where(log[..|log| - 1], keep), log[|log| - 1];
      if keep(last) then before + [last] else before
  }

  /** `from_pool`: both ends of the window included. */
  function FromPool(log: seq<Event>, pool: nat, start: int, end: int): seq<Event> {
    Where(log, (e: Event) => e.pool == pool && start <= e.at <= end)
  }

  function BeforePool(log: seq<Event>, pool: nat, start: int): seq<Event> {
    Where(log, (e: Event) => e.pool == pool && e.at < start)
  }

  /** `most_recent_prior_event_from_pool`. */
  function PriorEvent(log: seq<Event>, pool: nat, start: int): Option<Event> {
    var before := BeforePool(log, pool, start);
    if before == [] then None else Some(before[|before| - 1])
  }

  // ---------- rebuilding the ranges ----------

  function Ranges(list: seq<Event>, joined: bool, from: int, start: int, end: int): seq<(int, int)>
    decreases |list|
  {
    if list == [] then (if joined then [(from, end)] else [])
    else if list[0].action.Join? then Ranges(list[1..], true, list[0].at, start, end)
    else [(if joined then from else start, list[0].at)] + Ranges(list[1..], false, start, start, end)
  }

  predicate JoinedBefore(prior: Option<Event>) {
    prior.Some? && prior.value.action.Join?
  }

  method GetRangesFromEventList(list: seq<Event>, prior: Option<Event>, start: int, end: int)
    returns (results: seq<(int, int)>)
    ensures results == Ranges(list, JoinedBefore(prior), start, start, end)
  {
    results := [];
    var from, to := start, end;
    var joined := false;
    if prior.Some? {
      if prior.value.action.Join? {
        joined := true;
      }
    }
    var i := 0;
    while i < |list|
      invariant 0 <= i <= |list|
      invariant to == end
      invariant results + Ranges(list[i..], joined, from, start, end) ==
                Ranges(list, JoinedBefore(prior), start, start, end)
    {
      var event := list[i];
      assert list[i..][0] == event && list[i..][1..] == list[i + 1..];
      if event.action.Join? {
        joined := true;
        from := event.at;
      } else {
        if !joined {
          from := start;
        }
        joined := false;
        to := event.at;
        RangesLeave(results, list[i..], (from, to), start, end);
        results := results + [(from, to)];
        from, to := start, end;
      }
      i := i + 1;
    }
    if joined {
      to := end;
      results := results + [(from, to)];
    }
  }

  lemma RangesLeave(results: seq<(int, int)>, list: seq<Event>, range: (int, int), start: int, end: int)
    requires list != []
    ensures results + ([range] + Ranges(list[1..], false, start, start, end)) ==
            (results + [range]) + Ranges(list[1..], false, start, start, end)
  {}

  ghost predicate Covered(ranges: seq<(int, int)>, x: int) {
    exists r :: r in ranges && r.0 <= x < r.1
  }

  // ---------- events as a state over time ----------

  ghost predicate Sorted(list: seq<Event>) {
    forall i, j :: 0 <= i < j < |list| ==> list[i].at <= list[j].at
  }

  /** Joins and leaves alternate, starting from a host that is in the pool or not. */
  predicate Alternates(list: seq<Event>, joined: bool)
    decreases |list|
  {
    list == [] || (list[0].action.Join? != joined && Alternates(list[1..], !joined))
  }

  /** In the pool at time `x`, having been in it or not before the first event. */
  function InAt(list: seq<Event>, joined: bool, x: int): bool
    decreases |list|
  {
    if list == [] || list[0].at > x then joined else InAt(list[1..], list[0].action.Join?, x)
  }

  function FinallyIn(list: seq<Event>, joined: bool): bool {
    if list == [] then joined else list[|list| - 1].action.Join?
  }

  lemma CoveredSplit(r: (int, int), rest: seq<(int, int)>, x: int)
    ensures Covered([r] + rest, x) <==> r.0 <= x < r.1 || Covered(rest, x)
  {}

  /** The loop covers exactly the times the events put the host in the pool. */
  lemma {:induction false} RangesCover(list: seq<Event>, joined: bool, from: int, start: int, end: int, lo: int, x: int)
    requires Sorted(list) && Alternates(list, joined)
    requires start <= lo && (joined ==> start <= from <= lo)
    requires forall i :: 0 <= i < |list| ==> lo <= list[i].at <= end
    ensures Covered(Ranges(list, joined, from, start, end), x) <==>
            x < end && (if x < lo then joined && from <= x else InAt(list, joined, x))
    decreases |list|
  {
    if list == [] {
      if joined {
        CoveredSplit((from, end), [], x);
        assert [(from, end)] == [(from, end)] + [];
      }
    } else {
      var t := list[0].at;
      if list[0].action.Join? {
        RangesCover(list[1..], true, t, start, end, t, x);
      } else {
        RangesCover(list[1..], false, start, start, end, t, x);
        CoveredSplit((from, t), Ranges(list[1..], false, start, start, end), x);
      }
    }
  }

  ghost predicate OrderedWithin(ranges: seq<(int, int)>, lo: int, end: int) {
    (forall i :: 0 <= i < |ranges| ==> lo <= ranges[i].0 <= ranges[i].1 <= end) &&
    (forall i, j :: 0 <= i < j < |ranges| ==> ranges[i].1 <= ranges[j].0)
  }

  lemma {:induction false} RangesAreOrdered(list: seq<Event>, joined: bool, from: int, start: int, end: int, lo: int)
    requires Sorted(list) && Alternates(list, joined)
    requires start <= lo <= end && (joined ==> from <= lo)
    requires forall i :: 0 <= i < |list| ==> lo <= list[i].at <= end
    ensures OrderedWithin(Ranges(list, joined, from, start, end), if joined then from else lo, end)
    decreases |list|
  {
    if list != [] {
      var t := list[0].at;
      if list[0].action.Join? {
        RangesAreOrdered(list[1..], true, t, start, end, t);
      } else {
        RangesAreOrdered(list[1..], false, start, start, end, t);
      }
    }
  }

  // ---------- concatenation ----------

  lemma {:induction false} AlternatesConcat(a: seq<Event>, b: seq<Event>, joined: bool)
    ensures Alternates(a + b, joined) <==> Alternates(a, joined) && Alternates(b, FinallyIn(a, joined))
    decreases |a|
  {
    if a == [] {
      assert a + b == b;
    } else {
      assert (a + b)[1..] == a[1..] + b;
      AlternatesConcat(a[1..], b, !joined);
      if |a| == 1 && a[0].action.Join? != joined {
        assert FinallyIn(a[1..], !joined) == !joined;
      }
    }
  }

  lemma {:induction false} InAtConcat(a: seq<Event>, b: seq<Event>, joined: bool, x: int)
    requires Sorted(a + b)
    ensures (forall i :: 0 <= i < |a| ==> a[i].at <= x) ==>
              InAt(a + b, joined, x) == InAt(b, FinallyIn(a, joined), x)
    ensures (forall i :: 0 <= i < |b| ==> x < b[i].at) ==> InAt(a + b, joined, x) == InAt(a, joined, x)
    decreases |a|
  {
    if a == [] {
      assert a + b == b;
    } else {
      assert a + b == [a[0]] + (a[1..] + b);
      assert (a + b)[1..] == a[1..] + b;
      InAtConcat(a[1..], b, a[0].action.Join?, x);
      if forall i :: 0 <= i < |a| ==> a[i].at <= x {
        assert a[0].at <= x;
      }
    }
  }

  lemma {:induction false} WhereNone(log: seq<Event>, keep: Event -> bool)
    requires forall i :: 0 <= i < |log| ==> !keep(log[i])
    ensures Where(log, keep) == []
  {
    if log != [] {
      WhereNone(log[..|log| - 1], keep);
    }
  }

  lemma {:induction false} WhereConcat(a: seq<Event>, b: seq<Event>, keep: Event -> bool)
    ensures Where(a + b, keep) == Where(a, keep) + Where(b, keep)
  {
    if b == [] {
      assert a + b == a;
    } else {
      var n := |b| - 1;
      assert (a + b)[..|a + b| - 1] == a + b[..n];
      WhereConcat(a, b[..n], keep);
    }
  }

  lemma {:induction false} WhereKeepsOrder(log: seq<Event>, keep: Event -> bool, hi: int)
    requires Sorted(log) && forall i :: 0 <= i < |log| ==> log[i].at <= hi
    ensures Sorted(Where(log, keep))
    ensures forall i :: 0 <= i < |Where(log, keep)| ==> Where(log, keep)[i].at <= hi && keep(Where(log, keep)[i])
  {
    if log != [] {
      var n := |log| - 1;
      WhereKeepsOrder(log[..n], keep, log[n].at);
    }
  }

  function OfPool(log: seq<Event>, pool: nat): seq<Event> {
    Where(log, (e: Event) => e.pool == pool)
  }

  function AfterPool(log: seq<Event>, pool: nat, end: int): seq<Event> {
    Where(log, (e: Event) => e.pool == pool && end < e.at)
  }

  /** In a sorted log the events before, in and after the window follow one another. */
  lemma {:induction false} WindowCuts(log: seq<Event>, pool: nat, start: int, end: int)
    requires Sorted(log) && start <= end
    ensures OfPool(log, pool) ==
            BeforePool(log, pool, start) + FromPool(log, pool, start, end) + AfterPool(log, pool, end)
  {
    if log != [] {
      var n := |log| - 1;
      var init, e := log[..n], log[n];
      WindowCuts(init, pool, start, end);
      if e.at <= end {
        WhereNone(init, (e: Event) => e.pool == pool && end < e.at);
      }
      if e.at < start {
        WhereNone(init, (e: Event) => e.pool == pool && start <= e.at <= end);
      }
    }
  }

  // ---------- the log of a history ----------

  lemma MemberAtSnoc(stays: seq<Stay>, s: Stay, pool: nat, x: int)
    ensures MemberAt(stays + [s], pool, x) <==>
            MemberAt(stays, pool, x) ||
            (s.pool == pool && s.joined <= x && (s.left.Some? ==> x < s.left.value))
  {
    var all := stays + [s];
    assert all[|stays|] == s;
    assert forall i :: 0 <= i < |stays| ==> all[i] == stays[i];
  }

  lemma {:induction false} NotMemberAfter(stays: seq<Stay>, pool: nat, until: int, x: int)
    requires Closed(stays, until) && until <= x
    ensures !MemberAt(stays, pool, x)
  {
    if stays != [] {
      var init, s := stays[..|stays| - 1], stays[|stays| - 1];
      assert stays == init + [s];
      NotMemberAfter(init, pool, s.joined, x);
      MemberAtSnoc(init, s, pool, x);
    }
  }

  lemma LogSnoc(stays: seq<Stay>, s: Stay)
    ensures Log(stays + [s]) == Log(stays) + EventsOf(s)
  {}

  lemma OfPoolSnoc(log: seq<Event>, s: Stay, pool: nat)
    ensures OfPool(log + EventsOf(s), pool) == OfPool(log, pool) + if s.pool == pool then EventsOf(s) else []
  {
    var keep := (e: Event) => e.pool == pool;
    var ev := EventsOf(s);
    WhereConcat(log, ev, keep);
    if s.pool != pool {
      WhereNone(ev, keep);
    } else {
      assert [ev[0]][..0] == [];
      assert Where([ev[0]], keep) == [ev[0]];
      if s.left.Some? {
        assert ev[..1] == [ev[0]];
      } else {
        assert ev == [ev[0]];
      }
    }
  }

  ghost predicate SortedUntil(log: seq<Event>, until: int) {
    Sorted(log) && forall i :: 0 <= i < |log| ==> log[i].at <= until
  }

  lemma {:induction false} ClosedLogSorted(stays: seq<Stay>, until: int)
    requires Closed(stays, until)
    ensures SortedUntil(Log(stays), until)
  {
    if stays != [] {
      ClosedLogSorted(stays[..|stays| - 1], stays[|stays| - 1].joined);
    }
  }

  lemma {:induction false} ClosedLogAlternates(stays: seq<Stay>, pool: nat, until: int)
    requires Closed(stays, until)
    ensures Alternates(OfPool(Log(stays), pool), false) && !FinallyIn(OfPool(Log(stays), pool), false)
  {
    if stays != [] {
      var init, s := stays[..|stays| - 1], stays[|stays| - 1];
      ClosedLogAlternates(init, pool, s.joined);
      OfPoolSnoc(Log(init), s, pool);
      var list, ev := OfPool(Log(init), pool), EventsOf(s);
      if s.pool == pool {
        assert ev[1..] == [ev[1]] && [ev[1]][1..] == [];
        assert Alternates([ev[1]], true);
        assert Alternates(ev, false);
        AlternatesConcat(list, ev, false);
      } else {
        assert list + [] == list;
      }
    }
  }

  lemma InAtSnoc(list: seq<Event>, e: Event, joined: bool, x: int)
    requires Sorted(list) && forall i :: 0 <= i < |list| ==> list[i].at <= e.at
    ensures InAt(list + [e], joined, x) == if e.at <= x then e.action.Join? else InAt(list, joined, x)
  {
    InAtConcat(list, [e], joined, x);
    assert [e][1..] == [];
  }

  /** Adding a stay adds its time to what the log says and to the membership alike. */
  lemma StayMembership(stays: seq<Stay>, s: Stay, pool: nat, x: int)
    requires Closed(stays, s.joined) && (s.left.Some? ==> s.joined <= s.left.value)
    requires InAt(OfPool(Log(stays), pool), false, x) <==> MemberAt(stays, pool, x)
    ensures InAt(OfPool(Log(stays + [s]), pool), false, x) <==> MemberAt(stays + [s], pool, x)
  {
    LogSnoc(stays, s);
    OfPoolSnoc(Log(stays), s, pool);
    MemberAtSnoc(stays, s, pool, x);
    ClosedLogSorted(stays, s.joined);
    var list := OfPool(Log(stays), pool);
    WhereKeepsOrder(Log(stays), (e: Event) => e.pool == pool, s.joined);
    if s.pool == pool {
      var join := Event(pool, Join, s.joined);
      InAtSnoc(list, join, false, x);
      if s.left.Some? {
        var leave := Event(pool, Leave, s.left.value);
        assert list + EventsOf(s) == (list + [join]) + [leave];
        InAtSnoc(list + [join], leave, false, x);
      } else {
        assert EventsOf(s) == [join];
      }
      if s.joined <= x {
        NotMemberAfter(stays, pool, s.joined, x);
      }
    } else {
      assert list + [] == list;
    }
  }

  lemma {:induction false} ClosedMembership(stays: seq<Stay>, pool: nat, until: int, x: int)
    requires Closed(stays, until)
    ensures InAt(OfPool(Log(stays), pool), false, x) <==> MemberAt(stays, pool, x)
  {
    if stays != [] {
      var init, s := stays[..|stays| - 1], stays[|stays| - 1];
      assert stays == init + [s];
      ClosedMembership(init, pool, s.joined, x);
      StayMembership(init, s, pool, x);
    }
  }

  /** The pool's events in the log of a history: in order, alternating, and true to it. */
  lemma HistoryLogged(stays: seq<Stay>, pool: nat, x: int)
    requires History(stays)
    ensures SortedUntil(Log(stays), stays[|stays| - 1].joined)
    ensures Alternates(OfPool(Log(stays), pool), false)
    ensures InAt(OfPool(Log(stays), pool), false, x) <==> MemberAt(stays, pool, x)
  {
    var init, s := stays[..|stays| - 1], stays[|stays| - 1];
    assert stays == init + [s];
    ClosedLogSorted(init, s.joined);
    ClosedLogAlternates(init, pool, s.joined);
    ClosedMembership(init, pool, s.joined, x);
    StayMembership(init, s, pool, x);
    OfPoolSnoc(Log(init), s, pool);
    assert EventsOf(s)[1..] == [];
    AlternatesConcat(OfPool(Log(init), pool), EventsOf(s), false);
    assert OfPool(Log(init), pool) + [] == OfPool(Log(init), pool);
  }

  // ---------- main results ----------

  function RangesFor(log: seq<Event>, pool: nat, start: int, end: int): seq<(int, int)> {
    Ranges(FromPool(log, pool, start, end), JoinedBefore(PriorEvent(log, pool, start)), start, start, end)
  }

  /** What the window query and the prior event tell the loop. */
  lemma WindowFacts(stays: seq<Stay>, pool: nat, start: int, end: int, x: int)
    requires History(stays) && start <= end
    ensures var log := Log(stays);
            var list, joined := FromPool(log, pool, start, end), JoinedBefore(PriorEvent(log, pool, start));
            Sorted(list) && Alternates(list, joined) &&
            (forall i :: 0 <= i < |list| ==> start <= list[i].at <= end) &&
            (start <= x <= end ==> (InAt(list, joined, x) <==> MemberAt(stays, pool, x)))
  {
    hide Alternates, InAt, Log, MemberAt, Where;
    HistoryLogged(stays, pool, x);
    var log := Log(stays);
    var until := stays[|stays| - 1].joined;
    var a, m, b := BeforePool(log, pool, start), FromPool(log, pool, start, end), AfterPool(log, pool, end);
    WindowCuts(log, pool, start, end);
    WhereKeepsOrder(log, (e: Event) => e.pool == pool && e.at < start, until);
    WhereKeepsOrder(log, (e: Event) => e.pool == pool && start <= e.at <= end, until);
    WhereKeepsOrder(log, (e: Event) => e.pool == pool && end < e.at, until);
    WhereKeepsOrder(log, (e: Event) => e.pool == pool, until);
    assert a + m + b == a + (m + b);
    assert JoinedBefore(PriorEvent(log, pool, start)) == FinallyIn(a, false);
    AlternatesConcat(a, m + b, false);
    AlternatesConcat(m, b, FinallyIn(a, false));
    if start <= x <= end {
      WindowMiddle(a, m, b, x);
    }
  }

  lemma WindowMiddle(a: seq<Event>, m: seq<Event>, b: seq<Event>, x: int)
    requires Sorted(a + (m + b))
    requires forall i :: 0 <= i < |a| ==> a[i].at <= x
    requires forall i :: 0 <= i < |b| ==> x < b[i].at
    ensures InAt(a + (m + b), false, x) == InAt(m, FinallyIn(a, false), x)
  {
    InAtConcat(a, m + b, false, x);
    var all := a + (m + b);
    assert forall i :: 0 <= i < |m + b| ==> (m + b)[i] == all[|a| + i];
    InAtConcat(m, b, FinallyIn(a, false), x);
  }

  /** The ranges cover exactly the times in the window at which the host was in the pool. */
  lemma RangesAreTheMembership(stays: seq<Stay>, pool: nat, start: int, end: int, x: int)
    requires History(stays)
    ensures Covered(RangesFor(Log(stays), pool, start, end), x) <==>
            start <= x < end && MemberAt(stays, pool, x)
  {
    var log := Log(stays);
    var joined := JoinedBefore(PriorEvent(log, pool, start));
    if start <= end {
      WindowFacts(stays, pool, start, end, x);
      RangesCover(FromPool(log, pool, start, end), joined, start, start, end, start, x);
    } else {
      WhereNone(log, (e: Event) => e.pool == pool && start <= e.at <= end);
    }
  }

  /** They are ordered, do not overlap and stay inside the window. */
  lemma RangesAreDisjoint(stays: seq<Stay>, pool: nat, start: int, end: int)
    requires History(stays) && start <= end
    ensures OrderedWithin(RangesFor(Log(stays), pool, start, end), start, end)
  {
    var log := Log(stays);
    WindowFacts(stays, pool, start, end, start);
    RangesAreOrdered(FromPool(log, pool, start, end), JoinedBefore(PriorEvent(log, pool, start)),
                     start, start, end, start);
  }
}
