/**
 * The per-key request limiter. It stores one count and one time per key, and a daily cleanup
 * deletes rows. What it decides is compared with a limiter that remembers every accepted call.
 * Calls are serial: one call's SELECT and write have no other call between them.
 */
module WorkerRateLimit {
  import opened Sequences

  const RETENTION_MS := 24 * 60 * 60 * 1000

  datatype Row = Row(count: int, last: int)

  type Table = map<string, Row>

  /** Times are in milliseconds. Keys are trimmed; the empty key is never limited. */
  datatype Event =
    | Call(key: string, window: int, max: int, now: int)
    | Cleanup(now: int)

  // ---------------------------------------------------------------------------------------
  // What is stored
  // ---------------------------------------------------------------------------------------

  predicate Fresh(rows: Table, c: Event)
    requires c.Call?
  {
    c.key !in rows || rows[c.key].last < c.now - c.window
  }

  predicate Accepts(rows: Table, c: Event)
    requires c.Call?
  {
    c.key == "" || Fresh(rows, c) || rows[c.key].count < c.max
  }

  function Kept(rows: Table, now: int): Table {
    map k | k in rows && !(rows[k].last < now - RETENTION_MS) :: rows[k]
  }

  function After(rows: Table, e: Event): Table {
    match e
    case Cleanup(now) => Kept(rows, now)
    case Call(key, _, _, now) =>
      if key == "" || !Accepts(rows, e) then rows
      else rows[key := Row(if Fresh(rows, e) then 1 else rows[key].count + 1, now)]
  }

  function Rows(events: seq<Event>): Table {
    if events == [] then map[] else After(Rows(Front(events)), Last(events))
  }

  // ---------------------------------------------------------------------------------------
  // The limiter that remembers
  // ---------------------------------------------------------------------------------------

  /** The length of the last run of accepted calls with no gap longer than the window. */
  function Burst(times: seq<int>, window: int): nat {
    if times == [] then 0
    else
      var front := Front(times);
      if front == [] || Last(front) < Last(times) - window then 1 else Burst(front, window) + 1
  }

  /** The limiter refuses a call that comes within the window of a burst of maximal length. */
  predicate Allowed(times: seq<int>, window: int, max: int, now: int) {
    times == [] || Last(times) < now - window || Burst(times, window) < max
  }

  function Remember(times: seq<int>, e: Event, key: string): seq<int> {
    if e.Call? && e.key == key && Allowed(times, e.window, e.max, e.now) then times + [e.now] else times
  }

  /** The times of a key's accepted calls. Cleanups play no part. */
  function AcceptedTimes(events: seq<Event>, key: string): seq<int> {
    if events == [] then [] else Remember(AcceptedTimes(Front(events), key), Last(events), key)
  }

  // ---------------------------------------------------------------------------------------
  // They decide alike
  // ---------------------------------------------------------------------------------------

  ghost predicate ClockRuns(events: seq<Event>) {
    forall i, j :: 0 <= i < j < |events| ==> events[i].now <= events[j].now
  }

  ghost predicate SameLimits(events: seq<Event>, key: string, window: int, max: int) {
    forall i :: 0 <= i < |events| && events[i].Call? && events[i].key == key ==>
      events[i].window == window && events[i].max == max
  }

  ghost predicate NoCleanup(events: seq<Event>) {
    forall i :: 0 <= i < |events| ==> events[i].Call?
  }

  /** A serial run whose cleanups, if any, keep rows at least as long as the window. */
  ghost predicate Serial(events: seq<Event>, key: string, window: int, max: int) {
    && key != "" && ClockRuns(events) && SameLimits(events, key, window, max)
    && (window <= RETENTION_MS || NoCleanup(events))
  }

  ghost predicate Tracks(rows: Table, times: seq<int>, key: string, window: int, clock: int) {
    if key in rows then times != [] && rows[key] == Row(Burst(times, window), Last(times))
    else times == [] || Last(times) < clock - window
  }

  lemma BurstExtends(times: seq<int>, window: int, now: int)
    ensures Last(times + [now]) == now
    ensures Burst(times + [now], window) ==
              if times == [] || Last(times) < now - window then 1 else Burst(times, window) + 1
  {
    assert Front(times + [now]) == times;
  }

  lemma StepTracks(rows: Table, times: seq<int>, key: string, window: int, clock: int, e: Event)
    requires key != "" && Tracks(rows, times, key, window, clock) && clock <= e.now
    requires e.Call? && e.key == key ==> e.window == window
    requires e.Cleanup? ==> window <= RETENTION_MS
    ensures Tracks(After(rows, e), Remember(times, e, key), key, window, e.now)
  {
    BurstExtends(times, window, e.now);
    hide Burst;
  }

  lemma SerialFront(events: seq<Event>, key: string, window: int, max: int)
    requires Serial(events, key, window, max) && events != []
    ensures Serial(Front(events), key, window, max)
    ensures forall i :: 0 <= i < |events| ==> events[i].now <= Last(events).now
    ensures Last(events).Cleanup? ==> window <= RETENTION_MS
  {
    var front := Front(events);
    assert forall i :: 0 <= i < |front| ==> front[i] == events[i];
  }

  lemma {:induction false} RowsTrackBursts(events: seq<Event>, key: string, window: int, max: int, clock: int)
    requires Serial(events, key, window, max)
    requires forall i :: 0 <= i < |events| ==> events[i].now <= clock
    ensures Tracks(Rows(events), AcceptedTimes(events, key), key, window, clock)
  {
    if events != [] {
      var e := Last(events);
      SerialFront(events, key, window, max);
      RowsTrackBursts(Front(events), key, window, max, e.now);
      StepTracks(Rows(Front(events)), AcceptedTimes(Front(events), key), key, window, e.now, e);
    }
  }

  /**
   * The stored row decides every call as the full history would: refused exactly when the last
   * accepted call is within the window and its burst has reached the maximum.
   */
  lemma DecisionsFollowHistory(events: seq<Event>, c: Event)
    requires c.Call? && Serial(events + [c], c.key, c.window, c.max)
    ensures Accepts(Rows(events), c) <==> Allowed(AcceptedTimes(events, c.key), c.window, c.max, c.now)
  {
    var run := events + [c];
    assert Front(run) == events && Last(run) == c;
    SerialFront(run, c.key, c.window, c.max);
    assert forall i :: 0 <= i < |events| ==> events[i] == run[i];
    RowsTrackBursts(events, c.key, c.window, c.max, c.now);
  }

  /** The last so many accepted calls, each no more than the window after the one before. */
  ghost predicate Close(times: seq<int>, window: int, n: nat) {
    n <= |times| && forall i :: |times| - n < i < |times| ==> times[i] - times[i - 1] <= window
  }

  lemma {:induction false} BurstAtLeast(times: seq<int>, window: int, n: nat)
    ensures n >= 1 ==> (Burst(times, window) >= n <==> Close(times, window, n))
  {
    if times != [] && n >= 2 {
      var front := Front(times);
      BurstAtLeast(front, window, n - 1);
      assert forall i :: 0 <= i < |front| ==> front[i] == times[i];
    }
  }

  /**
   * A call is refused exactly when it comes no more than the window after the last accepted one and the
   * last maximum of accepted calls, or just the last one, came no more than the window apart.
   */
  lemma RefusedIff(events: seq<Event>, c: Event)
    requires c.Call? && Serial(events + [c], c.key, c.window, c.max)
    ensures var times := AcceptedTimes(events, c.key);
            !Accepts(Rows(events), c) <==>
            times != [] && c.now - Last(times) <= c.window && Close(times, c.window, if c.max < 1 then 1 else c.max)
  {
    DecisionsFollowHistory(events, c);
    BurstAtLeast(AcceptedTimes(events, c.key), c.window, if c.max < 1 then 1 else c.max);
  }

  /** The accepted times are those of the calls that the stored rows accept. */
  lemma AcceptedGrow(events: seq<Event>, c: Event)
    requires c.Call? && Serial(events + [c], c.key, c.window, c.max)
    ensures AcceptedTimes(events + [c], c.key) ==
            AcceptedTimes(events, c.key) + if Accepts(Rows(events), c) then [c.now] else []
  {
    assert Front(events + [c]) == events && Last(events + [c]) == c;
    DecisionsFollowHistory(events, c);
  }

  function WithoutCleanups(events: seq<Event>): seq<Event> {
    if events == [] then []
    else WithoutCleanups(Front(events)) + if Last(events).Call? then [Last(events)] else []
  }

  lemma {:induction false} TimesIgnoreCleanups(events: seq<Event>, key: string)
    ensures AcceptedTimes(WithoutCleanups(events), key) == AcceptedTimes(events, key)
  {
    if events != [] {
      TimesIgnoreCleanups(Front(events), key);
      var calls := WithoutCleanups(Front(events));
      if Last(events).Call? {
        assert Front(calls + [Last(events)]) == calls;
      } else {
        assert WithoutCleanups(events) == calls;
      }
    }
  }

  lemma {:induction false} WithoutCleanupsIsSerial(
    events: seq<Event>, key: string, window: int, max: int, clock: int)
    requires Serial(events, key, window, max)
    requires forall i :: 0 <= i < |events| ==> events[i].now <= clock
    ensures Serial(WithoutCleanups(events), key, window, max) && NoCleanup(WithoutCleanups(events))
    ensures forall i :: 0 <= i < |WithoutCleanups(events)| ==> WithoutCleanups(events)[i].now <= clock
  {
    if events != [] {
      SerialFront(events, key, window, max);
      WithoutCleanupsIsSerial(Front(events), key, window, max, Last(events).now);
    }
  }

  /** Cleanups that keep rows at least as long as the window change no decision. */
  lemma CleanupsChangeNoDecision(events: seq<Event>, c: Event)
    requires c.Call? && Serial(events + [c], c.key, c.window, c.max)
    ensures Accepts(Rows(events), c) == Accepts(Rows(WithoutCleanups(events)), c)
  {
    var run := events + [c];
    assert Front(run) == events && Last(run) == c;
    assert WithoutCleanups(run) == WithoutCleanups(events) + [c];
    WithoutCleanupsIsSerial(run, c.key, c.window, c.max, c.now) by {
      SerialFront(run, c.key, c.window, c.max);
    }
    DecisionsFollowHistory(events, c);
    DecisionsFollowHistory(WithoutCleanups(events), c);
    TimesIgnoreCleanups(events, c.key);
  }

  /** With any longer window there is a run in which a cleanup lets a call through. */
  lemma CleanupsMatterBeyondRetention(window: int, key: string)
    requires window > 86400000 && key != ""
    ensures var first := Call(key, window, 1, 0);
            var again := Call(key, window, 1, window);
            ClockRuns([first, Cleanup(window), again])
            && Accepts(Rows([first, Cleanup(window)]), again) && !Accepts(Rows([first]), again)
  {
    var first := Call(key, window, 1, 0);
    assert Front([first]) == [] && Last([first]) == first;
    assert Rows([first]) == map[key := Row(1, 0)];
    assert Front([first, Cleanup(window)]) == [first] && Last([first, Cleanup(window)]) == Cleanup(window);
    assert key !in Rows([first, Cleanup(window)]);
  }

  // ---------------------------------------------------------------------------------------
  // What that guarantees
  // ---------------------------------------------------------------------------------------

  /** How many of the times lie in the closed interval. */
  function CountIn(times: seq<int>, start: int, end: int): nat {
    if times == [] then 0
    else CountIn(Front(times), start, end) + if start <= Last(times) <= end then 1 else 0
  }

  ghost predicate Ordered(times: seq<int>) {
    forall i, j :: 0 <= i < j < |times| ==> times[i] <= times[j]
  }

  lemma {:induction false} NoneInside(times: seq<int>, start: int, end: int)
    requires forall i :: 0 <= i < |times| ==> times[i] < start
    ensures CountIn(times, start, end) == 0
  {
    if times != [] {
      NoneInside(Front(times), start, end);
    }
  }

  /** An interval that reaches back no further than the window sees only the last burst. */
  lemma {:induction false} BurstCovers(times: seq<int>, window: int, start: int, end: int)
    requires Ordered(times) && (times != [] ==> Last(times) - window <= start)
    ensures CountIn(times, start, end) <= Burst(times, window)
  {
    if times != [] {
      var front := Front(times);
      if front != [] && Last(front) < Last(times) - window {
        NoneInside(front, start, end);
      } else if front != [] {
        assert Last(front) <= Last(times);
        BurstCovers(front, window, start, end);
      }
    }
  }

  lemma {:induction false} TimesOrdered(events: seq<Event>, key: string, clock: int)
    requires ClockRuns(events) && forall i :: 0 <= i < |events| ==> events[i].now <= clock
    ensures Ordered(AcceptedTimes(events, key))
    ensures forall i :: 0 <= i < |AcceptedTimes(events, key)| ==> AcceptedTimes(events, key)[i] <= clock
  {
    if events != [] {
      TimesOrdered(Front(events), key, Last(events).now);
    }
  }

  /** The bound the limiter keeps. A first call is accepted even when the maximum is not positive. */
  function Bound(max: int): nat {
    if max < 1 then 1 else max
  }

  lemma {:induction false} BurstsBounded(events: seq<Event>, key: string, window: int, max: int)
    requires SameLimits(events, key, window, max)
    ensures Burst(AcceptedTimes(events, key), window) <= Bound(max)
  {
    if events != [] {
      var before := AcceptedTimes(Front(events), key);
      assert SameLimits(Front(events), key, window, max);
      BurstsBounded(Front(events), key, window, max);
      assert Front(before + [Last(events).now]) == before;
      assert Last(events) == events[|events| - 1];
    }
  }

  /** Every closed interval of the window's length holds at most the maximum of a key's accepted calls. */
  lemma {:induction false} SlidingWindow(events: seq<Event>, key: string, window: int, max: int, start: int)
    requires Serial(events, key, window, max)
    ensures CountIn(AcceptedTimes(events, key), start, start + window) <= Bound(max)
  {
    if events != [] {
      SerialFront(events, key, window, max);
      SlidingWindow(Front(events), key, window, max, start);
      var times := AcceptedTimes(events, key);
      if times != AcceptedTimes(Front(events), key) && start <= Last(times) <= start + window {
        TimesOrdered(events, key, Last(events).now);
        BurstsBounded(events, key, window, max);
        BurstCovers(times, window, start, start + window);
      } else if times != AcceptedTimes(Front(events), key) {
        assert Front(times) == AcceptedTimes(Front(events), key);
      }
    }
  }

  lemma FirstCallAccepted(key: string, window: int, max: int, now: int)
    requires key != ""
    ensures var run := [Call(key, window, max, now)];
            Serial(run, key, window, max) && Accepts(Rows([]), run[0]) && AcceptedTimes(run, key) == [now]
  {
    var c := Call(key, window, max, now);
    assert Front([c]) == [] && Last([c]) == c;
    assert AcceptedTimes([], key) == [];
  }

  ghost predicate KeepsMaximum(events: seq<Event>, key: string, window: int, max: int, start: int) {
    CountIn(AcceptedTimes(events, key), start, start + window) <= max
  }

  /** So the maximum itself is kept in every serial run exactly when it is positive. */
  lemma MaximumKeptIffPositive(key: string, window: int, max: int)
    requires key != "" && 0 <= window
    ensures (forall events, start :: Serial(events, key, window, max) ==>
               KeepsMaximum(events, key, window, max, start))
            <==> max >= 1
  {
    if max >= 1 {
      forall events, start | Serial(events, key, window, max)
        ensures KeepsMaximum(events, key, window, max, start)
      {
        SlidingWindow(events, key, window, max, start);
      }
    } else {
      FirstCallAccepted(key, window, max, 0);
      var run := [Call(key, window, max, 0)];
      assert Front([0]) == [] && Last([0]) == 0;
      assert CountIn([0], 0, window) == 1;
      assert !KeepsMaximum(run, key, window, max, 0);
    }
  }

  // ---------------------------------------------------------------------------------------
  // The limiter
  // ---------------------------------------------------------------------------------------

  class WorkerRateLimiter {
    var rows: Table
    ghost var events: seq<Event>

    ghost predicate Valid()
      reads this
    {
      rows == Rows(events)
    }

    constructor ()
      ensures Valid() && events == []
    {
      rows, events := map[], [];
    }

    method Enforce(key: string, windowSeconds: int, maxRequests: int, now: int) returns (accepted: bool)
      requires Valid()
      modifies this
      ensures Valid() && events == old(events) + [Call(key, windowSeconds * 1000, maxRequests, now)]
      ensures Serial(events, key, windowSeconds * 1000, maxRequests) ==>
                (accepted <==> Allowed(AcceptedTimes(old(events), key), windowSeconds * 1000, maxRequests, now))
      ensures !accepted ==> rows == old(rows)
      ensures rows - {key} == old(rows) - {key}
    {
      ghost var c := Call(key, windowSeconds * 1000, maxRequests, now);
      events := events + [c];
      assert Front(events) == old(events) && Last(events) == c;
      if Serial(events, key, windowSeconds * 1000, maxRequests) {
        DecisionsFollowHistory(old(events), c);
      }
      if key == "" {
        return true;
      }
      var windowStart := now - windowSeconds * 1000;
      if key !in rows || rows[key].last < windowStart {
        rows := rows[key := Row(1, now)];
        return true;
      }
      var currentCount := rows[key].count;
      if currentCount >= maxRequests {
        return false;
      }
      rows := rows[key := Row(currentCount + 1, now)];
      return true;
    }

    method CleanupExpired(now: int)
      requires Valid()
      modifies this
      ensures Valid() && events == old(events) + [Cleanup(now)]
      ensures forall key :: key in rows <==> key in old(rows) && old(rows)[key].last >= now - 86400000
    {
      rows := Kept(rows, now);
      events := events + [Cleanup(now)];
      assert Front(events) == old(events);
    }
  }
}
