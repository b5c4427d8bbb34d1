/**
 * The rate limiter: a signal follower with bounded rate, optional bounded acceleration, a snap onto
 * the target and a clamp. Values, rates and times are reals.
 */
module RateLimiter {
  import opened Reals
  import opened Sequences
  import opened Wrappers

  /** The parameters as given; the rates and the acceleration are never negative. */
  datatype Params = Params(inMin: real, inMax: real, maxRateUp: real, maxRateDown: real, maxAccel: real)

  /** The output so far, its velocity, and when it last moved. */
  datatype Motion = Motion(y: Option<real>, v: real, lastTime: Option<real>)

  /** A move from one reading to the next. */
  datatype Move = Move(y: real, v: real, snapped: bool)

  const SHORTEST_STEP := 0.000001
  const AtRest := Motion(None, 0.0, None)

  function Clamp(value: real, lo: real, hi: real): real {
    Max(lo, Min(hi, value))
  }

  function Lo(p: Params): real {
    Min(p.inMin, p.inMax)
  }

  function Hi(p: Params): real {
    Max(p.inMin, p.inMax)
  }

  ghost predicate Proper(p: Params) {
    p.maxRateUp >= 0.0 && p.maxRateDown >= 0.0 && p.maxAccel >= 0.0
  }

  /** What a rate comes to over a time. */
  function Over(rate: real, dt: real): real {
    rate * dt
  }

  // ---------------------------------------------------------------------------------------
  // One step
  // ---------------------------------------------------------------------------------------

  function Interval(last: real, now: real): (dt: real)
    ensures dt > 0.0
  {
    Max(SHORTEST_STEP, now - last)
  }

  function DesiredVelocity(p: Params, err: real, dt: real): real
    requires dt > 0.0
  {
    var v := err / dt;
    if v > 0.0 then Min(v, p.maxRateUp) else Max(v, -p.maxRateDown)
  }

  function NextVelocity(p: Params, v: real, desired: real, dt: real): real {
    if p.maxAccel > 0.0 then v + Clamp(desired - v, -Over(p.maxAccel, dt), Over(p.maxAccel, dt)) else desired
  }

  predicate Overshoots(target: real, y: real, y': real) {
    var err := target - y;
    err != 0.0 && (target - y') * err < 0.0
  }

  function Moved(p: Params, y: real, v: real, target: real, dt: real): Move
    requires dt > 0.0
  {
    var v' := NextVelocity(p, v, DesiredVelocity(p, target - y, dt), dt);
    var y' := y + Over(v', dt);
    if Overshoots(target, y, y')
    then Move(Clamp(target, Lo(p), Hi(p)), 0.0, true)
    else Move(Clamp(y', Lo(p), Hi(p)), v', false)
  }

  function Stepped(p: Params, m: Motion, x: real, now: real): (m': Motion)
    ensures m'.y.Some?
  {
    var target := Clamp(x, Lo(p), Hi(p));
    if m.y.None? then Motion(Some(target), 0.0, Some(now))
    else if m.lastTime.None? then m.(lastTime := Some(now))
    else
      var move := Moved(p, m.y.value, m.v, target, Interval(m.lastTime.value, now));
      Motion(Some(move.y), move.v, Some(now))
  }

  // ---------------------------------------------------------------------------------------
  // Rates and times
  // ---------------------------------------------------------------------------------------

  lemma OverGrows(a: real, b: real, dt: real)
    requires a <= b && dt >= 0.0
    ensures Over(a, dt) <= Over(b, dt)
    ensures a >= 0.0 ==> Over(a, dt) >= 0.0
  {
  }

  lemma OverSplits(rate: real, dt: real, dt': real)
    ensures Over(rate, dt + dt') == Over(rate, dt) + Over(rate, dt')
    ensures Over(-rate, dt) == -Over(rate, dt) && Over(0.0, dt) == 0.0
  {
  }

  lemma OverSign(rate: real, dt: real)
    requires dt > 0.0
    ensures (Over(rate, dt) > 0.0 <==> rate > 0.0) && (Over(rate, dt) < 0.0 <==> rate < 0.0)
  {
  }

  lemma SignOfProduct(a: real, b: real)
    ensures a * b < 0.0 <==> (a < 0.0 && b > 0.0) || (a > 0.0 && b < 0.0)
  {
  }

  lemma OvershootsIff(target: real, y: real, y': real)
    ensures Overshoots(target, y, y') <==> y < target < y' || y' < target < y
  {
    SignOfProduct(target - y', target - y);
  }

  lemma QuotientCovers(err: real, dt: real)
    requires dt > 0.0
    ensures Over(err / dt, dt) == err && (err / dt > 0.0 <==> err > 0.0)
  {
    assert err / dt * dt == err;
    OverSign(err / dt, dt);
  }

  // ---------------------------------------------------------------------------------------
  // What one move does
  // ---------------------------------------------------------------------------------------

  /** Where the output and its velocity always are. */
  ghost predicate Bounded(p: Params, y: real, v: real) {
    Lo(p) <= y <= Hi(p) && -p.maxRateDown <= v <= p.maxRateUp
  }

  /** The desired velocity would cover the error, or as much of it as the rates allow. */
  lemma DesiredCovers(p: Params, err: real, dt: real)
    requires Proper(p) && dt > 0.0
    ensures var d := DesiredVelocity(p, err, dt);
            && -p.maxRateDown <= d <= p.maxRateUp
            && Over(d, dt) == Clamp(err, -Over(p.maxRateDown, dt), Over(p.maxRateUp, dt))
            && (err > 0.0 ==> d >= 0.0) && (err < 0.0 ==> d <= 0.0) && (err == 0.0 ==> d == 0.0)
            && (0.0 <= d < p.maxRateUp && err >= 0.0 ==> Over(d, dt) == err)
  {
    var q := err / dt;
    QuotientCovers(err, dt);
    OverSplits(p.maxRateDown, dt, 0.0);
    OverGrows(0.0, p.maxRateUp, dt);
    OverGrows(0.0, p.maxRateDown, dt);
    if q > 0.0 {
      if q <= p.maxRateUp {
        OverGrows(q, p.maxRateUp, dt);
      } else {
        OverGrows(p.maxRateUp, q, dt);
      }
    } else if q >= -p.maxRateDown {
      OverGrows(-p.maxRateDown, q, dt);
    } else {
      OverGrows(q, -p.maxRateDown, dt);
    }
    hide Over;
  }

  lemma ClampBetween(value: real, lo: real, hi: real)
    requires lo <= hi
    ensures lo <= Clamp(value, lo, hi) <= hi
    ensures lo <= value <= hi ==> Clamp(value, lo, hi) == value
  {
  }

  /** The velocity moves towards the desired one, by no more than the acceleration allows. */
  lemma VelocityApproaches(p: Params, v: real, desired: real, dt: real)
    requires Proper(p) && dt > 0.0
    ensures var v' := NextVelocity(p, v, desired, dt);
            if p.maxAccel == 0.0 then v' == desired
            else v' == if v <= desired then Min(desired, v + Over(p.maxAccel, dt))
                       else Max(desired, v - Over(p.maxAccel, dt))
    ensures var v' := NextVelocity(p, v, desired, dt);
            && Min(v, desired) <= v' <= Max(v, desired)
            && (p.maxAccel > 0.0 ==> -Over(p.maxAccel, dt) <= v' - v <= Over(p.maxAccel, dt))
  {
    OverGrows(0.0, p.maxAccel, dt);
    hide Over;
  }

  /** Where a step of some length ends: no further than the step, and not across the target. */
  lemma Landing(p: Params, y: real, target: real, step: real, low: real, high: real)
    requires Lo(p) <= y <= Hi(p) && Lo(p) <= target <= Hi(p) && low <= step <= high && low <= 0.0 <= high
    ensures var y' := if y < target < y + step || y + step < target < y then target else y + step;
            var landed := Clamp(y', Lo(p), Hi(p));
            && Lo(p) <= landed <= Hi(p) && low <= landed - y <= high
            && (y < target ==> landed <= target) && (y > target ==> landed >= target)
            && (y' == target ==> landed == target)
  {
  }

  /**
   * A move keeps output and velocity in bounds, changes the output by no more than the rates allow and
   * the velocity by no more than the acceleration allows, except that a snap stops it on the target; and
   * it never carries the output across the target.
   */
  lemma MoveKeepsLimits(p: Params, y: real, v: real, target: real, dt: real)
    requires Proper(p) && Bounded(p, y, v) && Lo(p) <= target <= Hi(p) && dt > 0.0
    ensures var move := Moved(p, y, v, target, dt);
            && Bounded(p, move.y, move.v)
            && -Over(p.maxRateDown, dt) <= move.y - y <= Over(p.maxRateUp, dt)
            && (move.snapped ==> move.y == target && move.v == 0.0)
            && (p.maxAccel > 0.0 && !move.snapped ==> -Over(p.maxAccel, dt) <= move.v - v <= Over(p.maxAccel, dt))
            && (y < target ==> move.y <= target) && (y > target ==> move.y >= target)
  {
    var d := DesiredVelocity(p, target - y, dt);
    var v' := NextVelocity(p, v, d, dt);
    DesiredCovers(p, target - y, dt);
    VelocityApproaches(p, v, d, dt);
    OverSplits(p.maxRateDown, dt, 0.0);
    OverGrows(-p.maxRateDown, v', dt);
    OverGrows(v', p.maxRateUp, dt);
    OverGrows(0.0, p.maxRateUp, dt);
    OverGrows(0.0, p.maxRateDown, dt);
    OvershootsIff(target, y, y + Over(v', dt));
    hide Over, DesiredVelocity, NextVelocity, Overshoots;
    Landing(p, y, target, Over(v', dt), -Over(p.maxRateDown, dt), Over(p.maxRateUp, dt));
  }

  /** Without an acceleration limit a move covers the error, or as much of it as the rates allow. */
  lemma MoveWithoutAccel(p: Params, y: real, v: real, target: real, dt: real)
    requires Proper(p) && p.maxAccel == 0.0 && Lo(p) <= y <= Hi(p) && Lo(p) <= target <= Hi(p) && dt > 0.0
    ensures Moved(p, y, v, target, dt).y == y + Clamp(target - y, -Over(p.maxRateDown, dt), Over(p.maxRateUp, dt))
  {
    DesiredCovers(p, target - y, dt);
    OverGrows(0.0, p.maxRateUp, dt);
    OverGrows(0.0, p.maxRateDown, dt);
    OvershootsIff(target, y, y + Over(DesiredVelocity(p, target - y, dt), dt));
    hide Over, DesiredVelocity, Overshoots;
  }

  /** On the target with some velocity left, the output stays only if braking suffices or a bound stops it. */
  lemma StaysOnTargetIff(p: Params, y: real, v: real, dt: real)
    requires Proper(p) && Bounded(p, y, v) && dt > 0.0
    ensures Moved(p, y, v, y, dt).y == y <==>
            || p.maxAccel == 0.0 || -Over(p.maxAccel, dt) <= v <= Over(p.maxAccel, dt)
            || (v > 0.0 && y == Hi(p)) || (v < 0.0 && y == Lo(p))
  {
    DesiredCovers(p, 0.0, dt);
    VelocityApproaches(p, v, 0.0, dt);
    OverGrows(0.0, p.maxAccel, dt);
    OverSign(NextVelocity(p, v, 0.0, dt), dt);
    OvershootsIff(y, y, y + Over(NextVelocity(p, v, 0.0, dt), dt));
    hide Over, DesiredVelocity, NextVelocity, Overshoots;
  }

  // ---------------------------------------------------------------------------------------
  // Whole runs
  // ---------------------------------------------------------------------------------------

  /** An input read at a time, or a lifecycle change, which forgets the time of the last move. */
  datatype Event = Tick(x: real, now: real) | Lifecycle

  function Next(p: Params, m: Motion, e: Event): Motion {
    if e.Tick? then Stepped(p, m, e.x, e.now) else m.(lastTime := None)
  }

  function Run(p: Params, events: seq<Event>): Motion {
    if events == [] then AtRest else Next(p, Run(p, Front(events)), Last(events))
  }

  ghost predicate Sound(p: Params, m: Motion) {
    if m.y.Some? then Bounded(p, m.y.value, m.v) else m.v == 0.0
  }

  lemma NextKeeps(p: Params, m: Motion, e: Event)
    requires Proper(p) && Sound(p, m)
    ensures Sound(p, Next(p, m, e))
  {
    if e.Tick? {
      ClampBetween(e.x, Lo(p), Hi(p));
      if m.y.Some? && m.lastTime.Some? {
        MoveKeepsLimits(p, m.y.value, m.v, Clamp(e.x, Lo(p), Hi(p)), Interval(m.lastTime.value, e.now));
      }
      hide Moved, Clamp;
    }
  }

  /** With fixed parameters the output never leaves its bounds nor the velocity its rates. */
  lemma {:induction false} RunKeeps(p: Params, events: seq<Event>)
    requires Proper(p)
    ensures Sound(p, Run(p, events))
  {
    if events != [] {
      RunKeeps(p, Front(events));
      NextKeeps(p, Run(p, Front(events)), Last(events));
      hide Next;
    }
  }

  /** The time a step is taken to cover: none at first or after a lifecycle change, else at least a microsecond. */
  function Covered(m: Motion, now: real): real {
    if m.y.None? || m.lastTime.None? then 0.0 else Interval(m.lastTime.value, now)
  }

  /** In every run, a reading moves the output no faster than the rates and never across its target. */
  lemma EveryStepKeepsLimits(p: Params, events: seq<Event>, x: real, now: real)
    requires Proper(p) && Run(p, events).y.Some?
    ensures var m, m' := Run(p, events), Stepped(p, Run(p, events), x, now);
            var dt, target := Covered(m, now), Clamp(x, Lo(p), Hi(p));
            && -Over(p.maxRateDown, dt) <= m'.y.value - m.y.value <= Over(p.maxRateUp, dt)
            && (m.y.value < target ==> m'.y.value <= target) && (m.y.value > target ==> m'.y.value >= target)
            && (p.maxAccel > 0.0 ==>
                  -Over(p.maxAccel, dt) <= m'.v - m.v <= Over(p.maxAccel, dt) || (m'.y.value == target && m'.v == 0.0))
  {
    RunKeeps(p, events);
    ClampBetween(x, Lo(p), Hi(p));
    var m := Run(p, events);
    if m.lastTime.Some? {
      MoveKeepsLimits(p, m.y.value, m.v, Clamp(x, Lo(p), Hi(p)), Interval(m.lastTime.value, now));
    }
    OverSplits(p.maxRateDown, 0.0, 0.0);
    OverSplits(p.maxRateUp, 0.0, 0.0);
    OverSplits(p.maxAccel, 0.0, 0.0);
    hide Over, Moved, Clamp, Run;
  }

  // ---------------------------------------------------------------------------------------
  // First readings, and readings after a lifecycle change
  // ---------------------------------------------------------------------------------------

  lemma RunGrows(p: Params, events: seq<Event>, e: Event)
    ensures Run(p, events + [e]) == Next(p, Run(p, events), e)
  {
    assert Front(events + [e]) == events && Last(events + [e]) == e;
  }

  ghost predicate NoReading(events: seq<Event>) {
    forall i :: 0 <= i < |events| ==> events[i].Lifecycle?
  }

  lemma {:induction false} NothingYet(p: Params, events: seq<Event>)
    requires NoReading(events)
    ensures Run(p, events).y == None
  {
    if events != [] {
      NothingYet(p, Front(events));
    }
  }

  /** The first reading is given as it is where the bounds, in either order, allow it, and is at rest. */
  lemma FirstReading(p: Params, events: seq<Event>, x: real, now: real)
    requires NoReading(events)
    ensures var m, a, b := Run(p, events + [Tick(x, now)]), p.inMin, p.inMax;
            && m.v == 0.0 && m.lastTime == Some(now) && m.y.Some?
            && (a <= x <= b || b <= x <= a ==> m.y.value == x)
            && (x < a <= b || x < b <= a ==> m.y.value == if a <= b then a else b)
            && (a <= b < x || b <= a < x ==> m.y.value == if a <= b then b else a)
  {
    NothingYet(p, events);
    RunGrows(p, events, Tick(x, now));
  }

  /** The reading after a lifecycle change moves nothing and only sets the clock. */
  lemma ReadingAfterLifecycle(p: Params, events: seq<Event>, x: real, now: real)
    requires Run(p, events).y.Some?
    ensures Run(p, events + [Lifecycle] + [Tick(x, now)]) == Run(p, events).(lastTime := Some(now))
  {
    RunGrows(p, events, Lifecycle);
    RunGrows(p, events + [Lifecycle], Tick(x, now));
    hide Moved;
  }

  /**
   * Any other reading without an acceleration limit moves the output to the clamped input as far as the
   * rates allow in the time since the last one, which counts as a microsecond at least.
   */
  lemma UnlimitedReading(p: Params, events: seq<Event>, x: real, now: real)
    requires Proper(p) && p.maxAccel == 0.0 && Run(p, events).y.Some? && Run(p, events).lastTime.Some?
    ensures var m, m' := Run(p, events), Run(p, events + [Tick(x, now)]);
            var dt := if now - m.lastTime.value < 0.000001 then 0.000001 else now - m.lastTime.value;
            var err := Clamp(x, Lo(p), Hi(p)) - m.y.value;
            && m'.lastTime == Some(now)
            && m'.y == Some(m.y.value + if err < -Over(p.maxRateDown, dt) then -Over(p.maxRateDown, dt)
                                        else if Over(p.maxRateUp, dt) < err then Over(p.maxRateUp, dt) else err)
  {
    RunKeeps(p, events);
    RunGrows(p, events, Tick(x, now));
    ClampBetween(x, Lo(p), Hi(p));
    var m := Run(p, events);
    var dt := Interval(m.lastTime.value, now);
    MoveWithoutAccel(p, m.y.value, m.v, Clamp(x, Lo(p), Hi(p)), dt);
    OverGrows(0.0, p.maxRateUp, dt);
    OverGrows(0.0, p.maxRateDown, dt);
    hide Over, Moved, Run;
  }

  // ---------------------------------------------------------------------------------------
  // A constant target, no acceleration limit
  // ---------------------------------------------------------------------------------------

  /** Following one input over several readings. */
  function Follow(p: Params, m: Motion, x: real, times: seq<real>): Motion {
    if times == [] then m else Stepped(p, Follow(p, m, x, Front(times)), x, Last(times))
  }

  ghost predicate Moving(p: Params, m: Motion) {
    m.y.Some? && m.lastTime.Some? && Bounded(p, m.y.value, m.v)
  }

  lemma {:induction false} FollowKeeps(p: Params, m: Motion, x: real, times: seq<real>)
    requires Proper(p) && Moving(p, m)
    ensures Moving(p, Follow(p, m, x, times))
    ensures Follow(p, m, x, times).lastTime == if times == [] then m.lastTime else Some(Last(times))
  {
    if times != [] {
      FollowKeeps(p, m, x, Front(times));
      NextKeeps(p, Follow(p, m, x, Front(times)), Tick(x, Last(times)));
      hide Moved, Clamp;
    }
  }

  function Elapsed(last: real, times: seq<real>): (total: real)
    ensures total >= 0.0
  {
    if times == [] then 0.0
    else
      var front := Front(times);
      Elapsed(last, front) + Interval(if front == [] then last else Last(front), Last(times))
  }

  lemma ClampsCompose(err: real, down: real, up: real, down': real, up': real)
    requires down >= 0.0 && up >= 0.0 && down' >= 0.0 && up' >= 0.0
    ensures var c := Clamp(err, -down, up);
            c + Clamp(err - c, -down', up') == Clamp(err, -(down + down'), up + up')
  {
  }

  /** However the time is cut into steps, the output has covered the error or what the rates allow in all of it. */
  lemma {:induction false} FollowCovers(p: Params, m: Motion, x: real, times: seq<real>)
    requires Proper(p) && p.maxAccel == 0.0 && Moving(p, m)
    ensures var e := Elapsed(m.lastTime.value, times);
            Follow(p, m, x, times).y == Some(m.y.value
              + Clamp(Clamp(x, Lo(p), Hi(p)) - m.y.value, -Over(p.maxRateDown, e), Over(p.maxRateUp, e)))
  {
    var target := Clamp(x, Lo(p), Hi(p));
    var err := target - m.y.value;
    OverSplits(p.maxRateDown, 0.0, 0.0);
    OverSplits(p.maxRateUp, 0.0, 0.0);
    if times == [] {
      hide Over;
    } else {
      var front := Front(times);
      FollowCovers(p, m, x, front);
      FollowKeeps(p, m, x, front);
      var before := Follow(p, m, x, front);
      var e := Elapsed(m.lastTime.value, front);
      var dt := Interval(before.lastTime.value, Last(times));
      ClampBetween(x, Lo(p), Hi(p));
      MoveWithoutAccel(p, before.y.value, before.v, target, dt);
      OverGrows(0.0, p.maxRateDown, e);
      OverGrows(0.0, p.maxRateUp, e);
      OverGrows(0.0, p.maxRateDown, dt);
      OverGrows(0.0, p.maxRateUp, dt);
      OverSplits(p.maxRateDown, e, dt);
      OverSplits(p.maxRateUp, e, dt);
      ClampsCompose(err, Over(p.maxRateDown, e), Over(p.maxRateUp, e), Over(p.maxRateDown, dt), Over(p.maxRateUp, dt));
      hide Over, Moved, Clamp;
    }
  }

  /** So a constant target is reached exactly when the rates could have covered the distance. */
  lemma ReachedIffTimeEnough(p: Params, m: Motion, x: real, times: seq<real>)
    requires Proper(p) && p.maxAccel == 0.0 && Moving(p, m)
    ensures var e, target := Elapsed(m.lastTime.value, times), Clamp(x, Lo(p), Hi(p));
            Follow(p, m, x, times).y == Some(target) <==>
            -Over(p.maxRateDown, e) <= target - m.y.value <= Over(p.maxRateUp, e)
  {
    FollowCovers(p, m, x, times);
    var e := Elapsed(m.lastTime.value, times);
    OverGrows(0.0, p.maxRateDown, e);
    OverGrows(0.0, p.maxRateUp, e);
    hide Over, Follow;
  }

  /** Every reading comes at least some time after the one before. */
  ghost predicate Spaced(last: real, times: seq<real>, gap: real) {
    times == [] ||
    (Spaced(last, Front(times), gap)
     && Interval(if Front(times) == [] then last else Last(Front(times)), Last(times)) >= gap)
  }

  /** What a number of such gaps come to at the least. */
  function Span(n: nat, gap: real): real {
    if n == 0 then 0.0 else Span(n - 1, gap) + gap
  }

  lemma {:induction false} ElapsedAtLeast(last: real, times: seq<real>, gap: real)
    requires Spaced(last, times, gap)
    ensures Elapsed(last, times) >= Span(|times|, gap)
  {
    if times != [] {
      ElapsedAtLeast(last, Front(times), gap);
    }
  }

  /** Without an acceleration limit, any constant target is reached within a number of steps fixed beforehand. */
  lemma ReachedWithin(p: Params, m: Motion, x: real, times: seq<real>, gap: real)
    requires Proper(p) && p.maxAccel == 0.0 && Moving(p, m) && Spaced(m.lastTime.value, times, gap)
    requires Hi(p) - Lo(p) <= Over(p.maxRateUp, Span(|times|, gap))
    requires Hi(p) - Lo(p) <= Over(p.maxRateDown, Span(|times|, gap))
    ensures Follow(p, m, x, times).y == Some(Clamp(x, Lo(p), Hi(p)))
  {
    var e, n := Elapsed(m.lastTime.value, times), Span(|times|, gap);
    ElapsedAtLeast(m.lastTime.value, times, gap);
    ReachedIffTimeEnough(p, m, x, times);
    ClampBetween(x, Lo(p), Hi(p));
    OverGrows(0.0, p.maxRateUp, e - n);
    OverGrows(0.0, p.maxRateDown, e - n);
    OverSplits(p.maxRateUp, n, e - n);
    OverSplits(p.maxRateDown, n, e - n);
    hide Over, Follow;
  }

  // ---------------------------------------------------------------------------------------
  // A constant target with an acceleration limit
  // ---------------------------------------------------------------------------------------

  /** Below the target, a step gets there or gains speed, up to the full rate, and moves at that speed. */
  lemma StepRises(p: Params, y: real, v: real, target: real, dt: real, gap: real)
    requires Proper(p) && p.maxAccel > 0.0 && Bounded(p, y, v) && y < target <= Hi(p) && 0.0 < gap <= dt
    ensures var move := Moved(p, y, v, target, dt);
            move.y == target
            || (y + Over(move.v, dt) <= move.y < target && move.v >= Min(p.maxRateUp, v + Over(p.maxAccel, gap)))
  {
    var err := target - y;
    var d := DesiredVelocity(p, err, dt);
    var v' := NextVelocity(p, v, d, dt);
    DesiredCovers(p, err, dt);
    VelocityApproaches(p, v, d, dt);
    OvershootsIff(target, y, y + Over(v', dt));
    OverSplits(p.maxAccel, gap, dt - gap);
    OverGrows(0.0, p.maxAccel, dt - gap);
    if d <= v' {
      OverGrows(d, v', dt);
    }
    hide Over, DesiredVelocity, NextVelocity, Overshoots;
  }

  /** The output has met the target, at the start or after one of the readings. */
  ghost predicate Meets(p: Params, m: Motion, x: real, times: seq<real>) {
    || Follow(p, m, x, times).y == Some(Clamp(x, Lo(p), Hi(p)))
    || (times != [] && Meets(p, m, x, Front(times)))
  }

  lemma {:induction false} Climbs(p: Params, m: Motion, x: real, times: seq<real>, gap: real, n: nat)
    requires Proper(p) && p.maxAccel > 0.0 && Moving(p, m) && 0.0 < gap && Spaced(m.lastTime.value, times, gap)
    requires m.y.value < Clamp(x, Lo(p), Hi(p)) && !Meets(p, m, x, times)
    requires p.maxRateUp + p.maxRateDown <= Over(p.maxAccel, Span(n, gap))
    ensures var m' := Follow(p, m, x, times);
            && m'.y.Some? && m'.y.value < Clamp(x, Lo(p), Hi(p))
            && m'.v >= Min(p.maxRateUp, m.v + Over(p.maxAccel, Span(|times|, gap)))
            && (|times| >= n ==> m'.v == p.maxRateUp)
            && (|times| >= n ==> m'.y.value >= Lo(p) + Over(p.maxRateUp, Span(|times| - n, gap)))
  {
    hide Over, Clamp, Moved, Lo, Hi, Interval;
    var target := Clamp(x, Lo(p), Hi(p));
    ClampBetween(x, Lo(p), Hi(p));
    FollowKeeps(p, m, x, times);
    OverSplits(p.maxAccel, 0.0, 0.0);
    OverSplits(p.maxRateUp, 0.0, 0.0);
    if times != [] {
      var front := Front(times);
      FollowKeeps(p, m, x, front);
      Climbs(p, m, x, front, gap, n);
      var before := Follow(p, m, x, front);
      var dt := Interval(before.lastTime.value, Last(times));
      StepRises(p, before.y.value, before.v, target, dt, gap);
      var v' := Moved(p, before.y.value, before.v, target, dt).v;
      OverGrows(0.0, p.maxAccel, gap);
      OverSplits(p.maxAccel, Span(|front|, gap), gap);
      if |times| > n {
        OverSplits(p.maxRateUp, Span(|front| - n, gap), gap);
        OverSplits(p.maxRateUp, gap, dt - gap);
        OverGrows(0.0, p.maxRateUp, dt - gap);
      }
    }
  }

  /** Upside down: bounds negated, rates exchanged. */
  function Flip(p: Params): Params {
    Params(-p.inMax, -p.inMin, p.maxRateDown, p.maxRateUp, p.maxAccel)
  }

  function Flipped(m: Motion): Motion {
    Motion(if m.y.None? then None else Some(-m.y.value), -m.v, m.lastTime)
  }

  lemma FlipDesired(p: Params, err: real, dt: real)
    requires Proper(p) && dt > 0.0
    ensures DesiredVelocity(Flip(p), -err, dt) == -DesiredVelocity(p, err, dt)
  {
    assert -err / dt == -(err / dt);
  }

  lemma FlipMoved(p: Params, y: real, v: real, target: real, dt: real)
    requires Proper(p) && dt > 0.0
    ensures var move := Moved(p, y, v, target, dt);
            Moved(Flip(p), -y, -v, -target, dt) == Move(-move.y, -move.v, move.snapped)
  {
    FlipDesired(p, target - y, dt);
    var d := DesiredVelocity(p, target - y, dt);
    OverGrows(0.0, p.maxAccel, dt);
    OverSplits(NextVelocity(p, v, d, dt), dt, 0.0);
    OvershootsIff(target, y, y + Over(NextVelocity(p, v, d, dt), dt));
    OvershootsIff(-target, -y, -y - Over(NextVelocity(p, v, d, dt), dt));
    hide Over, DesiredVelocity, Overshoots;
  }

  lemma FlipClamp(p: Params, x: real)
    ensures Clamp(-x, Lo(Flip(p)), Hi(Flip(p))) == -Clamp(x, Lo(p), Hi(p))
    ensures Lo(Flip(p)) == -Hi(p) && Hi(Flip(p)) == -Lo(p)
  {
  }

  lemma FlipStepped(p: Params, m: Motion, x: real, now: real)
    requires Proper(p) && Moving(p, m)
    ensures Stepped(Flip(p), Flipped(m), -x, now) == Flipped(Stepped(p, m, x, now))
  {
    FlipClamp(p, x);
    FlipMoved(p, m.y.value, m.v, Clamp(x, Lo(p), Hi(p)), Interval(m.lastTime.value, now));
    hide Moved, Clamp, Flip;
  }

  lemma {:induction false} FlipFollow(p: Params, m: Motion, x: real, times: seq<real>)
    requires Proper(p) && Moving(p, m)
    ensures Follow(Flip(p), Flipped(m), -x, times) == Flipped(Follow(p, m, x, times))
    ensures Meets(Flip(p), Flipped(m), -x, times) <==> Meets(p, m, x, times)
  {
    FlipClamp(p, x);
    FollowKeeps(p, m, x, times);
    if times == [] {
      hide Clamp, Flip;
    } else {
      FlipFollow(p, m, x, Front(times));
      FollowKeeps(p, m, x, Front(times));
      FlipStepped(p, Follow(p, m, x, Front(times)), x, Last(times));
      hide Stepped, Clamp, Flip;
    }
  }

  /**
   * With an acceleration limit, a constant target is met within a number of steps fixed beforehand:
   * enough to reach full speed and then to cross the whole range.
   */
  lemma MetWithin(p: Params, m: Motion, x: real, times: seq<real>, gap: real, n: nat, k: nat)
    requires Proper(p) && p.maxAccel > 0.0 && Moving(p, m) && 0.0 < gap && Spaced(m.lastTime.value, times, gap)
    requires p.maxRateUp + p.maxRateDown <= Over(p.maxAccel, Span(n, gap))
    requires Hi(p) - Lo(p) <= Over(p.maxRateUp, Span(k, gap)) && Hi(p) - Lo(p) <= Over(p.maxRateDown, Span(k, gap))
    requires |times| == n + k
    ensures Meets(p, m, x, times)
  {
    hide Over, Clamp, Follow, Span, Lo, Hi, Meets;
    var target := Clamp(x, Lo(p), Hi(p));
    ClampBetween(x, Lo(p), Hi(p));
    if !Meets(p, m, x, times) {
      NotMetAtStart(p, m, x, times);
      if m.y.value < target {
        Climbs(p, m, x, times, gap, n);
      } else {
        FlipFollow(p, m, x, times);
        FlipClamp(p, x);
        Climbs(Flip(p), Flipped(m), -x, times, gap, n);
      }
    }
  }

  lemma {:induction false} NotMetAtStart(p: Params, m: Motion, x: real, times: seq<real>)
    requires !Meets(p, m, x, times)
    ensures m.y != Some(Clamp(x, Lo(p), Hi(p)))
  {
    if times != [] {
      NotMetAtStart(p, m, x, Front(times));
    }
  }

  // ---------------------------------------------------------------------------------------
  // Keeping a target
  // ---------------------------------------------------------------------------------------

  /** Nothing left of the velocity, or a bound in its way. */
  ghost predicate Resting(p: Params, y: real, v: real) {
    v == 0.0 || (v > 0.0 && y == Hi(p)) || (v < 0.0 && y == Lo(p))
  }

  lemma StepOnTarget(p: Params, y: real, v: real, dt: real)
    requires Proper(p) && Bounded(p, y, v) && dt > 0.0
    ensures var v' := NextVelocity(p, v, 0.0, dt);
            && Moved(p, y, v, y, dt) == Move(Clamp(y + Over(v', dt), Lo(p), Hi(p)), v', false)
            && (v >= 0.0 ==> 0.0 <= v' <= v) && (v <= 0.0 ==> v <= v' <= 0.0)
            && (Over(v', dt) > 0.0 <==> v' > 0.0) && (Over(v', dt) < 0.0 <==> v' < 0.0)
  {
    DesiredCovers(p, 0.0, dt);
    VelocityApproaches(p, v, 0.0, dt);
    OverSign(NextVelocity(p, v, 0.0, dt), dt);
    hide Over, NextVelocity, DesiredVelocity;
  }

  /** A step that ends where it began, on the target, leaves the output resting; and a resting one stays. */
  lemma StaysIffRests(p: Params, y: real, v: real, dt: real)
    requires Proper(p) && Bounded(p, y, v) && dt > 0.0
    ensures var move := Moved(p, y, v, y, dt);
            && (move.y == y <==> Resting(p, y, move.v)) && (Resting(p, y, v) ==> move.y == y)
  {
    StepOnTarget(p, y, v, dt);
    hide Over, NextVelocity, Moved;
  }

  ghost predicate KeepsTarget(p: Params, m: Motion, x: real, times: seq<real>) {
    || times == []
    || (KeepsTarget(p, m, x, Front(times)) && Follow(p, m, x, times).y == Some(Clamp(x, Lo(p), Hi(p))))
  }

  lemma {:induction false} RestingFollows(p: Params, m: Motion, x: real, times: seq<real>)
    requires Proper(p) && Moving(p, m) && m.y == Some(Clamp(x, Lo(p), Hi(p))) && Resting(p, m.y.value, m.v)
    ensures var m' := Follow(p, m, x, times);
            KeepsTarget(p, m, x, times) && m'.y == m.y && Resting(p, m.y.value, m'.v)
  {
    if times != [] {
      RestingFollows(p, m, x, Front(times));
      FollowKeeps(p, m, x, Front(times));
      var before := Follow(p, m, x, Front(times));
      StaysIffRests(p, m.y.value, before.v, Interval(before.lastTime.value, Last(times)));
      hide Moved, Resting, Clamp;
    }
  }

  /** A snap leaves the output at rest, and from then on a constant target is kept. */
  lemma SnapKept(p: Params, m: Motion, x: real, now: real, times: seq<real>)
    requires Proper(p) && Moving(p, m)
    requires Moved(p, m.y.value, m.v, Clamp(x, Lo(p), Hi(p)), Interval(m.lastTime.value, now)).snapped
    ensures KeepsTarget(p, Stepped(p, m, x, now), x, times)
  {
    var target := Clamp(x, Lo(p), Hi(p));
    ClampBetween(x, Lo(p), Hi(p));
    MoveKeepsLimits(p, m.y.value, m.v, target, Interval(m.lastTime.value, now));
    hide Moved, Clamp;
    RestingFollows(p, Stepped(p, m, x, now), x, times);
  }

  /** A target that has been met is kept through any further readings exactly when the first of them keeps it. */
  lemma KeptIffKeptOnce(p: Params, m: Motion, x: real, now: real, times: seq<real>)
    requires Proper(p) && Moving(p, m) && m.y == Some(Clamp(x, Lo(p), Hi(p)))
    ensures var m' := Stepped(p, m, x, now);
            (m'.y == m.y && KeepsTarget(p, m', x, times)) <==>
            (var gain := Over(p.maxAccel, Interval(m.lastTime.value, now));
             || p.maxAccel == 0.0 || -gain <= m.v <= gain
             || (m.v > 0.0 && m.y.value == Hi(p)) || (m.v < 0.0 && m.y.value == Lo(p)))
  {
    var dt := Interval(m.lastTime.value, now);
    var m' := Stepped(p, m, x, now);
    StaysOnTargetIff(p, m.y.value, m.v, dt);
    StaysIffRests(p, m.y.value, m.v, dt);
    NextKeeps(p, m, Tick(x, now));
    hide Moved, Clamp, Over, Resting;
    if m'.y == m.y {
      RestingFollows(p, m', x, times);
    }
  }

  const Loose := Params(0.0, 2.0, 2.0, 2.0, 1.0)

  /** From rest at 0, a reading of 1 a second later takes the output there, with the velocity 1. */
  lemma Arrives()
    ensures Stepped(Loose, Motion(Some(0.0), 0.0, Some(0.0)), 1.0, 1.0) == Motion(Some(1.0), 1.0, Some(1.0))
  {
    var p := Loose;
    assert Over(1.0, 1.0) == 1.0;
    assert DesiredVelocity(p, 1.0, 1.0) == 1.0;
    assert NextVelocity(p, 0.0, 1.0, 1.0) == 1.0;
    OvershootsIff(1.0, 0.0, 1.0);
    hide Over, DesiredVelocity, NextVelocity, Overshoots;
    assert Moved(p, 0.0, 0.0, 1.0, 1.0) == Move(1.0, 1.0, false);
    hide Moved;
  }

  /** Half a second later braking has left half of that velocity, and it has carried the output on. */
  lemma Leaves()
    ensures Stepped(Loose, Motion(Some(1.0), 1.0, Some(1.0)), 1.0, 1.5) == Motion(Some(1.25), 0.5, Some(1.5))
  {
    var p := Loose;
    assert Over(1.0, 0.5) == 0.5 && Over(0.5, 0.5) == 0.25;
    assert NextVelocity(p, 1.0, 0.0, 0.5) == 0.5;
    StepOnTarget(p, 1.0, 1.0, 0.5);
    hide Over, NextVelocity, Moved;
  }

  /** A run that reaches its target and leaves it again, with the input unchanged. */
  lemma ReachedAndLeft()
    ensures var there := Run(Loose, [Tick(0.0, 0.0), Tick(1.0, 1.0)]);
            there.y == Some(1.0) && Stepped(Loose, there, 1.0, 1.5).y == Some(1.25)
  {
    var e0, e1 := Tick(0.0, 0.0), Tick(1.0, 1.0);
    assert Stepped(Loose, AtRest, 0.0, 0.0) == Motion(Some(0.0), 0.0, Some(0.0));
    Arrives();
    Leaves();
    hide Stepped;
    RunOfTwo(Loose, e0, e1);
  }

  lemma RunOfTwo(p: Params, e0: Event, e1: Event)
    ensures Run(p, [e0, e1]) == Next(p, Next(p, AtRest, e0), e1)
  {
    hide Next;
    assert Front([e0, e1]) == [e0] && Front([e0]) == [];
    assert Run(p, [e0]) == Next(p, Run(p, []), e0);
  }

  /** From the first reading of all a constant input is kept, whenever it is read again. */
  lemma ConstantFromStart(p: Params, events: seq<Event>, x: real, now: real, times: seq<real>)
    requires Proper(p) && NoReading(events)
    ensures var m := Run(p, events + [Tick(x, now)]);
            m.y == Some(Clamp(x, Lo(p), Hi(p))) && KeepsTarget(p, m, x, times)
  {
    NothingYet(p, events);
    RunGrows(p, events, Tick(x, now));
    ClampBetween(x, Lo(p), Hi(p));
    var m := Run(p, events + [Tick(x, now)]);
    hide Run, Clamp, KeepsTarget, Follow;
    RestingFollows(p, m, x, times);
  }

  // ---------------------------------------------------------------------------------------
  // The node
  // ---------------------------------------------------------------------------------------

  datatype Field = InMin | InMax | MaxRateUp | MaxRateDown | MaxAccel

  /** The node. Its fields are those of a `Params` and a `Motion`, and the output cached for a context. */
  class RateLimiterNode {
    var inMin: real
    var inMax: real
    var maxRateUp: real
    var maxRateDown: real
    var maxAccel: real
    var y: Option<real>
    var v: real
    var lastTime: Option<real>
    var lastOut: Option<real>
    var lastIn: Option<real>
    var lastCtx: Option<int>
    var dirty: bool

    function Parameters(): Params
      reads this
    {
      Params(inMin, inMax, maxRateUp, maxRateDown, maxAccel)
    }

    function State(): Motion
      reads this
    {
      Motion(y, v, lastTime)
    }

    /** A cached output is the current one. */
    ghost predicate Valid()
      reads this
    {
      && Proper(Parameters()) && lastOut == y && (lastIn.Some? <==> y.Some?)
      && (!dirty ==> lastCtx.Some? && lastIn.Some?)
    }

    constructor (inMin: real, inMax: real, maxRateUp: real, maxRateDown: real, maxAccel: real)
      ensures Valid() && State() == AtRest && dirty
      ensures Parameters() == Params(inMin, inMax, Max(0.0, maxRateUp), Max(0.0, maxRateDown), Max(0.0, maxAccel))
    {
      this.inMin, this.inMax := inMin, inMax;
      this.maxRateUp, this.maxRateDown := Max(0.0, maxRateUp), Max(0.0, maxRateDown);
      this.maxAccel := Max(0.0, maxAccel);
      y, v, lastTime := None, 0.0, None;
      lastOut, lastIn, lastCtx, dirty := None, None, None, true;
    }

    method OnLifecycle()
      requires Valid()
      modifies this`lastTime
      ensures Valid() && State() == Next(Parameters(), old(State()), Lifecycle)
      ensures lastTime == None && y == old(y) && v == old(v)
    {
      lastTime := None;
    }

    method OnState(field: Field, value: real)
      requires Valid()
      modifies this
      ensures Valid() && dirty && State() == old(State())
      ensures inMin == (if field == InMin then value else old(inMin))
      ensures inMax == (if field == InMax then value else old(inMax))
      ensures maxRateUp == (if field != MaxRateUp then old(maxRateUp) else if value < 0.0 then 0.0 else value)
      ensures maxRateDown == (if field != MaxRateDown then old(maxRateDown) else if value < 0.0 then 0.0 else value)
      ensures maxAccel == (if field != MaxAccel then old(maxAccel) else if value < 0.0 then 0.0 else value)
      ensures (lastOut, lastIn, lastCtx) == old((lastOut, lastIn, lastCtx))
    {
      match field {
        case InMin => inMin := value;
        case InMax => inMax := value;
        case MaxRateUp => maxRateUp := Max(0.0, value);
        case MaxRateDown => maxRateDown := Max(0.0, value);
        case MaxAccel => maxAccel := Max(0.0, value);
      }
      dirty := true;
    }

    /** `input` is the number pulled for the context, if there is one. Asking again in a context moves nothing. */
    method ComputeOutput(input: Option<real>, ctx: int, now: real) returns (output: Option<real>)
      requires Valid()
      modifies this
      ensures Valid() && output == y && Parameters() == old(Parameters())
      ensures var cached := !old(dirty) && old(lastCtx) == Some(ctx) && old(lastIn) == input;
              State() == if input.None? || cached then old(State())
                         else Stepped(old(Parameters()), old(State()), input.value, now)
      ensures input.Some? ==> lastIn == input && lastCtx == Some(ctx) && !dirty
    {
      if input.None? {
        return lastOut;
      }
      if !dirty && lastCtx.Some? && lastCtx.value == ctx && lastIn.Some? && lastIn.value == input.value {
        return lastOut;
      }
      var out := Step(input.value, now);
      lastIn, lastOut, lastCtx, dirty := input, Some(out), Some(ctx), false;
      return Some(out);
    }

    method Step(x: real, now: real) returns (out: real)
      requires Proper(Parameters())
      modifies this`y, this`v, this`lastTime
      ensures State() == Stepped(old(Parameters()), old(State()), x, now) && y == Some(out)
    {
      var lo, hi := inMin, inMax;
      if lo > hi {
        lo, hi := hi, lo;
      }
      var target := Clamp(x, lo, hi);
      if y.None? {
        y, v, lastTime := Some(target), 0.0, Some(now);
        return y.value;
      }
      if lastTime.None? {
        lastTime := Some(now);
        return y.value;
      }
      var dt := Interval(lastTime.value, now);
      lastTime := Some(now);
      var err := target - y.value;
      var desired := err / dt;
      if desired > 0.0 {
        desired := Min(desired, maxRateUp);
      } else {
        desired := Max(desired, -maxRateDown);
      }
      assert desired == DesiredVelocity(Parameters(), err, dt);
      if maxAccel > 0.0 {
        var maxDv := Over(maxAccel, dt);
        v := v + Clamp(desired - v, -maxDv, maxDv);
      } else {
        v := desired;
      }
      assert v == NextVelocity(Parameters(), old(v), desired, dt);
      hide Over, DesiredVelocity, NextVelocity, Overshoots, Clamp, Interval;
      var next := y.value + Over(v, dt);
      if Overshoots(target, y.value, next) {
        next := target;
        v := 0.0;
      }
      y := Some(Clamp(next, lo, hi));
      return y.value;
    }
  }
}
