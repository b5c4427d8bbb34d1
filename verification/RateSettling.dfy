/**
 * The rate limiter with an acceleration limit settles: whatever it was doing, it comes to rest on a
 * constant target, within a number of readings fixed beforehand, and stays there.
 */
module RateSettling {
  import opened RateLimiter
  import opened Reals
  import opened Sequences
  import opened Wrappers

  function Half(v: real): real {
    v * v / 2.0
  }

  function Distance(a: real, b: real): real {
    if a < b then b - a else a - b
  }

  /** Motion and position taken together: what braking to a stop and returning would cost. */
  function Energy(p: Params, y: real, v: real, target: real): real {
    Half(v) + Over(p.maxAccel, Distance(y, target))
  }

  /** What every step over at least some time takes off the energy, until the output is settled. */
  function Loss(p: Params, gap: real): real {
    var push := Over(p.maxAccel, gap);
    Over(push, Min(push, Min(p.maxRateUp, p.maxRateDown))) / 2.0
  }

  /** On the target, with no more velocity than the next step brakes. */
  ghost predicate Calm(p: Params, y: real, v: real, target: real, gap: real) {
    y == target && -Over(p.maxAccel, gap) <= v <= Over(p.maxAccel, gap)
  }

  ghost predicate Lively(p: Params) {
    p.maxRateUp > 0.0 && p.maxRateDown > 0.0 && p.maxAccel > 0.0
  }

  // ---------------------------------------------------------------------------------------
  // Arithmetic
  // ---------------------------------------------------------------------------------------

  lemma ProductSign(a: real, b: real)
    requires a >= 0.0 && b >= 0.0
    ensures a * b >= 0.0
  {
  }

  lemma OverSwaps(a: real, b: real, dt: real)
    ensures Over(a, Over(b, dt)) == Over(Over(a, dt), b)
  {
  }

  lemma OverRises(a: real, b: real, a': real, b': real)
    requires 0.0 <= a <= a' && 0.0 <= b <= b'
    ensures 0.0 <= Over(a, b) <= Over(a', b')
  {
    ProductSign(a, b);
    ProductSign(a, b' - b);
    ProductSign(a' - a, b');
  }

  /** Speeding up by d within push. */
  lemma GainLoses(v: real, d: real, push: real)
    requires 0.0 <= d <= push && v + d >= 0.0
    ensures Half(v) - Half(v + d) + Over(push, v + d) >= Over(push, Min(push, v + d)) / 2.0
  {
    var w := v + d;
    assert Half(v) - Half(w) + Over(push, w) == d * d / 2.0 + (push - d) * w;
    if w >= push {
      ProductSign(push - d, w - (push + d) / 2.0);
      assert d * d / 2.0 + (push - d) * w - push * push / 2.0 == (push - d) * (w - (push + d) / 2.0);
    } else {
      ProductSign(w, push - w);
      SquareSign(d - w);
      assert d * d / 2.0 + (push - d) * w - push * w / 2.0 == (d - w) * (d - w) / 2.0 + w * (push - w) / 2.0;
    }
  }

  lemma SquareSign(a: real)
    ensures a * a >= 0.0
  {
    if a >= 0.0 {
      ProductSign(a, a);
    } else {
      ProductSign(-a, -a);
    }
  }

  /** Speeding up by the whole push, or braking by it. */
  lemma PushLoses(v: real, push: real)
    ensures Half(v) - Half(v + push) + Over(push, v + push) == Over(push, push) / 2.0
  {
  }

  /** The same towards rest, moving away. */
  lemma PullLoses(v: real, push: real)
    ensures Half(v) - Half(v - push) - Over(push, v - push) == Over(push, push) / 2.0
  {
  }

  /** Slowing down without turning. */
  lemma BrakeLoses(v: real, w: real, push: real)
    requires 0.0 <= w <= v
    ensures Half(v) - Half(w) >= 0.0
  {
    OverRises(w, w, v, v);
  }

  lemma LossCovered(p: Params, gap: real, push: real, w: real)
    requires Lively(p) && 0.0 < Over(p.maxAccel, gap) <= push
    requires w >= Over(p.maxAccel, gap) || w >= p.maxRateUp || w >= p.maxRateDown
    ensures Loss(p, gap) <= Over(push, Min(push, w)) / 2.0
  {
    var g := Over(p.maxAccel, gap);
    OverRises(g, Min(g, Min(p.maxRateUp, p.maxRateDown)), push, Min(push, w));
  }

  // ---------------------------------------------------------------------------------------
  // One step
  // ---------------------------------------------------------------------------------------

  /** The step calms the output or takes its loss off the energy. */
  ghost predicate Settling(p: Params, y: real, v: real, target: real, dt: real, gap: real)
    requires dt > 0.0
  {
    var move := Moved(p, y, v, target, dt);
    Calm(p, move.y, move.v, target, gap) || Energy(p, move.y, move.v, target) <= Energy(p, y, v, target) - Loss(p, gap)
  }

  lemma PushCovers(p: Params, dt: real, gap: real)
    requires p.maxAccel > 0.0 && 0.0 < gap <= dt
    ensures 0.0 < Over(p.maxAccel, gap) <= Over(p.maxAccel, dt)
  {
    OverSign(p.maxAccel, gap);
    OverSplits(p.maxAccel, gap, dt - gap);
    OverGrows(0.0, p.maxAccel, dt - gap);
  }

  /** Moving on with a velocity that reaches no further than some error uses up that much of the distance. */
  lemma EnergyAfter(p: Params, y: real, v: real, target: real, dt: real)
    requires Proper(p) && dt > 0.0 && Lo(p) <= y <= target <= Hi(p) && Over(v, dt) <= target - y
    ensures Energy(p, Clamp(y + Over(v, dt), Lo(p), Hi(p)), v, target)
            <= Half(v) + Over(p.maxAccel, target - y) - Over(Over(p.maxAccel, dt), v)
  {
    hide Half;
    var z := y + Over(v, dt);
    var landed := Clamp(z, Lo(p), Hi(p));
    OverSwaps(p.maxAccel, v, dt);
    ProductSign(p.maxAccel, landed - z);
    assert Over(p.maxAccel, target - landed) <= Over(p.maxAccel, target - z);
    assert Over(p.maxAccel, target - z) == Over(p.maxAccel, target - y) - Over(p.maxAccel, Over(v, dt));
  }

  /** The same beyond the target: the distance grows by what is moved. */
  lemma EnergyBeyond(p: Params, target: real, v: real, dt: real)
    requires Proper(p) && dt > 0.0 && Lo(p) <= target <= Hi(p) && v >= 0.0
    ensures Energy(p, Clamp(target + Over(v, dt), Lo(p), Hi(p)), v, target)
            <= Half(v) + Over(Over(p.maxAccel, dt), v)
  {
    hide Half;
    OverGrows(0.0, v, dt);
    var z := target + Over(v, dt);
    var landed := Clamp(z, Lo(p), Hi(p));
    OverSwaps(p.maxAccel, v, dt);
    OverRises(p.maxAccel, landed - target, p.maxAccel, Over(v, dt));
  }

  lemma OverStrict(a: real, b: real, dt: real)
    requires a < b && dt > 0.0
    ensures Over(a, dt) < Over(b, dt)
  {
    OverSign(b - a, dt);
    assert Over(b - a, dt) == Over(b, dt) - Over(a, dt);
  }

  lemma ApproachLoses(p: Params, err: real, v: real, d: real, v': real, dt: real, gap: real)
    requires Lively(p) && v <= p.maxRateUp && dt > 0.0 && 0.0 < Over(p.maxAccel, gap) <= Over(p.maxAccel, dt)
    requires 0.0 <= d <= p.maxRateUp && (d < p.maxRateUp ==> Over(d, dt) == err) && Over(v', dt) <= err
    requires var push := Over(p.maxAccel, dt);
             v' == if v <= d then Min(d, v + push) else Max(d, v - push)
    ensures || Half(v) - Half(v') + Over(Over(p.maxAccel, dt), v') >= Loss(p, gap)
            || (0.0 <= v' <= Over(p.maxAccel, gap) && Over(v', dt) == err)
  {
    hide Over, Half, Loss;
    var push := Over(p.maxAccel, dt);
    if v + push <= d {
      PushLoses(v, push);
      LossCovered(p, gap, push, push);
    } else if d < v' {
      OverStrict(d, v', dt);
    } else if d >= Over(p.maxAccel, gap) || d >= p.maxRateUp {
      LossCovered(p, gap, push, d);
      if v <= d {
        GainLoses(v, d - v, push);
      } else {
        BrakeLoses(v, d, push);
        OverHalved(push, d);
      }
    }
  }

  lemma OverHalved(push: real, d: real)
    requires push > 0.0 && d >= 0.0
    ensures Over(push, Min(push, d)) / 2.0 <= Over(push, d)
  {
    OverRises(push, Min(push, d), push, d);
  }

  /** Below the target: the new velocity loses its share, or is small and lands on the target. */
  lemma VelocityLoses(p: Params, err: real, v: real, dt: real, gap: real)
    requires Lively(p) && -p.maxRateDown <= v <= p.maxRateUp && err > 0.0 && 0.0 < gap <= dt
    requires Over(NextVelocity(p, v, DesiredVelocity(p, err, dt), dt), dt) <= err
    ensures var push, v' := Over(p.maxAccel, dt), NextVelocity(p, v, DesiredVelocity(p, err, dt), dt);
            || Half(v) - Half(v') + Over(push, v') >= Loss(p, gap)
            || (0.0 <= v' <= Over(p.maxAccel, gap) && Over(v', dt) == err)
  {
    hide Over, Half, Loss, DesiredVelocity, NextVelocity;
    var d := DesiredVelocity(p, err, dt);
    PushCovers(p, dt, gap);
    DesiredCovers(p, err, dt);
    VelocityApproaches(p, v, d, dt);
    ApproachLoses(p, err, v, d, NextVelocity(p, v, d, dt), dt, gap);
  }

  lemma StepBelow(p: Params, y: real, v: real, target: real, dt: real, gap: real)
    requires Lively(p) && Bounded(p, y, v) && y < target <= Hi(p) && 0.0 < gap <= dt
    ensures Settling(p, y, v, target, dt, gap)
  {
    var err := target - y;
    var v' := NextVelocity(p, v, DesiredVelocity(p, err, dt), dt);
    OvershootsIff(target, y, y + Over(v', dt));
    PushCovers(p, dt, gap);
    if Over(v', dt) <= err {
      VelocityLoses(p, err, v, dt, gap);
      EnergyAfter(p, y, v', target, dt);
    }
    hide Over, Half, DesiredVelocity, NextVelocity, Loss, Overshoots;
  }

  lemma StepFromTarget(p: Params, v: real, target: real, dt: real, gap: real)
    requires Lively(p) && Bounded(p, target, v) && v >= 0.0 && 0.0 < gap <= dt
    ensures Settling(p, target, v, target, dt, gap)
  {
    hide Over, Half, NextVelocity, Loss, Moved;
    var push, v' := Over(p.maxAccel, dt), NextVelocity(p, v, 0.0, dt);
    PushCovers(p, dt, gap);
    StepOnTarget(p, target, v, dt);
    VelocityApproaches(p, v, 0.0, dt);
    OverSplits(p.maxAccel, 0.0, 0.0);
    OverSplits(v', 0.0, 0.0);
    if v' > 0.0 {
      PullLoses(v, push);
      LossCovered(p, gap, push, push);
      EnergyBeyond(p, target, v', dt);
    } else {
      OverZero(dt);
    }
  }

  lemma OverZero(dt: real)
    ensures Over(0.0, dt) == 0.0
  {
  }

  lemma FlipSettling(p: Params, y: real, v: real, target: real, dt: real, gap: real)
    requires Proper(p) && dt > 0.0
    ensures Settling(Flip(p), -y, -v, -target, dt, gap) <==> Settling(p, y, v, target, dt, gap)
  {
    FlipMoved(p, y, v, target, dt);
    var move := Moved(p, y, v, target, dt);
    assert Half(-v) == Half(v) && Half(-move.v) == Half(move.v);
    hide Moved, Over, Half;
  }

  lemma StepSettles(p: Params, y: real, v: real, target: real, dt: real, gap: real)
    requires Lively(p) && Bounded(p, y, v) && Lo(p) <= target <= Hi(p) && 0.0 < gap <= dt
    ensures Settling(p, y, v, target, dt, gap)
  {
    hide Settling;
    if y < target {
      StepBelow(p, y, v, target, dt, gap);
    } else if y == target && v >= 0.0 {
      StepFromTarget(p, v, target, dt, gap);
    } else {
      FlipSettling(p, y, v, target, dt, gap);
      if y > target {
        StepBelow(Flip(p), -y, -v, -target, dt, gap);
      } else {
        StepFromTarget(Flip(p), -v, -target, dt, gap);
      }
    }
  }

  // ---------------------------------------------------------------------------------------
  // Whole runs
  // ---------------------------------------------------------------------------------------

  /** On the target for good: calm, or resting. */
  ghost predicate Kept(p: Params, y: real, v: real, target: real, gap: real) {
    Calm(p, y, v, target, gap) || (y == target && Resting(p, y, v))
  }

  lemma KeptStep(p: Params, y: real, v: real, target: real, dt: real, gap: real)
    requires Lively(p) && Bounded(p, y, v) && 0.0 < gap <= dt && Kept(p, y, v, target, gap)
    ensures var move := Moved(p, y, v, target, dt);
            Kept(p, move.y, move.v, target, gap)
  {
    PushCovers(p, dt, gap);
    StaysOnTargetIff(p, y, v, dt);
    StaysIffRests(p, y, v, dt);
    hide Over, Moved, Resting;
  }

  ghost predicate KeptState(p: Params, m: Motion, x: real, gap: real)
    requires m.y.Some?
  {
    Kept(p, m.y.value, m.v, Clamp(x, Lo(p), Hi(p)), gap)
  }

  function EnergyOf(p: Params, m: Motion, x: real): real
    requires m.y.Some?
  {
    Energy(p, m.y.value, m.v, Clamp(x, Lo(p), Hi(p)))
  }

  lemma SteppedSettles(p: Params, m: Motion, x: real, now: real, gap: real)
    requires Lively(p) && Moving(p, m) && 0.0 < gap <= Interval(m.lastTime.value, now)
    ensures var m' := Stepped(p, m, x, now);
            && (KeptState(p, m, x, gap) ==> KeptState(p, m', x, gap))
            && (KeptState(p, m', x, gap) || EnergyOf(p, m', x) <= EnergyOf(p, m, x) - Loss(p, gap))
  {
    hide Moved, Clamp, Energy, Loss, Calm, Resting;
    ClampBetween(x, Lo(p), Hi(p));
    var target, dt := Clamp(x, Lo(p), Hi(p)), Interval(m.lastTime.value, now);
    StepSettles(p, m.y.value, m.v, target, dt, gap);
    if KeptState(p, m, x, gap) {
      KeptStep(p, m.y.value, m.v, target, dt, gap);
    }
  }

  lemma {:induction false} FollowSettles(p: Params, m: Motion, x: real, times: seq<real>, gap: real)
    requires Lively(p) && Moving(p, m) && 0.0 < gap && Spaced(m.lastTime.value, times, gap)
    ensures var m' := Follow(p, m, x, times);
            && m'.y.Some?
            && (KeptState(p, m, x, gap) ==> KeptState(p, m', x, gap))
            && (KeptState(p, m', x, gap) || EnergyOf(p, m', x) <= EnergyOf(p, m, x) - Span(|times|, Loss(p, gap)))
  {
    hide KeptState, EnergyOf, Loss, Stepped;
    FollowKeeps(p, m, x, times);
    if times != [] {
      var front := Front(times);
      FollowSettles(p, m, x, front, gap);
      FollowKeeps(p, m, x, front);
      SteppedSettles(p, Follow(p, m, x, front), x, Last(times), gap);
    }
  }

  /** The most energy an output within its bounds can have. */
  function MostEnergy(p: Params): real {
    Half(Max(p.maxRateUp, p.maxRateDown)) + Over(p.maxAccel, Hi(p) - Lo(p))
  }

  lemma EnergyBounded(p: Params, y: real, v: real, target: real)
    requires Proper(p) && Bounded(p, y, v) && Lo(p) <= target <= Hi(p)
    ensures 0.0 <= Energy(p, y, v, target) <= MostEnergy(p)
  {
    SquareSign(v);
    OverRises(p.maxAccel, Distance(y, target), p.maxAccel, Hi(p) - Lo(p));
    var most := Max(p.maxRateUp, p.maxRateDown);
    if v >= 0.0 {
      OverRises(v, v, most, most);
    } else {
      OverRises(-v, -v, most, most);
      assert Half(v) == Over(-v, -v) / 2.0;
    }
    assert Half(most) == Over(most, most) / 2.0;
  }

  ghost predicate Settled(p: Params, m: Motion, x: real, times: seq<real>, later: seq<real>) {
    var m' := Follow(p, m, x, times);
    m'.y == Some(Clamp(x, Lo(p), Hi(p))) && KeepsTarget(p, m', x, later)
  }

  lemma {:induction false} KeptKeeps(p: Params, m: Motion, x: real, later: seq<real>, gap: real)
    requires Lively(p) && Moving(p, m) && 0.0 < gap && Spaced(m.lastTime.value, later, gap) && KeptState(p, m, x, gap)
    ensures KeepsTarget(p, m, x, later)
  {
    if later != [] {
      KeptKeeps(p, m, x, Front(later), gap);
      FollowSettles(p, m, x, later, gap);
      hide Follow, Clamp;
    }
  }

  /**
   * With an acceleration limit and positive rates a constant target is reached for good within a number
   * of readings fixed beforehand: enough for their losses to exceed the most energy there can be.
   */
  lemma SettlesWithin(p: Params, m: Motion, x: real, times: seq<real>, later: seq<real>, gap: real)
    requires Lively(p) && Moving(p, m) && 0.0 < gap && Spaced(m.lastTime.value, times, gap)
    requires MostEnergy(p) < Span(|times|, Loss(p, gap))
    requires Follow(p, m, x, times).lastTime.Some?
    requires Spaced(Follow(p, m, x, times).lastTime.value, later, gap)
    ensures Settled(p, m, x, times, later)
  {
    hide Energy, Loss, MostEnergy, Clamp, Follow;
    var m' := Follow(p, m, x, times);
    var target := Clamp(x, Lo(p), Hi(p));
    FollowSettles(p, m, x, times, gap);
    FollowKeeps(p, m, x, times);
    ClampBetween(x, Lo(p), Hi(p));
    EnergyBounded(p, m.y.value, m.v, target);
    EnergyBounded(p, m'.y.value, m'.v, target);
    KeptKeeps(p, m', x, later, gap);
  }

  // ---------------------------------------------------------------------------------------
  // When it settles at all
  // ---------------------------------------------------------------------------------------

  /** From any motion, any constant input is reached for good within n readings, at whatever times. */
  ghost predicate SettlesAfter(p: Params, n: nat) {
    forall m, x, times: seq<real>, later :: Moving(p, m) && |times| >= n ==> Settled(p, m, x, times, later)
  }

  /** No two readings are less than the shortest step apart. */
  lemma {:induction false} AlwaysSpaced(last: real, times: seq<real>)
    ensures Spaced(last, times, SHORTEST_STEP)
  {
    if times != [] {
      AlwaysSpaced(last, Front(times));
    }
  }

  lemma {:induction false} SpanIs(n: nat, gap: real)
    ensures Span(n, gap) == Over(n as real, gap)
  {
    if n > 0 {
      SpanIs(n - 1, gap);
      OverSwaps(1.0, n as real, gap);
    }
  }

  lemma SpanGrows(n: nat, k: nat, gap: real)
    requires n <= k && gap >= 0.0
    ensures Span(n, gap) <= Span(k, gap)
  {
    SpanIs(n, gap);
    SpanIs(k, gap);
    OverGrows(n as real, k as real, gap);
  }

  /** Any amount is exceeded by enough gaps. */
  lemma Enough(amount: real, gap: real) returns (n: nat)
    requires gap > 0.0
    ensures Span(n, gap) > amount
  {
    var q := amount / gap;
    n := if q < 0.0 then 1 else q.Floor + 1;
    SpanIs(n, gap);
    assert amount == Over(q, gap);
    OverSign(n as real - q, gap);
    assert Over(n as real - q, gap) == Over(n as real, gap) - Over(q, gap);
  }

  lemma LossPositive(p: Params, gap: real)
    requires Lively(p) && gap > 0.0
    ensures Loss(p, gap) > 0.0
  {
    OverSign(p.maxAccel, gap);
    var push := Over(p.maxAccel, gap);
    OverSign(push, Min(push, Min(p.maxRateUp, p.maxRateDown)));
  }

  lemma LivelySettles(p: Params) returns (n: nat)
    requires Lively(p)
    ensures SettlesAfter(p, n)
  {
    hide Loss, MostEnergy, Settled, Follow;
    var gap := SHORTEST_STEP;
    LossPositive(p, gap);
    n := Enough(MostEnergy(p), Loss(p, gap));
    forall m, x, times: seq<real>, later | Moving(p, m) && |times| >= n ensures Settled(p, m, x, times, later) {
      SpanGrows(n, |times|, Loss(p, gap));
      AlwaysSpaced(m.lastTime.value, times);
      FollowKeeps(p, m, x, times);
      AlwaysSpaced(Follow(p, m, x, times).lastTime.value, later);
      SettlesWithin(p, m, x, times, later, gap);
    }
  }

  lemma SpanScales(rate: real, n: nat, gap: real)
    ensures Over(rate, Span(n, gap)) == Span(n, Over(rate, gap))
  {
    SpanIs(n, gap);
    SpanIs(n, Over(rate, gap));
    OverSwaps(rate, n as real, gap);
  }

  lemma {:induction false} UnlimitedStays(p: Params, m: Motion, x: real, later: seq<real>)
    requires Proper(p) && p.maxAccel == 0.0 && Moving(p, m) && m.y == Some(Clamp(x, Lo(p), Hi(p)))
    ensures KeepsTarget(p, m, x, later)
  {
    hide Over, Follow;
    if later != [] {
      UnlimitedStays(p, m, x, Front(later));
      ReachedIffTimeEnough(p, m, x, later);
      OverGrows(0.0, p.maxRateUp, Elapsed(m.lastTime.value, later));
      OverGrows(0.0, p.maxRateDown, Elapsed(m.lastTime.value, later));
    }
  }

  lemma UnlimitedSettles(p: Params) returns (n: nat)
    requires p.maxAccel == 0.0 && p.maxRateUp > 0.0 && p.maxRateDown > 0.0
    ensures SettlesAfter(p, n)
  {
    hide Over, Follow, KeepsTarget;
    var gap, range := SHORTEST_STEP, Hi(p) - Lo(p);
    OverSign(p.maxRateUp, gap);
    OverSign(p.maxRateDown, gap);
    var up := Enough(range, Over(p.maxRateUp, gap));
    var down := Enough(range, Over(p.maxRateDown, gap));
    n := up + down;
    forall m, x, times: seq<real>, later | Moving(p, m) && |times| >= n ensures Settled(p, m, x, times, later) {
      SpanGrows(up, |times|, Over(p.maxRateUp, gap));
      SpanGrows(down, |times|, Over(p.maxRateDown, gap));
      SpanScales(p.maxRateUp, |times|, gap);
      SpanScales(p.maxRateDown, |times|, gap);
      AlwaysSpaced(m.lastTime.value, times);
      FollowKeeps(p, m, x, times);
      ReachedWithin(p, m, x, times, gap);
      UnlimitedStays(p, Follow(p, m, x, times), x, later);
    }
  }

  lemma {:induction false} PointStays(p: Params, m: Motion, x: real, later: seq<real>)
    requires Proper(p) && Lo(p) == Hi(p) && Moving(p, m)
    ensures Follow(p, m, x, later).y == Some(Clamp(x, Lo(p), Hi(p))) && KeepsTarget(p, m, x, later)
  {
    hide Follow;
    FollowKeeps(p, m, x, later);
    ClampBetween(x, Lo(p), Hi(p));
    if later != [] {
      PointStays(p, m, x, Front(later));
    }
  }

  lemma PointSettles(p: Params)
    requires Proper(p) && Lo(p) == Hi(p)
    ensures SettlesAfter(p, 0)
  {
    hide Follow, KeepsTarget;
    forall m, x, times: seq<real>, later | Moving(p, m) ensures Settled(p, m, x, times, later) {
      PointStays(p, m, x, times);
      FollowKeeps(p, m, x, times);
      PointStays(p, Follow(p, m, x, times), x, later);
    }
  }

  /** With a rate of zero the output never moves that way. */
  lemma {:induction false} RateNeeded(p: Params, m: Motion, x: real, times: seq<real>)
    requires Proper(p) && Moving(p, m)
    ensures Follow(p, m, x, times).y.Some?
    ensures p.maxRateUp == 0.0 ==> Follow(p, m, x, times).y.value <= m.y.value
    ensures p.maxRateDown == 0.0 ==> Follow(p, m, x, times).y.value >= m.y.value
  {
    FollowKeeps(p, m, x, times);
    if times != [] {
      var before := Follow(p, m, x, Front(times));
      RateNeeded(p, m, x, Front(times));
      FollowKeeps(p, m, x, Front(times));
      ClampBetween(x, Lo(p), Hi(p));
      var dt := Interval(before.lastTime.value, Last(times));
      MoveKeepsLimits(p, before.y.value, before.v, Clamp(x, Lo(p), Hi(p)), dt);
      OverSplits(p.maxRateUp, dt, 0.0);
      OverSplits(p.maxRateDown, dt, 0.0);
      hide Moved, Clamp, Over;
    }
  }

  lemma NeverSettles(p: Params, n: nat)
    requires Proper(p) && Lo(p) < Hi(p) && (p.maxRateUp == 0.0 || p.maxRateDown == 0.0)
    ensures !SettlesAfter(p, n)
  {
    hide Follow, KeepsTarget;
    var times := seq(n, _ => 0.0);
    var from, x := if p.maxRateUp == 0.0 then Lo(p) else Hi(p), if p.maxRateUp == 0.0 then Hi(p) else Lo(p);
    var m := Motion(Some(from), 0.0, Some(0.0));
    ClampBetween(x, Lo(p), Hi(p));
    RateNeeded(p, m, x, times);
    assert Moving(p, m) && !Settled(p, m, x, times, []);
  }

  /**
   * A constant input is always reached for good, within a number of readings that depends on the
   * parameters alone, exactly when both rates are positive or the range is a point.
   */
  lemma SettlesIff(p: Params)
    requires Proper(p)
    ensures (exists n: nat :: SettlesAfter(p, n)) <==> (p.maxRateUp > 0.0 && p.maxRateDown > 0.0) || Lo(p) == Hi(p)
  {
    hide SettlesAfter;
    if Lo(p) == Hi(p) {
      PointSettles(p);
    } else if p.maxRateUp > 0.0 && p.maxRateDown > 0.0 {
      if p.maxAccel > 0.0 {
        var n := LivelySettles(p);
      } else {
        var n := UnlimitedSettles(p);
      }
    } else {
      forall n: nat ensures !SettlesAfter(p, n) {
        NeverSettles(p, n);
      }
    }
  }
}
