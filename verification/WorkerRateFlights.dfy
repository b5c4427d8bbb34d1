/**
 * The request limiter when calls overlap. A call is two steps, its SELECT and its write, and any number
 * of calls and cleanups may come between them. When the maximum is kept all the same is said exactly.
 */
module WorkerRateFlights {
  import opened Sequences
  import opened Wrappers
  import opened WorkerRateLimit

  type CallEvent = e: Event | e.Call? witness Call("", 0, 0, 0)

  /** A call that will be accepted, with the row its SELECT found. */
  datatype Flight = Flight(call: CallEvent, seen: Option<Row>)

  datatype State = State(rows: Table, flights: map<nat, Flight>, accepted: seq<CallEvent>)

  datatype Step = Look(req: nat, call: CallEvent) | Write(req: nat) | Clean(now: int)

  const Initial := State(map[], map[], [])

  function Find(rows: Table, key: string): Option<Row> {
    if key in rows then Some(rows[key]) else None
  }

  predicate Stale(f: Flight) {
    f.seen.None? || f.seen.value.last < f.call.now - f.call.window
  }

  /** A stale row is put anew; else the UPDATE writes the count it saw plus one, if the row is still there. */
  function Written(rows: Table, f: Flight): Table {
    if Stale(f) then rows[f.call.key := Row(1, f.call.now)]
    else if f.call.key in rows then rows[f.call.key := Row(f.seen.value.count + 1, f.call.now)]
    else rows
  }

  predicate Enabled(s: State, step: Step) {
    match step
    case Look(req, _) => req !in s.flights
    case Write(req) => req in s.flights
    case Clean(_) => true
  }

  /** A call that is refused, or has no key, is over with its SELECT. */
  function Apply(s: State, step: Step): State
    requires Enabled(s, step)
  {
    match step
    case Look(req, c) =>
      if c.key == "" then s.(accepted := s.accepted + [c])
      else if !Accepts(s.rows, c) then s
      else s.(flights := s.flights[req := Flight(c, Find(s.rows, c.key))])
    case Write(req) =>
      var f := s.flights[req];
      State(Written(s.rows, f), s.flights - {req}, s.accepted + [f.call])
    case Clean(now) => s.(rows := Kept(s.rows, now))
  }

  ghost predicate Legal(steps: seq<Step>)
    decreases |steps|, 0
  {
    steps == [] || (Legal(Front(steps)) && Enabled(Run(Front(steps)), Last(steps)))
  }

  ghost function Run(steps: seq<Step>): State
    requires Legal(steps)
    decreases |steps|, 1
  {
    if steps == [] then Initial else Apply(Run(Front(steps)), Last(steps))
  }

  /** The times of a key's accepted calls, in the order of their writes. */
  function TimesOf(accepted: seq<CallEvent>, key: string): seq<int> {
    if accepted == [] then []
    else TimesOf(Front(accepted), key) + if Last(accepted).key == key then [Last(accepted).now] else []
  }

  /** With no step between them, the two steps of a call are the call of the serial limiter. */
  lemma UninterruptedIsSerial(s: State, req: nat, c: CallEvent)
    requires req !in s.flights && c.key != ""
    ensures var s' := Apply(s, Look(req, c));
            if req in s'.flights then Accepts(s.rows, c) && Apply(s', Write(req)).rows == After(s.rows, c)
            else s' == s && After(s.rows, c) == s.rows
    ensures var free := Call("", c.window, c.max, c.now);
            Apply(s, Look(req, free)) == s.(accepted := s.accepted + [free])
  {
  }

  function InFlight(s: State, key: string): set<nat> {
    set req | req in s.flights && s.flights[req].call.key == key
  }

  /**
   * A run in which the clock does not go back, calls of a key have the same limits, and at most n of
   * them are between their two steps at any moment. No time in it is later than the clock.
   */
  ghost predicate Orderly(steps: seq<Step>, key: string, window: int, max: int, n: nat, clock: int) {
    && Legal(steps) && |InFlight(Run(steps), key)| <= n
    && (steps == [] ||
        match Last(steps)
        case Look(_, c) =>
          && c.now <= clock && (c.key == key ==> c.window == window && c.max == max)
          && Orderly(Front(steps), key, window, max, n, c.now)
        case Write(_) => Orderly(Front(steps), key, window, max, n, clock)
        case Clean(now) => now <= clock && Orderly(Front(steps), key, window, max, n, now))
  }

  function CountFrom(times: seq<int>, start: int, window: int): nat {
    CountIn(times, start, start + window)
  }

  ghost predicate KeepsMaximumAt(steps: seq<Step>, key: string, window: int, max: int, start: int)
    requires Legal(steps)
  {
    CountFrom(TimesOf(Run(steps).accepted, key), start, window) <= max
  }

  ghost predicate AlwaysKept(key: string, window: int, max: int, n: nat) {
    forall steps, clock, start :: Orderly(steps, key, window, max, n, clock) ==>
      KeepsMaximumAt(steps, key, window, max, start)
  }

  /**
   * Nothing is ever in flight; or calls do not overlap, rows are kept as long as the window, and no
   * cleanup can take away a row that a call has seen and is about to count up too early.
   */
  predicate Safe(window: int, max: int, n: nat) {
    n == 0 || (n == 1 && window <= 86400000 && (max == 1 || window <= 43200000))
  }

  // ---------------------------------------------------------------------------------------
  // It is kept then
  // ---------------------------------------------------------------------------------------

  ghost predicate UpTo(times: seq<int>, clock: int) {
    Ordered(times) && forall i :: 0 <= i < |times| ==> times[i] <= clock
  }

  ghost predicate KeptBy(times: seq<int>, window: int, max: int) {
    forall start :: CountFrom(times, start, window) <= max
  }

  /** What a call in flight has seen is still what was accepted last, though a late cleanup may have deleted it. */
  ghost predicate FlightSound(rows: Table, times: seq<int>, f: Flight, window: int, max: int, clock: int) {
    && f.call.window == window && f.call.max == max && f.call.now <= clock && UpTo(times, f.call.now)
    && (if f.seen.None? then times == [] || Last(times) < f.call.now - window
        else times != [] && f.seen.value == Row(Burst(times, window), Last(times))
             && (Stale(f) || Burst(times, window) < max)
             && (f.call.key !in rows ==> Last(times) < clock - RETENTION_MS))
  }

  ghost predicate Inv(s: State, key: string, window: int, max: int, clock: int) {
    var times := TimesOf(s.accepted, key);
    && UpTo(times, clock) && Tracks(s.rows, times, key, window, clock)
    && Burst(times, window) <= max && KeptBy(times, window, max)
    && forall req :: req in InFlight(s, key) ==> FlightSound(s.rows, times, s.flights[req], window, max, clock)
  }

  lemma AcceptedGrows(accepted: seq<CallEvent>, c: CallEvent, key: string)
    ensures TimesOf(accepted + [c], key) == TimesOf(accepted, key) + if c.key == key then [c.now] else []
  {
    assert Front(accepted + [c]) == accepted;
  }

  /** One more accepted time: the row, the burst and every interval of the window's length. */
  lemma WriteTracks(rows: Table, times: seq<int>, f: Flight, key: string, window: int, max: int, clock: int)
    requires f.call.key == key && max >= 1 && 0 <= window && Safe(window, max, 1)
    requires FlightSound(rows, times, f, window, max, clock) && KeptBy(times, window, max)
    ensures var times' := times + [f.call.now];
            && UpTo(times', clock) && Tracks(Written(rows, f), times', key, window, clock)
            && Burst(times', window) <= max && KeptBy(times', window, max)
  {
    var now := f.call.now;
    var times' := times + [now];
    BurstExtends(times, window, now);
    assert Front(times') == times;
    assert times != [] ==> Burst(times, window) >= 1;
    forall start ensures CountFrom(times', start, window) <= max {
      assert CountFrom(times, start, window) <= max;
      if start <= now <= start + window {
        BurstCovers(times', window, start, start + window);
      }
    }
  }

  lemma Alone(s: State, key: string, a: nat, b: nat)
    requires |InFlight(s, key)| <= 1 && a in InFlight(s, key) && b in InFlight(s, key)
    ensures a == b
  {
    var rest := InFlight(s, key) - {a};
    assert |rest| == |InFlight(s, key)| - 1 && rest == {};
  }

  lemma FlightLater(rows: Table, times: seq<int>, f: Flight, window: int, max: int, clock: int, clock': int)
    requires FlightSound(rows, times, f, window, max, clock) && clock <= clock'
    ensures FlightSound(rows, times, f, window, max, clock')
  {
    hide Burst;
  }

  lemma Later(s: State, key: string, window: int, max: int, clock: int, clock': int)
    requires Inv(s, key, window, max, clock) && clock <= clock'
    ensures Inv(s, key, window, max, clock')
  {
    hide Burst, CountIn, FlightSound;
    var times := TimesOf(s.accepted, key);
    forall req | req in InFlight(s, key) ensures FlightSound(s.rows, times, s.flights[req], window, max, clock') {
      FlightLater(s.rows, times, s.flights[req], window, max, clock, clock');
    }
  }

  lemma Looked(rows: Table, times: seq<int>, c: CallEvent, window: int, max: int)
    requires c.key != "" && c.window == window && c.max == max && Accepts(rows, c)
    requires Tracks(rows, times, c.key, window, c.now) && UpTo(times, c.now)
    ensures FlightSound(rows, times, Flight(c, Find(rows, c.key)), window, max, c.now)
  {
    hide Burst;
  }

  /** A look that starts a flight, and one that does not. */
  lemma LookGives(s: State, req: nat, c: CallEvent)
    requires req !in s.flights && c.key != "" && Accepts(s.rows, c)
    ensures var s' := Apply(s, Look(req, c));
            && s' == s.(flights := s.flights[req := Flight(c, Find(s.rows, c.key))])
            && InFlight(s', c.key) == InFlight(s, c.key) + {req}
            && forall key :: key != c.key ==> InFlight(s', key) == InFlight(s, key)
  {
    hide Accepts;
  }

  lemma LookEnds(s: State, req: nat, c: CallEvent, key: string)
    requires req !in s.flights && key != "" && (c.key == "" || !Accepts(s.rows, c))
    ensures var s' := Apply(s, Look(req, c));
            s'.rows == s.rows && s'.flights == s.flights && TimesOf(s'.accepted, key) == TimesOf(s.accepted, key)
  {
    AcceptedGrows(s.accepted, c, key);
    hide Accepts;
  }

  lemma LookKeeps(s: State, step: Step, key: string, window: int, max: int)
    requires step.Look? && Enabled(s, step) && key != "" && Inv(s, key, window, max, step.call.now)
    requires step.call.key == key ==> step.call.window == window && step.call.max == max
    ensures Inv(Apply(s, step), key, window, max, step.call.now)
  {
    hide Tracks, Burst, CountIn, FlightSound, UpTo, KeptBy, Accepts, Apply, TimesOf;
    var s', c := Apply(s, step), step.call;
    if c.key == "" || !Accepts(s.rows, c) {
      LookEnds(s, step.req, c, key);
      assert InFlight(s', key) == InFlight(s, key);
    } else {
      LookGives(s, step.req, c);
      if c.key == key {
        Looked(s.rows, TimesOf(s.accepted, key), c, window, max);
      }
    }
  }

  lemma WrittenElsewhere(rows: Table, f: Flight, key: string, times: seq<int>, window: int, max: int, clock: int)
    requires f.call.key != key
    ensures Tracks(Written(rows, f), times, key, window, clock) <==> Tracks(rows, times, key, window, clock)
    ensures forall g: Flight :: g.call.key == key ==>
              (FlightSound(Written(rows, f), times, g, window, max, clock)
               <==> FlightSound(rows, times, g, window, max, clock))
  {
    hide Burst, UpTo;
    assert Find(Written(rows, f), key) == Find(rows, key);
  }

  lemma WriteKeeps(s: State, step: Step, key: string, window: int, max: int, clock: int)
    requires step.Write? && Enabled(s, step) && Inv(s, key, window, max, clock)
    requires max >= 1 && 0 <= window && Safe(window, max, 1) && |InFlight(s, key)| <= 1
    ensures Inv(Apply(s, step), key, window, max, clock)
  {
    hide Tracks, Burst, CountIn, FlightSound, UpTo, KeptBy, Written;
    var s', f := Apply(s, step), s.flights[step.req];
    var times := TimesOf(s.accepted, key);
    AcceptedGrows(s.accepted, f.call, key);
    forall req | req in InFlight(s', key) ensures req in InFlight(s, key) && req != step.req {
    }
    if f.call.key == key {
      assert step.req in InFlight(s, key);
      WriteTracks(s.rows, times, f, key, window, max, clock);
      assert InFlight(s', key) == {} by {
        if req :| req in InFlight(s', key) {
          Alone(s, key, req, step.req);
        }
      }
    } else {
      assert TimesOf(s'.accepted, key) == times;
      WrittenElsewhere(s.rows, f, key, times, window, max, clock);
    }
  }

  lemma CleanKeeps(s: State, now: int, key: string, window: int, max: int, clock: int)
    requires clock <= now && Inv(s, key, window, max, clock) && window <= RETENTION_MS
    ensures Inv(Apply(s, Clean(now)), key, window, max, now)
  {
    hide Burst, CountIn;
    var s' := Apply(s, Clean(now));
    forall req | req in InFlight(s', key)
      ensures FlightSound(s'.rows, TimesOf(s.accepted, key), s'.flights[req], window, max, now)
    {
      assert req in InFlight(s, key);
    }
  }

  lemma {:induction false} RunKeeps(steps: seq<Step>, key: string, window: int, max: int, clock: int)
    requires key != "" && max >= 1 && 0 <= window && Safe(window, max, 1)
    requires Orderly(steps, key, window, max, 1, clock)
    ensures Inv(Run(steps), key, window, max, clock)
  {
    hide Inv, Apply;
    if steps == [] {
      InitialInv(key, window, max, clock);
    } else {
      var s, step := Run(Front(steps)), Last(steps);
      match step
      case Look(_, c) =>
        RunKeeps(Front(steps), key, window, max, c.now);
        LookKeeps(s, step, key, window, max);
        Later(Run(steps), key, window, max, c.now, clock);
      case Write(_) =>
        RunKeeps(Front(steps), key, window, max, clock);
        WriteKeeps(s, step, key, window, max, clock);
      case Clean(now) =>
        RunKeeps(Front(steps), key, window, max, now);
        CleanKeeps(s, now, key, window, max, now);
        Later(Run(steps), key, window, max, now, clock);
    }
  }

  lemma InitialInv(key: string, window: int, max: int, clock: int)
    requires max >= 1
    ensures Inv(Initial, key, window, max, clock)
  {
    assert TimesOf([], key) == [] && InFlight(Initial, key) == {};
    assert forall start :: CountFrom([], start, window) == 0;
  }

  lemma {:induction false} NothingAccepted(steps: seq<Step>, key: string, window: int, max: int, clock: int)
    requires key != "" && Orderly(steps, key, window, max, 0, clock)
    ensures TimesOf(Run(steps).accepted, key) == []
  {
    if steps != [] {
      var s, step := Run(Front(steps)), Last(steps);
      var before := if step.Look? then step.call.now else if step.Clean? then step.now else clock;
      NothingAccepted(Front(steps), key, window, max, before);
      if step.Look? {
        AcceptedGrows(s.accepted, step.call, key);
      } else if step.Write? {
        AcceptedGrows(s.accepted, s.flights[step.req].call, key);
        assert step.req in InFlight(s, key) <==> s.flights[step.req].call.key == key;
      }
    }
  }

  // ---------------------------------------------------------------------------------------
  // Otherwise it is not
  // ---------------------------------------------------------------------------------------

  /** One more step. */
  lemma Extend(steps: seq<Step>, step: Step, key: string, window: int, max: int, n: nat, clock: int, clock': int)
    requires Orderly(steps, key, window, max, n, clock) && Enabled(Run(steps), step)
    requires match step
             case Look(_, c) => clock <= c.now <= clock' && (c.key == key ==> c.window == window && c.max == max)
             case Write(_) => clock <= clock'
             case Clean(now) => clock <= now <= clock'
    requires |InFlight(Apply(Run(steps), step), key)| <= n
    ensures Orderly(steps + [step], key, window, max, n, clock')
    ensures Run(steps + [step]) == Apply(Run(steps), step)
  {
    assert Front(steps + [step]) == steps && Last(steps + [step]) == step;
    var before := match step case Look(_, c) => c.now case Write(_) => clock' case Clean(now) => now;
    Sooner(steps, key, window, max, n, clock, before);
  }

  lemma Sooner(steps: seq<Step>, key: string, window: int, max: int, n: nat, clock: int, clock': int)
    requires Orderly(steps, key, window, max, n, clock) && clock <= clock'
    ensures Orderly(steps, key, window, max, n, clock')
  {
    if steps != [] && Last(steps).Write? {
      Sooner(Front(steps), key, window, max, n, clock, clock');
    }
  }

  lemma Wider(steps: seq<Step>, key: string, window: int, max: int, n: nat, n': nat, clock: int)
    requires Orderly(steps, key, window, max, n, clock) && n <= n'
    ensures Orderly(steps, key, window, max, n', clock)
  {
  }

  /** Some calls at one time, each over before the next. */
  function Calls(c: CallEvent, m: nat): seq<Step> {
    if m == 0 then [] else Calls(c, m - 1) + [Look(0, c), Write(0)]
  }

  function Repeated(now: int, m: nat): seq<int> {
    if m == 0 then [] else Repeated(now, m - 1) + [now]
  }

  /** An orderly run with nothing in flight, and what it has left. */
  ghost predicate Quiet(steps: seq<Step>, c: CallEvent, row: Option<Row>, times: seq<int>) {
    && Orderly(steps, c.key, c.window, c.max, 1, c.now)
    && Run(steps).flights == map[] && Find(Run(steps).rows, c.key) == row
    && TimesOf(Run(steps).accepted, c.key) == times
  }

  lemma WriteGives(s: State, req: nat)
    requires req in s.flights
    ensures var f, s' := s.flights[req], Apply(s, Write(req));
            && s' == State(Written(s.rows, f), s.flights - {req}, s.accepted + [f.call])
            && InFlight(s', f.call.key) == InFlight(s, f.call.key) - {req}
            && TimesOf(s'.accepted, f.call.key) == TimesOf(s.accepted, f.call.key) + [f.call.now]
  {
    AcceptedGrows(s.accepted, s.flights[req].call, s.flights[req].call.key);
  }

  lemma NoneInFlight(s: State, key: string)
    requires s.flights == map[]
    ensures InFlight(s, key) == {}
  {
  }

  lemma FoundWritten(rows: Table, c: CallEvent)
    ensures var row := Find(rows, c.key);
            Find(Written(rows, Flight(c, row)), c.key)
            == Some(Row(if Stale(Flight(c, row)) then 1 else row.value.count + 1, c.now))
  {
  }

  lemma OneLook(steps: seq<Step>, c: CallEvent, row: Option<Row>, times: seq<int>)
    requires Quiet(steps, c, row, times) && c.key != "" && Accepts(Run(steps).rows, c)
    ensures var looked := steps + [Look(0, c)];
            && Orderly(looked, c.key, c.window, c.max, 1, c.now) && Legal(looked)
            && Run(looked).rows == Run(steps).rows && Run(looked).flights == map[0 := Flight(c, row)]
            && InFlight(Run(looked), c.key) == {0} && TimesOf(Run(looked).accepted, c.key) == times
  {
    assert Legal(steps);
    LookGives(Run(steps), 0, c);
    NoneInFlight(Run(steps), c.key);
    hide Apply, Orderly, Run, InFlight, TimesOf, Accepts;
    Extend(steps, Look(0, c), c.key, c.window, c.max, 1, c.now, c.now);
    hide Legal;
  }

  lemma OneCall(steps: seq<Step>, c: CallEvent, row: Option<Row>, times: seq<int>)
    requires Quiet(steps, c, row, times) && c.key != "" && Accepts(Run(steps).rows, c)
    ensures var row' := Row(if Stale(Flight(c, row)) then 1 else row.value.count + 1, c.now);
            Quiet(steps + [Look(0, c), Write(0)], c, Some(row'), times + [c.now])
  {
    assert Legal(steps);
    OneLook(steps, c, row, times);
    var looked := steps + [Look(0, c)];
    var s := Run(looked);
    FoundWritten(Run(steps).rows, c);
    hide Apply, Orderly, Run, InFlight, TimesOf, Accepts, Written;
    WriteGives(s, 0);
    Extend(looked, Write(0), c.key, c.window, c.max, 1, c.now, c.now);
    assert steps + [Look(0, c), Write(0)] == looked + [Write(0)];
    assert s.flights - {0} == map[];
    hide Legal;
  }

  /** Where there is no row, calls are accepted up to the maximum. */
  lemma {:induction false} CallsAccepted(steps: seq<Step>, c: CallEvent, m: nat, times: seq<int>)
    requires c.key != "" && 0 <= c.window && m <= c.max && Quiet(steps, c, None, times)
    ensures Quiet(steps + Calls(c, m), c, if m == 0 then None else Some(Row(m, c.now)), times + Repeated(c.now, m))
  {
    hide Orderly, Apply, TimesOf;
    if m == 0 {
      assert steps + Calls(c, m) == steps && times + Repeated(c.now, m) == times;
    } else {
      CallsAccepted(steps, c, m - 1, times);
      OneCall(steps + Calls(c, m - 1), c, if m == 1 then None else Some(Row(m - 1, c.now)),
              times + Repeated(c.now, m - 1));
      assert steps + Calls(c, m) == steps + Calls(c, m - 1) + [Look(0, c), Write(0)];
      assert times + Repeated(c.now, m) == times + Repeated(c.now, m - 1) + [c.now];
    }
  }

  lemma {:induction false} RepeatedCount(times: seq<int>, now: int, m: nat, start: int, window: int)
    requires start <= now <= start + window
    ensures CountFrom(times + Repeated(now, m), start, window) == CountFrom(times, start, window) + m
  {
    if m == 0 {
      assert times + Repeated(now, m) == times;
    } else {
      RepeatedCount(times, now, m - 1, start, window);
      assert times + Repeated(now, m) == times + Repeated(now, m - 1) + [now];
      assert Front(times + Repeated(now, m - 1) + [now]) == times + Repeated(now, m - 1);
    }
  }

  lemma NothingYet(c: CallEvent)
    ensures Quiet([], c, None, [])
  {
    assert InFlight(Initial, c.key) == {};
  }

  /** Two calls that look before either writes: both are accepted for one place. */
  lemma TwoLookFirst(c: CallEvent) returns (steps: seq<Step>)
    requires c.key != "" && c.max >= 1 && 0 <= c.window
    ensures Orderly(steps, c.key, c.window, c.max, 2, c.now)
    ensures !KeepsMaximumAt(steps, c.key, c.window, c.max, c.now)
  {
    hide Orderly, Run;
    var row := if c.max == 1 then None else Some(Row(c.max - 1, c.now));
    var before := [] + Calls(c, c.max - 1);
    NothingYet(c);
    CallsAccepted([], c, c.max - 1, []);
    Wider(before, c.key, c.window, c.max, 1, 2, c.now);
    steps := BothAccepted(before, c, row, [] + Repeated(c.now, c.max - 1));
    RepeatedCount([], c.now, c.max + 1, c.now, c.window);
    assert [] + Repeated(c.now, c.max + 1) == [] + Repeated(c.now, c.max - 1) + [c.now, c.now];
  }

  lemma BothLook(before: seq<Step>, c: CallEvent, row: Option<Row>, times: seq<int>) returns (looked: seq<Step>)
    requires c.key != "" && Quiet(before, c, row, times) && Accepts(Run(before).rows, c)
    ensures Orderly(looked, c.key, c.window, c.max, 2, c.now)
    ensures TimesOf(Run(looked).accepted, c.key) == times && InFlight(Run(looked), c.key) == {0, 1}
    ensures Run(looked).flights == map[0 := Flight(c, row), 1 := Flight(c, row)]
  {
    Wider(before, c.key, c.window, c.max, 1, 2, c.now);
    assert Legal(before);
    hide Apply, Orderly, Run, InFlight, TimesOf, Accepts;
    var s := Run(before);
    NoneInFlight(s, c.key);
    LookGives(s, 0, c);
    var s1 := Apply(s, Look(0, c));
    LookGives(s1, 1, c);
    assert InFlight(s1, c.key) == {0} && InFlight(Apply(s1, Look(1, c)), c.key) == {0, 1};
    Extend(before, Look(0, c), c.key, c.window, c.max, 2, c.now, c.now);
    Extend(before + [Look(0, c)], Look(1, c), c.key, c.window, c.max, 2, c.now, c.now);
    looked := before + [Look(0, c)] + [Look(1, c)];
  }

  lemma BothAccepted(before: seq<Step>, c: CallEvent, row: Option<Row>, times: seq<int>) returns (steps: seq<Step>)
    requires c.key != "" && Quiet(before, c, row, times) && Accepts(Run(before).rows, c)
    ensures Orderly(steps, c.key, c.window, c.max, 2, c.now)
    ensures TimesOf(Run(steps).accepted, c.key) == times + [c.now, c.now]
  {
    var looked := BothLook(before, c, row, times);
    assert Legal(looked);
    hide Apply, Orderly, Run, InFlight, TimesOf, Accepts, Written, Quiet;
    var s := Run(looked);
    WriteGives(s, 0);
    var s1 := Apply(s, Write(0));
    WriteGives(s1, 1);
    assert InFlight(s1, c.key) == {1} && InFlight(Apply(s1, Write(1)), c.key) == {};
    Extend(looked, Write(0), c.key, c.window, c.max, 2, c.now, c.now);
    Extend(looked + [Write(0)], Write(1), c.key, c.window, c.max, 2, c.now, c.now);
    steps := looked + [Write(0)] + [Write(1)];
    assert times + [c.now] + [c.now] == times + [c.now, c.now];
  }

  function At(c: CallEvent, now: int): CallEvent {
    Call(c.key, c.window, c.max, now)
  }

  lemma Cleaned(steps: seq<Step>, c: CallEvent, row: Row, times: seq<int>, now: int)
    requires Quiet(steps, c, Some(row), times) && c.now <= now && row.last < now - RETENTION_MS
    ensures Quiet(steps + [Clean(now)], At(c, now), None, times)
  {
    assert InFlight(Apply(Run(steps), Clean(now)), c.key) == {};
    Extend(steps, Clean(now), c.key, c.window, c.max, 1, c.now, now);
  }

  /** A cleanup within the window forgets calls that still count. */
  lemma ForgottenWithin(c: CallEvent) returns (steps: seq<Step>)
    requires c.key != "" && c.max >= 1 && c.window > RETENTION_MS && c.now == 0
    ensures Orderly(steps, c.key, c.window, c.max, 1, RETENTION_MS + 1)
    ensures !KeepsMaximumAt(steps, c.key, c.window, c.max, 0)
  {
    hide Orderly;
    var late := At(c, RETENTION_MS + 1);
    NothingYet(c);
    CallsAccepted([], c, c.max, []);
    Cleaned([] + Calls(c, c.max), c, Row(c.max, 0), [] + Repeated(0, c.max), late.now);
    var cleaned := [] + Calls(c, c.max) + [Clean(late.now)];
    CallsAccepted(cleaned, late, 1, [] + Repeated(0, c.max));
    steps := cleaned + Calls(late, 1);
    RepeatedCount([], 0, c.max, 0, c.window);
    RepeatedCount([] + Repeated(0, c.max), late.now, 1, 0, c.window);
  }

  /** A call that sees a row which a cleanup deletes before the UPDATE: the call is not counted at all. */
  lemma LostUpdate(before: seq<Step>, c: CallEvent, row: Row, times: seq<int>, now: int) returns (steps: seq<Step>)
    requires Quiet(before, c, Some(row), times) && c.key != "" && Accepts(Run(before).rows, c)
    requires !Stale(Flight(c, Some(row))) && c.now <= now && row.last < now - RETENTION_MS
    ensures Quiet(steps, At(c, now), None, times + [c.now])
  {
    var s := Run(before);
    var s1 := Apply(s, Look(0, c));
    var s2 := Apply(s1, Clean(now));
    assert InFlight(s1, c.key) == {0} && InFlight(s2, c.key) == {0};
    assert InFlight(Apply(s2, Write(0)), c.key) == {};
    Extend(before, Look(0, c), c.key, c.window, c.max, 1, c.now, c.now);
    Extend(before + [Look(0, c)], Clean(now), c.key, c.window, c.max, 1, c.now, now);
    Extend(before + [Look(0, c)] + [Clean(now)], Write(0), c.key, c.window, c.max, 1, now, now);
    steps := before + [Look(0, c)] + [Clean(now)] + [Write(0)];
    AcceptedGrows(s.accepted, c, c.key);
  }

  /** If the window is more than half the retention, so many calls may follow within it. */
  lemma UncountedWithin(c: CallEvent) returns (steps: seq<Step>)
    requires c.key != "" && c.max >= 2 && c.window <= RETENTION_MS < 2 * c.window && c.now == 0
    ensures Orderly(steps, c.key, c.window, c.max, 1, RETENTION_MS + 1)
    ensures !KeepsMaximumAt(steps, c.key, c.window, c.max, c.window)
  {
    hide Orderly;
    var n := c.max - 1;
    var seen, late := At(c, c.window), At(c, RETENTION_MS + 1);
    var first := [] + Repeated(0, n);
    NothingYet(c);
    CallsAccepted([], c, n, []);
    QuietLater([] + Calls(c, n), c, Some(Row(n, 0)), first, c.window);
    var lost := LostUpdate([] + Calls(c, n), seen, Row(n, 0), first, late.now);
    CallsAccepted(lost, late, c.max, first + [c.window]);
    steps := lost + Calls(late, c.max);
    assert Front(first + [c.window]) == first;
    assert CountFrom(first + [c.window], c.window, c.window) >= 1;
    RepeatedCount(first + [c.window], late.now, c.max, c.window, c.window);
  }

  lemma QuietLater(steps: seq<Step>, c: CallEvent, row: Option<Row>, times: seq<int>, now: int)
    requires Quiet(steps, c, row, times) && c.now <= now
    ensures Quiet(steps, At(c, now), row, times)
  {
    Sooner(steps, c.key, c.window, c.max, 1, c.now, now);
  }

  /**
   * With at most n calls of a key in flight and cleanups at any moment, every run keeps a positive
   * maximum exactly when nothing is in flight, or when calls do not overlap, the window is no longer than
   * the retention and, unless the maximum is one, no longer than half of it.
   */
  lemma AlwaysKeptIffSafe(key: string, window: int, max: int, n: nat)
    requires key != "" && max >= 1 && 0 <= window
    ensures AlwaysKept(key, window, max, n) <==> Safe(window, max, n)
  {
    if Safe(window, max, n) {
      forall steps, clock, start | Orderly(steps, key, window, max, n, clock)
        ensures KeepsMaximumAt(steps, key, window, max, start)
      {
        SafeKeeps(steps, key, window, max, n, clock, start);
      }
    } else {
      var c := Call(key, window, max, 0);
      var steps, clock, start := Exceeding(c, n);
      assert Orderly(steps, key, window, max, n, clock);
    }
  }

  lemma SafeKeeps(steps: seq<Step>, key: string, window: int, max: int, n: nat, clock: int, start: int)
    requires key != "" && max >= 1 && 0 <= window && Safe(window, max, n)
    requires Orderly(steps, key, window, max, n, clock)
    ensures KeepsMaximumAt(steps, key, window, max, start)
  {
    hide Orderly;
    if n == 0 {
      NothingAccepted(steps, key, window, max, clock);
    } else {
      RunKeeps(steps, key, window, max, clock);
    }
  }

  lemma Exceeding(c: CallEvent, n: nat) returns (steps: seq<Step>, clock: int, start: int)
    requires c.key != "" && c.max >= 1 && 0 <= c.window && c.now == 0 && !Safe(c.window, c.max, n)
    ensures Orderly(steps, c.key, c.window, c.max, n, clock)
    ensures !KeepsMaximumAt(steps, c.key, c.window, c.max, start)
  {
    hide Orderly, KeepsMaximumAt;
    if n >= 2 {
      steps := TwoLookFirst(c);
      clock, start := 0, 0;
      Wider(steps, c.key, c.window, c.max, 2, n, clock);
    } else if c.window > RETENTION_MS {
      steps := ForgottenWithin(c);
      clock, start := RETENTION_MS + 1, 0;
    } else {
      steps := UncountedWithin(c);
      clock, start := RETENTION_MS + 1, c.window;
    }
  }
}
