/**
 * One asset when calls on it overlap. A call is its statements, and those of other calls may come
 * between them. Some of what serial calls keep is kept all the same; of the rest it is said exactly when.
 */
module AssetRaces {
  import opened Sequences
  import opened Wrappers

  type RequestId = nat
  type Content = nat

  /** How far a call has come: what it has seen or done, and what is still to do. */
  datatype Stage =
    | Editing(seen: nat, content: Content)
    | Raised(seen: nat, content: Content)
    | Creating(content: Content)
    | Begun(content: Content)
    | Removing
    | Purging

  /**
   * A version that was inserted, by an update that has seen some version or by a create. An epoch ends
   * when the versions are deleted.
   */
  datatype Entry = Entry(epoch: nat, number: nat, content: Content, seen: Option<nat>)

  /** The head's current version number, the stored versions, and the calls in flight. */
  datatype State = State(
    head: Option<nat>,
    versions: map<nat, Content>,
    flights: map<RequestId, Stage>,
    epoch: nat,
    stored: seq<Entry>)

  datatype Step =
    | Look(req: RequestId, expected: Option<int>, content: Content)
    | Raise(req: RequestId)
    | Insert(req: RequestId)
    | Check(req: RequestId, content: Content)
    | Begin(req: RequestId)
    | InsertFirst(req: RequestId)
    | Seek(req: RequestId)
    | Drop(req: RequestId)
    | PurgeVersions(req: RequestId)
    | PurgeHeads(req: RequestId)
    | Crash(req: RequestId)

  const Initial := State(None, map[], map[], 0, [])

  /** Every SELECT of a head joins it with its current version. */
  predicate Readable(s: State) {
    s.head.Some? && s.head.value in s.versions
  }

  predicate Enabled(s: State, step: Step) {
    match step
    case Look(req, _, _) => req !in s.flights
    case Check(req, _) => req !in s.flights
    case Seek(req) => req !in s.flights
    case PurgeVersions(req) => req !in s.flights
    case Raise(req) => req in s.flights && s.flights[req].Editing?
    case Insert(req) => req in s.flights && s.flights[req].Raised?
    case Begin(req) => req in s.flights && s.flights[req].Creating?
    case InsertFirst(req) => req in s.flights && s.flights[req].Begun?
    case Drop(req) => req in s.flights && s.flights[req].Removing?
    case PurgeHeads(req) => req in s.flights && s.flights[req].Purging?
    case Crash(req) => req in s.flights
  }

  function Entered(s: State, req: RequestId, stage: Stage): State {
    s.(flights := s.flights[req := stage])
  }

  function Ended(s: State, req: RequestId): State {
    s.(flights := s.flights - {req})
  }

  /** An INSERT of a version: it needs the head, and a number not yet taken. */
  function Inserted(s: State, number: nat, content: Content, seen: Option<nat>): State {
    if s.head.None? || number in s.versions then s
    else s.(versions := s.versions[number := content], stored := s.stored + [Entry(s.epoch, number, content, seen)])
  }

  function Emptied(s: State, head: Option<nat>): State {
    s.(head := head, versions := map[], epoch := s.epoch + 1)
  }

  function Apply(s: State, step: Step): State
    requires Enabled(s, step)
  {
    match step
    case Look(req, expected, content) =>
      if Readable(s) && (expected.Some? ==> expected.value == s.head.value)
      then Entered(s, req, Editing(s.head.value, content)) else s
    case Raise(req) =>
      var f := s.flights[req];
      var raised := if s.head.Some? then s.(head := Some(f.seen + 1)) else s;
      Entered(raised, req, Raised(f.seen, f.content))
    case Insert(req) =>
      var f := s.flights[req];
      Ended(Inserted(s, f.seen + 1, f.content, Some(f.seen)), req)
    case Check(req, content) => if Readable(s) then s else Entered(s, req, Creating(content))
    case Begin(req) =>
      if s.head.Some? then Ended(s, req) else Entered(s.(head := Some(1)), req, Begun(s.flights[req].content))
    case InsertFirst(req) => Ended(Inserted(s, 1, s.flights[req].content, None), req)
    case Seek(req) => if Readable(s) then Entered(s, req, Removing) else s
    case Drop(req) => Ended(if s.head.Some? then Emptied(s, None) else s, req)
    case PurgeVersions(req) => Entered(Emptied(s, s.head), req, Purging)
    case PurgeHeads(req) => Ended(if s.head.Some? then Emptied(s, None) else s, req)
    case Crash(req) => Ended(s, req)
  }

  /** A call gets past its SELECT exactly if it finds, or for a create does not find, what it needs. */
  lemma StartsIff(s: State, step: Step)
    requires Enabled(s, step) && (step.Look? || step.Check? || step.Seek?)
    ensures var found := s.head.Some? && s.head.value in s.versions;
            step.req in Apply(s, step).flights <==>
            if step.Check? then !found
            else found && (step.Look? && step.expected.Some? ==> step.expected == Some(s.head.value))
    ensures step.Look? && step.req in Apply(s, step).flights ==>
              Some(Apply(s, step).flights[step.req].seen) == s.head
  {
  }

  /** A head appears with a create alone, is raised only where it is, and goes with its versions. */
  lemma HeadAfter(s: State, step: Step)
    requires Enabled(s, step)
    ensures Apply(s, step).head ==
            match step
            case Begin(_) => if s.head == None then Some(1) else s.head
            case Raise(req) => if s.head == None then None else Some(s.flights[req].seen + 1)
            case Drop(_) => None
            case PurgeHeads(_) => None
            case _ => s.head
    ensures step.Drop? || step.PurgeHeads? ==> s.head == None || Apply(s, step).versions == map[]
    ensures step.PurgeVersions? ==> Apply(s, step).versions == map[]
  {
  }

  ghost predicate Legal(steps: seq<Step>)
    decreases |steps|, 0
  {
    steps == [] || (Legal(Front(steps)) && Enabled(Run(Front(steps)), Last(steps)))
  }

  ghost function Run(steps: seq<Step>): State
    requires Legal(steps)
    decreases |steps|, 1
  {
    if steps == [] then Initial else Apply(Run(Front(steps)), Last(steps))
  }

  // ---------------------------------------------------------------------------------------
  // What every interleaving keeps
  // ---------------------------------------------------------------------------------------

  ghost predicate EntrySound(s: State, e: Entry) {
    && e.epoch <= s.epoch && (e.seen.Some? ==> e.number == e.seen.value + 1)
    && (e.epoch == s.epoch ==> e.number in s.versions && s.versions[e.number] == e.content)
  }

  ghost predicate Apart(a: Entry, b: Entry) {
    a.epoch != b.epoch || a.number != b.number
  }

  ghost predicate Inv(s: State) {
    && (forall i :: 0 <= i < |s.stored| ==> EntrySound(s, s.stored[i]))
    && (forall i, j :: 0 <= i < j < |s.stored| ==> Apart(s.stored[i], s.stored[j]))
    && (s.head.None? ==> s.versions == map[])
  }

  lemma StepKeeps(s: State, step: Step)
    requires Inv(s) && Enabled(s, step)
    ensures Inv(Apply(s, step))
  {
    var s' := Apply(s, step);
    forall i | 0 <= i < |s'.stored| ensures EntrySound(s', s'.stored[i]) {
      if i < |s.stored| {
        assert EntrySound(s, s.stored[i]);
      }
    }
    forall i, j | 0 <= i < j < |s'.stored| ensures Apart(s'.stored[i], s'.stored[j]) {
      assert EntrySound(s, s.stored[i]);
    }
  }

  lemma {:induction false} RunKeeps(steps: seq<Step>)
    requires Legal(steps)
    ensures Inv(Run(steps))
  {
    if steps != [] {
      RunKeeps(Front(steps));
      StepKeeps(Run(Front(steps)), Last(steps));
    }
  }

  /**
   * However calls overlap, a version number is inserted once until the versions are deleted; and no two
   * updates that have seen the same version are stored.
   */
  lemma NumbersStoredOnce(steps: seq<Step>, i: nat, j: nat)
    requires Legal(steps) && i < j < |Run(steps).stored|
    requires Run(steps).stored[i].epoch == Run(steps).stored[j].epoch
    ensures var a, b := Run(steps).stored[i], Run(steps).stored[j];
            a.number != b.number && (a.seen.Some? && b.seen.Some? ==> a.seen != b.seen)
  {
    RunKeeps(steps);
    var s := Run(steps);
    assert Apart(s.stored[i], s.stored[j]) && EntrySound(s, s.stored[i]) && EntrySound(s, s.stored[j]);
  }

  /** A version keeps its content until the versions are deleted. */
  lemma {:induction false} ContentsStay(steps: seq<Step>, more: seq<Step>, n: nat)
    requires Legal(steps) && Legal(steps + more) && n in Run(steps).versions
    ensures Run(steps + more).epoch >= Run(steps).epoch
    ensures Run(steps + more).epoch == Run(steps).epoch ==>
              n in Run(steps + more).versions && Run(steps + more).versions[n] == Run(steps).versions[n]
    decreases |more|
  {
    if more == [] {
      assert steps + more == steps;
    } else {
      assert Front(steps + more) == steps + Front(more) && Last(steps + more) == Last(more);
      ContentsStay(steps, Front(more), n);
    }
  }

  /** With nothing between them, the statements of an update add the next version and make it the current one. */
  lemma AloneAddsTheNext(s: State, req: RequestId, content: Content)
    requires req !in s.flights && Readable(s) && s.head.value + 1 !in s.versions
    ensures var n := s.head.value + 1;
            var s' := Apply(Apply(Apply(s, Look(req, None, content)), Raise(req)), Insert(req));
            s' == s.(head := Some(n), versions := s.versions[n := content],
                     stored := s.stored + [Entry(s.epoch, n, content, Some(n - 1))])
  {
    var s' := Apply(Apply(Apply(s, Look(req, None, content)), Raise(req)), Insert(req));
    assert s'.flights == s.flights;
  }

  // ---------------------------------------------------------------------------------------
  // Whole assets
  // ---------------------------------------------------------------------------------------

  /** The versions are exactly 1 to the current one, or there is nothing at all. */
  ghost predicate Whole(s: State) {
    if s.head.None? then s.versions == map[]
    else s.head.value >= 1 && forall n :: n in s.versions <==> 1 <= n <= s.head.value
  }

  ghost predicate AtMost(steps: seq<Step>, n: nat)
    requires Legal(steps)
  {
    |Run(steps).flights| <= n && (steps != [] ==> AtMost(Front(steps), n))
  }

  predicate CrashFree(steps: seq<Step>) {
    forall i :: 0 <= i < |steps| ==> !steps[i].Crash?
  }

  /** Whenever nothing is in flight the asset is whole. */
  ghost predicate AlwaysWhole(n: nat, mayCrash: bool) {
    forall steps :: WholeAtRest(steps, n, mayCrash)
  }

  ghost predicate WholeAtRest(steps: seq<Step>, n: nat, mayCrash: bool) {
    Legal(steps) && AtMost(steps, n) && (mayCrash || CrashFree(steps)) && Run(steps).flights == map[] ==>
      Whole(Run(steps))
  }

  /** What a single call in flight has left half done. */
  ghost predicate HalfDone(s: State, stage: Stage) {
    match stage
    case Editing(seen, _) => Whole(s) && s.head == Some(seen)
    case Raised(seen, _) => s.head == Some(seen + 1) && forall n :: n in s.versions <==> 1 <= n <= seen
    case Creating(_) => Whole(s)
    case Begun(_) => s.head == Some(1) && s.versions == map[]
    case Removing => Whole(s)
    case Purging => s.versions == map[]
  }

  ghost predicate Orderly(s: State) {
    && (s.flights == map[] ==> Whole(s))
    && (forall req :: req in s.flights ==> HalfDone(s, s.flights[req]))
  }

  lemma OnlyOne(flights: map<RequestId, Stage>, a: RequestId, b: RequestId)
    requires |flights| <= 1 && a in flights && b in flights
    ensures a == b
  {
    var rest := flights.Keys - {a};
    assert |rest| == |flights.Keys| - 1 && rest == {};
  }

  /** What a call's own next statement makes of what it has left, or of a whole asset. */
  lemma OwnStep(s: State, step: Step)
    requires Enabled(s, step) && !step.Crash?
    requires if step.req in s.flights then HalfDone(s, s.flights[step.req]) else Whole(s)
    ensures var s' := Apply(s, step);
            if step.req in s'.flights then HalfDone(s', s'.flights[step.req]) else Whole(s')
  {
    var s' := Apply(s, step);
    assert s.head.Some? && s.versions == map[] ==> !Readable(s);
  }

  lemma OthersFlights(s: State, step: Step)
    requires Enabled(s, step)
    ensures var s' := Apply(s, step);
            && s'.flights - {step.req} == s.flights - {step.req}
            && (step.req !in s.flights && step.req !in s'.flights ==> s' == s)
  {
  }

  lemma NoOthers(flights: map<RequestId, Stage>, own: RequestId)
    requires |flights| <= 1 && own in flights
    ensures flights - {own} == map[]
  {
    forall req | req in flights ensures req == own {
      OnlyOne(flights, req, own);
    }
  }

  lemma OrderlyStep(s: State, step: Step)
    requires Orderly(s) && Enabled(s, step) && !step.Crash? && |s.flights| <= 1 && |Apply(s, step).flights| <= 1
    ensures Orderly(Apply(s, step))
  {
    hide Apply, Whole, HalfDone, Enabled;
    var s', own := Apply(s, step), step.req;
    OthersFlights(s, step);
    if own in s.flights || own in s'.flights {
      NoOthers(if own in s.flights then s.flights else s'.flights, own);
      assert own !in s.flights ==> s.flights - {own} == s.flights;
      OwnStep(s, step);
      assert forall req :: req in s'.flights ==> req == own || req in s'.flights - {own};
    }
  }

  lemma {:induction false} OrderlyRun(steps: seq<Step>)
    requires Legal(steps) && AtMost(steps, 1) && CrashFree(steps)
    ensures Orderly(Run(steps))
  {
    if steps != [] {
      assert forall i :: 0 <= i < |Front(steps)| ==> Front(steps)[i] == steps[i];
      OrderlyRun(Front(steps));
      OrderlyStep(Run(Front(steps)), Last(steps));
    }
  }

  lemma {:induction false} NothingStarted(steps: seq<Step>)
    requires Legal(steps) && AtMost(steps, 0)
    ensures CrashFree(steps) && AtMost(steps, 1)
  {
    if steps != [] {
      NothingStarted(Front(steps));
      assert Enabled(Run(Front(steps)), Last(steps)) && Run(Front(steps)).flights == map[];
      forall i | 0 <= i < |steps| ensures !steps[i].Crash? {
        assert i < |Front(steps)| ==> Front(steps)[i] == steps[i];
      }
    }
  }

  /** A run without crashes, with at most n calls in flight, and where it has come. */
  ghost predicate Reaches(steps: seq<Step>, n: nat, s: State) {
    Legal(steps) && AtMost(steps, n) && CrashFree(steps) && Run(steps) == s
  }

  lemma Onward(steps: seq<Step>, n: nat, s: State, step: Step) returns (longer: seq<Step>)
    requires Reaches(steps, n, s) && Enabled(s, step) && !step.Crash? && |Apply(s, step).flights| <= n
    ensures longer == steps + [step] && Reaches(longer, n, Apply(s, step))
  {
    longer := steps + [step];
    assert Front(longer) == steps && Last(longer) == step;
  }

  /** A new asset with its first version. */
  lemma Created(content: Content, n: nat) returns (steps: seq<Step>)
    requires n >= 1
    ensures Reaches(steps, n, State(Some(1), map[1 := content], map[], 0, [Entry(0, 1, content, None)]))
  {
    var begun := State(Some(1), map[], map[0 := Begun(content)], 0, []);
    steps := Begun1(content, n);
    steps := Onward(steps, n, begun, InsertFirst(0));
    assert begun.flights - {0} == map[];
  }

  lemma Begun1(content: Content, n: nat) returns (steps: seq<Step>)
    requires n >= 1
    ensures Reaches(steps, n, State(Some(1), map[], map[0 := Begun(content)], 0, []))
  {
    var checked := State(None, map[], map[0 := Creating(content)], 0, []);
    assert Apply(Initial, Check(0, content)) == checked;
    steps := Onward([], n, Initial, Check(0, content));
    steps := Onward(steps, n, checked, Begin(0));
    assert checked.flights[0 := Begun(content)] == map[0 := Begun(content)];
  }

  /** One call stopped between its statements leaves an asset that is not whole. */
  lemma CrashBreaks(content: Content) returns (steps: seq<Step>)
    ensures Legal(steps) && AtMost(steps, 1) && Run(steps).flights == map[]
    ensures Run(steps).head == Some(1) && Run(steps).versions == map[]
  {
    var before := Begun1(content, 1);
    steps := before + [Crash(0)];
    assert Front(steps) == before && Last(steps) == Crash(0);
    assert Run(before).flights - {0} == map[];
  }

  lemma TwoLook(c: Content, n: nat) returns (steps: seq<Step>)
    requires n >= 2
    ensures Reaches(steps, n, State(Some(1), map[1 := c], map[1 := Editing(1, c), 0 := Editing(1, c)], 0,
                                    [Entry(0, 1, c, None)]))
  {
    var v, e := map[1 := c], [Entry(0, 1, c, None)];
    steps := Created(c, n);
    steps := Onward(steps, n, State(Some(1), v, map[], 0, e), Look(1, None, c));
    steps := Onward(steps, n, State(Some(1), v, map[1 := Editing(1, c)], 0, e), Look(0, None, c));
  }

  /** One of two updates that have seen version 1 stores version 2. */
  lemma OneGoesAhead(c: Content, n: nat) returns (steps: seq<Step>)
    requires n >= 2
    ensures Reaches(steps, n, State(Some(2), map[1 := c, 2 := c], map[1 := Editing(1, c)], 0,
                                    [Entry(0, 1, c, None), Entry(0, 2, c, Some(1))]))
  {
    hide AtMost, CrashFree;
    var v, e := map[1 := c], [Entry(0, 1, c, None)];
    steps := TwoLook(c, n);
    var both := State(Some(1), v, map[1 := Editing(1, c), 0 := Editing(1, c)], 0, e);
    var raised := State(Some(2), v, map[1 := Editing(1, c), 0 := Raised(1, c)], 0, e);
    assert both.flights[0 := Raised(1, c)] == raised.flights;
    assert Apply(both, Raise(0)) == raised;
    steps := Onward(steps, n, both, Raise(0));
    hide Reaches;
    assert raised.flights - {0} == map[1 := Editing(1, c)];
    assert v[2 := c] == map[1 := c, 2 := c];
    assert e + [Entry(0, 2, c, Some(1))] == [Entry(0, 1, c, None), Entry(0, 2, c, Some(1))];
    steps := Onward(steps, n, raised, Insert(0));
  }

  /** A third update is about to store version 3 when the other one of the two takes the head back to 2. */
  lemma TheOtherGoesBack(c: Content, n: nat) returns (steps: seq<Step>)
    requires n >= 2
    ensures Reaches(steps, n, State(Some(2), map[1 := c, 2 := c], map[1 := Raised(1, c), 0 := Raised(2, c)], 0,
                                    [Entry(0, 1, c, None), Entry(0, 2, c, Some(1))]))
  {
    hide AtMost, CrashFree;
    var v, e := map[1 := c, 2 := c], [Entry(0, 1, c, None), Entry(0, 2, c, Some(1))];
    steps := OneGoesAhead(c, n);
    steps := Onward(steps, n, State(Some(2), v, map[1 := Editing(1, c)], 0, e), Look(0, None, c));
    steps := Onward(steps, n, State(Some(2), v, map[1 := Editing(1, c), 0 := Editing(2, c)], 0, e), Raise(0));
    steps := Onward(steps, n, State(Some(3), v, map[1 := Editing(1, c), 0 := Raised(2, c)], 0, e), Raise(1));
  }

  /**
   * Two updates that have seen one version, of which one is late: it takes the head back behind a version
   * that is stored meanwhile.
   */
  lemma OverlapBreaks(c: Content, n: nat) returns (steps: seq<Step>)
    requires n >= 2
    ensures Legal(steps) && AtMost(steps, n) && CrashFree(steps) && Run(steps).flights == map[]
    ensures Run(steps).head == Some(2) && 3 in Run(steps).versions
  {
    var v, e := map[1 := c, 2 := c], [Entry(0, 1, c, None), Entry(0, 2, c, Some(1))];
    steps := TheOtherGoesBack(c, n);
    var both := State(Some(2), v, map[1 := Raised(1, c), 0 := Raised(2, c)], 0, e);
    assert both.flights - {0} == map[1 := Raised(1, c)];
    steps := Onward(steps, n, both, Insert(0));
    var late := State(Some(2), v[3 := c], map[1 := Raised(1, c)], 0, e + [Entry(0, 3, c, Some(2))]);
    assert Apply(both, Insert(0)) == late && late.flights - {1} == map[];
    steps := Onward(steps, n, late, Insert(1));
  }

  lemma NotWhole(s: State)
    requires (s.head == Some(1) && s.versions == map[]) || (s.head == Some(2) && 3 in s.versions)
    ensures !Whole(s)
  {
    assert s.head == Some(1) ==> 1 !in s.versions;
  }

  lemma SafeIsWhole(steps: seq<Step>, n: nat, mayCrash: bool)
    requires n == 0 || (n == 1 && !mayCrash)
    ensures WholeAtRest(steps, n, mayCrash)
  {
    if Legal(steps) && AtMost(steps, n) && (mayCrash || CrashFree(steps)) {
      if n == 0 {
        NothingStarted(steps);
      }
      OrderlyRun(steps);
    }
    hide Apply;
  }

  lemma UnsafeBreaks(n: nat, mayCrash: bool) returns (steps: seq<Step>)
    requires n >= 2 || (n == 1 && mayCrash)
    ensures !WholeAtRest(steps, n, mayCrash)
  {
    hide Run, AtMost;
    if n >= 2 {
      steps := OverlapBreaks(0, n);
    } else {
      steps := CrashBreaks(0);
    }
    NotWhole(Run(steps));
  }

  /**
   * With at most n calls in flight the asset is whole whenever nothing is in flight exactly when calls do
   * not overlap and none of them stops half-way, or when there are none.
   */
  lemma AlwaysWholeIff(n: nat, mayCrash: bool)
    ensures AlwaysWhole(n, mayCrash) <==> n == 0 || (n == 1 && !mayCrash)
  {
    hide WholeAtRest;
    if n == 0 || (n == 1 && !mayCrash) {
      forall steps ensures WholeAtRest(steps, n, mayCrash) {
        SafeIsWhole(steps, n, mayCrash);
      }
    } else {
      var steps := UnsafeBreaks(n, mayCrash);
    }
  }

  // ---------------------------------------------------------------------------------------
  // Stranded assets
  // ---------------------------------------------------------------------------------------

  /** A head whose current version is missing, and no call under way that could still supply it. */
  ghost predicate Stranded(s: State) {
    s.head.Some? && !Readable(s) && forall req :: req in s.flights ==> s.flights[req].Creating?
  }

  /** Such an asset can be neither read, updated, deleted nor created anew, until everything is purged. */
  lemma {:induction false} StrandedStays(steps: seq<Step>, more: seq<Step>)
    requires Legal(steps) && Legal(steps + more) && Stranded(Run(steps))
    requires forall i :: 0 <= i < |more| ==> !more[i].PurgeVersions?
    ensures var s, s' := Run(steps), Run(steps + more);
            Stranded(s') && s'.head == s.head && s'.versions == s.versions && s'.stored == s.stored
    decreases |more|
  {
    if more == [] {
      assert steps + more == steps;
    } else {
      assert Front(steps + more) == steps + Front(more) && Last(steps + more) == Last(more);
      assert Last(more) == more[|more| - 1];
      StrandedStays(steps, Front(more));
    }
  }

  /** One stopped call is enough. */
  lemma OneCrashStrands(content: Content) returns (steps: seq<Step>)
    ensures Legal(steps) && AtMost(steps, 1) && Stranded(Run(steps))
  {
    steps := CrashBreaks(content);
  }
}
