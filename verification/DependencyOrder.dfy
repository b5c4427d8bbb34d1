/**
 * The order in which the protocol header emits its structs: Kahn's algorithm over the
 * dependency map, with the structs it cannot place appended in name order.
 */
module DependencyOrder {
  import opened NameOrder

  // ---------------------------------------------------------------------------------------
  // Which structs depend on which
  // ---------------------------------------------------------------------------------------

  /** What the dependency scan looks at in one property: its own "$ref", and the "$ref" of its array items. */
  datatype Property = Property(ref: Reference, isArray: bool, itemsRef: Reference)
  datatype Reference = NoReference | Reference(path: string)
  datatype Schema = Schema(name: Name, isObject: bool, hasProperties: bool, properties: seq<Property>)

  /** The part of a reference after its last slash. */
  function LastSegment(path: string): (r: string)
    ensures '/' !in r && |r| <= |path| && path[|path| - |r|..] == r
    ensures |r| < |path| ==> path[|path| - |r| - 1] == '/'
  {
    if path == [] then path
    else if '/' !in path then path
    else LastSegment(path[1..])
  }

  predicate IsStruct(s: Schema) {
    s.name != "F8JsonValue" && s.isObject && s.hasProperties
  }

  /** The schema a property's generated member type needs complete, if it names one. */
  ghost predicate Mentions(p: Property, target: Name) {
    match p.ref
    case Reference(path) => LastSegment(path) == target
    case NoReference => p.isArray && p.itemsRef.Reference? && LastSegment(p.itemsRef.path) == target
  }

  ghost predicate Wanted(properties: seq<Property>, target: Name) {
    exists p :: p in properties && Mentions(p, target)
  }

  type Dependencies = map<Name, set<Name>>

  ghost predicate Closed(d: Dependencies) {
    forall n :: n in d ==> d[n] <= d.Keys
  }

  method DepsFor(schema: Schema, structNames: set<Name>) returns (deps: set<Name>)
    ensures forall target :: target in deps <==>
              && target in structNames && target != schema.name
              && schema.hasProperties && Wanted(schema.properties, target)
  {
    deps := {};
    if !schema.hasProperties {
      return;
    }
    var i := 0;
    while i < |schema.properties|
      invariant 0 <= i <= |schema.properties|
      invariant forall target :: target in deps <==>
                  && target in structNames && target != schema.name
                  && Wanted(schema.properties[..i], target)
    {
      var p := schema.properties[i];
      assert schema.properties[..i + 1] == schema.properties[..i] + [p];
      assert forall q :: q in schema.properties[..i + 1] <==> q in schema.properties[..i] || q == p;
      assert forall target :: Wanted(schema.properties[..i + 1], target)
                              <==> Wanted(schema.properties[..i], target) || Mentions(p, target);
      match p.ref {
        case Reference(path) =>
          var ref := LastSegment(path);
          if ref in structNames && ref != schema.name {
            deps := deps + {ref};
          }
        case NoReference =>
          if p.isArray && p.itemsRef.Reference? {
            var ref := LastSegment(p.itemsRef.path);
            if ref in structNames && ref != schema.name {
              deps := deps + {ref};
            }
          }
      }
      i := i + 1;
    }
    assert schema.properties[..i] == schema.properties;
  }

  // ---------------------------------------------------------------------------------------
  // Graphs
  // ---------------------------------------------------------------------------------------

  /** Each entry depends on the next one. */
  ghost predicate IsWalk(d: Dependencies, p: seq<Name>) {
    && |p| > 0
    && (forall i :: 0 <= i < |p| ==> p[i] in d)
    && (forall i :: 0 <= i < |p| - 1 ==> p[i + 1] in d[p[i]])
  }

  /** A walk that leads from n to a struct (at k) and from there around a cycle back to it. */
  ghost predicate IsLasso(d: Dependencies, n: Name, p: seq<Name>, k: nat) {
    IsWalk(d, p) && p[0] == n && k < |p| - 1 && p[k] == p[|p| - 1]
  }

  ghost predicate ReachesCycle(d: Dependencies, n: Name) {
    exists p, k :: IsLasso(d, n, p, k)
  }

  ghost predicate Acyclic(d: Dependencies) {
    forall n :: n in d ==> !ReachesCycle(d, n)
  }

  ghost function Residual(d: Dependencies): set<Name> {
    set n | n in d && ReachesCycle(d, n)
  }

  /** Every dependency of an entry stands before it. */
  ghost predicate FollowsDeps(d: Dependencies, order: seq<Name>) {
    forall i :: 0 <= i < |order| ==> order[i] in d && d[order[i]] <= Elements(order[..i])
  }

  ghost predicate TopologicalOrder(d: Dependencies, names: set<Name>, order: seq<Name>) {
    Distinct(order) && Elements(order) == names && FollowsDeps(d, order)
  }

  /** Comparison of lists of names by their first difference. */
  ghost predicate LexLessEq(a: seq<Name>, b: seq<Name>) {
    a <= b || exists i :: 0 <= i < |a| && i < |b| && a[..i] == b[..i] && Less(a[i], b[i])
  }

  ghost predicate LexLeastOrder(d: Dependencies, names: set<Name>, order: seq<Name>) {
    && TopologicalOrder(d, names, order)
    && forall other :: TopologicalOrder(d, names, other) ==> LexLessEq(order, other)
  }

  /**
   * What the generator promises: first the lexicographically least dependency order of
   * everything that can be ordered, then by name the structs that lead into a cycle.
   */
  ghost predicate IsEmission(d: Dependencies, order: seq<Name>) {
    exists cut: nat :: cut <= |order| && SplitsAt(d, order, cut)
  }

  ghost predicate SplitsAt(d: Dependencies, order: seq<Name>, cut: nat)
    requires cut <= |order|
  {
    && LexLeastOrder(d, d.Keys - Residual(d), order[..cut])
    && StrictlySorted(order[cut..])
    && Elements(order[cut..]) == Residual(d)
  }

  // ---------------------------------------------------------------------------------------
  // The residual block
  // ---------------------------------------------------------------------------------------

  /** In a set where every struct still waits for another of the set, one can walk forever. */
  lemma {:induction false} WalkWithin(d: Dependencies, stuck: set<Name>, n: Name, steps: nat) returns (p: seq<Name>)
    requires stuck <= d.Keys && n in stuck
    requires forall m :: m in stuck ==> d[m] * stuck != {}
    ensures IsWalk(d, p) && p[0] == n && |p| == steps + 1 && Elements(p) <= stuck
    decreases steps
  {
    if steps == 0 {
      return [n];
    }
    var next :| next in d[n] * stuck;
    var rest := WalkWithin(d, stuck, next, steps - 1);
    p := [n] + rest;
    forall x | x in Elements(p) ensures x in stuck {
      assert x == n || x in Elements(rest);
    }
  }

  lemma StuckReachesCycle(d: Dependencies, stuck: set<Name>, n: Name)
    requires stuck <= d.Keys && n in stuck
    requires forall m :: m in stuck ==> d[m] * stuck != {}
    ensures ReachesCycle(d, n)
  {
    var p := WalkWithin(d, stuck, n, |stuck|);
    if Distinct(p) {
      DistinctCardinality(p);
      SubsetCardinality(Elements(p), stuck);
      assert false;
    }
    var k, j :| 0 <= k < j < |p| && p[k] == p[j];
    assert IsLasso(d, n, p[..j + 1], k);
  }

  lemma {:induction false} SubsetCardinality<T>(a: set<T>, b: set<T>)
    requires a <= b
    ensures |a| <= |b|
  {
    assert b == a + (b - a);
  }

  /** Walking along dependencies from a placed struct moves strictly towards the front. */
  lemma {:induction false} WalkMovesForward(d: Dependencies, order: seq<Name>, p: seq<Name>, at: nat)
    requires FollowsDeps(d, order) && IsWalk(d, p) && at < |order| && order[at] == p[0]
    ensures p[|p| - 1] in Elements(order[..at + 1])
    ensures |p| > 1 ==> p[|p| - 1] in Elements(order[..at])
  {
    if |p| > 1 {
      assert p[1] in Elements(order[..at]);
      var next :| 0 <= next < at && order[next] == p[1];
      WalkMovesForward(d, order, p[1..], next);
    } else {
      assert order[..at + 1][at] == p[0];
    }
  }

  lemma PlacedReachesNoCycle(d: Dependencies, order: seq<Name>, n: Name)
    requires FollowsDeps(d, order) && Distinct(order) && n in order
    ensures !ReachesCycle(d, n)
  {
    if ReachesCycle(d, n) {
      var p, k :| IsLasso(d, n, p, k);
      var at :| 0 <= at < |order| && order[at] == n;
      WalkMovesForward(d, order, p[..k + 1], at);
      var knot :| 0 <= knot < |order| && order[knot] == p[k];
      WalkMovesForward(d, order, p[k..], knot);
    }
  }

  // ---------------------------------------------------------------------------------------
  // Lexicographic minimality
  // ---------------------------------------------------------------------------------------

  ghost predicate Available(d: Dependencies, placed: seq<Name>, n: Name) {
    n in d && n !in placed && d[n] <= Elements(placed)
  }

  /** Each entry is the least struct available when it was placed. */
  ghost predicate Greedy(d: Dependencies, order: seq<Name>) {
    forall i, n :: 0 <= i < |order| && Available(d, order[..i], n) ==> LessEq(order[i], n)
  }

  lemma FirstDifference<T>(a: seq<T>, b: seq<T>) returns (i: nat)
    requires |a| == |b| && a != b
    ensures i < |a| && a[..i] == b[..i] && a[i] != b[i]
  {
    i := 0;
    while i < |a| && a[i] == b[i]
      invariant i <= |a| && a[..i] == b[..i]
    {
      assert a[..i + 1] == a[..i] + [a[i]] && b[..i + 1] == b[..i] + [b[i]];
      i := i + 1;
    }
    assert a[..|a|] == a && b[..|b|] == b;
  }

  lemma SameLength<T>(a: seq<T>, b: seq<T>)
    requires Distinct(a) && Distinct(b) && Elements(a) == Elements(b)
    ensures |a| == |b|
  {
    DistinctCardinality(a);
    DistinctCardinality(b);
  }

  lemma GreedyIsLexLeast(d: Dependencies, names: set<Name>, order: seq<Name>)
    requires TopologicalOrder(d, names, order) && Greedy(d, order)
    ensures LexLeastOrder(d, names, order)
  {
    forall other | TopologicalOrder(d, names, other) ensures LexLessEq(order, other) {
      SameLength(order, other);
      if order != other {
        var i := FirstDifference(order, other);
        assert other[i] !in other[..i];
        assert Available(d, order[..i], other[i]);
        assert Less(order[i], other[i]);
      }
    }
  }

  lemma LexLessEqAntisymmetric(a: seq<Name>, b: seq<Name>)
    requires |a| == |b| && LexLessEq(a, b) && LexLessEq(b, a)
    ensures a == b
  {
    if a != b {
      var i :| 0 <= i < |a| && a[..i] == b[..i] && Less(a[i], b[i]);
      var j :| 0 <= j < |a| && b[..j] == a[..j] && Less(b[j], a[j]);
      LessTrichotomy(a[i], b[i]);
      LessTrichotomy(b[j], a[j]);
      SamePrefix(a, b, i);
      SamePrefix(a, b, j);
      assert false;
    }
  }

  lemma SamePrefix<T>(a: seq<T>, b: seq<T>, n: nat)
    requires n <= |a| && n <= |b| && a[..n] == b[..n]
    ensures forall k :: 0 <= k < n ==> a[k] == b[k]
  {
    forall k | 0 <= k < n ensures a[k] == b[k] {
      assert a[..n][k] == b[..n][k];
    }
  }

  /** The dependency map alone fixes the emitted list: no trace of any iteration order is left. */
  lemma EmissionIsUnique(d: Dependencies, a: seq<Name>, b: seq<Name>)
    requires IsEmission(d, a) && IsEmission(d, b)
    ensures a == b
  {
    var i: nat :| i <= |a| && SplitsAt(d, a, i);
    var j: nat :| j <= |b| && SplitsAt(d, b, j);
    SameLength(a[..i], b[..j]);
    LexLessEqAntisymmetric(a[..i], b[..j]);
    StrictlySortedUnique(a[i..], b[j..]);
    assert a == a[..i] + a[i..] && b == b[..j] + b[j..];
  }

  /** The emitted list names every struct exactly once. */
  lemma EmissionIsPermutation(d: Dependencies, order: seq<Name>)
    requires IsEmission(d, order)
    ensures Distinct(order) && Elements(order) == d.Keys
  {
    var cut: nat :| cut <= |order| && SplitsAt(d, order, cut);
    StrictlySortedDistinct(order[cut..]);
    assert order == order[..cut] + order[cut..];
    forall i, j | 0 <= i < j < |order| ensures order[i] != order[j] {
      if i < cut <= j {
        assert order[..cut][i] in Elements(order[..cut]);
        assert order[cut..][j - cut] in Elements(order[cut..]);
      } else if j < cut {
        assert order[..cut][i] != order[..cut][j];
      } else {
        assert order[cut..][i - cut] != order[cut..][j - cut];
      }
    }
    forall n ensures n in Elements(order) <==> n in d.Keys {
      assert n in order <==> n in Elements(order[..cut]) || n in Elements(order[cut..]);
    }
  }

  /** On an acyclic map the whole list is the lexicographically least topological order. */
  lemma AcyclicEmission(d: Dependencies, order: seq<Name>)
    requires IsEmission(d, order) && Acyclic(d)
    ensures LexLeastOrder(d, d.Keys, order)
  {
    var cut: nat :| cut <= |order| && SplitsAt(d, order, cut);
    assert Residual(d) == {};
    ElementsEmpty(order[cut..]);
    assert order[..cut] == order;
    assert d.Keys - Residual(d) == d.Keys;
  }

  ghost predicate Independent(d: Dependencies) {
    forall n :: n in d ==> d[n] == {}
  }

  lemma IndependentAcyclic(d: Dependencies)
    requires Independent(d)
    ensures Acyclic(d)
  {
    forall n, p, k: nat | n in d && IsLasso(d, n, p, k) ensures p[1] in d[p[0]] {
    }
  }

  lemma SortedIsLeast(d: Dependencies, sorted: seq<Name>)
    requires Independent(d) && StrictlySorted(sorted) && Elements(sorted) == d.Keys
    ensures LexLeastOrder(d, d.Keys, sorted)
  {
    StrictlySortedDistinct(sorted);
    forall k | 0 <= k < |sorted| ensures sorted[k] in d {
      assert sorted[k] in Elements(sorted);
    }
    forall k, n | 0 <= k < |sorted| && Available(d, sorted[..k], n) ensures LessEq(sorted[k], n) {
      assert n in Elements(sorted);
      var at :| 0 <= at < |sorted| && sorted[at] == n;
      assert forall m :: 0 <= m < k ==> sorted[m] in sorted[..k];
    }
    GreedyIsLexLeast(d, d.Keys, sorted);
  }

  /** Structs that depend on nothing come out in the order of their characters. */
  lemma IndependentInOrder(d: Dependencies, order: seq<Name>, i: nat, j: nat)
    requires IsEmission(d, order) && Independent(d) && i < j < |order|
    ensures Precedes(order[i], order[j])
  {
    hide IsEmission, Acyclic, LexLeastOrder, SortNames, Precedes;
    EmissionIsPermutation(d, order);
    IndependentAcyclic(d);
    AcyclicEmission(d, order);
    var sorted := SortNames(order);
    SortNamesOfDistinct(order);
    SortedIsLeast(d, sorted);
    SameLength(order, sorted);
    OneLeast(d, order, sorted);
    LessIff(order[i], order[j]);
  }

  lemma OneLeast(d: Dependencies, a: seq<Name>, b: seq<Name>)
    requires LexLeastOrder(d, d.Keys, a) && LexLeastOrder(d, d.Keys, b)
    ensures a == b
  {
    SameLength(a, b);
    LexLessEqAntisymmetric(a, b);
  }

  /** The emitted list is a topological order exactly when the map is acyclic. */
  lemma EmissionTopologicalIffAcyclic(d: Dependencies, order: seq<Name>)
    requires IsEmission(d, order)
    ensures TopologicalOrder(d, d.Keys, order) <==> Acyclic(d)
  {
    if Acyclic(d) {
      AcyclicEmission(d, order);
    }
    if TopologicalOrder(d, d.Keys, order) {
      forall n | n in d ensures !ReachesCycle(d, n) {
        assert n in Elements(order);
        PlacedReachesNoCycle(d, order, n);
      }
    }
  }

  // ---------------------------------------------------------------------------------------
  // The loop
  // ---------------------------------------------------------------------------------------

  /** Structs not yet placed, each with the dependencies it still waits for. */
  ghost predicate Waiting(d: Dependencies, placed: set<Name>, remaining: Dependencies) {
    && remaining.Keys == d.Keys - placed
    && forall m :: m in remaining ==> remaining[m] == d[m] - placed
  }

  /** `ready` lists in order the unplaced structs, other than `except`, that wait for nothing. */
  ghost predicate ListsReady(remaining: Dependencies, ready: seq<Name>, except: set<Name>) {
    && StrictlySorted(ready)
    && forall m :: m in ready <==> m in remaining && m !in except && remaining[m] == {}
  }

  /** Python iterates a set in an order of its own: any list of its members, each once. */
  method ListNames(names: set<Name>) returns (r: seq<Name>)
    ensures Distinct(r) && Elements(r) == names
  {
    r := [];
    var todo := names;
    while todo != {}
      invariant todo <= names && Distinct(r) && Elements(r) == names - todo
    {
      var n :| n in todo;
      todo := todo - {n};
      assert n !in Elements(r);
      ElementsAppend(r, n);
      r := r + [n];
    }
  }

  method MarkPlaced(remaining0: Dependencies, ready0: seq<Name>, n: Name)
    returns (remaining: Dependencies, ready: seq<Name>)
    requires n in remaining0 && remaining0[n] == {}
    requires ListsReady(remaining0, ready0, {n})
    ensures remaining.Keys == remaining0.Keys
    ensures forall m :: m in remaining ==> remaining[m] == remaining0[m] - {n}
    ensures ListsReady(remaining, ready, {n})
  {
    remaining, ready := remaining0, ready0;
    var items := remaining.Keys;
    while items != {}
      invariant items <= remaining.Keys == remaining0.Keys
      invariant forall m :: m in items ==> remaining[m] == remaining0[m]
      invariant forall m :: m in remaining && m !in items ==> remaining[m] == remaining0[m] - {n}
      invariant ListsReady(remaining, ready, {n})
      decreases items
    {
      var m :| m in items;
      items := items - {m};
      if n in remaining[m] {
        assert m !in ready && m != n;
        remaining := remaining[m := remaining[m] - {n}];
        if remaining[m] == {} {
          ghost var before := ready;
          StrictlySortedDistinct(ready);
          SortNamesOfDistinct(ready + [m]);
          ready := SortNames(ready + [m]);
          assert forall x :: x in ready <==> x in Elements(ready);
          assert forall x :: x in before + [m] <==> x in Elements(before + [m]);
        }
      }
    }
  }

  lemma PopHead(remaining: Dependencies, ready: seq<Name>)
    requires ListsReady(remaining, ready, {}) && ready != []
    ensures ready[0] in remaining && remaining[ready[0]] == {}
    ensures ListsReady(remaining, ready[1..], {ready[0]})
  {
    StrictlySortedDistinct(ready);
    assert ready[0] in ready;
    forall m ensures m in ready[1..] <==> m in ready && m != ready[0] {
    }
  }

  /** The struct that heads the ready list is the least one available. */
  lemma HeadIsLeast(d: Dependencies, order: seq<Name>, remaining: Dependencies, ready: seq<Name>)
    requires Waiting(d, Elements(order), remaining) && ListsReady(remaining, ready, {}) && ready != []
    ensures Available(d, order, ready[0])
    ensures forall n :: Available(d, order, n) ==> LessEq(ready[0], n)
  {
    assert ready[0] in ready;
    forall x | x in d[ready[0]] ensures x in Elements(order) {
      assert x in remaining[ready[0]] || x in Elements(order);
    }
    forall n | Available(d, order, n) ensures LessEq(ready[0], n) {
      assert n in remaining && remaining[n] == {};
      assert n in ready;
    }
  }

  lemma GreedyStep(d: Dependencies, order: seq<Name>, n: Name)
    requires Distinct(order) && FollowsDeps(d, order) && Greedy(d, order)
    requires Available(d, order, n)
    requires forall m :: Available(d, order, m) ==> LessEq(n, m)
    ensures Distinct(order + [n]) && FollowsDeps(d, order + [n]) && Greedy(d, order + [n])
    ensures Elements(order + [n]) == Elements(order) + {n}
  {
    var longer := order + [n];
    forall i | 0 <= i < |longer|
      ensures longer[i] in d && d[longer[i]] <= Elements(longer[..i])
      ensures forall m :: Available(d, longer[..i], m) ==> LessEq(longer[i], m)
    {
      if i < |order| {
        assert longer[..i] == order[..i];
      } else {
        assert longer[..i] == order;
      }
    }
  }

  ghost predicate GreedyOrder(d: Dependencies, order: seq<Name>) {
    Distinct(order) && FollowsDeps(d, order) && Greedy(d, order)
  }

  lemma PlaceHead(d: Dependencies, order: seq<Name>, remaining: Dependencies, ready: seq<Name>)
    requires GreedyOrder(d, order) && Waiting(d, Elements(order), remaining)
    requires ListsReady(remaining, ready, {}) && ready != []
    ensures GreedyOrder(d, order + [ready[0]])
    ensures Elements(order + [ready[0]]) == Elements(order) + {ready[0]}
    ensures ready[0] in remaining && remaining[ready[0]] == {}
    ensures ListsReady(remaining, ready[1..], {ready[0]})
  {
    HeadIsLeast(d, order, remaining, ready);
    GreedyStep(d, order, ready[0]);
    PopHead(remaining, ready);
  }

  lemma DropPlaced(d: Dependencies, placed: set<Name>, before: Dependencies, after: Dependencies,
                   ready: seq<Name>, n: Name)
    requires Waiting(d, placed, before) && n in before && after.Keys == before.Keys
    requires forall m :: m in after ==> after[m] == before[m] - {n}
    requires ListsReady(after, ready, {n})
    ensures Waiting(d, placed + {n}, after - {n})
    ensures ListsReady(after - {n}, ready, {})
  {
  }

  lemma StartReady(d: Dependencies, free: seq<Name>, ready: seq<Name>)
    requires Elements(free) == set n | n in d && d[n] == {}
    requires StrictlySorted(ready) && Elements(ready) == Elements(free)
    ensures ListsReady(d, ready, {})
  {
    forall m ensures m in ready <==> m in d && d[m] == {} {
      assert m in ready <==> m in Elements(ready);
    }
  }

  /** What Kahn's loop leaves behind leads into cycles, and what it placed does not. */
  lemma LeftoverIsResidual(d: Dependencies, order: seq<Name>, remaining: Dependencies)
    requires Distinct(order) && FollowsDeps(d, order)
    requires Closed(d) && Waiting(d, Elements(order), remaining)
    requires forall m :: m in remaining ==> remaining[m] != {}
    ensures remaining.Keys == Residual(d)
    ensures Elements(order) == d.Keys - Residual(d)
  {
    LeftoverIsStuck(d, Elements(order), remaining);
    PlacedOutsideResidual(d, order);
    assert remaining.Keys == d.Keys - Elements(order);
  }

  lemma LeftoverIsStuck(d: Dependencies, placed: set<Name>, remaining: Dependencies)
    requires Closed(d) && Waiting(d, placed, remaining)
    requires forall m :: m in remaining ==> remaining[m] != {}
    ensures remaining.Keys <= Residual(d)
  {
    var stuck := remaining.Keys;
    forall m | m in stuck ensures d[m] * stuck != {} {
      var x :| x in remaining[m];
      assert x in d[m] && x in stuck;
    }
    forall n | n in stuck ensures n in Residual(d) {
      StuckReachesCycle(d, stuck, n);
    }
  }

  lemma PlacedOutsideResidual(d: Dependencies, order: seq<Name>)
    requires FollowsDeps(d, order) && Distinct(order)
    ensures Elements(order) <= d.Keys - Residual(d)
  {
    forall n | n in Elements(order) ensures n in d.Keys - Residual(d) {
      var i :| 0 <= i < |order| && order[i] == n;
      PlacedReachesNoCycle(d, order, n);
    }
  }

  method StructOrder(depsByName: Dependencies) returns (order: seq<Name>)
    requires Closed(depsByName)
    ensures IsEmission(depsByName, order)
  {
    var free := ListNames(set n | n in depsByName && depsByName[n] == {});
    SortNamesOfDistinct(free);
    var ready := SortNames(free);
    order := [];
    var remaining := depsByName;
    StartReady(depsByName, free, ready);
    StartsGreedy(depsByName);
    hide GreedyOrder, Waiting, IsEmission, StrictlySorted, Elements, SortNames;
    while ready != []
      invariant GreedyOrder(depsByName, order)
      invariant Waiting(depsByName, Elements(order), remaining)
      invariant ListsReady(remaining, ready, {})
      decreases remaining.Keys
    {
      PlaceHead(depsByName, order, remaining, ready);
      ghost var done := Elements(order);
      var n := ready[0];
      ready := ready[1..];
      order := order + [n];
      ghost var before := remaining;
      remaining, ready := MarkPlaced(remaining, ready, n);
      DropPlaced(depsByName, done, before, remaining, ready, n);
      remaining := remaining - {n};
    }
    forall m | m in remaining ensures remaining[m] != {} {
      assert m !in ready;
    }
    ghost var placed := order;
    var rest: seq<Name> := [];
    if remaining != map[] {
      rest := ListNames(remaining.Keys);
      SortNamesOfDistinct(rest);
      rest := SortNames(rest);
      order := order + rest;
    }
    assert order == placed + rest;
    Assemble(depsByName, placed, remaining, rest);
  }

  lemma StartsGreedy(d: Dependencies)
    ensures GreedyOrder(d, []) && Waiting(d, Elements([]), d)
    ensures StrictlySorted([]) && Elements<Name>([]) == {}
  {
  }

  lemma Assemble(d: Dependencies, placed: seq<Name>, remaining: Dependencies, rest: seq<Name>)
    requires Closed(d) && GreedyOrder(d, placed) && Waiting(d, Elements(placed), remaining)
    requires forall m :: m in remaining ==> remaining[m] != {}
    requires StrictlySorted(rest) && Elements(rest) == remaining.Keys
    ensures IsEmission(d, placed + rest)
  {
    var order := placed + rest;
    LeftoverIsResidual(d, placed, remaining);
    GreedyIsLexLeast(d, d.Keys - Residual(d), placed);
    assert order[..|placed|] == placed && order[|placed|..] == rest;
    assert SplitsAt(d, order, |placed|);
  }

  /** From the schemas to the emitted order. */
  method EmitOrder(schemas: map<Name, Schema>) returns (depsByName: Dependencies, order: seq<Name>)
    requires forall n :: n in schemas ==> schemas[n].name == n
    ensures forall n :: n in depsByName <==>
              n in schemas && n != "F8JsonValue" && schemas[n].isObject && schemas[n].hasProperties
    ensures forall n, target :: n in depsByName ==>
              (target in depsByName[n] <==>
               && target in depsByName && target != n
               && Wanted(schemas[n].properties, target))
    ensures IsEmission(depsByName, order)
    ensures Independent(depsByName) ==>
              forall i, j :: 0 <= i < j < |order| ==> Precedes(order[i], order[j])
  {
    var structNames := set n | n in schemas && IsStruct(schemas[n]);
    depsByName := map[];
    var todo := structNames;
    while todo != {}
      invariant todo <= structNames && depsByName.Keys == structNames - todo
      invariant forall n, target :: n in depsByName ==>
                  (target in depsByName[n] <==>
                   && target in structNames && target != n
                   && Wanted(schemas[n].properties, target))
    {
      var n :| n in todo;
      todo := todo - {n};
      var deps := DepsFor(schemas[n], structNames);
      depsByName := depsByName[n := deps];
    }
    order := StructOrder(depsByName);
    if Independent(depsByName) {
      forall i, j | 0 <= i < j < |order| ensures Precedes(order[i], order[j]) {
        IndependentInOrder(depsByName, order, i, j);
      }
    }
  }
}
