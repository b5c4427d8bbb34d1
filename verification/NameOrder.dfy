/** Code-point order on names, and the sorting that the generator asks of Python. */
module NameOrder {

  type Name = string

  predicate Less(a: Name, b: Name) {
    if a == [] then b != []
    else b != [] && (a[0] < b[0] || (a[0] == b[0] && Less(a[1..], b[1..])))
  }

  predicate LessEq(a: Name, b: Name) {
    a == b || Less(a, b)
  }

  /** The names first differ here: the first one ends, or has the smaller character. */
  ghost predicate DiffersAt(a: Name, b: Name, i: nat) {
    i <= |a| && i < |b| && a[..i] == b[..i] && (i == |a| || a[i] < b[i])
  }

  /** Code-point order, said of characters alone. */
  ghost predicate Precedes(a: Name, b: Name) {
    exists i: nat :: DiffersAt(a, b, i)
  }

  lemma {:induction false} DiffersLess(a: Name, b: Name, i: nat)
    requires DiffersAt(a, b, i)
    ensures Less(a, b)
  {
    if i > 0 {
      assert a[..i][0] == b[..i][0] && a[1..][..i - 1] == a[..i][1..] && b[1..][..i - 1] == b[..i][1..];
      DiffersLess(a[1..], b[1..], i - 1);
    }
  }

  lemma {:induction false} LessDiffers(a: Name, b: Name) returns (i: nat)
    requires Less(a, b)
    ensures DiffersAt(a, b, i)
  {
    if a != [] && a[0] == b[0] {
      var k := LessDiffers(a[1..], b[1..]);
      i := k + 1;
      assert a[..i] == [a[0]] + a[1..][..k] && b[..i] == [b[0]] + b[1..][..k];
    } else {
      i := 0;
    }
  }

  /** A name is less than another exactly when it is a proper prefix or the smaller at the first difference. */
  lemma LessIff(a: Name, b: Name)
    ensures Less(a, b) <==> Precedes(a, b)
  {
    if Less(a, b) {
      var i := LessDiffers(a, b);
    }
    if i: nat :| DiffersAt(a, b, i) {
      DiffersLess(a, b, i);
    }
  }

  lemma {:induction false} LessTrichotomy(a: Name, b: Name)
    ensures LessEq(a, b) || Less(b, a)
    ensures Less(a, b) ==> a != b && !Less(b, a)
  {
    if a != [] && b != [] && a[0] == b[0] {
      LessTrichotomy(a[1..], b[1..]);
      assert a == [a[0]] + a[1..] && b == [b[0]] + b[1..];
    }
  }

  lemma {:induction false} LessTransitive(a: Name, b: Name, c: Name)
    requires Less(a, b) && Less(b, c)
    ensures Less(a, c)
  {
    if a != [] && a[0] == b[0] == c[0] {
      LessTransitive(a[1..], b[1..], c[1..]);
    }
  }

  ghost predicate Distinct<T>(s: seq<T>) {
    forall i, j :: 0 <= i < j < |s| ==> s[i] != s[j]
  }

  ghost predicate Sorted(s: seq<Name>) {
    forall i, j :: 0 <= i < j < |s| ==> LessEq(s[i], s[j])
  }

  ghost predicate StrictlySorted(s: seq<Name>) {
    forall i, j :: 0 <= i < j < |s| ==> Less(s[i], s[j])
  }

  ghost function Elements<T>(s: seq<T>): set<T> {
    set x | x in s
  }

  function Insert(x: Name, s: seq<Name>): (r: seq<Name>)
    ensures multiset(r) == multiset(s) + multiset{x}
  {
    if s == [] || LessEq(x, s[0]) then
      [x] + s
    else
      assert s == [s[0]] + s[1..];
      [s[0]] + Insert(x, s[1..])
  }

  lemma {:induction false} InsertSorted(x: Name, s: seq<Name>)
    requires Sorted(s)
    ensures Sorted(Insert(x, s))
  {
    if s == [] {
    } else if LessEq(x, s[0]) {
      forall j | 0 <= j < |s| ensures LessEq(x, s[j]) {
        if j > 0 && x != s[0] && s[0] != s[j] {
          LessTransitive(x, s[0], s[j]);
        }
      }
    } else {
      var tail := Insert(x, s[1..]);
      InsertSorted(x, s[1..]);
      LessTrichotomy(x, s[0]);
      forall j | 0 <= j < |tail| ensures LessEq(s[0], tail[j]) {
        assert tail[j] in multiset(tail);
        if tail[j] != x {
          assert tail[j] in s[1..];
        }
      }
    }
  }

  /** Python's list sort on names. */
  function SortNames(s: seq<Name>): (r: seq<Name>)
    ensures multiset(r) == multiset(s)
  {
    if s == [] then [] else
      assert s == [s[0]] + s[1..];
      Insert(s[0], SortNames(s[1..]))
  }

  lemma {:induction false} SortNamesSorted(s: seq<Name>)
    ensures Sorted(SortNames(s))
  {
    if s != [] {
      SortNamesSorted(s[1..]);
      InsertSorted(s[0], SortNames(s[1..]));
    }
  }

  lemma {:induction false} DistinctByMultiset<T>(s: seq<T>)
    ensures Distinct(s) <==> forall x :: x in s ==> multiset(s)[x] == 1
  {
    if s != [] {
      var tail := s[1..];
      DistinctByMultiset(tail);
      assert s == [s[0]] + tail;
      if Distinct(s) {
        forall x | x in s ensures multiset(s)[x] == 1 {
          if x in tail {
            var i :| 0 <= i < |tail| && tail[i] == x;
            assert s[i + 1] == x;
          }
        }
      } else {
        var i, j :| 0 <= i < j < |s| && s[i] == s[j];
        if i == 0 {
          assert tail[j - 1] == s[0];
          assert multiset(s)[s[0]] == 1 + multiset(tail)[s[0]];
        } else {
          assert tail[i - 1] == tail[j - 1];
          var x :| x in tail && multiset(tail)[x] != 1;
          assert multiset(s)[x] != 1;
        }
      }
    }
  }

  /** Sorting distinct names gives a strictly increasing list of the same names. */
  lemma SortNamesOfDistinct(s: seq<Name>)
    requires Distinct(s)
    ensures StrictlySorted(SortNames(s))
    ensures Elements(SortNames(s)) == Elements(s)
    ensures Distinct(SortNames(s))
  {
    var r := SortNames(s);
    forall x ensures x in r <==> x in s {
      assert x in r <==> x in multiset(r);
      assert x in s <==> x in multiset(s);
    }
    DistinctByMultiset(s);
    DistinctByMultiset(r);
    SortNamesSorted(s);
  }

  lemma StrictlySortedDistinct(s: seq<Name>)
    requires StrictlySorted(s)
    ensures Distinct(s)
  {
    forall i, j | 0 <= i < j < |s| ensures s[i] != s[j] {
      LessTrichotomy(s[i], s[j]);
    }
  }

  lemma ElementsAppend<T>(s: seq<T>, x: T)
    ensures Elements(s + [x]) == Elements(s) + {x}
  {
    forall y ensures y in s + [x] <==> y in s || y == x {
    }
  }

  lemma ElementsEmpty<T>(s: seq<T>)
    ensures Elements(s) == {} <==> s == []
  {
    if s != [] {
      assert s[0] in Elements(s);
    }
  }

  /** A strictly increasing list is determined by its set of names. */
  lemma {:induction false} StrictlySortedUnique(a: seq<Name>, b: seq<Name>)
    requires StrictlySorted(a) && StrictlySorted(b) && Elements(a) == Elements(b)
    ensures a == b
  {
    ElementsEmpty(a);
    ElementsEmpty(b);
    if a != [] {
      assert a[0] in Elements(b) && b[0] in Elements(a);
      LessTrichotomy(a[0], b[0]);
      assert a[0] == b[0];
      StrictlySortedDistinct(a);
      StrictlySortedDistinct(b);
      forall x ensures x in a[1..] <==> x in b[1..] {
        assert x in a[1..] <==> x in Elements(a) && x != a[0];
        assert x in b[1..] <==> x in Elements(b) && x != b[0];
      }
      StrictlySortedUnique(a[1..], b[1..]);
    }
  }

  lemma {:induction false} DistinctCardinality<T>(s: seq<T>)
    requires Distinct(s)
    ensures |Elements(s)| == |s|
  {
    if s != [] {
      DistinctCardinality(s[1..]);
      assert Elements(s) == Elements(s[1..]) + {s[0]};
      assert s[0] !in s[1..];
    } else {
      assert Elements(s) == {};
    }
  }
}
