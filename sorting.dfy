/** `Array.prototype.sort` with a comparator. The language requires the sort to be
    stable, and a stable sort by a total preorder has exactly one possible result,
    so it is modelled by one stable insertion sort. A comparator `cmp` is
    represented by `le(a, b) == (cmp(a, b) <= 0)`. */
module Sorting {

  ghost predicate TotalPreorder<T(!new)>(le: (T, T) -> bool)
  {
    && (forall x, y :: le(x, y) || le(y, x))
    && (forall x, y, z :: le(x, y) && le(y, z) ==> le(x, z))
  }

  ghost predicate Sorted<T>(s: seq<T>, le: (T, T) -> bool)
  {
    forall i, j :: 0 <= i < j < |s| ==> le(s[i], s[j])
  }

  /** Inserts `x` after every element of `s` that is not greater than it. */
  function InsertLast<T>(s: seq<T>, x: T, le: (T, T) -> bool): (r: seq<T>)
    ensures |r| == |s| + 1
  {
    if s == [] then [x]
    else if le(s[|s| - 1], x) then s + [x]
    else
      assert s == s[..|s| - 1] + [s[|s| - 1]];
      InsertLast(s[..|s| - 1], x, le) + [s[|s| - 1]]
  }

  /** The stably sorted copy of `s`. */
  function SortBy<T>(s: seq<T>, le: (T, T) -> bool): (r: seq<T>)
    ensures |r| == |s|
  {
    if s == [] then []
    else InsertLast(SortBy(s[..|s| - 1], le), s[|s| - 1], le)
  }

  /** Inserting adds exactly one occurrence of `x`. */
  lemma {:induction false} InsertLastPermutes<T>(s: seq<T>, x: T, le: (T, T) -> bool)
    ensures multiset(InsertLast(s, x, le)) == multiset(s) + multiset{x}
  {
    if s != [] && !le(s[|s| - 1], x) {
      InsertLastPermutes(s[..|s| - 1], x, le);
      assert s == s[..|s| - 1] + [s[|s| - 1]];
    }
  }

  /** Sorting is a permutation. */
  lemma {:induction false} SortByPermutes<T>(s: seq<T>, le: (T, T) -> bool)
    ensures multiset(SortBy(s, le)) == multiset(s)
  {
    if s != [] {
      SortByPermutes(s[..|s| - 1], le);
      InsertLastPermutes(SortBy(s[..|s| - 1], le), s[|s| - 1], le);
      assert s == s[..|s| - 1] + [s[|s| - 1]];
    }
  }

  /** Sorting invents no element. */
  lemma {:induction false} SortByMembers<T>(s: seq<T>, le: (T, T) -> bool)
    ensures forall m :: 0 <= m < |SortBy(s, le)| ==> SortBy(s, le)[m] in s
  {
    var r := SortBy(s, le);
    SortByPermutes(s, le);
    forall m | 0 <= m < |r| ensures r[m] in s {
      assert r[m] in multiset(r);
    }
  }

  /** Sorting keeps exactly the same elements. */
  lemma {:induction false} SortBySameElements<T>(s: seq<T>, le: (T, T) -> bool)
    ensures forall x :: x in SortBy(s, le) <==> x in s
  {
    SortByPermutes(s, le);
    forall x ensures x in SortBy(s, le) <==> x in s {
      assert x in SortBy(s, le) <==> x in multiset(SortBy(s, le));
      assert x in s <==> x in multiset(s);
    }
  }

  lemma {:induction false} InsertLastSorted<T(!new)>(s: seq<T>, x: T, le: (T, T) -> bool)
    requires TotalPreorder(le) && Sorted(s, le)
    ensures Sorted(InsertLast(s, x, le), le)
  {
    if s != [] {
      var init, last := s[..|s| - 1], s[|s| - 1];
      if le(last, x) {
        assert forall i :: 0 <= i < |s| ==> le(s[i], last);
      } else {
        assert le(x, last);
        InsertLastSorted(init, x, le);
        var r' := InsertLast(init, x, le);
        InsertLastPermutes(init, x, le);
        forall i | 0 <= i < |r'| ensures le(r'[i], last) {
          assert r'[i] in multiset(r');
          assert r'[i] in multiset(init) || r'[i] == x;
          if r'[i] != x {
            var k :| 0 <= k < |init| && init[k] == r'[i];
          }
        }
      }
    }
  }

  /** The result of `SortBy` is ordered whenever `le` is a total preorder. */
  lemma {:induction false} SortBySorted<T(!new)>(s: seq<T>, le: (T, T) -> bool)
    requires TotalPreorder(le)
    ensures Sorted(SortBy(s, le), le)
  {
    if s != [] {
      SortBySorted(s[..|s| - 1], le);
      InsertLastSorted(SortBy(s[..|s| - 1], le), s[|s| - 1], le);
    }
  }

  /** Stability: elements that `le` considers equivalent keep their input order. */
  ghost function Equivalents<T>(s: seq<T>, x: T, le: (T, T) -> bool): seq<T>
  {
    if s == [] then []
    else
      var e := Equivalents(s[..|s| - 1], x, le);
      var y := s[|s| - 1];
      if le(x, y) && le(y, x) then e + [y] else e
  }

  lemma {:induction false} EquivalentsAppend<T>(a: seq<T>, b: seq<T>, x: T, le: (T, T) -> bool)
    ensures Equivalents(a + b, x, le) == Equivalents(a, x, le) + Equivalents(b, x, le)
    decreases |b|
  {
    if b == [] {
      assert a + b == a;
    } else {
      assert (a + b)[..|a + b| - 1] == a + b[..|b| - 1];
      EquivalentsAppend(a, b[..|b| - 1], x, le);
    }
  }

  lemma {:induction false} InsertLastStable<T(!new)>(s: seq<T>, y: T, x: T, le: (T, T) -> bool)
    requires TotalPreorder(le)
    ensures Equivalents(InsertLast(s, y, le), x, le) == Equivalents(s + [y], x, le)
  {
    if s != [] {
      var init, last := s[..|s| - 1], s[|s| - 1];
      if !le(last, y) {
        InsertLastStable(init, y, x, le);
        assert InsertLast(s, y, le) == InsertLast(init, y, le) + [last];
        EquivalentsAppend(InsertLast(init, y, le), [last], x, le);
        EquivalentsSwap(init, y, last, x, le);
        assert s + [y] == init + [last] + [y];
      }
    }
  }

  /** `last` and `y` are never both equivalent to `x` when `last` is greater than
      `y`, so their order does not matter. */
  lemma {:induction false} EquivalentsSwap<T(!new)>(init: seq<T>, y: T, last: T, x: T, le: (T, T) -> bool)
    requires TotalPreorder(le) && !le(last, y)
    ensures Equivalents(init + [y], x, le) + Equivalents([last], x, le) == Equivalents(init + [last] + [y], x, le)
  {
    EquivalentsAppend(init, [y], x, le);
    EquivalentsAppend(init + [last], [y], x, le);
    EquivalentsAppend(init, [last], x, le);
    NotBothEquivalent(y, last, x, le);
    assert Equivalents([y], x, le) == [] || Equivalents([last], x, le) == [];
  }

  lemma {:induction false} NotBothEquivalent<T(!new)>(y: T, last: T, x: T, le: (T, T) -> bool)
    requires TotalPreorder(le) && !le(last, y)
    ensures !(le(x, y) && le(y, x) && le(x, last) && le(last, x))
  {
  }

  lemma {:induction false} SortByStable<T(!new)>(s: seq<T>, x: T, le: (T, T) -> bool)
    requires TotalPreorder(le)
    ensures Equivalents(SortBy(s, le), x, le) == Equivalents(s, x, le)
  {
    if s != [] {
      var init, last := s[..|s| - 1], s[|s| - 1];
      var sortedInit := SortBy(init, le);
      assert SortBy(s, le) == InsertLast(sortedInit, last, le);
      calc {
        Equivalents(SortBy(s, le), x, le);
        { InsertLastStable(sortedInit, last, x, le); }
        Equivalents(sortedInit + [last], x, le);
        { EquivalentsAppend(sortedInit, [last], x, le); }
        Equivalents(sortedInit, x, le) + Equivalents([last], x, le);
        { SortByStable(init, x, le); }
        Equivalents(init, x, le) + Equivalents([last], x, le);
        { EquivalentsAppend(init, [last], x, le); assert s == init + [last]; }
        Equivalents(s, x, le);
      }
    }
  }

  lemma {:induction false} InsertLastStep<T>(sorted: seq<T>, j: nat, x: T, le: (T, T) -> bool)
    requires 0 < j <= |sorted| && !le(sorted[j - 1], x)
    ensures InsertLast(sorted[..j], x, le) + sorted[j..] == InsertLast(sorted[..j - 1], x, le) + sorted[j - 1..]
  {
    assert sorted[..j][..j - 1] == sorted[..j - 1];
    assert sorted[j - 1..] == [sorted[j - 1]] + sorted[j..];
  }

  lemma {:induction false} InsertLastStop<T>(sorted: seq<T>, j: nat, x: T, le: (T, T) -> bool)
    requires j <= |sorted| && (j == 0 || le(sorted[j - 1], x))
    ensures InsertLast(sorted[..j], x, le) + sorted[j..] == sorted[..j] + [x] + sorted[j..]
  {
  }

  /** One step of `a.sort(cmp)` in place: moves `a[i]` left past the greater
      elements of the already sorted prefix `a[..i]`. */
  method InsertInPlace<T>(a: array<T>, i: nat, le: (T, T) -> bool)
    requires i < a.Length
    modifies a
    ensures a[..i + 1] == InsertLast(old(a[..i]), old(a[i]), le)
    ensures a[i + 1..] == old(a[i + 1..])
  {
    ghost var sorted := a[..i];
    var x := a[i];
    var j := ShiftGreater(a, i, x, le, sorted);
    a[j] := x;
    InsertLastStop(sorted, j, x, le);
    Placed(a[..i + 1], sorted, j, x);
  }

  /** Shifts the elements of the prefix `a[..i]` that are greater than `x` one
      place to the right, leaving a gap at the returned index. */
  method ShiftGreater<T>(a: array<T>, i: nat, x: T, le: (T, T) -> bool, ghost sorted: seq<T>) returns (j: nat)
    requires i < a.Length && sorted == a[..i]
    modifies a
    ensures j <= i && (j == 0 || le(sorted[j - 1], x))
    ensures forall k :: 0 <= k < j ==> a[k] == sorted[k]
    ensures forall k :: j < k <= i ==> a[k] == sorted[k - 1]
    ensures forall k :: i < k < a.Length ==> a[k] == old(a[k])
    ensures InsertLast(sorted, x, le) == InsertLast(sorted[..j], x, le) + sorted[j..]
  {
    j := i;
    assert sorted[..j] == sorted && sorted[j..] == [];
    while j > 0 && !le(a[j - 1], x)
      invariant 0 <= j <= i
      invariant forall k :: 0 <= k < j ==> a[k] == sorted[k]
      invariant forall k :: j < k <= i ==> a[k] == sorted[k - 1]
      invariant forall k :: i < k < a.Length ==> a[k] == old(a[k])
      invariant InsertLast(sorted, x, le) == InsertLast(sorted[..j], x, le) + sorted[j..]
    {
      InsertLastStep(sorted, j, x, le);
      a[j] := a[j - 1];
      j := j - 1;
    }
  }

  /** The array contents after the last move: the shifted suffix with `x` in the gap. */
  lemma {:induction false} Placed<T>(b: seq<T>, sorted: seq<T>, j: nat, x: T)
    requires j <= |sorted| && |b| == |sorted| + 1 && b[j] == x
    requires forall k :: 0 <= k < j ==> b[k] == sorted[k]
    requires forall k :: j < k < |b| ==> b[k] == sorted[k - 1]
    ensures b == sorted[..j] + [x] + sorted[j..]
  {
  }

  /** Sorting one more element inserts it into the sorted prefix. */
  lemma {:induction false} SortByPrefix<T>(s: seq<T>, i: nat, le: (T, T) -> bool)
    requires i < |s|
    ensures SortBy(s[..i + 1], le) == InsertLast(SortBy(s[..i], le), s[i], le)
  {
    assert s[..i + 1][..i] == s[..i];
  }

  /** `a.sort(cmp)` in place: insertion sort. */
  method SortInPlace<T>(a: array<T>, le: (T, T) -> bool)
    modifies a
    ensures a[..] == SortBy(old(a[..]), le)
  {
    ghost var input := a[..];
    var i := 0;
    while i < a.Length
      invariant 0 <= i <= a.Length
      invariant a[..i] == SortBy(input[..i], le)
      invariant a[i..] == input[i..]
    {
      assert a[i] == input[i] && a[i + 1..] == input[i + 1..] by {
        assert a[i..][0] == a[i] && a[i..][1..] == a[i + 1..];
        assert input[i..][0] == input[i] && input[i..][1..] == input[i + 1..];
      }
      InsertInPlace(a, i, le);
      SortByPrefix(input, i, le);
      i := i + 1;
    }
    assert a[..] == a[..a.Length];
    assert input == input[..a.Length];
  }
}
