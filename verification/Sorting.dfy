/**
 Insertion from the end of a list, and sort.SliceStable as the ledger uses it. Go sorts up to
 twenty elements by plain insertion; beyond that only what its documentation promises is kept.
*/
module Sorting {
  import opened Orders

  /** `x` put behind the last element it is not below. */
  function Insert<T>(less: (T, T) -> bool, s: seq<T>, x: T): (r: seq<T>)
    ensures |r| == |s| + 1
  {
    if s == [] || !less(x, s[|s| - 1]) then s + [x]
    else Insert(less, s[..|s| - 1], x) + [s[|s| - 1]]
  }

  function InsertionSort<T>(less: (T, T) -> bool, s: seq<T>): (r: seq<T>)
    ensures |r| == |s|
  {
    if s == [] then [] else Insert(less, InsertionSort(less, s[..|s| - 1]), s[|s| - 1])
  }

  /** Where `Insert` puts the element: everything behind it is above it, and what stands before is not. */
  lemma {:induction false} InsertPlace<T>(less: (T, T) -> bool, s: seq<T>, x: T) returns (p: nat)
    ensures p <= |s| && Insert(less, s, x) == s[..p] + [x] + s[p..]
    ensures p > 0 ==> !less(x, s[p - 1])
    ensures forall i :: p <= i < |s| ==> less(x, s[i])
  {
    if s == [] || !less(x, s[|s| - 1]) {
      p := |s|;
    } else {
      p := InsertPlace(less, s[..|s| - 1], x);
      assert s[..|s| - 1][p..] + [s[|s| - 1]] == s[p..];
    }
  }

  lemma InsertIsPermutation<T>(less: (T, T) -> bool, s: seq<T>, x: T)
    ensures multiset(Insert(less, s, x)) == multiset(s + [x])
  {
    var p := InsertPlace(less, s, x);
    SplicedIsPermutation(s, p, x);
  }

  lemma SplicedIsPermutation<T>(s: seq<T>, p: nat, x: T)
    requires p <= |s|
    ensures multiset(s[..p] + [x] + s[p..]) == multiset(s + [x])
  {
    assert s == s[..p] + s[p..];
  }

  lemma SplicedIncreasing<T(!new)>(less: (T, T) -> bool, s: seq<T>, p: nat, x: T)
    requires Increasing(less, s) && p <= |s|
    requires forall i :: 0 <= i < p ==> less(s[i], x)
    requires forall i :: p <= i < |s| ==> less(x, s[i])
    ensures Increasing(less, s[..p] + [x] + s[p..])
  {
  }

  lemma InsertIncreasing<T(!new)>(less: (T, T) -> bool, s: seq<T>, x: T)
    requires TransitiveOn(less, Elements(s + [x])) && TotalOn(less, Elements(s + [x]))
    requires Increasing(less, s) && x !in s
    ensures Increasing(less, Insert(less, s, x))
  {
    var p := InsertPlace(less, s, x);
    forall i | 0 <= i < p ensures less(s[i], x) {
      BelowTheInserted(less, s, x, p, i);
    }
    SplicedIncreasing(less, s, p, x);
  }

  lemma BelowTheInserted<T(!new)>(less: (T, T) -> bool, s: seq<T>, x: T, p: nat, i: nat)
    requires TransitiveOn(less, Elements(s + [x])) && TotalOn(less, Elements(s + [x]))
    requires Increasing(less, s) && x !in s && i < p <= |s| && !less(x, s[p - 1])
    ensures less(s[i], x)
  {
    var all := Elements(s + [x]);
    assert (s + [x])[|s|] == x && (s + [x])[p - 1] == s[p - 1] && (s + [x])[i] == s[i];
    assert x in all && s[p - 1] in all && s[i] in all;
    assert less(s[p - 1], x);
    if i < p - 1 {
      assert less(s[i], s[p - 1]);
    }
  }

  lemma {:induction false} InsertionSortIsPermutation<T>(less: (T, T) -> bool, s: seq<T>)
    ensures multiset(InsertionSort(less, s)) == multiset(s)
  {
    if s != [] {
      var front, x := s[..|s| - 1], s[|s| - 1];
      InsertionSortIsPermutation(less, front);
      InsertIsPermutation(less, InsertionSort(less, front), x);
      assert s == front + [x];
    }
  }

  lemma PermutationElements<T>(s: seq<T>, t: seq<T>)
    requires multiset(s) == multiset(t)
    ensures Elements(s) == Elements(t) && |s| == |t|
  {
    assert |multiset(s)| == |s| && |multiset(t)| == |t|;
    forall x ensures x in s <==> x in t {
      assert x in s <==> x in multiset(s);
      assert x in t <==> x in multiset(t);
    }
  }

  lemma {:induction false} InsertionSortIncreasing<T(!new)>(less: (T, T) -> bool, s: seq<T>)
    requires TransitiveOn(less, Elements(s)) && TotalOn(less, Elements(s)) && NoRepeats(s)
    ensures Increasing(less, InsertionSort(less, s))
  {
    if s != [] {
      var front, x := s[..|s| - 1], s[|s| - 1];
      assert s == front + [x];
      assert Elements(front) <= Elements(s);
      InsertionSortIncreasing(less, front);
      InsertionSortIsPermutation(less, front);
      var sorted := InsertionSort(less, front);
      PermutationElements(front, sorted);
      ElementsAppend(front, [x]);
      ElementsAppend(sorted, [x]);
      assert x !in sorted by { assert x !in Elements(front); }
      InsertIncreasing(less, sorted, x);
    }
  }

  const INSERTION_BLOCK: nat := 20

  /** The outcomes of sort.SliceStable on a list without repeats. */
  ghost predicate SliceStable<T(!new)>(less: (T, T) -> bool, s: seq<T>, out: seq<T>) {
    && multiset(out) == multiset(s)
    && (|s| <= INSERTION_BLOCK ==> out == InsertionSort(less, s))
    && (TransitiveOn(less, Elements(s)) && TotalOn(less, Elements(s)) && NoRepeats(s) ==> Increasing(less, out))
  }

  /** Plain insertion is always one of them. */
  lemma InsertionIsStable<T(!new)>(less: (T, T) -> bool, s: seq<T>)
    ensures SliceStable(less, s, InsertionSort(less, s))
  {
    InsertionSortIsPermutation(less, s);
    if TransitiveOn(less, Elements(s)) && TotalOn(less, Elements(s)) && NoRepeats(s) {
      InsertionSortIncreasing(less, s);
    }
  }

  /** Go's insertion sort: swap each element down while it is below its neighbour. */
  method InsertionSortInPlace<T>(less: (T, T) -> bool, a: array<T>)
    modifies a
    ensures a[..] == InsertionSort(less, old(a[..]))
  {
    ghost var was := a[..];
    if a.Length == 0 {
      return;
    }
    var i := 1;
    assert was[..1] == [was[0]] && was[..1][..0] == [];
    while i < a.Length
      invariant 1 <= i <= a.Length
      invariant a[..] == InsertionSort(less, was[..i]) + was[i..]
    {
      assert a[..i] == InsertionSort(less, was[..i]) && a[i] == was[i] && a[i + 1..] == was[i + 1..];
      SinkLast(less, a, i);
      assert was[..i + 1][..i] == was[..i];
      i := i + 1;
    }
    assert was[..i] == was;
  }

  lemma InsertPassesOne<T>(less: (T, T) -> bool, s: seq<T>, x: T, j: nat)
    requires 0 < j <= |s| && less(x, s[j - 1])
    ensures Insert(less, s[..j], x) + s[j..] == Insert(less, s[..j - 1], x) + s[j - 1..]
  {
    assert s[..j][|s[..j]| - 1] == s[j - 1] && s[..j][..j - 1] == s[..j - 1];
    assert [s[j - 1]] + s[j..] == s[j - 1..];
  }

  /** `s` and `tail` with `x` between them, sunk to place `j`. */
  ghost function Sunk<T>(s: seq<T>, x: T, tail: seq<T>, j: nat): (r: seq<T>)
    requires j <= |s|
    ensures |r| == |s| + 1 + |tail| && r[j] == x && (j > 0 ==> r[j - 1] == s[j - 1])
  {
    s[..j] + [x] + s[j..] + tail
  }

  /** Swapping `x` with the element before it. */
  lemma SwapDown<T>(s: seq<T>, x: T, tail: seq<T>, j: nat)
    requires 0 < j <= |s|
    ensures Sunk(s, x, tail, j)[j := s[j - 1]][j - 1 := x] == Sunk(s, x, tail, j - 1)
  {
  }

  method SinkLast<T>(less: (T, T) -> bool, a: array<T>, i: nat)
    requires i < a.Length
    modifies a
    ensures a[..] == Insert(less, old(a[..i]), old(a[i])) + old(a[i + 1..])
  {
    ghost var s, x, tail := a[..i], a[i], a[i + 1..];
    var j := i;
    assert s[..j] == s && s[j..] == [];
    while j > 0 && less(a[j], a[j - 1])
      invariant 0 <= j <= i && a[..] == Sunk(s, x, tail, j)
      invariant Insert(less, s, x) == Insert(less, s[..j], x) + s[j..]
    {
      InsertPassesOne(less, s, x, j);
      SwapDown(s, x, tail, j);
      a[j], a[j - 1] := a[j - 1], a[j];
      j := j - 1;
    }
    assert Insert(less, s[..j], x) == s[..j] + [x];
  }

  method SortSlice<T(!new)>(less: (T, T) -> bool, s: seq<T>) returns (out: seq<T>)
    ensures SliceStable(less, s, out)
  {
    if s == [] {
      return s;
    }
    var a := new T[|s|](i requires 0 <= i < |s| => s[i]);
    assert a[..] == s;
    InsertionSortInPlace(less, a);
    out := a[..];
    InsertionIsStable(less, s);
  }
}
