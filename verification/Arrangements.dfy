/**
 Lists grown by insertion from the end, whatever the comparator: what their order depends on, and
 when it does not depend on the order of arrival.
*/
module Arrangements {
  import opened Orders
  import opened Sorting

  /** No element is below the one before it. */
  ghost predicate Steady<T>(less: (T, T) -> bool, s: seq<T>) {
    forall k :: 0 < k < |s| ==> !less(s[k], s[k - 1])
  }

  /** `x` stands somewhere before `y`. */
  ghost predicate Stands<T>(s: seq<T>, x: T, y: T) {
    exists i, j :: 0 <= i < j < |s| && s[i] == x && s[j] == y
  }

  /** A set in some order. */
  ghost predicate Arranges<T>(list: seq<T>, s: set<T>) {
    NoRepeats(list) && Elements(list) == s
  }

  // ---- Neighbours

  lemma InsertKeepsSteady<T(!new)>(less: (T, T) -> bool, s: seq<T>, x: T)
    requires Steady(less, s) && forall y :: y in s && less(x, y) ==> !less(y, x)
    ensures Steady(less, Insert(less, s, x))
  {
    var p := InsertPlace(less, s, x);
    if p < |s| {
      assert s[p] in s;
    }
  }

  /** Neighbours come out in order even where the comparator goes round. */
  lemma {:induction false} SortIsSteady<T(!new)>(less: (T, T) -> bool, s: seq<T>)
    requires AsymmetricOn(less, Elements(s))
    ensures Steady(less, InsertionSort(less, s))
  {
    if s != [] {
      var front, x := s[..|s| - 1], s[|s| - 1];
      assert Elements(front) <= Elements(s) && x in Elements(s);
      SortIsSteady(less, front);
      InsertionSortIsPermutation(less, front);
      PermutationElements(front, InsertionSort(less, front));
      forall y | y in InsertionSort(less, front) && less(x, y) ensures !less(y, x) {
        assert y in Elements(front);
      }
      InsertKeepsSteady(less, InsertionSort(less, front), x);
    }
  }

  /** Sorting again changes nothing. */
  lemma {:induction false} SteadyStays<T>(less: (T, T) -> bool, s: seq<T>)
    requires Steady(less, s)
    ensures InsertionSort(less, s) == s
  {
    if s != [] {
      SteadyStays(less, s[..|s| - 1]);
    }
  }

  // ---- Places

  lemma StandsBetween<T>(s: seq<T>, x: T, y: T, z: T)
    requires NoRepeats(s) && Stands(s, x, y) && Stands(s, y, z)
    ensures Stands(s, x, z) && !Stands(s, z, x)
  {
    var i, j :| 0 <= i < j < |s| && s[i] == x && s[j] == y;
    var k, l :| 0 <= k < l < |s| && s[k] == y && s[l] == z;
    assert j == k;
  }

  /** Insertion never changes the order of what is already there. */
  lemma InsertKeepsPlaces<T>(less: (T, T) -> bool, s: seq<T>, m: T, x: T, y: T)
    requires Stands(s, x, y)
    ensures Stands(Insert(less, s, m), x, y)
  {
    var p := InsertPlace(less, s, m);
    var i, j :| 0 <= i < j < |s| && s[i] == x && s[j] == y;
    var t := s[..p] + [m] + s[p..];
    assert t[if i < p then i else i + 1] == x && t[if j < p then j else j + 1] == y;
  }

  /** What is not below an element goes behind it. */
  lemma InsertedStandsBehind<T>(less: (T, T) -> bool, s: seq<T>, x: T, m: T)
    requires x in s && !less(m, x)
    ensures Stands(Insert(less, s, m), x, m)
  {
    var p := InsertPlace(less, s, m);
    var i :| 0 <= i < |s| && s[i] == x;
    var t := s[..p] + [m] + s[p..];
    assert t[i] == x && t[p] == m;
  }

  /** A later arrival that is not below an earlier one ends up behind it, whatever comes in between or after. */
  lemma {:induction false} LaterStandsBehind<T>(less: (T, T) -> bool, s: seq<T>, i: nat, j: nat)
    requires i < j < |s| && !less(s[j], s[i])
    ensures Stands(InsertionSort(less, s), s[i], s[j])
  {
    var n := |s| - 1;
    var front := s[..n];
    if j < n {
      LaterStandsBehind(less, front, i, j);
      InsertKeepsPlaces(less, InsertionSort(less, front), s[n], s[i], s[j]);
    } else {
      InsertionSortIsPermutation(less, front);
      PermutationElements(front, InsertionSort(less, front));
      assert front[i] in Elements(front);
      InsertedStandsBehind(less, InsertionSort(less, front), s[i], s[n]);
    }
  }

  lemma ArrivalOrderStays<T>(less: (T, T) -> bool, s: seq<T>, x: T, y: T)
    requires Stands(s, x, y) && !less(y, x)
    ensures Stands(InsertionSort(less, s), x, y)
  {
    var i, j :| 0 <= i < j < |s| && s[i] == x && s[j] == y;
    LaterStandsBehind(less, s, i, j);
  }

  lemma PartsStand<T>(s: seq<T>, t: seq<T>, x: T, y: T)
    requires (x in s && y in t) || Stands(s, x, y) || Stands(t, x, y)
    ensures Stands(s + t, x, y)
  {
    if x in s && y in t {
      var i :| 0 <= i < |s| && s[i] == x;
      var j :| 0 <= j < |t| && t[j] == y;
      assert (s + t)[i] == x && (s + t)[|s| + j] == y;
    } else if Stands(s, x, y) {
      var i, j :| 0 <= i < j < |s| && s[i] == x && s[j] == y;
      assert (s + t)[i] == x && (s + t)[j] == y;
    } else {
      var i, j :| 0 <= i < j < |t| && t[i] == x && t[j] == y;
      assert (s + t)[|s| + i] == x && (s + t)[|s| + j] == y;
    }
  }

  // ---- Arrangements of a set

  lemma PartsArrange<T>(x: seq<T>, y: seq<T>, s: set<T>, t: set<T>)
    requires Arranges(x, s) && Arranges(y, t) && s !! t
    ensures Arranges(x + y, s + t)
  {
    ElementsAppend(x, y);
    forall i, j | 0 <= i < j < |x + y| ensures (x + y)[i] != (x + y)[j] {
      if i < |x| <= j {
        assert x[i] in Elements(x) && y[j - |x|] in Elements(y);
      }
    }
  }

  lemma SortArranges<T>(less: (T, T) -> bool, list: seq<T>, s: set<T>)
    requires Arranges(list, s)
    ensures Arranges(InsertionSort(less, list), s)
  {
    InsertionSortIsPermutation(less, list);
    PermutationElements(list, InsertionSort(less, list));
    PermutationHasNoRepeats(list, InsertionSort(less, list));
  }

  lemma PermutationHasNoRepeats<T>(s: seq<T>, t: seq<T>)
    requires NoRepeats(s) && multiset(s) == multiset(t)
    ensures NoRepeats(t)
  {
    NoRepeatsSize(s);
    forall i, j | 0 <= i < j < |t| ensures t[i] != t[j] {
      if t[i] == t[j] {
        TwiceInBag(t, i, j);
      }
    }
  }

  /** Any beginning can be completed. */
  lemma {:induction false} Complete<T>(front: seq<T>, s: set<T>) returns (list: seq<T>)
    requires NoRepeats(front) && Elements(front) <= s
    ensures Arranges(list, s) && front <= list
    decreases |s - Elements(front)|
  {
    if Elements(front) == s {
      list := front;
    } else {
      assert s == Elements(front) + (s - Elements(front));
      var x :| x in s - Elements(front);
      ElementsAppend(front, [x]);
      assert Elements([x]) == {x};
      assert s - Elements(front) == s - Elements(front + [x]) + {x};
      list := Complete(front + [x], s);
    }
  }

  // ---- When the order of arrival does not matter

  /** All orders of arrival lead to one list. */
  ghost predicate Determined<T(!new)>(less: (T, T) -> bool, s: set<T>) {
    forall one, two :: Arranges(one, s) && Arranges(two, s) ==> InsertionSort(less, one) == InsertionSort(less, two)
  }

  lemma OrderedIsDetermined<T(!new)>(less: (T, T) -> bool, s: set<T>)
    requires AsymmetricOn(less, s) && TransitiveOn(less, s) && TotalOn(less, s)
    ensures Determined(less, s)
  {
    forall one, two | Arranges(one, s) && Arranges(two, s)
      ensures InsertionSort(less, one) == InsertionSort(less, two)
    {
      InsertionSortIncreasing(less, one);
      InsertionSortIncreasing(less, two);
      SortArranges(less, one, s);
      SortArranges(less, two, s);
      SameElementsSameBag(InsertionSort(less, one), InsertionSort(less, two));
      ArrangementIsUnique(less, InsertionSort(less, one), InsertionSort(less, two));
    }
  }

  /** Two that are not told apart stay as they came. */
  lemma TieDepends<T(!new)>(less: (T, T) -> bool, s: set<T>, x: T, y: T)
    requires x in s && y in s && x != y && !less(x, y) && !less(y, x)
    ensures !Determined(less, s)
  {
    var one := Complete([x, y], s);
    var two := Complete([y, x], s);
    assert one[0] == x && one[1] == y && two[0] == y && two[1] == x;
    LaterStandsBehind(less, one, 0, 1);
    LaterStandsBehind(less, two, 0, 1);
    SortArranges(less, one, s);
    if InsertionSort(less, one) == InsertionSort(less, two) {
      StandsBetween(InsertionSort(less, one), x, y, x);
    }
  }

  /** Three that go round stand as they came, the first two before the third. */
  lemma CycleDepends<T(!new)>(less: (T, T) -> bool, s: set<T>, x: T, y: T, z: T)
    requires AsymmetricOn(less, s) && x in s && y in s && z in s
    requires less(x, y) && less(y, z) && less(z, x)
    ensures !Determined(less, s)
  {
    var one := Complete([x, y, z], s);
    var two := Complete([y, z, x], s);
    assert one[0] == x && one[1] == y && one[2] == z && two[1] == z && two[2] == x;
    LaterStandsBehind(less, one, 0, 1);
    LaterStandsBehind(less, one, 1, 2);
    LaterStandsBehind(less, two, 1, 2);
    SortArranges(less, one, s);
    StandsBetween(InsertionSort(less, one), x, y, z);
  }

  /** The list is the same for every order of arrival exactly when the comparator is a total order there. */
  lemma DeterminedIff<T(!new)>(less: (T, T) -> bool, s: set<T>)
    requires AsymmetricOn(less, s)
    ensures Determined(less, s) <==> TransitiveOn(less, s) && TotalOn(less, s)
  {
    if TransitiveOn(less, s) && TotalOn(less, s) {
      OrderedIsDetermined(less, s);
    } else if !TotalOn(less, s) {
      var x, y :| x in s && y in s && x != y && !less(x, y) && !less(y, x);
      TieDepends(less, s, x, y);
    } else {
      var x, y, z :| x in s && y in s && z in s && less(x, y) && less(y, z) && !less(x, z);
      CycleDepends(less, s, x, y, z);
    }
  }

  // ---- Resuming from a part of a list

  /** Insertion goes on from any list whose neighbours are in order. */
  lemma {:induction false} SortResumes<T(!new)>(less: (T, T) -> bool, s: seq<T>, t: seq<T>)
    requires Steady(less, InsertionSort(less, s))
    ensures InsertionSort(less, InsertionSort(less, s) + t) == InsertionSort(less, s + t)
  {
    if t == [] {
      assert s + t == s && InsertionSort(less, s) + t == InsertionSort(less, s);
      SteadyStays(less, InsertionSort(less, s));
    } else {
      var sorted, front, x := InsertionSort(less, s), t[..|t| - 1], t[|t| - 1];
      SortResumes(less, s, front);
      SortOneMore(less, s + front, x);
      SortOneMore(less, sorted + front, x);
      assert s + t == (s + front) + [x] && sorted + t == (sorted + front) + [x];
    }
  }

  /** The elements of `list` that are in `s`, in its order. */
  ghost function Only<T(!new)>(list: seq<T>, s: set<T>): (r: seq<T>)
    ensures forall x :: x in r <==> x in list && x in s
  {
    if list == [] then []
    else
      assert list == [list[0]] + list[1..];
      (if list[0] in s then [list[0]] else []) + Only(list[1..], s)
  }

  /** And those that are not. */
  ghost function Lacking<T(!new)>(list: seq<T>, s: set<T>): (r: seq<T>)
    ensures forall x :: x in r <==> x in list && x !in s
  {
    if list == [] then []
    else
      var n := |list| - 1;
      assert list == list[..n] + [list[n]];
      Lacking(list[..n], s) + if list[n] in s then [] else [list[n]]
  }

  lemma {:induction false} OnlyKeepsPlaces<T(!new)>(list: seq<T>, s: set<T>)
    ensures NoRepeats(list) ==> NoRepeats(Only(list, s))
    ensures forall x, y :: Stands(Only(list, s), x, y) ==> Stands(list, x, y)
  {
    if list != [] {
      var back := list[1..];
      assert list == [list[0]] + back;
      OnlyKeepsPlaces(back, s);
      forall x, y | Stands(Only(list, s), x, y) ensures Stands(list, x, y) {
        StandsInParts(if list[0] in s then [list[0]] else [], Only(back, s), x, y);
        PartsStand([list[0]], back, x, y);
      }
    }
  }

  /** The first `k` elements and those in `s`: what the list looks like on the way. */
  ghost function Midway<T(!new)>(list: seq<T>, s: set<T>, k: nat): seq<T>
    requires k <= |list|
  {
    list[..k] + Only(list[k..], s)
  }

  lemma MidwayArranges<T(!new)>(list: seq<T>, s: set<T>, k: nat)
    requires NoRepeats(list) && k <= |list|
    ensures NoRepeats(Midway(list, s, k))
    ensures Elements(Midway(list, s, k)) == Elements(list[..k]) + (s * Elements(list[k..]))
    ensures forall x, y :: Stands(Midway(list, s, k), x, y) ==> Stands(list, x, y)
  {
    var front, back := list[..k], list[k..];
    assert list == front + back;
    OnlyKeepsPlaces(back, s);
    ElementsAppend(front, Only(back, s));
    forall x, y | Stands(Midway(list, s, k), x, y) ensures Stands(list, x, y) {
      StandsInParts(front, Only(back, s), x, y);
      PartsStand(front, back, x, y);
    }
    forall i, j | 0 <= i < j < |Midway(list, s, k)| ensures Midway(list, s, k)[i] != Midway(list, s, k)[j] {
      if i < k <= j {
        var y := Only(back, s)[j - k];
        assert y in back;
        var l :| 0 <= l < |back| && back[l] == y;
        assert list[i] != list[k + l];
      }
    }
  }

  lemma StandsInParts<T(!new)>(s: seq<T>, t: seq<T>, x: T, y: T)
    requires Stands(s + t, x, y)
    ensures (x in s && y in t) || Stands(s, x, y) || Stands(t, x, y)
  {
    var i, j :| 0 <= i < j < |s + t| && (s + t)[i] == x && (s + t)[j] == y;
    if i >= |s| {
      assert t[i - |s|] == x && t[j - |s|] == y;
    }
  }

  /** Two arrangements of one set that agree with a third list on who stands before whom are one. */
  lemma SamePlacesSameList<T(!new)>(s: seq<T>, t: seq<T>, list: seq<T>)
    requires NoRepeats(s) && NoRepeats(t) && NoRepeats(list) && Elements(s) == Elements(t)
    requires forall x, y :: Stands(s, x, y) ==> Stands(list, x, y)
    requires forall x, y :: Stands(t, x, y) ==> Stands(list, x, y)
    ensures s == t
  {
    var less := (x, y) => Stands(list, x, y);
    forall x, y | less(x, y) ensures !less(y, x) {
      if less(y, x) {
        StandsBetween(list, x, y, x);
      }
    }
    assert forall i, j :: 0 <= i < j < |s| ==> Stands(s, s[i], s[j]);
    assert forall i, j :: 0 <= i < j < |t| ==> Stands(t, t[i], t[j]);
    SameElementsSameBag(s, t);
    ArrangementIsUnique(less, s, t);
  }

  lemma {:induction false} SortKeepsPlaces<T(!new)>(less: (T, T) -> bool, s: seq<T>, t: seq<T>, x: T, y: T)
    requires Stands(InsertionSort(less, s), x, y)
    ensures Stands(InsertionSort(less, s + t), x, y)
  {
    if t == [] {
      assert s + t == s;
    } else {
      var front := t[..|t| - 1];
      SortKeepsPlaces(less, s, front, x, y);
      assert (s + t)[..|s + t| - 1] == s + front;
      InsertKeepsPlaces(less, InsertionSort(less, s + front), t[|t| - 1], x, y);
    }
  }

  /**
   Each element of the list that is not in `s` is not below the one before it, and below every
   later one in `s`.
  */
  ghost predicate Resumes<T(!new)>(less: (T, T) -> bool, list: seq<T>, s: set<T>) {
    forall k :: 0 <= k < |list| && list[k] !in s ==> ResumesAt(less, list, s, k)
  }

  ghost predicate ResumesAt<T(!new)>(less: (T, T) -> bool, list: seq<T>, s: set<T>, k: nat)
    requires k < |list|
  {
    && (k > 0 ==> !less(list[k], list[k - 1]))
    && forall l :: k < l < |list| && list[l] in s ==> less(list[k], list[l])
  }

  lemma MidwayStep<T(!new)>(list: seq<T>, s: set<T>, k: nat)
    requires k < |list|
    ensures list[k] in s ==> Midway(list, s, k + 1) == Midway(list, s, k)
    ensures list[k] !in s ==> Midway(list, s, k) == list[..k] + Only(list[k + 1..], s)
    ensures Midway(list, s, k + 1) == list[..k] + [list[k]] + Only(list[k + 1..], s)
  {
    assert list[k..][0] == list[k] && list[k..][1..] == list[k + 1..];
    assert list[..k + 1] == list[..k] + [list[k]];
  }

  /** One insertion gives the next list on the way exactly when the element resumes there. */
  lemma InsertIsNextIff<T(!new)>(less: (T, T) -> bool, list: seq<T>, s: set<T>, k: nat)
    requires NoRepeats(list) && k < |list| && list[k] !in s
    ensures Insert(less, Midway(list, s, k), list[k]) == Midway(list, s, k + 1) <==> ResumesAt(less, list, s, k)
  {
    var front, x, back := list[..k], list[k], Only(list[k + 1..], s);
    MidwayStep(list, s, k);
    var tail := list[k + 1..];
    forall l | 0 <= l < |tail| ensures tail[l] != x {
      assert tail[l] == list[k + 1 + l];
    }
    BehindMeaning(less, list, s, k);
    PlaceIsUnique(less, front, x, back);
  }

  /** What stands behind, by index and by element. */
  lemma BehindMeaning<T(!new)>(less: (T, T) -> bool, list: seq<T>, s: set<T>, k: nat)
    requires k < |list|
    ensures (forall y :: y in Only(list[k + 1..], s) ==> less(list[k], y)) <==>
            (forall l :: k < l < |list| && list[l] in s ==> less(list[k], list[l]))
  {
    var back := list[k + 1..];
    assert forall l :: k < l < |list| ==> list[l] == back[l - k - 1];
    assert forall i :: 0 <= i < |back| ==> back[i] == list[k + 1 + i];
  }

  lemma SpliceIsUnique<T>(s: seq<T>, p: nat, k: nat, x: T)
    requires p <= |s| && k <= |s| && x !in s && s[..p] + [x] + s[p..] == s[..k] + [x] + s[k..]
    ensures p == k
  {
    var t := s[..k] + [x] + s[k..];
    assert (s[..p] + [x] + s[p..])[p] == x;
    assert forall i :: 0 <= i < k ==> t[i] == s[i];
    assert forall i :: k < i < |t| ==> t[i] == s[i - 1];
  }

  lemma InsertAtIff<T>(less: (T, T) -> bool, s: seq<T>, x: T, k: nat)
    requires k <= |s| && x !in s
    ensures Insert(less, s, x) == s[..k] + [x] + s[k..] <==>
            (k > 0 ==> !less(x, s[k - 1])) && forall i :: k <= i < |s| ==> less(x, s[i])
  {
    var p := InsertPlace(less, s, x);
    if Insert(less, s, x) == s[..k] + [x] + s[k..] {
      SpliceIsUnique(s, p, k, x);
    }
    assert (k > 0 ==> !less(x, s[k - 1])) && (forall i :: k <= i < |s| ==> less(x, s[i])) ==> p == k;
  }

  lemma PlaceIsUnique<T(!new)>(less: (T, T) -> bool, front: seq<T>, x: T, back: seq<T>)
    requires x !in front && x !in back
    ensures Insert(less, front + back, x) == front + [x] + back <==>
            (front != [] ==> !less(x, front[|front| - 1])) && forall y :: y in back ==> less(x, y)
  {
    var s, k := front + back, |front|;
    assert s[..k] == front && s[k..] == back && x !in s;
    InsertAtIff(less, s, x, k);
    TailByIndex(less, x, s, k);
  }

  lemma TailByIndex<T(!new)>(less: (T, T) -> bool, x: T, s: seq<T>, k: nat)
    requires k <= |s|
    ensures (forall y :: y in s[k..] ==> less(x, y)) <==> forall i :: k <= i < |s| ==> less(x, s[i])
  {
    var back := s[k..];
    assert forall i :: k <= i < |s| ==> s[i] == back[i - k];
    assert forall i :: 0 <= i < |back| ==> back[i] == s[k + i];
  }

  // ---- Exactly when a part grows into the whole

  lemma SortOneMore<T>(less: (T, T) -> bool, s: seq<T>, x: T)
    ensures InsertionSort(less, s + [x]) == Insert(less, InsertionSort(less, s), x)
  {
    assert (s + [x])[..|s|] == s;
  }

  /** The list after the missing elements among the first `k` have been inserted. */
  ghost function Refilled<T(!new)>(less: (T, T) -> bool, part: seq<T>, list: seq<T>, k: nat): seq<T>
    requires k <= |list|
  {
    InsertionSort(less, part + Lacking(list[..k], Elements(part)))
  }

  lemma RefilledStep<T(!new)>(less: (T, T) -> bool, part: seq<T>, list: seq<T>, k: nat)
    requires k < |list|
    ensures Refilled(less, part, list, k + 1) ==
            if list[k] in Elements(part) then Refilled(less, part, list, k)
              else Insert(less, Refilled(less, part, list, k), list[k])
  {
    var front, s := list[..k], Elements(part);
    assert list[..k + 1] == front + [list[k]];
    assert list[..k + 1][..k] == front;
    if list[k] in s {
      assert Lacking(front, s) + [] == Lacking(front, s);
    } else {
      assert part + (Lacking(front, s) + [list[k]]) == (part + Lacking(front, s)) + [list[k]];
      SortOneMore(less, part + Lacking(front, s), list[k]);
    }
  }

  lemma {:induction false} GrowsMidway<T(!new)>(less: (T, T) -> bool, part: seq<T>, list: seq<T>, k: nat)
    requires Steady(less, part) && NoRepeats(list) && k <= |list|
    requires part == Only(list, Elements(part)) && Resumes(less, list, Elements(part))
    ensures Refilled(less, part, list, k) == Midway(list, Elements(part), k)
  {
    if k == 0 {
      assert part + [] == part && list[..0] == [] && list[0..] == list;
      SteadyStays(less, part);
    } else {
      GrowsMidway(less, part, list, k - 1);
      RefilledStep(less, part, list, k - 1);
      MidwayStep(list, Elements(part), k - 1);
      if list[k - 1] !in Elements(part) {
        assert ResumesAt(less, list, Elements(part), k - 1);
        InsertIsNextIff(less, list, Elements(part), k - 1);
      }
    }
  }

  lemma LackingKeepsApart<T(!new)>(list: seq<T>, s: set<T>)
    requires NoRepeats(list)
    ensures NoRepeats(Lacking(list, s))
  {
    if list != [] {
      var n := |list| - 1;
      LackingKeepsApart(list[..n], s);
      assert list[n] !in list[..n];
    }
  }

  lemma RefilledArranges<T(!new)>(less: (T, T) -> bool, part: seq<T>, list: seq<T>, k: nat)
    requires NoRepeats(part) && NoRepeats(list) && k <= |list|
    ensures Arranges(Refilled(less, part, list, k), Elements(part) + Elements(list[..k]))
  {
    var s := Elements(part);
    var missing := Lacking(list[..k], s);
    LackingKeepsApart(list[..k], s);
    assert Elements(missing) == Elements(list[..k]) - s;
    PartsArrange(part, missing, s, Elements(missing));
    assert s + (Elements(list[..k]) - s) == s + Elements(list[..k]);
    SortArranges(less, part + missing, s + Elements(list[..k]));
  }

  lemma LackingPrefix<T(!new)>(list: seq<T>, s: set<T>, k: nat) returns (more: seq<T>)
    requires k <= |list|
    ensures Lacking(list, s) == Lacking(list[..k], s) + more
    decreases |list|
  {
    if k == |list| {
      assert list[..k] == list;
      more := [];
    } else {
      var n := |list| - 1;
      more := LackingPrefix(list[..n], s, k);
      assert list[..n][..k] == list[..k];
      more := more + if list[n] in s then [] else [list[n]];
    }
  }

  /** If the whole comes out, it was on the way all the time. */
  lemma WholeMeansMidway<T(!new)>(less: (T, T) -> bool, part: seq<T>, list: seq<T>, k: nat)
    requires NoRepeats(part) && NoRepeats(list) && Elements(part) <= Elements(list) && k <= |list|
    requires Refilled(less, part, list, |list|) == list
    ensures Refilled(less, part, list, k) == Midway(list, Elements(part), k)
  {
    var s, now := Elements(part), Refilled(less, part, list, k);
    WholeKeepsPlaces(less, part, list, k);
    RefilledArranges(less, part, list, k);
    MidwayArranges(list, s, k);
    assert list == list[..k] + list[k..];
    ElementsAppend(list[..k], list[k..]);
    assert s + Elements(list[..k]) == Elements(list[..k]) + (s * Elements(list[k..]));
    SamePlacesSameList(now, Midway(list, s, k), list);
  }

  lemma WholeKeepsPlaces<T(!new)>(less: (T, T) -> bool, part: seq<T>, list: seq<T>, k: nat)
    requires k <= |list| && Refilled(less, part, list, |list|) == list
    ensures forall x, y :: Stands(Refilled(less, part, list, k), x, y) ==> Stands(list, x, y)
  {
    var s := Elements(part);
    var more := LackingPrefix(list, s, k);
    assert list[..|list|] == list;
    assert part + Lacking(list, s) == (part + Lacking(list[..k], s)) + more;
    forall x, y | Stands(Refilled(less, part, list, k), x, y) ensures Stands(list, x, y) {
      SortKeepsPlaces(less, part + Lacking(list[..k], s), more, x, y);
    }
  }

  lemma WholeMeansResumes<T(!new)>(less: (T, T) -> bool, part: seq<T>, list: seq<T>, k: nat)
    requires NoRepeats(part) && NoRepeats(list) && Elements(part) <= Elements(list) && k < |list|
    requires Refilled(less, part, list, |list|) == list && list[k] !in Elements(part)
    ensures ResumesAt(less, list, Elements(part), k)
  {
    WholeMeansMidway(less, part, list, k);
    WholeMeansMidway(less, part, list, k + 1);
    RefilledStep(less, part, list, k);
    InsertIsNextIff(less, list, Elements(part), k);
  }

  lemma RefilledAtStart<T(!new)>(less: (T, T) -> bool, part: seq<T>, list: seq<T>)
    requires Steady(less, part)
    ensures Refilled(less, part, list, 0) == part && Midway(list, Elements(part), 0) == Only(list, Elements(part))
    ensures Refilled(less, part, list, |list|) == InsertionSort(less, part + Lacking(list, Elements(part)))
    ensures Midway(list, Elements(part), |list|) == list
  {
    assert list[..|list|] == list && list[|list|..] == [] && list[0..] == list && list[..0] == [] && part + [] == part;
    SteadyStays(less, part);
  }

  /**
   Inserting into a part of a list what it lacks gives the list exactly when the part has its order
   and each missing element resumes where it stands.
  */
  lemma GrowsIntoIff<T(!new)>(less: (T, T) -> bool, part: seq<T>, list: seq<T>)
    requires Steady(less, part) && NoRepeats(part) && NoRepeats(list) && Elements(part) <= Elements(list)
    ensures InsertionSort(less, part + Lacking(list, Elements(part))) == list <==>
            part == Only(list, Elements(part)) && Resumes(less, list, Elements(part))
  {
    var s := Elements(part);
    RefilledAtStart(less, part, list);
    if part == Only(list, s) && Resumes(less, list, s) {
      GrowsMidway(less, part, list, |list|);
    }
    if Refilled(less, part, list, |list|) == list {
      WholeMeansMidway(less, part, list, 0);
      forall k | 0 <= k < |list| && list[k] !in s ensures ResumesAt(less, list, s, k) {
        WholeMeansResumes(less, part, list, k);
      }
    }
  }
}
