/** Sequences arranged by a strict order. */
module Orders {

  /** Every element is below every later one. */
  ghost predicate Increasing<T(!new)>(less: (T, T) -> bool, s: seq<T>) {
    forall i, j :: 0 <= i < j < |s| ==> less(s[i], s[j])
  }

  ghost predicate AsymmetricOn<T(!new)>(less: (T, T) -> bool, s: set<T>) {
    forall x, y :: x in s && y in s && less(x, y) ==> !less(y, x)
  }

  ghost predicate TransitiveOn<T(!new)>(less: (T, T) -> bool, s: set<T>) {
    forall x, y, z :: x in s && y in s && z in s && less(x, y) && less(y, z) ==> less(x, z)
  }

  ghost predicate TotalOn<T(!new)>(less: (T, T) -> bool, s: set<T>) {
    forall x, y :: x in s && y in s && x != y ==> less(x, y) || less(y, x)
  }

  ghost function Elements<T>(s: seq<T>): set<T> {
    set x | x in s
  }

  ghost predicate NoRepeats<T>(s: seq<T>) {
    forall i, j :: 0 <= i < j < |s| ==> s[i] != s[j]
  }

  lemma ElementsAppend<T>(s: seq<T>, t: seq<T>)
    ensures Elements(s + t) == Elements(s) + Elements(t)
  {
    forall x ensures x in s + t <==> x in s || x in t {}
  }

  /** An increasing arrangement of a bag of elements is unique. */
  lemma {:induction false} ArrangementIsUnique<T(!new)>(less: (T, T) -> bool, s: seq<T>, t: seq<T>)
    requires AsymmetricOn(less, Elements(s))
    requires multiset(s) == multiset(t)
    requires Increasing(less, s) && Increasing(less, t)
    ensures s == t
  {
    assert |multiset(s)| == |s| && |multiset(t)| == |t|;
    if s != [] {
      LeastIsFirst(less, s, t);
      SameRest(s, t);
      ArrangementIsUnique(less, s[1..], t[1..]);
      assert s == [s[0]] + s[1..] && t == [t[0]] + t[1..];
    }
  }

  lemma SameRest<T>(s: seq<T>, t: seq<T>)
    requires s != [] && t != [] && s[0] == t[0] && multiset(s) == multiset(t)
    ensures multiset(s[1..]) == multiset(t[1..])
    ensures Elements(s[1..]) <= Elements(s)
  {
    assert s == [s[0]] + s[1..] && t == [t[0]] + t[1..];
    assert multiset(s[1..]) == multiset(s) - multiset{s[0]} == multiset(t[1..]);
  }

  lemma LeastIsFirst<T(!new)>(less: (T, T) -> bool, s: seq<T>, t: seq<T>)
    requires s != [] && t != [] && AsymmetricOn(less, Elements(s)) && multiset(s) == multiset(t)
    requires Increasing(less, s) && Increasing(less, t)
    ensures s[0] == t[0]
  {
    assert s[0] in multiset(s) && t[0] in multiset(t);
    var i :| 0 <= i < |t| && t[i] == s[0];
    var j :| 0 <= j < |s| && s[j] == t[0];
    assert s[0] in Elements(s) && s[j] in Elements(s);
  }

  lemma {:induction false} NoRepeatsSize<T>(s: seq<T>)
    requires NoRepeats(s)
    ensures |Elements(s)| == |s|
    ensures forall x :: multiset(s)[x] == if x in s then 1 else 0
  {
    if s != [] {
      var n := |s| - 1;
      assert s == s[..n] + [s[n]];
      NoRepeatsSize(s[..n]);
      assert Elements(s) == Elements(s[..n]) + {s[n]};
      assert multiset(s) == multiset(s[..n]) + multiset{s[n]};
    }
  }

  lemma TwiceInBag<T>(s: seq<T>, i: nat, j: nat)
    requires i < j < |s| && s[i] == s[j]
    ensures multiset(s)[s[i]] >= 2
  {
    assert s == s[..j] + s[j..];
    assert s[i] in s[..j] && s[j..][0] == s[j];
    assert s[j] in s[j..];
  }

  lemma SameElementsSameBag<T>(s: seq<T>, t: seq<T>)
    requires NoRepeats(s) && NoRepeats(t) && Elements(s) == Elements(t)
    ensures multiset(s) == multiset(t)
    ensures |s| == |t|
  {
    NoRepeatsSize(s);
    NoRepeatsSize(t);
    forall x ensures multiset(s)[x] == multiset(t)[x] {
      assert x in s <==> x in Elements(s);
      assert x in t <==> x in Elements(t);
    }
  }

  lemma EqualSizeExchange<T>(a: set<T>, b: set<T>, x: T) returns (y: T)
    requires |a| == |b| && x in a - b
    ensures y in b - a
  {
    assert a == a * b + (a - b) && b == a * b + (b - a);
    assert |b - a| == |a - b|;
    assert b - a != {};
    y :| y in b - a;
  }

  /** Two equally large sets of which each is above everything it leaves out of a common set are one set. */
  lemma UpperSetsAgree<T(!new)>(less: (T, T) -> bool, all: set<T>, a: set<T>, b: set<T>)
    requires AsymmetricOn(less, all)
    requires a <= all && b <= all && |a| == |b|
    requires forall x, y :: x in all - a && y in a ==> less(x, y)
    requires forall x, y :: x in all - b && y in b ==> less(x, y)
    ensures a == b
  {
    forall x ensures x in a <==> x in b {
      if x in a - b {
        var y := EqualSizeExchange(a, b, x);
      } else if x in b - a {
        var y := EqualSizeExchange(b, a, x);
      }
    }
  }
}
