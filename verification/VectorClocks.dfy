/** Vector clocks keyed by peer ID (internal/clock/vector.go). Counters are unbounded. */
module VectorClocks {

  type Clock = map<string, nat>

  /** A missing entry counts as zero, as a lookup in a Go map does. */
  function At(c: Clock, peer: string): nat {
    if peer in c then c[peer] else 0
  }

  /** Pointwise order. */
  ghost predicate Leq(a: Clock, b: Clock) {
    forall peer :: At(a, peer) <= At(b, peer)
  }

  datatype Ordering = Before | After | Concurrent | Equal

  /** Some entry of `a` is below that of `b`. */
  predicate SomewhereLess(a: Clock, b: Clock) {
    exists peer :: peer in a.Keys + b.Keys && At(a, peer) < At(b, peer)
  }

  function Compare(a: Clock, b: Clock): Ordering {
    if SomewhereLess(a, b) then if SomewhereLess(b, a) then Concurrent else Before
    else if SomewhereLess(b, a) then After
    else Equal
  }

  predicate Precedes(a: Clock, b: Clock) {
    Compare(a, b) == Before
  }

  lemma SomewhereLessMeaning(a: Clock, b: Clock)
    ensures SomewhereLess(a, b) <==> !Leq(b, a)
  {
    if !Leq(b, a) {
      var peer :| At(b, peer) > At(a, peer);
      assert peer in a.Keys + b.Keys;
    }
  }

  /** The four answers in terms of the pointwise order. */
  lemma CompareMeaning(a: Clock, b: Clock)
    ensures Compare(a, b) == Before <==> Leq(a, b) && !Leq(b, a)
    ensures Compare(a, b) == After <==> Leq(b, a) && !Leq(a, b)
    ensures Compare(a, b) == Equal <==> forall peer :: At(a, peer) == At(b, peer)
    ensures Compare(a, b) == Concurrent <==> !Leq(a, b) && !Leq(b, a)
  {
    SomewhereLessMeaning(a, b);
    SomewhereLessMeaning(b, a);
  }

  lemma PrecedesIsStrictOrder(a: Clock, b: Clock, c: Clock)
    ensures !Precedes(a, a)
    ensures Precedes(a, b) <==> Compare(b, a) == After
    ensures Precedes(a, b) && Precedes(b, c) ==> Precedes(a, c)
  {
    CompareMeaning(a, b);
    CompareMeaning(b, c);
    CompareMeaning(a, c);
    if Precedes(a, b) && Precedes(b, c) {
      var peer :| At(b, peer) > At(a, peer);
      assert At(c, peer) > At(a, peer);
    }
  }

  /** The comparison as the program runs it: one pass over the keys of each clock, with two flags. */
  method CompareClocks(a: Clock, b: Clock) returns (o: Ordering)
    ensures o == Compare(a, b)
  {
    var aLess, bLess := false, false;
    aLess, bLess := Check(a, a, b, aLess, bLess);
    aLess, bLess := Check(b, a, b, aLess, bLess);
    if aLess && !bLess {
      o := Before;
    } else if bLess && !aLess {
      o := After;
    } else if !aLess && !bLess {
      o := Equal;
    } else {
      o := Concurrent;
    }
  }

  method Check(m: Clock, a: Clock, b: Clock, less: bool, greater: bool) returns (aLess: bool, bLess: bool)
    ensures aLess <==> less || exists k :: k in m && At(a, k) < At(b, k)
    ensures bLess <==> greater || exists k :: k in m && At(b, k) < At(a, k)
  {
    aLess, bLess := less, greater;
    var todo := m.Keys;
    while todo != {}
      invariant todo <= m.Keys
      invariant aLess <==> less || exists k :: k in m.Keys - todo && At(a, k) < At(b, k)
      invariant bLess <==> greater || exists k :: k in m.Keys - todo && At(b, k) < At(a, k)
      decreases todo
    {
      var k :| k in todo;
      ghost var seen := m.Keys - todo;
      todo := todo - {k};
      assert m.Keys - todo == seen + {k};
      if At(a, k) < At(b, k) {
        aLess := true;
      }
      if At(b, k) < At(a, k) {
        bLess := true;
      }
    }
    assert m.Keys - todo == m.Keys;
  }

  function Max(x: nat, y: nat): nat {
    if x < y then y else x
  }

  function Incremented(c: Clock, node: string): Clock {
    c[node := At(c, node) + 1]
  }

  /** The keys `Merge` ends with, and their values. A zero entry of the remote clock adds no key. */
  function Merged(c: Clock, remote: Clock): Clock {
    map k | k in c.Keys + remote.Keys && (k in c || remote[k] > 0) :: Max(At(c, k), At(remote, k))
  }

  /** Merging gives the least clock above both. */
  lemma MergedIsLeastUpperBound(c: Clock, remote: Clock, bound: Clock)
    ensures forall k :: At(Merged(c, remote), k) == Max(At(c, k), At(remote, k))
    ensures Leq(c, Merged(c, remote)) && Leq(remote, Merged(c, remote))
    ensures Leq(c, bound) && Leq(remote, bound) ==> Leq(Merged(c, remote), bound)
  {
    forall k ensures At(Merged(c, remote), k) == Max(At(c, k), At(remote, k)) {
      assert k in Merged(c, remote) <==> k in c.Keys + remote.Keys && (k in c || remote[k] > 0);
    }
  }

  function RaisedAt(c: Clock, k: string, v: nat): Clock {
    if v > At(c, k) then c[k := v] else c
  }

  lemma MergeOneMore(c: Clock, done: Clock, k: string, v: nat)
    requires k !in done
    ensures Merged(c, done[k := v]) == RaisedAt(Merged(c, done), k, v)
  {
    var m, more, expected := Merged(c, done), Merged(c, done[k := v]), RaisedAt(Merged(c, done), k, v);
    assert done[k := v].Keys == done.Keys + {k};
    assert At(m, k) == At(c, k);
    SameDomains(c, done, k, v);
    forall p | p in more ensures more[p] == expected[p] {}
  }

  lemma SameDomains(c: Clock, done: Clock, k: string, v: nat)
    requires k !in done
    ensures Merged(c, done[k := v]).Keys == RaisedAt(Merged(c, done), k, v).Keys
  {
    var more := done[k := v];
    assert At(Merged(c, done), k) == At(c, k);
    forall p ensures p in Merged(c, more) <==> p in RaisedAt(Merged(c, done), k, v) {
      assert p in more <==> p in done || p == k;
    }
  }

  /** One round of the merging loop. */
  lemma MergeRound(c: Clock, entries: Clock, todo: set<string>, k: string)
    requires k in todo && todo <= entries.Keys
    ensures Merged(c, entries - (todo - {k})) == RaisedAt(Merged(c, entries - todo), k, entries[k])
  {
    MergeOneMore(c, entries - todo, k, entries[k]);
    assert entries - (todo - {k}) == (entries - todo)[k := entries[k]];
  }

  class VectorClock {
    var clock: Clock

    constructor ()
      ensures clock == map[]
    {
      clock := map[];
    }

    method Increment(nodeId: string)
      modifies this
      ensures clock == Incremented(old(clock), nodeId)
    {
      clock := clock[nodeId := At(clock, nodeId) + 1];
    }

    method Merge(remote: Clock)
      modifies this
      ensures clock == Merged(old(clock), remote)
    {
      ghost var before := clock;
      var todo := remote.Keys;
      while todo != {}
        invariant todo <= remote.Keys
        invariant clock == Merged(before, remote - todo)
        decreases todo
      {
        var k :| k in todo;
        MergeRound(before, remote, todo, k);
        if remote[k] > At(clock, k) {
          clock := clock[k := remote[k]];
        }
        todo := todo - {k};
      }
      assert remote - todo == remote;
    }

    /** A copy: later changes to the clock leave it as it is. */
    method Snapshot() returns (snap: Clock)
      ensures snap == clock
    {
      snap := map[];
      var todo := clock.Keys;
      while todo != {}
        invariant todo <= clock.Keys
        invariant snap == clock - todo
        decreases todo
      {
        var k :| k in todo;
        snap := snap[k := clock[k]];
        todo := todo - {k};
      }
    }
  }
}
