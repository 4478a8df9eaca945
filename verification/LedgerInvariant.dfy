/** What every reachable ledger keeps, stated against the sequence `acc` of messages it has accepted so far. */
module LedgerInvariant {
  import opened Arrangements
  import opened Ledger
  import opened Messages
  import opened MessageOrder
  import opened Orders
  import opened Sorting
  import opened VectorClocks

  ghost predicate DifferentIds(s: seq<Message>) {
    forall i, j :: 0 <= i < j < |s| ==> s[i].id != s[j].id
  }

  /** The list, the ID set and the size. */
  ghost predicate ListInv(s: LedgerState, acc: seq<Message>) {
    && s.max > 0
    && DifferentIds(s.messages) && s.ids == Ids(s.messages)
    && (forall m :: m in s.messages ==> m in acc)
    && (forall m :: m in acc ==> m.id != "")
    && s.verified == |acc|
    && |s.messages| == if |acc| <= s.max then |acc| else s.max
  }

  /** `senderClock` holds the greatest own clock ever accepted from each sender. */
  ghost predicate ClockInv(s: LedgerState, acc: seq<Message>) {
    && (forall m :: m in acc ==> OwnClock(m) <= At(s.senderClock, m.senderId))
    && (forall p :: At(s.senderClock, p) > 0 ==>
          exists m :: m in acc && m.senderId == p && OwnClock(m) == At(s.senderClock, p))
  }

  /** Own clocks, where present, rise from one accepted message of a sender to the next. */
  ghost predicate ClocksRise(acc: seq<Message>) {
    forall i, j :: 0 <= i < j < |acc| && acc[i].senderId == acc[j].senderId && OwnClock(acc[j]) > 0 ==>
      OwnClock(acc[i]) < OwnClock(acc[j])
  }

  /** The fork table holds exactly the accepted links, each with the one ID accepted for it. */
  ghost predicate ForkInv(s: LedgerState, acc: seq<Message>) {
    && (forall m :: m in acc && m.prevHash != "" ==> ForkKey(m) in s.forks && s.forks[ForkKey(m)] == m.id)
    && (forall k :: k in s.forks ==> exists m :: m in acc && m.prevHash != "" && ForkKey(m) == k && m.id == s.forks[k])
  }

  ghost predicate AllClocked(acc: seq<Message>) {
    forall m :: m in acc ==> OwnClock(m) > 0
  }

  /** Messages whose order is total: what the deterministic list rests on. */
  ghost predicate Orderly(acc: seq<Message>) {
    AllClocked(acc) && DistinctIds(Elements(acc)) && TransitiveOn(Less, Elements(acc))
  }

  /** The list is in order and holds the greatest of all accepted messages. */
  ghost predicate TopInv(s: LedgerState, acc: seq<Message>) {
    && Increasing(Less, s.messages)
    && (forall x, y :: x in acc && x !in s.messages && y in s.messages ==> Less(x, y))
  }

  /** Each sender's messages stand in the order of its own clock. */
  ghost predicate SendersInOrder(list: seq<Message>) {
    forall i, j :: 0 <= i < j < |list| && list[i].senderId == list[j].senderId ==> OwnClock(list[i]) < OwnClock(list[j])
  }

  /** Clocked messages, each sender's a causal chain. */
  ghost predicate Chained(acc: seq<Message>) {
    AllClocked(acc) && SendersAreChains(Elements(acc))
  }

  /** A ledger that has only ever sorted by plain insertion. */
  ghost predicate Small(s: LedgerState, acc: seq<Message>) {
    s.max < 20 || |acc| <= 20
  }

  /** What a small ledger keeps even where the order goes round. */
  ghost predicate ShortInv(s: LedgerState, acc: seq<Message>) {
    Small(s, acc) ==>
      && Steady(Less, s.messages)
      && (|acc| <= s.max ==> s.messages == InsertionSort(Less, acc))
      && (Chained(acc) ==> SendersInOrder(s.messages))
  }

  ghost predicate Inv(s: LedgerState, acc: seq<Message>) {
    && ListInv(s, acc)
    && ClockInv(s, acc)
    && ClocksRise(acc)
    && ForkInv(s, acc)
    && (Orderly(acc) ==> TopInv(s, acc))
  }

  ghost predicate AcceptedWith(s: LedgerState, m: Message, pool: seq<Message>) {
    Judge(s, m).Accepted? && SliceStable(Less, s.messages + [m], pool)
  }

  lemma PermutationKeepsIdsDifferent(s: seq<Message>, t: seq<Message>)
    requires DifferentIds(s) && multiset(s) == multiset(t)
    ensures DifferentIds(t)
  {
    NoRepeatsSize(s);
    PermutationElements(s, t);
    forall i, j | 0 <= i < j < |t| ensures t[i].id != t[j].id {
      if t[i] == t[j] {
        TwiceInBag(t, i, j);
      } else {
        assert t[i] in Elements(s) && t[j] in Elements(s);
      }
    }
  }

  lemma PoolHoldsAll(s: LedgerState, acc: seq<Message>, m: Message, pool: seq<Message>)
    requires ListInv(s, acc) && Judge(s, m).Accepted? && multiset(pool) == multiset(s.messages + [m])
    ensures |pool| == |s.messages| + 1
    ensures forall x :: x in pool <==> x in s.messages || x == m
    ensures DifferentIds(s.messages + [m]) && DifferentIds(pool)
  {
    var appended := s.messages + [m];
    assert m.id !in Ids(s.messages);
    PermutationElements(appended, pool);
    ElementsAppend(s.messages, [m]);
    forall x ensures x in pool <==> x in s.messages || x == m {
      assert x in Elements(pool) <==> x in Elements(s.messages) + Elements([m]);
    }
    PermutationKeepsIdsDifferent(appended, pool);
  }

  lemma AcceptKeepsList(s: LedgerState, acc: seq<Message>, m: Message, pool: seq<Message>)
    requires ListInv(s, acc) && AcceptedWith(s, m, pool)
    ensures ListInv(Absorbed(s, m, pool), acc + [m])
  {
    PoolHoldsAll(s, acc, m, pool);
    var t, k := Absorbed(s, m, pool), Surplus(s.max, pool);
    assert pool == pool[..k] + pool[k..];
    forall x | x in t.messages ensures x in acc + [m] {
      assert x in pool;
    }
    assert s.ids + {m.id} == Ids(pool) by {
      forall id ensures id in s.ids + {m.id} <==> id in Ids(pool) {
        if id == m.id {
          assert m in pool;
        }
      }
    }
    forall id ensures id in t.ids <==> id in Ids(t.messages) {
      SplitIds(pool, k, id);
    }
  }

  lemma SplitIds(pool: seq<Message>, k: nat, id: string)
    requires k <= |pool| && DifferentIds(pool)
    ensures id in Ids(pool) - Ids(pool[..k]) <==> id in Ids(pool[k..])
  {
    assert pool == pool[..k] + pool[k..];
    if id in Ids(pool[k..]) {
      var j :| 0 <= j < |pool[k..]| && pool[k..][j].id == id;
      assert pool[k + j].id == id && pool[k + j] in pool;
      forall i | 0 <= i < k ensures pool[i].id != id {}
    }
  }

  lemma AcceptKeepsClock(s: LedgerState, acc: seq<Message>, m: Message, pool: seq<Message>)
    requires ClockInv(s, acc) && Judge(s, m).Accepted?
    ensures ClockInv(Absorbed(s, m, pool), acc + [m])
  {
    var more, high := acc + [m], Raised(s.senderClock, m);
    assert more[|acc|] == m && forall i :: 0 <= i < |acc| ==> more[i] == acc[i];
    forall p | At(high, p) > 0
      ensures exists x :: x in more && x.senderId == p && OwnClock(x) == At(high, p)
    {
      if p == m.senderId && OwnClock(m) > At(s.senderClock, p) {
        assert m in more;
      } else {
        var x :| x in acc && x.senderId == p && OwnClock(x) == At(s.senderClock, p);
        assert x in more;
      }
    }
    forall x | x in more ensures OwnClock(x) <= At(high, x.senderId) {
      if x != m {
        assert x in acc;
      }
    }
  }

  lemma AcceptKeepsRise(s: LedgerState, acc: seq<Message>, m: Message)
    requires ClockInv(s, acc) && ClocksRise(acc) && Judge(s, m).Accepted?
    ensures ClocksRise(acc + [m])
  {
    forall i | 0 <= i < |acc| && acc[i].senderId == m.senderId && OwnClock(m) > 0
      ensures OwnClock(acc[i]) < OwnClock(m)
    {
      assert acc[i] in acc;
    }
  }

  lemma AcceptKeepsForks(s: LedgerState, acc: seq<Message>, m: Message, pool: seq<Message>)
    requires ForkInv(s, acc) && Judge(s, m).Accepted?
    ensures ForkInv(Absorbed(s, m, pool), acc + [m])
  {
    var forks := Remembered(s.forks, m);
    forall k | k in forks
      ensures exists x :: x in acc + [m] && x.prevHash != "" && ForkKey(x) == k && x.id == forks[k]
    {
      if m.prevHash != "" && k == ForkKey(m) {
        assert m in acc + [m];
      } else {
        var x :| x in acc && x.prevHash != "" && ForkKey(x) == k && x.id == s.forks[k];
        assert x in acc + [m];
      }
    }
  }

  lemma OrderlyPool(s: LedgerState, acc: seq<Message>, m: Message, pool: seq<Message>)
    requires ListInv(s, acc) && AcceptedWith(s, m, pool) && Orderly(acc + [m])
    ensures Orderly(acc) && Increasing(Less, pool)
  {
    ElementsAppend(acc, [m]);
    ElementsAppend(s.messages, [m]);
    PoolHoldsAll(s, acc, m, pool);
    var appended, all := s.messages + [m], Elements(acc + [m]);
    forall x | x in Elements(appended) ensures x in all {
      assert x in acc || x == m;
    }
    forall x, y | x in Elements(appended) && y in Elements(appended) && x != y ensures Less(x, y) || Less(y, x) {
      CompareMessagesFlips(x, y);
    }
    assert NoRepeats(appended);
  }

  lemma {:induction false} AtMostOneEach<T>(s: seq<T>)
    ensures |Elements(s)| <= |s|
  {
    if s != [] {
      var n := |s| - 1;
      assert s == s[..n] + [s[n]];
      AtMostOneEach(s[..n]);
      ElementsAppend(s[..n], [s[n]]);
      assert Elements([s[n]]) == {s[n]};
    }
  }

  /** Nothing is evicted before the list is full. */
  lemma EvictedMeansFull(s: LedgerState, acc: seq<Message>, x: Message)
    requires ListInv(s, acc) && x in acc && x !in s.messages
    ensures |s.messages| == s.max
  {
    NoRepeatsSize(s.messages);
    AtMostOneEach(acc);
    assert Elements(s.messages) <= Elements(acc) - {x};
    assert Elements(acc) == Elements(acc) - {x} + {x};
    SubsetSize(Elements(s.messages), Elements(acc) - {x});
  }

  lemma {:induction false} SubsetSize<T>(a: set<T>, b: set<T>)
    requires a <= b
    ensures |a| <= |b|
  {
    assert b == a + (b - a);
  }

  lemma AcceptKeepsTop(s: LedgerState, acc: seq<Message>, m: Message, pool: seq<Message>)
    requires ListInv(s, acc) && TopInv(s, acc) && AcceptedWith(s, m, pool)
    requires Orderly(acc + [m]) && Increasing(Less, pool)
    ensures TopInv(Absorbed(s, m, pool), acc + [m])
  {
    PoolHoldsAll(s, acc, m, pool);
    var t, k, all := Absorbed(s, m, pool), Surplus(s.max, pool), Elements(acc + [m]);
    assert pool == pool[..k] + pool[k..];
    forall x, y | x in acc + [m] && x !in t.messages && y in t.messages ensures Less(x, y) {
      assert x in all && y in pool && y in all by { assert y in s.messages || y == m; }
      if x in pool {
        assert x in pool[..k];
      } else {
        EvictedMeansFull(s, acc, x);
        var first := pool[0];
        if y == m {
          assert first in pool && first != m && first in s.messages && first in all;
          assert Less(x, first) && Less(first, m);
        }
      }
    }
  }

  // ---- Small ledgers

  /** A small ledger takes a message by one insertion. */
  lemma SmallPool(s: LedgerState, acc: seq<Message>, m: Message, pool: seq<Message>)
    requires ListInv(s, acc) && ShortInv(s, acc) && AcceptedWith(s, m, pool)
    requires Small(Absorbed(s, m, pool), acc + [m])
    ensures Small(s, acc) && pool == Insert(Less, s.messages, m)
  {
    SteadyStays(Less, s.messages);
    assert (s.messages + [m])[..|s.messages|] == s.messages;
  }

  lemma ChainedFront(acc: seq<Message>, m: Message)
    requires Chained(acc + [m])
    ensures Chained(acc)
  {
    ElementsAppend(acc, [m]);
    forall x | x in acc ensures OwnClock(x) > 0 {
      assert x in acc + [m];
    }
  }

  /** In a chain, a later own clock is never below an earlier one. */
  lemma LaterIsNotBelow(acc: seq<Message>, x: Message, m: Message)
    requires SendersAreChains(Elements(acc)) && x in acc && m in acc && x.senderId == m.senderId
    requires OwnClock(x) < OwnClock(m)
    ensures !Less(m, x)
  {
    assert x in Elements(acc) && m in Elements(acc);
    CompareMeaning(m.clock, x.clock);
    LessMeaning(x, m);
    CompareMessagesFlips(x, m);
  }

  lemma InsertKeepsSenders(list: seq<Message>, m: Message)
    requires SendersInOrder(list)
    requires forall x :: x in list && x.senderId == m.senderId ==> OwnClock(x) < OwnClock(m) && !Less(m, x)
    ensures SendersInOrder(Insert(Less, list, m))
  {
    var p := InsertPlace(Less, list, m);
    forall i | 0 <= i < |list| && list[i].senderId == m.senderId ensures i < p && OwnClock(list[i]) < OwnClock(m) {
      assert list[i] in list;
    }
  }

  lemma NewIsLatest(s: LedgerState, acc: seq<Message>, m: Message, x: Message)
    requires ClockInv(s, acc) && Judge(s, m).Accepted? && Chained(acc + [m]) && x in acc && x.senderId == m.senderId
    ensures OwnClock(x) < OwnClock(m) && !Less(m, x)
  {
    assert m in acc + [m] && x in acc + [m];
    assert OwnClock(m) > 0 && OwnClock(x) > 0;
    LaterIsNotBelow(acc + [m], x, m);
  }

  lemma AcceptKeepsSenders(s: LedgerState, acc: seq<Message>, m: Message)
    requires ListInv(s, acc) && ClockInv(s, acc) && Judge(s, m).Accepted? && Chained(acc + [m])
    requires SendersInOrder(s.messages)
    ensures SendersInOrder(Insert(Less, s.messages, m))
  {
    forall x | x in s.messages && x.senderId == m.senderId ensures OwnClock(x) < OwnClock(m) && !Less(m, x) {
      NewIsLatest(s, acc, m, x);
    }
    InsertKeepsSenders(s.messages, m);
  }

  lemma AcceptKeepsSteady(list: seq<Message>, m: Message)
    requires Steady(Less, list)
    ensures Steady(Less, Insert(Less, list, m))
  {
    forall x | x in list && Less(m, x) ensures !Less(x, m) {
      CompareMessagesFlips(m, x);
    }
    InsertKeepsSteady(Less, list, m);
  }

  lemma AcceptKeepsShort(s: LedgerState, acc: seq<Message>, m: Message, pool: seq<Message>)
    requires ListInv(s, acc) && ClockInv(s, acc) && ShortInv(s, acc) && AcceptedWith(s, m, pool)
    ensures ShortInv(Absorbed(s, m, pool), acc + [m])
  {
    var t, k := Absorbed(s, m, pool), Surplus(s.max, pool);
    if Small(t, acc + [m]) {
      SmallPool(s, acc, m, pool);
      AcceptKeepsSteady(s.messages, m);
      BackKeepsOrder(pool, k);
      if |acc + [m]| <= t.max {
        assert (acc + [m])[..|acc|] == acc && pool[0..] == pool;
      }
      if Chained(acc + [m]) {
        ChainedFront(acc, m);
        AcceptKeepsSenders(s, acc, m);
      }
    }
  }

  lemma BackKeepsOrder(pool: seq<Message>, k: nat)
    requires k <= |pool|
    ensures Steady(Less, pool) ==> Steady(Less, pool[k..])
    ensures SendersInOrder(pool) ==> SendersInOrder(pool[k..])
  {
  }

  lemma AcceptKeepsInv(s: LedgerState, acc: seq<Message>, m: Message, pool: seq<Message>)
    requires Inv(s, acc) && AcceptedWith(s, m, pool)
    ensures Inv(Absorbed(s, m, pool), acc + [m])
  {
    AcceptKeepsList(s, acc, m, pool);
    AcceptKeepsClock(s, acc, m, pool);
    AcceptKeepsRise(s, acc, m);
    AcceptKeepsForks(s, acc, m, pool);
    if Orderly(acc + [m]) {
      OrderlyPool(s, acc, m, pool);
      AcceptKeepsTop(s, acc, m, pool);
    }
  }

  /** The guards and the list, without the counters that only report. */
  ghost predicate SameCore(s: LedgerState, t: LedgerState) {
    && s.max == t.max && s.ids == t.ids && s.messages == t.messages && s.senderClock == t.senderClock
    && s.forks == t.forks && s.verified == t.verified
  }

  function Extended(acc: seq<Message>, m: Message, v: Verdict): seq<Message> {
    if v.Accepted? then acc + [m] else acc
  }

  /** One offer keeps the invariant, whatever the verdict and whichever way the sort goes. */
  lemma OfferKeepsInv(s: LedgerState, acc: seq<Message>, m: Message, t: LedgerState)
    requires Inv(s, acc) && Offer(s, m, t)
    ensures Inv(t, Extended(acc, m, Judge(s, m)))
  {
    if Judge(s, m).Accepted? {
      var pool :| SliceStable(Less, s.messages + [m], pool) && t == Absorbed(s, m, pool);
      AcceptKeepsInv(s, acc, m, pool);
    } else {
      assert SameCore(s, t);
    }
  }

  lemma OfferKeepsShort(s: LedgerState, acc: seq<Message>, m: Message, t: LedgerState)
    requires ListInv(s, acc) && ClockInv(s, acc) && ShortInv(s, acc) && Offer(s, m, t)
    ensures ShortInv(t, Extended(acc, m, Judge(s, m)))
  {
    if Judge(s, m).Accepted? {
      var pool :| SliceStable(Less, s.messages + [m], pool) && t == Absorbed(s, m, pool);
      AcceptKeepsShort(s, acc, m, pool);
    } else {
      assert SameCore(s, t);
    }
  }

  lemma FreshInv(max: nat)
    requires max > 0
    ensures Inv(Fresh(max), []) && ShortInv(Fresh(max), [])
  {
  }

  /** A message that is new to everything accepted: another ID, a later clock, another link. */
  ghost predicate Novel(acc: seq<Message>, m: Message) {
    && m.id != ""
    && (forall x :: x in acc ==> x.id != m.id)
    && (forall x :: x in acc && x.senderId == m.senderId ==> OwnClock(x) < OwnClock(m))
    && (forall x :: x in acc && x.prevHash != "" && m.prevHash != "" ==> ForkKey(x) != ForkKey(m))
  }

  lemma NovelIsAccepted(s: LedgerState, acc: seq<Message>, m: Message)
    requires ListInv(s, acc) && ClockInv(s, acc) && ForkInv(s, acc) && Novel(acc, m)
    ensures Judge(s, m).Accepted?
  {
  }

  /** Accepting moves no guard back: clocks only rise and a link keeps its ID. */
  lemma OfferKeepsGuards(s: LedgerState, m: Message, t: LedgerState)
    requires Offer(s, m, t)
    ensures Leq(s.senderClock, t.senderClock)
    ensures forall k :: k in s.forks ==> k in t.forks && t.forks[k] == s.forks[k]
  {
  }
}
