/** Evicting ledgers: exactly when a ledger smaller than the traffic still ends with one list. */
module LedgerTop {
  import opened Arrangements
  import opened Ledger
  import opened LedgerInvariant
  import opened LedgerOrder
  import opened LedgerRuns
  import opened Messages
  import opened MessageOrder
  import opened Orders
  import opened Sorting
  import opened VectorClocks

  // ---- One call of a small ledger

  /** The list after the eviction of the front surplus. */
  function Back(max: nat, pool: seq<Message>): seq<Message> {
    pool[Surplus(max, pool)..]
  }

  ghost predicate StaysSmall(max: nat, total: nat) {
    0 < max && (max < 20 || total <= 20)
  }

  lemma OfferInserts(s: LedgerState, acc: seq<Message>, m: Message, t: LedgerState)
    requires ListInv(s, acc) && ShortInv(s, acc) && Offer(s, m, t) && StaysSmall(s.max, |acc| + 1)
    ensures t.messages == if Judge(s, m).Accepted? then Back(s.max, Insert(Less, s.messages, m)) else s.messages
  {
    if Judge(s, m).Accepted? {
      var pool :| SliceStable(Less, s.messages + [m], pool) && t == Absorbed(s, m, pool);
      SmallPool(s, acc, m, pool);
    }
  }

  lemma StepInserts(s: LedgerState, acc: seq<Message>, op: Op, t: LedgerState)
    requires ListInv(s, acc) && ShortInv(s, acc) && Step(s, op, t) && StaysSmall(s.max, |acc| + 1)
    ensures t.messages ==
            if op.Offers() && Judge(s, op.msg).Accepted? then Back(s.max, Insert(Less, s.messages, op.msg))
              else s.messages
  {
    match op
    case Add(m) => OfferInserts(s, acc, m, t);
    case Receive(m) =>
      var mid :| Offer(s, m, mid) && t == AfterVerdict(mid, Judge(s, m));
      OfferInserts(s, acc, m, mid);
    case _ =>
  }

  lemma BeforeCall(states: seq<LedgerState>, ops: seq<Op>, n: nat)
    requires Run(states, ops) && n < |ops| && TakenAt(states, ops, n)
    requires StaysSmall(states[0].max, |AcceptedOf(states, ops, |ops|)|)
    ensures ListInv(states[n], AcceptedOf(states, ops, n)) && ShortInv(states[n], AcceptedOf(states, ops, n))
    ensures states[n].max == states[0].max && StaysSmall(states[0].max, |AcceptedOf(states, ops, n)| + 1)
  {
    RunKeepsInv(states, ops, n);
    RunKeepsShort(states, ops, n);
    TakenIsOneMore(states, ops, n, |ops|);
  }

  /** In a run that stays small, each call inserts and evicts, or leaves the list alone. */
  lemma CallInserts(states: seq<LedgerState>, ops: seq<Op>, n: nat)
    requires Run(states, ops) && n < |ops|
    requires StaysSmall(states[0].max, |AcceptedOf(states, ops, |ops|)|)
    ensures states[n + 1].messages ==
            if TakenAt(states, ops, n) then Back(states[0].max, Insert(Less, states[n].messages, ops[n].msg))
            else states[n].messages
  {
    assert StepAt(states, ops, n);
    if TakenAt(states, ops, n) {
      BeforeCall(states, ops, n);
      StepInserts(states[n], AcceptedOf(states, ops, n), ops[n], states[n + 1]);
    } else {
      RefusedKeepsList(states[n], ops[n], states[n + 1]);
    }
  }

  // ---- Order and eviction

  /** As long as `x` is held, `y` is held behind it. */
  ghost predicate Guards(list: seq<Message>, x: Message, y: Message) {
    x in list ==> Stands(list, x, y)
  }

  lemma BackKeepsGuard(max: nat, pool: seq<Message>, x: Message, y: Message)
    requires NoRepeats(pool) && Guards(pool, x, y)
    ensures Guards(Back(max, pool), x, y)
  {
    var k := Surplus(max, pool);
    if x in pool[k..] {
      var l :| 0 <= l < |pool[k..]| && pool[k..][l] == x;
      var i, j :| 0 <= i < j < |pool| && pool[i] == x && pool[j] == y;
      assert pool[k + l] == x && i == k + l;
      assert pool[k..][i - k] == x && pool[k..][j - k] == y;
    }
  }

  lemma InsertHasNoRepeats(list: seq<Message>, m: Message)
    requires NoRepeats(list) && m !in list
    ensures NoRepeats(Insert(Less, list, m)) && forall x :: x in Insert(Less, list, m) <==> x in list || x == m
  {
    InsertIsPermutation(Less, list, m);
    PermutationHasNoRepeats(list + [m], Insert(Less, list, m));
    PermutationElements(list + [m], Insert(Less, list, m));
    forall x ensures x in Insert(Less, list, m) <==> x in list || x == m {
      assert x in Elements(Insert(Less, list, m)) <==> x in Elements(list + [m]);
    }
  }

  lemma CallKeepsGuard(list: seq<Message>, max: nat, m: Message, x: Message, y: Message)
    requires NoRepeats(list) && m !in list && m != x && Guards(list, x, y)
    ensures Guards(Back(max, Insert(Less, list, m)), x, y)
  {
    InsertHasNoRepeats(list, m);
    if x in list {
      InsertKeepsPlaces(Less, list, m, x, y);
    }
    BackKeepsGuard(max, Insert(Less, list, m), x, y);
  }

  lemma CallMakesGuard(list: seq<Message>, max: nat, x: Message, y: Message)
    requires NoRepeats(list) && y !in list && y != x && !Less(y, x)
    ensures Guards(Back(max, Insert(Less, list, y)), x, y)
  {
    InsertHasNoRepeats(list, y);
    if x in list {
      InsertedStandsBehind(Less, list, x, y);
    }
    BackKeepsGuard(max, Insert(Less, list, y), x, y);
  }

  /** A run that offers the messages of a list once each and takes them all. */
  ghost predicate TakesEach(states: seq<LedgerState>, list: seq<Message>) {
    && Run(states, Adds(list)) && NoRepeats(list) && StaysSmall(states[0].max, |list|)
    && forall n {:trigger list[n]} :: 0 <= n < |list| ==> TakenAt(states, Adds(list), n)
  }

  lemma EachCall(states: seq<LedgerState>, list: seq<Message>, n: nat)
    requires TakesEach(states, list) && n < |list|
    ensures states[n + 1].messages == Back(states[0].max, Insert(Less, states[n].messages, list[n]))
    ensures NoRepeats(states[n].messages) && forall x :: x in states[n].messages ==> x in list[..n]
    ensures list[n] !in states[n].messages
  {
    TakenSoFar(states, Adds(list), list, |list|);
    TakenSoFar(states, Adds(list), list, n);
    assert list[..|list|] == list && TakenAt(states, Adds(list), n);
    CallInserts(states, Adds(list), n);
    RunKeepsInv(states, Adds(list), n);
    ListsHaveNoRepeats(states[n], list[..n], 0);
  }

  /** Of two arrivals of which the later is not below the earlier, the earlier is evicted first. */
  lemma {:induction false} EarlierGoesFirst(states: seq<LedgerState>, list: seq<Message>, i: nat, j: nat, n: nat)
    requires TakesEach(states, list) && i < j < n <= |list| && !Less(list[j], list[i])
    ensures Guards(states[n].messages, list[i], list[j])
    decreases n
  {
    EachCall(states, list, n - 1);
    if n == j + 1 {
      CallMakesGuard(states[j].messages, states[0].max, list[i], list[j]);
    } else {
      EarlierGoesFirst(states, list, i, j, n - 1);
      CallKeepsGuard(states[n - 1].messages, states[0].max, list[n - 1], list[i], list[j]);
    }
  }

  // ---- A top set

  /** The greatest messages that a ledger of size `max` can hold: above all others, and in a total order. */
  ghost predicate IsTop(s: set<Message>, max: nat, u: set<Message>) {
    && u <= s && |u| == (if |s| <= max then |s| else max)
    && (forall l, x :: l in s - u && x in u ==> Less(l, x))
    && NoInversion(u)
  }

  /** In a run of honest messages each is accepted once, and all are in the end. */
  lemma AcceptedInEnd(states: seq<LedgerState>, ops: seq<Op>, s: set<Message>, max: nat)
    requires HonestSet(s) && InOrderRun(states, ops, s, max)
    ensures Arranges(AcceptedOf(states, ops, |ops|), s) && |AcceptedOf(states, ops, |ops|)| == |s|
  {
    var acc := AcceptedOf(states, ops, |ops|);
    TrafficIsHonest(ops, s);
    AllOfferedAreAccepted(states, ops);
    RunKeepsInv(states, ops, |ops|);
    forall m | m in acc ensures OwnClock(m) > 0 {
      assert m in Elements(acc);
    }
    AcceptedAreDistinct(states[|ops|], acc);
    NoRepeatsSize(acc);
  }

  /** The list is some messages outside the top set and behind them, in order, those of it accepted so far. */
  ghost predicate Topped(list: seq<Message>, acc: seq<Message>, u: set<Message>) {
    exists k :: 0 <= k <= |list| && ToppedAt(list, acc, u, k)
  }

  ghost predicate ToppedAt(list: seq<Message>, acc: seq<Message>, u: set<Message>, k: nat)
    requires k <= |list|
  {
    && (forall x :: x in list[..k] ==> x in acc && x !in u)
    && Elements(list[k..]) == Elements(acc) * u && Increasing(Less, list[k..])
  }

  lemma {:induction false} InsertAboveAll(lo: seq<Message>, hi: seq<Message>, m: Message)
    requires forall y :: y in lo ==> !Less(m, y)
    ensures Insert(Less, lo + hi, m) == lo + Insert(Less, hi, m)
  {
    if hi == [] {
      assert lo + hi == lo;
      assert lo != [] ==> lo[|lo| - 1] in lo;
    } else {
      var n := |hi| - 1;
      assert (lo + hi)[..|lo + hi| - 1] == lo + hi[..n];
      InsertAboveAll(lo, hi[..n], m);
    }
  }

  lemma {:induction false} InsertBelowAll(lo: seq<Message>, hi: seq<Message>, m: Message)
    requires forall y :: y in hi ==> Less(m, y)
    ensures Insert(Less, lo + hi, m) == Insert(Less, lo, m) + hi
  {
    if hi == [] {
      assert lo + hi == lo;
    } else {
      var n := |hi| - 1;
      assert (lo + hi)[..|lo + hi| - 1] == lo + hi[..n];
      InsertBelowAll(lo, hi[..n], m);
      assert Insert(Less, lo, m) + hi == (Insert(Less, lo, m) + hi[..n]) + [hi[n]];
    }
  }

  lemma TopIsOrdered(u: set<Message>)
    requires DistinctIds(u) && NoInversion(u)
    ensures TransitiveOn(Less, u) && TotalOn(Less, u)
  {
    TransitiveIff(u);
    forall a, b | a in u && b in u && a != b ensures Less(a, b) || Less(b, a) {
      CompareMessagesFlips(a, b);
    }
  }

  lemma InsertTop(lo: seq<Message>, hi: seq<Message>, acc: seq<Message>, u: set<Message>, m: Message)
    requires TransitiveOn(Less, u) && TotalOn(Less, u) && m in u && m !in acc
    requires (forall y :: y in lo ==> y in acc && y !in u && !Less(m, y))
    requires Elements(hi) == Elements(acc) * u && Increasing(Less, hi)
    ensures ToppedAt(Insert(Less, lo + hi, m), acc + [m], u, |lo|)
  {
    InsertAboveAll(lo, hi, m);
    TopGrows(hi, acc, u, m);
    PartsAreTopped(lo, Insert(Less, hi, m), acc + [m], u);
  }

  lemma TopGrows(hi: seq<Message>, acc: seq<Message>, u: set<Message>, m: Message)
    requires TransitiveOn(Less, u) && TotalOn(Less, u) && m in u && m !in acc
    requires Elements(hi) == Elements(acc) * u && Increasing(Less, hi)
    ensures Elements(Insert(Less, hi, m)) == Elements(acc + [m]) * u && Increasing(Less, Insert(Less, hi, m))
  {
    InsertIsPermutation(Less, hi, m);
    PermutationElements(Insert(Less, hi, m), hi + [m]);
    ElementsAppend(hi, [m]);
    ElementsAppend(acc, [m]);
    assert Elements([m]) == {m};
    assert m !in hi by { assert m !in Elements(hi); }
    assert Elements(hi + [m]) <= u;
    InsertIncreasing(Less, hi, m);
  }

  lemma InsertBelowTop(lo: seq<Message>, hi: seq<Message>, acc: seq<Message>, u: set<Message>, m: Message)
    requires m !in u && (forall y :: y in lo ==> y in acc && y !in u) && (forall y :: y in hi ==> Less(m, y))
    requires Elements(hi) == Elements(acc) * u && Increasing(Less, hi)
    ensures ToppedAt(Insert(Less, lo + hi, m), acc + [m], u, |lo| + 1)
  {
    var front := Insert(Less, lo, m);
    InsertBelowAll(lo, hi, m);
    FrontGrows(lo, acc, u, m);
    NoMoreOfTop(acc, u, m);
    PartsAreTopped(front, hi, acc + [m], u);
  }

  lemma NoMoreOfTop(acc: seq<Message>, u: set<Message>, m: Message)
    requires m !in u
    ensures Elements(acc + [m]) * u == Elements(acc) * u
  {
    ElementsAppend(acc, [m]);
    assert Elements([m]) == {m};
  }

  lemma PartsAreTopped(lo: seq<Message>, hi: seq<Message>, acc: seq<Message>, u: set<Message>)
    requires (forall x :: x in lo ==> x in acc && x !in u) && Elements(hi) == Elements(acc) * u && Increasing(Less, hi)
    ensures ToppedAt(lo + hi, acc, u, |lo|)
  {
    assert (lo + hi)[..|lo|] == lo && (lo + hi)[|lo|..] == hi;
  }

  lemma FrontGrows(lo: seq<Message>, acc: seq<Message>, u: set<Message>, m: Message)
    requires m !in u && forall y :: y in lo ==> y in acc && y !in u
    ensures forall x :: x in Insert(Less, lo, m) ==> x in acc + [m] && x !in u
  {
    InsertIsPermutation(Less, lo, m);
    PermutationElements(Insert(Less, lo, m), lo + [m]);
    forall x | x in Insert(Less, lo, m) ensures x in acc + [m] && x !in u {
      assert x in Elements(lo + [m]);
    }
  }

  lemma InsertKeepsTopped(list: seq<Message>, acc: seq<Message>, s: set<Message>, max: nat, u: set<Message>, m: Message)
    requires DistinctIds(u) && IsTop(s, max, u) && Topped(list, acc, u)
    requires m in s && m !in acc && forall x :: x in acc ==> x in s
    ensures Topped(Insert(Less, list, m), acc + [m], u)
  {
    var k :| 0 <= k <= |list| && ToppedAt(list, acc, u, k);
    var lo, hi := list[..k], list[k..];
    assert list == lo + hi;
    TopIsOrdered(u);
    if m in u {
      forall y | y in lo ensures !Less(m, y) {
        assert y in s - u && Less(y, m);
        CompareMessagesFlips(m, y);
      }
      InsertTop(lo, hi, acc, u, m);
      assert ToppedAt(Insert(Less, list, m), acc + [m], u, k);
    } else {
      forall y | y in hi ensures Less(m, y) {
        assert y in Elements(hi);
      }
      InsertBelowTop(lo, hi, acc, u, m);
      assert ToppedAt(Insert(Less, list, m), acc + [m], u, k + 1);
    }
  }

  /** Eviction from the front spares the top set. */
  lemma BackKeepsTopped(pool: seq<Message>, acc: seq<Message>, max: nat, u: set<Message>)
    requires NoRepeats(pool) && Topped(pool, acc, u) && |u| <= max
    ensures Topped(Back(max, pool), acc, u)
  {
    var k :| 0 <= k <= |pool| && ToppedAt(pool, acc, u, k);
    BackFits(pool[k..], u);
    BackIsToppedAt(pool, acc, u, k, Surplus(max, pool));
  }

  lemma BackFits(hi: seq<Message>, u: set<Message>)
    requires NoRepeats(hi) && Elements(hi) <= u
    ensures |hi| <= |u|
  {
    NoRepeatsSize(hi);
    assert u == Elements(hi) + (u - Elements(hi));
  }

  lemma BackIsToppedAt(pool: seq<Message>, acc: seq<Message>, u: set<Message>, k: nat, cut: nat)
    requires cut <= k <= |pool| && ToppedAt(pool, acc, u, k)
    ensures ToppedAt(pool[cut..], acc, u, k - cut)
  {
    var list := pool[cut..];
    assert list[k - cut..] == pool[k..] && list[..k - cut] == pool[cut..k];
    assert pool[..k] == pool[..cut] + pool[cut..k];
  }

  lemma NotYetAccepted(states: seq<LedgerState>, ops: seq<Op>, s: set<Message>, max: nat, n: nat)
    requires HonestSet(s) && InOrderRun(states, ops, s, max) && n < |ops| && TakenAt(states, ops, n)
    ensures ops[n].msg in s && ops[n].msg !in AcceptedOf(states, ops, n)
    ensures forall x :: x in AcceptedOf(states, ops, n) ==> x in s
  {
    AcceptedInEnd(states, ops, s, max);
    AcceptedGrows(states, ops, n + 1, |ops|);
    var acc, all := AcceptedOf(states, ops, n), AcceptedOf(states, ops, |ops|);
    assert acc + [ops[n].msg] <= all;
    assert all[|acc|] == ops[n].msg && forall i :: 0 <= i < |acc| ==> all[i] == acc[i];
    assert forall x :: x in all <==> x in Elements(all);
  }

  lemma CallKeepsTopped(states: seq<LedgerState>, ops: seq<Op>, s: set<Message>, max: nat, u: set<Message>, n: nat)
    requires HonestSet(s) && InOrderRun(states, ops, s, max) && StaysSmall(max, |s|) && IsTop(s, max, u) && n < |ops|
    requires Topped(states[n].messages, AcceptedOf(states, ops, n), u)
    ensures Topped(states[n + 1].messages, AcceptedOf(states, ops, n + 1), u)
  {
    AcceptedInEnd(states, ops, s, max);
    CallInserts(states, ops, n);
    if TakenAt(states, ops, n) {
      var acc, m := AcceptedOf(states, ops, n), ops[n].msg;
      NotYetAccepted(states, ops, s, max, n);
      RunKeepsInv(states, ops, n);
      ListsHaveNoRepeats(states[n], acc, 0);
      InsertKeepsTopped(states[n].messages, acc, s, max, u, m);
      InsertHasNoRepeats(states[n].messages, m);
      BackKeepsTopped(Insert(Less, states[n].messages, m), acc + [m], max, u);
    }
  }

  lemma {:induction false} RunIsTopped(states: seq<LedgerState>, ops: seq<Op>, s: set<Message>, max: nat,
                                       u: set<Message>, n: nat)
    requires HonestSet(s) && InOrderRun(states, ops, s, max) && StaysSmall(max, |s|) && IsTop(s, max, u) && n <= |ops|
    ensures Topped(states[n].messages, AcceptedOf(states, ops, n), u)
  {
    if n == 0 {
      assert ToppedAt([], [], u, 0);
    } else {
      RunIsTopped(states, ops, s, max, u, n - 1);
      CallKeepsTopped(states, ops, s, max, u, n - 1);
    }
  }

  /** Whatever the order of delivery, the top set is what is shown, in its order. */
  lemma TopIsShown(states: seq<LedgerState>, ops: seq<Op>, s: set<Message>, max: nat, u: set<Message>)
    requires HonestSet(s) && InOrderRun(states, ops, s, max) && StaysSmall(max, |s|) && IsTop(s, max, u)
    ensures Increasing(Less, states[|ops|].messages) && Arranges(states[|ops|].messages, u)
  {
    RunIsTopped(states, ops, s, max, u, |ops|);
    ShownInEnd(states, ops, s, max);
    FullTop(states[|ops|].messages, AcceptedOf(states, ops, |ops|), s, max, u);
  }

  lemma ShownInEnd(states: seq<LedgerState>, ops: seq<Op>, s: set<Message>, max: nat)
    requires HonestSet(s) && InOrderRun(states, ops, s, max)
    ensures var list := states[|ops|].messages;
      NoRepeats(list) && |list| == (if |s| <= max then |s| else max) && Elements(list) <= s
    ensures Elements(AcceptedOf(states, ops, |ops|)) == s
  {
    var acc := AcceptedOf(states, ops, |ops|);
    AcceptedInEnd(states, ops, s, max);
    RunKeepsInv(states, ops, |ops|);
    ListsHaveNoRepeats(states[|ops|], acc, 0);
    forall x | x in states[|ops|].messages ensures x in s {
      assert x in acc && x in Elements(acc);
    }
  }

  lemma FullTop(list: seq<Message>, acc: seq<Message>, s: set<Message>, max: nat, u: set<Message>)
    requires Topped(list, acc, u) && NoRepeats(list) && Elements(acc) == s && IsTop(s, max, u)
    requires |list| == if |s| <= max then |s| else max
    ensures Increasing(Less, list) && Arranges(list, u)
  {
    var k :| 0 <= k <= |list| && ToppedAt(list, acc, u, k);
    assert Elements(acc) * u == u;
    assert NoRepeats(list[k..]);
    NoRepeatsSize(list[k..]);
    assert k == 0 && list[0..] == list;
  }

  // ---- Exactly when

  lemma TopMeansOneList(s: set<Message>, max: nat, u: set<Message>)
    requires HonestSet(s) && StaysSmall(max, |s|) && IsTop(s, max, u)
    ensures OneList(s, max)
  {
    forall ones: seq<LedgerState>, one: seq<Op>, others: seq<LedgerState>, other: seq<Op>
      | InOrderRun(ones, one, s, max) && InOrderRun(others, other, s, max)
      ensures ones[|one|].messages == others[|other|].messages
    {
      TopIsShown(ones, one, s, max, u);
      TopIsShown(others, other, s, max, u);
      SameElementsSameBag(ones[|one|].messages, others[|other|].messages);
      LessIsAsymmetric(Elements(ones[|one|].messages));
      ArrangementIsUnique(Less, ones[|one|].messages, others[|other|].messages);
    }
  }

  /** Every arrangement in the senders' order is such a run, in a ledger of any size. */
  lemma ArrangementTakesEach(list: seq<Message>, s: set<Message>, max: nat) returns (states: seq<LedgerState>)
    requires HonestSet(s) && Arranges(list, s) && SendersInOrder(list) && StaysSmall(max, |s|)
    ensures InOrderRun(states, Adds(list), s, max) && TakesEach(states, list)
  {
    NoRepeatsSize(list);
    states := EveryListRuns(list, max);
    AddsInOrder(list);
    TrafficIsHonest(Adds(list), s);
    forall n | 0 <= n < |list| ensures TakenAt(states, Adds(list), n) {
      FirstOfferIsTaken(states, Adds(list), n);
    }
  }

  lemma ArrivalGuards(states: seq<LedgerState>, list: seq<Message>, x: Message, y: Message)
    requires TakesEach(states, list) && Stands(list, x, y) && !Less(y, x)
    ensures Guards(states[|list|].messages, x, y)
  {
    var i, j :| 0 <= i < j < |list| && list[i] == x && list[j] == y;
    EarlierGoesFirst(states, list, i, j, |list|);
  }

  /** One of two messages can be delivered first, unless its sender said the other one before it. */
  lemma DeliveredFirst(s: set<Message>, x: Message, y: Message) returns (list: seq<Message>)
    requires HonestSet(s) && x in s && y in s && x != y && Less(x, y)
    ensures Arranges(list, s) && SendersInOrder(list) && Stands(list, x, y)
  {
    if x.senderId == y.senderId {
      list := InClockOrder(s);
      assert x in Elements(list) && y in Elements(list);
      LessMeaning(x, y);
      CompareMeaning(x.clock, y.clock);
      PrecedesIsStrictOrder(x.clock, y.clock, x.clock);
      assert Earlier(x, y);
      EarlierStandsFirst(list, x, y);
    } else {
      var own, rest := SenderFirst(s, x.senderId);
      list := own + rest;
      PartsStand(own, rest, x, y);
    }
  }

  lemma ShownIsAbove(s: set<Message>, max: nat, shown: seq<Message>, l: Message, x: Message)
    requires HonestSet(s) && StaysSmall(max, |s|) && l in s && x in s && l !in shown && x in shown
    requires forall list: seq<Message>, states: seq<LedgerState> ::
      InOrderRun(states, Adds(list), s, max) ==> states[|list|].messages == shown
    ensures Less(l, x)
  {
    CompareMessagesFlips(l, x);
    if Less(x, l) {
      var list := DeliveredFirst(s, x, l);
      var states := ArrangementTakesEach(list, s, max);
      ArrivalGuards(states, list, x, l);
    } else {
      assert l.id != x.id;
    }
  }

  lemma ShownHasNoInversion(s: set<Message>, max: nat, shown: seq<Message>, a: Message, b: Message, c: Message)
    requires HonestSet(s) && StaysSmall(max, |s|) && NoRepeats(shown) && a in s && b in s && c in s
    requires a in shown && b in shown && c in shown
    requires forall list: seq<Message>, states: seq<LedgerState> ::
      InOrderRun(states, Adds(list), s, max) ==> states[|list|].messages == shown
    ensures !Inversion(a, b, c)
  {
    if Inversion(a, b, c) {
      AcrossIsForeign(s, a, b, c);
      var up := AcrossLast(s, a, b, c);
      var ups := ArrangementTakesEach(up, s, max);
      ArrivalGuards(ups, up, a, b);
      ArrivalGuards(ups, up, b, c);
      var down := AcrossFirst(s, a, b, c);
      var downs := ArrangementTakesEach(down, s, max);
      ArrivalGuards(downs, down, c, a);
      StandsBetween(shown, a, b, c);
    }
  }

  lemma OneListShown(s: set<Message>, max: nat, some: seq<LedgerState>, order: seq<Message>)
    requires OneList(s, max) && InOrderRun(some, Adds(order), s, max)
    ensures forall list: seq<Message>, states: seq<LedgerState> ::
      InOrderRun(states, Adds(list), s, max) ==> states[|list|].messages == some[|order|].messages
  {
  }

  lemma OneListMeansTop(s: set<Message>, max: nat) returns (u: set<Message>)
    requires HonestSet(s) && StaysSmall(max, |s|) && OneList(s, max)
    ensures IsTop(s, max, u)
  {
    var list := InClockOrder(s);
    var states := ArrangementTakesEach(list, s, max);
    var shown := states[|list|].messages;
    u := Elements(shown);
    ShownInEnd(states, Adds(list), s, max);
    NoRepeatsSize(shown);
    OneListShown(s, max, states, list);
    forall l, x | l in s - u && x in u ensures Less(l, x) {
      ShownIsAbove(s, max, shown, l, x);
    }
    forall a, b, c | a in u && b in u && c in u ensures !Inversion(a, b, c) {
      ShownHasNoInversion(s, max, shown, a, b, c);
    }
  }

  /**
   A ledger of less than twenty messages, or any ledger with no more than twenty to take, ends with
   one list, however the senders' messages interleave, exactly when there are as many messages as it
   can hold that are above all others and hold no inversion. Inversions below them do not matter.
  */
  lemma SmallIsDeterministicIff(s: set<Message>, max: nat)
    requires HonestSet(s) && StaysSmall(max, |s|)
    ensures OneList(s, max) <==> exists u :: IsTop(s, max, u)
  {
    if OneList(s, max) {
      var u := OneListMeansTop(s, max);
    }
    if u :| IsTop(s, max, u) {
      TopMeansOneList(s, max, u);
    }
  }
}
