/**
 The deterministic order that README.md promises (lines 141-148), for ledgers: exactly when every
 order of delivery leads to one list, and when a repair hands that list on.
*/
module LedgerOrder {
  import opened Arrangements
  import opened Ledger
  import opened LedgerInvariant
  import opened LedgerRepair
  import opened LedgerRuns
  import opened Messages
  import opened MessageOrder
  import opened Orders
  import opened Sorting
  import opened VectorClocks
  import Strings

  // ---- The list as an insertion sort

  /** The first `n` calls put what they accepted in its place by plain insertion. */
  ghost predicate Inserting(states: seq<LedgerState>, ops: seq<Op>, n: nat)
    requires |states| == |ops| + 1 && n <= |ops|
  {
    forall i {:trigger ops[i]} :: 0 <= i < n ==> Inserts(states[i], ops[i], states[i + 1])
  }

  lemma RoomMeansInsertion(s: LedgerState, op: Op, t: LedgerState)
    requires Step(s, op, t)
    requires op.Offers() && Judge(s, op.msg).Accepted? ==> |s.messages| < s.max && |s.messages| < 20
    ensures Inserts(s, op, t)
  {
  }

  lemma RefusedKeepsList(s: LedgerState, op: Op, t: LedgerState)
    requires Step(s, op, t) && !(op.Offers() && Judge(s, op.msg).Accepted?)
    ensures t.messages == s.messages
  {
  }

  lemma ListIsNoLonger(states: seq<LedgerState>, ops: seq<Op>, i: nat)
    requires Steps(states, ops) && Blank(states[0]) && i <= |ops|
    ensures |states[i].messages| <= |AcceptedOf(states, ops, i)| && |states[i].messages| <= states[i].max
    ensures states[i].max == states[0].max
  {
    StepsKeepInv(states, ops, i);
  }

  lemma TakenIsOneMore(states: seq<LedgerState>, ops: seq<Op>, i: nat, n: nat)
    requires |states| == |ops| + 1 && i < n <= |ops| && TakenAt(states, ops, i)
    ensures |AcceptedOf(states, ops, i)| < |AcceptedOf(states, ops, n)|
  {
    AcceptedGrows(states, ops, i + 1, n);
  }

  /** Up to twenty messages the ledger does nothing else. */
  lemma ShortListsInsert(states: seq<LedgerState>, ops: seq<Op>, n: nat)
    requires Steps(states, ops) && Blank(states[0]) && n <= |ops|
    requires |AcceptedOf(states, ops, n)| <= states[0].max && |AcceptedOf(states, ops, n)| <= 20
    ensures Inserting(states, ops, n)
  {
    forall i | 0 <= i < n ensures Inserts(states[i], ops[i], states[i + 1]) {
      ListIsNoLonger(states, ops, i);
      if TakenAt(states, ops, i) {
        TakenIsOneMore(states, ops, i, n);
      }
      assert StepAt(states, ops, i);
      RoomMeansInsertion(states[i], ops[i], states[i + 1]);
    }
  }

  /** Sorting a sorted list with one more message behind is one insertion. */
  lemma OneMoreInsertion(acc: seq<Message>, m: Message)
    ensures InsertionSort(Less, InsertionSort(Less, acc) + [m]) == InsertionSort(Less, acc + [m])
  {
    var list := InsertionSort(Less, acc);
    LessIsAsymmetric(Elements(acc));
    SortIsSteady(Less, acc);
    SteadyStays(Less, list);
    assert (list + [m])[..|list|] == list && (acc + [m])[..|acc|] == acc;
  }

  lemma InsertionStep(s: LedgerState, acc: seq<Message>, op: Op, t: LedgerState)
    requires Step(s, op, t) && Inserts(s, op, t) && s.messages == InsertionSort(Less, acc)
    ensures t.messages == InsertionSort(Less, Grown(acc, s, op))
  {
    if op.Offers() && Judge(s, op.msg).Accepted? {
      OneMoreInsertion(acc, op.msg);
    } else {
      RefusedKeepsList(s, op, t);
    }
  }

  lemma InsertsAt(states: seq<LedgerState>, ops: seq<Op>, n: nat, i: nat)
    requires |states| == |ops| + 1 && i < n <= |ops| && Inserting(states, ops, n)
    ensures Inserts(states[i], ops[i], states[i + 1]) && Inserting(states, ops, i)
  {
  }

  /** While nothing is evicted, the list is the insertion sort of what was accepted, in order of acceptance. */
  lemma {:induction false} ListIsInsertionSort(states: seq<LedgerState>, ops: seq<Op>, n: nat)
    requires Steps(states, ops) && Blank(states[0]) && n <= |ops| && Inserting(states, ops, n)
    ensures states[n].messages == InsertionSort(Less, AcceptedOf(states, ops, n))
  {
    if n > 0 {
      var s, acc, op := states[n - 1], AcceptedOf(states, ops, n - 1), ops[n - 1];
      ListIsInsertionSort(states, ops, n - 1);
      assert StepAt(states, ops, n - 1);
      InsertsAt(states, ops, n, n - 1);
      InsertionStep(s, acc, op, states[n]);
    }
  }

  // ---- Runs of given messages

  function Adds(list: seq<Message>): (ops: seq<Op>)
    ensures |ops| == |list|
  {
    seq(|list|, i requires 0 <= i < |list| => Add(list[i]))
  }

  lemma {:induction false} EveryListRuns(list: seq<Message>, max: nat) returns (states: seq<LedgerState>)
    requires max > 0
    ensures Run(states, Adds(list)) && states[0].max == max
    ensures |list| <= max ==> Inserting(states, Adds(list), |list|)
  {
    if list == [] {
      states := [Fresh(max)];
    } else {
      var n := |list| - 1;
      var front := list[..n];
      var before := EveryListRuns(front, max);
      var last := OfferHasOutcome(before[n], list[n]);
      states := before + [last];
      forall i | 0 <= i < |list| ensures StepAt(states, Adds(list), i) {
        if i < n {
          assert StepAt(before, Adds(front), i);
          assert Adds(front)[i] == Adds(list)[i] && states[i] == before[i] && states[i + 1] == before[i + 1];
        }
      }
      if |list| <= max {
        ListIsNoLonger(before, Adds(front), n);
        AcceptedIsOffered(before, front, n);
        InsertingGrows(before, states, list);
      }
    }
  }

  lemma AcceptedIsOffered(states: seq<LedgerState>, list: seq<Message>, n: nat)
    requires |states| == |list| + 1 && n <= |list|
    ensures |AcceptedOf(states, Adds(list), n)| <= n
  {
  }

  /** One more call on top of a run that only inserts. */
  lemma InsertingGrows(before: seq<LedgerState>, states: seq<LedgerState>, list: seq<Message>)
    requires list != [] && |before| == |list| && |states| == |list| + 1 && states[..|list|] == before
    requires Inserting(before, Adds(list[..|list| - 1]), |list| - 1)
    requires Inserts(states[|list| - 1], Add(list[|list| - 1]), states[|list|])
    ensures Inserting(states, Adds(list), |list|)
  {
    var n := |list| - 1;
    forall i | 0 <= i < |list| ensures Inserts(states[i], Adds(list)[i], states[i + 1]) {
      assert states[i] == before[i];
      if i < n {
        assert states[i + 1] == before[i + 1];
        InsertsAt(before, Adds(list[..n]), n, i);
      }
    }
  }

  // ---- Honest messages in their senders' order

  predicate Earlier(a: Message, b: Message) {
    OwnClock(a) < OwnClock(b) && CausallyBefore(a, b)
  }

  /**
   What honest senders may have sent: own IDs, positive own clocks that rise along a causal chain,
   and no link used twice.
  */
  ghost predicate HonestSet(s: set<Message>) {
    && DistinctIds(s)
    && (forall m :: m in s ==> m.id != "" && OwnClock(m) > 0 && (m.prevHash != "" ==> '|' !in m.senderId))
    && (forall a, b :: a in s && b in s && a != b && a.senderId == b.senderId ==> Earlier(a, b) || Earlier(b, a))
    && (forall a, b :: a in s && b in s && a.senderId == b.senderId && a.prevHash == b.prevHash != "" ==> a == b)
  }

  lemma SubsetIsHonest(s: set<Message>, part: set<Message>)
    requires HonestSet(s) && part <= s
    ensures HonestSet(part)
  {
  }

  lemma TrafficIsHonest(ops: seq<Op>, s: set<Message>)
    requires HonestSet(s) && Offered(ops) == s
    ensures HonestTraffic(ops)
  {
    assert forall i :: 0 <= i < |ops| && ops[i].Offers() ==> ops[i].msg in Offered(ops);
  }

  lemma {:induction false} LatestOf(s: set<Message>) returns (m: Message)
    requires s != {}
    ensures m in s && forall x :: x in s ==> OwnClock(x) <= OwnClock(m)
    decreases |s|
  {
    m :| m in s;
    if s != {m} {
      assert s == s - {m} + {m};
      var rest := LatestOf(s - {m});
      if OwnClock(rest) > OwnClock(m) {
        m := rest;
      }
    }
  }

  /** They can be arranged in their senders' order. */
  lemma {:induction false} InClockOrder(s: set<Message>) returns (list: seq<Message>)
    requires HonestSet(s)
    ensures Arranges(list, s) && SendersInOrder(list)
    decreases |s|
  {
    list := [];
    if s != {} {
      var m := LatestOf(s);
      SubsetIsHonest(s, s - {m});
      var front := InClockOrder(s - {m});
      list := front + [m];
      LatestGoesLast(s, front, m);
    }
  }

  lemma LatestGoesLast(s: set<Message>, front: seq<Message>, m: Message)
    requires HonestSet(s) && m in s && forall x :: x in s ==> OwnClock(x) <= OwnClock(m)
    requires Arranges(front, s - {m}) && SendersInOrder(front)
    ensures Arranges(front + [m], s) && SendersInOrder(front + [m])
  {
    assert Elements([m]) == {m};
    PartsArrange(front, [m], s - {m}, {m});
    assert s - {m} + {m} == s;
    forall i | 0 <= i < |front| ensures front[i].senderId == m.senderId ==> OwnClock(front[i]) < OwnClock(m) {
      assert front[i] in Elements(front);
    }
  }

  /** Parts with different senders do not disturb each other. */
  lemma PartsInOrder(x: seq<Message>, y: seq<Message>)
    requires SendersInOrder(x) && SendersInOrder(y)
    requires forall a, b :: a in x && b in y ==> a.senderId != b.senderId
    ensures SendersInOrder(x + y)
  {
    forall i, j | 0 <= i < j < |x + y|
      ensures (x + y)[i].senderId == (x + y)[j].senderId ==> OwnClock((x + y)[i]) < OwnClock((x + y)[j])
    {
      if i < |x| <= j {
        assert x[i] in x && y[j - |x|] in y;
      }
    }
  }

  /** Sender `p` first, then the others. */
  lemma SenderFirst(s: set<Message>, p: string) returns (own: seq<Message>, rest: seq<Message>)
    requires HonestSet(s)
    ensures Arranges(own + rest, s) && SendersInOrder(own + rest)
    ensures forall m :: m in s ==> if m.senderId == p then m in own else m in rest
  {
    var mine := set m | m in s && m.senderId == p;
    SubsetIsHonest(s, mine);
    SubsetIsHonest(s, s - mine);
    own := InClockOrder(mine);
    rest := InClockOrder(s - mine);
    PartsArrange(own, rest, mine, s - mine);
    assert mine + (s - mine) == s;
    assert forall m :: m in own <==> m in Elements(own);
    assert forall m :: m in rest <==> m in Elements(rest);
    PartsInOrder(own, rest);
  }

  lemma EarlierStandsFirst(list: seq<Message>, a: Message, b: Message)
    requires SendersInOrder(list) && a in list && b in list && a.senderId == b.senderId && Earlier(a, b)
    ensures Stands(list, a, b)
  {
    var i :| 0 <= i < |list| && list[i] == a;
    var j :| 0 <= j < |list| && list[j] == b;
    assert i < j || j < i;
  }

  /** The message across a causal pair comes from a third sender. */
  lemma AcrossIsForeign(s: set<Message>, a: Message, b: Message, c: Message)
    requires HonestSet(s) && a in s && b in s && c in s && Inversion(a, b, c)
    ensures c.senderId != a.senderId && c.senderId != b.senderId && (a.senderId == b.senderId ==> Earlier(a, b))
    ensures !Less(b, a) && !Less(c, b) && !Less(a, c)
  {
    LessMeaning(a, b);
    LessMeaning(b, c);
    LessMeaning(c, a);
    CompareMessagesFlips(a, b);
    CompareMessagesFlips(b, c);
    CompareMessagesFlips(c, a);
    PrecedesIsStrictOrder(a.clock, b.clock, a.clock);
  }

  /** A delivery in order with `a` before `b` before `c`. */
  lemma AcrossLast(s: set<Message>, a: Message, b: Message, c: Message) returns (list: seq<Message>)
    requires HonestSet(s) && a in s && b in s && c in s && Inversion(a, b, c)
    ensures Arranges(list, s) && SendersInOrder(list) && Stands(list, a, b) && Stands(list, b, c)
  {
    AcrossIsForeign(s, a, b, c);
    var last := set m | m in s && m.senderId == c.senderId;
    SubsetIsHonest(s, last);
    SubsetIsHonest(s, s - last);
    var tail := InClockOrder(last);
    var own, rest := SenderFirst(s - last, a.senderId);
    var head := own + rest;
    list := head + tail;
    PartsArrange(head, tail, s - last, last);
    assert s - last + last == s;
    assert forall m :: m in head <==> m in Elements(head);
    assert forall m :: m in tail <==> m in Elements(tail);
    PartsInOrder(head, tail);
    if a.senderId == b.senderId {
      EarlierStandsFirst(head, a, b);
    } else {
      PartsStand(own, rest, a, b);
    }
    PartsStand(head, tail, a, b);
    PartsStand(head, tail, b, c);
  }

  /** A delivery in order with `c` before `a`. */
  lemma AcrossFirst(s: set<Message>, a: Message, b: Message, c: Message) returns (list: seq<Message>)
    requires HonestSet(s) && a in s && b in s && c in s && Inversion(a, b, c)
    ensures Arranges(list, s) && SendersInOrder(list) && Stands(list, c, a)
  {
    AcrossIsForeign(s, a, b, c);
    var own, rest := SenderFirst(s, c.senderId);
    list := own + rest;
    PartsStand(own, rest, c, a);
  }

  // ---- When the list is deterministic

  /** A run in which just the messages of `s` are offered, each sender's in order, repeated and mixed at will. */
  ghost predicate InOrderRun(states: seq<LedgerState>, ops: seq<Op>, s: set<Message>, max: nat) {
    Run(states, ops) && InOrder(ops) && Offered(ops) == s && states[0].max == max
  }

  /** All such runs end with one list. */
  ghost predicate OneList(s: set<Message>, max: nat) {
    forall ones: seq<LedgerState>, one: seq<Op>, others: seq<LedgerState>, other: seq<Op> ::
      InOrderRun(ones, one, s, max) && InOrderRun(others, other, s, max) ==>
      ones[|one|].messages == others[|other|].messages
  }

  lemma AddsInOrder(list: seq<Message>)
    requires SendersInOrder(list)
    ensures InOrder(Adds(list)) && Offered(Adds(list)) == Elements(list)
  {
    var ops := Adds(list);
    forall m | m in list ensures m in Offered(ops) {
      var i :| 0 <= i < |list| && list[i] == m;
      assert ops[i].msg == m;
    }
  }

  /** Messages delivered once each, in their senders' order, are all taken. */
  lemma AddsAreTaken(states: seq<LedgerState>, list: seq<Message>, s: set<Message>)
    requires HonestSet(s) && Arranges(list, s) && SendersInOrder(list) && Run(states, Adds(list))
    ensures AcceptedOf(states, Adds(list), |list|) == list
  {
    var ops := Adds(list);
    AddsInOrder(list);
    TrafficIsHonest(ops, s);
    forall i | 0 <= i < |list| ensures TakenAt(states, ops, i) && ops[i].msg == list[i] {
      FirstOfferIsTaken(states, ops, i);
    }
    TakenSoFar(states, ops, list, |list|);
    assert list[..|list|] == list;
  }

  /** Every arrangement in the senders' order is a run, and the ledger ends with its insertion sort. */
  lemma ArrivalRuns(list: seq<Message>, s: set<Message>, max: nat) returns (states: seq<LedgerState>)
    requires HonestSet(s) && Arranges(list, s) && SendersInOrder(list) && |s| <= max && max > 0
    ensures InOrderRun(states, Adds(list), s, max) && states[|list|].messages == InsertionSort(Less, list)
  {
    NoRepeatsSize(list);
    states := EveryListRuns(list, max);
    AddsInOrder(list);
    AddsAreTaken(states, list, s);
    ListIsInsertionSort(states, Adds(list), |list|);
  }

  /**
   An inversion among honest messages makes two runs differ. Each message stays behind what was
   there when it came and is not above it: `c` behind `b` and `a`, or `a` behind `c`.
  */
  lemma InversionDiverges(s: set<Message>, max: nat, a: Message, b: Message, c: Message)
    returns (ones: seq<LedgerState>, one: seq<Op>, others: seq<LedgerState>, other: seq<Op>)
    requires HonestSet(s) && a in s && b in s && c in s && Inversion(a, b, c)
    requires |s| <= max
    ensures InOrderRun(ones, one, s, max) && InOrderRun(others, other, s, max)
    ensures Stands(ones[|one|].messages, a, c) && Stands(others[|other|].messages, c, a)
    ensures ones[|one|].messages != others[|other|].messages
  {
    AcrossIsForeign(s, a, b, c);
    assert s == s - {a} + {a};
    var up := AcrossLast(s, a, b, c);
    var down := AcrossFirst(s, a, b, c);
    ones := ArrivalRuns(up, s, max);
    others := ArrivalRuns(down, s, max);
    one, other := Adds(up), Adds(down);
    ArrivalOrderStays(Less, up, a, b);
    ArrivalOrderStays(Less, up, b, c);
    ArrivalOrderStays(Less, down, c, a);
    SortArranges(Less, up, s);
    StandsBetween(InsertionSort(Less, up), a, b, c);
  }

  lemma NoInversionAgrees(s: set<Message>, max: nat)
    requires HonestSet(s) && NoInversion(s)
    ensures OneList(s, max)
  {
    forall ones: seq<LedgerState>, one: seq<Op>, others: seq<LedgerState>, other: seq<Op>
      | InOrderRun(ones, one, s, max) && InOrderRun(others, other, s, max)
      ensures ones[|one|].messages == others[|other|].messages
    {
      TrafficIsHonest(one, s);
      TrafficIsHonest(other, s);
      InOrderConvergence(ones, one, others, other);
    }
  }

  /**
   Ledgers with room for all of a set of honest messages end with one list, however the senders'
   messages interleave, exactly when the set holds no inversion. Up to twenty messages every run
   sorts as `ShortListsInsert` says; beyond, the other list is one that the sort is free to give.
  */
  lemma OrderIsDeterministicIff(s: set<Message>, max: nat)
    requires HonestSet(s) && |s| <= max
    ensures OneList(s, max) <==> NoInversion(s)
  {
    if NoInversion(s) {
      NoInversionAgrees(s, max);
    } else {
      var a, b, c :| a in s && b in s && c in s && Inversion(a, b, c);
      var ones, one, others, other := InversionDiverges(s, max, a, b, c);
    }
  }

  /** For ledgers of all sizes, evicting or not, the condition is the same. */
  lemma EverySizeIsDeterministicIff(s: set<Message>)
    requires HonestSet(s)
    ensures (forall max :: OneList(s, max)) <==> NoInversion(s)
  {
    OrderIsDeterministicIff(s, |s|);
    if NoInversion(s) {
      forall max ensures OneList(s, max) {
        NoInversionAgrees(s, max);
      }
    }
  }

  /** Three first messages of three senders. */
  ghost predicate Strangers(a: Message, b: Message, c: Message) {
    && OwnClock(a) > 0 && OwnClock(b) > 0 && OwnClock(c) > 0
    && a.prevHash == "" && b.prevHash == "" && c.prevHash == "" && "" !in {a.id, b.id, c.id}
    && a.senderId != b.senderId && b.senderId != c.senderId && c.senderId != a.senderId
    && a.id != b.id && b.id != c.id && c.id != a.id
  }

  lemma StrangersAreHonest(a: Message, b: Message, c: Message)
    requires Strangers(a, b, c)
    ensures HonestSet({a, b, c})
  {
    var s := {a, b, c};
    assert forall x, y :: x in s && y in s && x != y ==> x.senderId != y.senderId && x.id != y.id;
    SingleMessagesAreHonest(s);
  }

  lemma SingleMessagesAreHonest(s: set<Message>)
    requires forall m :: m in s ==> m.id != "" && OwnClock(m) > 0 && m.prevHash == ""
    requires forall x, y :: x in s && y in s && x != y ==> x.senderId != y.senderId && x.id != y.id
    ensures HonestSet(s)
  {
  }

  lemma StrangersInOrder(a: Message, b: Message, c: Message)
    requires a.senderId != b.senderId && b.senderId != c.senderId && c.senderId != a.senderId
    ensures SendersInOrder([a, b, c]) && Arranges([a, b, c], {a, b, c})
  {
  }

  /** Three that are each below the next stay as they come. */
  lemma RisingStays(a: Message, b: Message, c: Message)
    requires Less(a, b) && Less(b, c)
    ensures InsertionSort(Less, [a, b, c]) == [a, b, c]
  {
    CompareMessagesFlips(a, b);
    CompareMessagesFlips(b, c);
    SteadyStays(Less, [a, b, c]);
  }

  /** A list of three rising strangers stays as it came. */
  lemma StrangersStay(a: Message, b: Message, c: Message, max: nat) returns (states: seq<LedgerState>)
    requires Strangers(a, b, c) && Less(a, b) && Less(b, c) && max >= 3
    ensures Run(states, Adds([a, b, c])) && states[0].max == max && states[3].messages == [a, b, c]
  {
    StrangersAreHonest(a, b, c);
    StrangersInOrder(a, b, c);
    RisingStays(a, b, c);
    states := ArrivalRuns([a, b, c], {a, b, c}, max);
  }

  lemma SamplesAreStrangers(a: Message, b: Message, c: Message)
    requires a.id == "1" && b.id == "2" && c.id == "3" && a.prevHash == b.prevHash == c.prevHash == ""
    requires OwnClock(a) == OwnClock(b) == OwnClock(c) == 1
    requires a.senderId != b.senderId && b.senderId != c.senderId && c.senderId != a.senderId
    ensures Strangers(a, b, c) && Strangers(b, c, a)
  {
  }

  lemma ThreeInTurn(a: Message, b: Message, c: Message)
    requires a.senderId != b.senderId
    ensures Elements([a, b, c]) == {a, b, c} && multiset([a, b, c]) == multiset([b, c, a]) && [a, b, c] != [b, c, a]
  {
    assert [a, b, c][0] != [b, c, a][0];
  }

  /** It happens with any three senders: two fresh ledgers, the same three honest messages, two lists. */
  lemma OrderIsNotDeterministic(low: string, mid: string, high: string)
    returns (s: seq<LedgerState>, t: seq<LedgerState>, list: seq<Message>)
    requires Strings.Compare(low, mid) < 0 && Strings.Compare(mid, high) < 0
    ensures |list| == 3 && DistinctIds(Elements(list)) && SendersAreChains(Elements(list)) && AllClocked(list)
    ensures Run(s, Adds(list)) && Run(t, Adds([list[1], list[2], list[0]]))
    ensures s[0].max == t[0].max == DEFAULT_MAX_MESSAGES
    ensures multiset(s[3].messages) == multiset(t[3].messages) == multiset(list) && s[3].messages != t[3].messages
  {
    Strings.CompareTransitive(low, mid, high);
    var a, b, c := ThreeSendersCanCycle(low, mid, high);
    SamplesAreStrangers(a, b, c);
    ThreeInTurn(a, b, c);
    list := [a, b, c];
    s := StrangersStay(a, b, c, DEFAULT_MAX_MESSAGES);
    t := StrangersStay(b, c, a, DEFAULT_MAX_MESSAGES);
  }

  // ---- The order after a repair

  /** Up to twenty messages neighbours are in order in every reachable ledger, evictions and cycles and all. */
  lemma ShortLedgersAreSteady(states: seq<LedgerState>, ops: seq<Op>, n: nat)
    requires Steps(states, ops) && Blank(states[0]) && n <= |ops|
    requires states[0].max < 20 || |AcceptedOf(states, ops, n)| <= 20
    ensures Steady(Less, states[n].messages)
    ensures Chained(AcceptedOf(states, ops, n)) ==> SendersInOrder(states[n].messages)
  {
    StepsKeepInv(states, ops, n);
    RunKeepsShort(states, ops, n);
  }

  ghost predicate IdsFixMessages(some: seq<Message>, others: seq<Message>) {
    forall a, b :: a in some && b in others && a.id == b.id ==> a == b
  }

  /** Asking with the IDs of what is held, one is sent what one lacks. */
  lemma {:induction false} WithoutIsLacking(list: seq<Message>, held: seq<Message>)
    requires IdsFixMessages(held, list)
    ensures Without(list, Ids(held)) == Lacking(list, Elements(held))
  {
    if list != [] {
      var n := |list| - 1;
      assert list == list[..n] + [list[n]];
      WithoutIsLacking(list[..n], held);
      assert list[n].id in Ids(held) <==> list[n] in Elements(held);
    }
  }

  /** What a short receiver holds after a complete repair. */
  lemma ShortRepairSorts(states: seq<LedgerState>, had: seq<Message>, list: seq<Message>)
    requires Repairs(states, had, list) && ShortInv(states[0], had) && AllTaken(states, Receives(list))
    requires |had + list| <= states[0].max && |had + list| <= 20
    ensures Steady(Less, states[0].messages)
    ensures states[|list|].messages == InsertionSort(Less, states[0].messages + list)
  {
    TakenSoFar(states, Receives(list), list, |list|);
    assert list[..|list|] == list;
    StepsExtendInv(states, Receives(list), had, |list|);
    StepsExtendShort(states, Receives(list), had, |list|);
    SortResumes(Less, had, list);
  }

  lemma ListsHaveNoRepeats(s: LedgerState, acc: seq<Message>, limit: int)
    requires ListInv(s, acc)
    ensures NoRepeats(s.messages) && NoRepeats(Recent(s, limit))
  {
  }

  /**
   A complete repair of a receiver that holds `states[0].messages`, up to twenty messages in all,
   gives it the very list exactly when what it held stands in the list's order, and each message
   it lacked is not below its neighbour there and below all that it held behind. No total order is
   needed.
  */
  lemma RepairKeepsListIff(src: LedgerState, acc: seq<Message>, known: seq<string>, states: seq<LedgerState>,
                           had: seq<Message>)
    requires Inv(src, acc) && Repairs(states, had, MissingFrom(src, known, SYNC_LIMIT)) && ShortInv(states[0], had)
    requires Known(known) == states[0].ids && IdsFixMessages(had, acc)
    requires var list := MissingFrom(src, known, SYNC_LIMIT);
      && AllTaken(states, Receives(list))
      && |had + list| <= states[0].max && |had + list| <= 20
    ensures var held, shown := states[0].messages, Recent(src, SYNC_LIMIT);
      states[|states| - 1].messages == shown <==>
      held == Only(shown, Elements(held)) && Resumes(Less, shown, Elements(held))
  {
    var held, shown, list := states[0].messages, Recent(src, SYNC_LIMIT), MissingFrom(src, known, SYNC_LIMIT);
    RecentIsHeld(src, acc, SYNC_LIMIT);
    WithoutIsLacking(shown, held);
    ShortRepairSorts(states, had, list);
    ListsHaveNoRepeats(src, acc, SYNC_LIMIT);
    ListsHaveNoRepeats(states[0], had, SYNC_LIMIT);
    if Elements(held) <= Elements(shown) {
      GrowsIntoIff(Less, held, shown);
    } else {
      StrayStays(held, shown, list);
    }
  }

  lemma StrayStays(held: seq<Message>, shown: seq<Message>, list: seq<Message>)
    requires !(Elements(held) <= Elements(shown))
    ensures InsertionSort(Less, held + list) != shown && held != Only(shown, Elements(held))
  {
    var x :| x in Elements(held) && x !in Elements(shown);
    InsertionSortIsPermutation(Less, held + list);
    PermutationElements(held + list, InsertionSort(Less, held + list));
    ElementsAppend(held, list);
    assert x in Elements(InsertionSort(Less, held + list));
  }

  /** A receiver that has accepted nothing gets the list exactly when neighbours are in order in it. */
  lemma BlankRepairKeepsListIff(src: LedgerState, acc: seq<Message>, states: seq<LedgerState>)
    requires Inv(src, acc) && AllClocked(acc) && SendersInOrder(Recent(src, SYNC_LIMIT))
    requires Steps(states, Receives(MissingFrom(src, [], SYNC_LIMIT))) && Blank(states[0])
    requires |Recent(src, SYNC_LIMIT)| <= 20 && |Recent(src, SYNC_LIMIT)| <= states[0].max
    ensures states[|states| - 1].messages == Recent(src, SYNC_LIMIT) <==> Steady(Less, Recent(src, SYNC_LIMIT))
  {
    var list := Recent(src, SYNC_LIMIT);
    BlankIsRepaired(src, acc, states);
    assert [] + list == list;
    ShortRepairSorts(states, [], list);
    LessIsAsymmetric(Elements(list));
    SortIsSteady(Less, list);
    if Steady(Less, list) {
      SteadyStays(Less, list);
    }
  }

  lemma BlankIsRepaired(src: LedgerState, acc: seq<Message>, states: seq<LedgerState>)
    requires Inv(src, acc) && AllClocked(acc) && SendersInOrder(Recent(src, SYNC_LIMIT))
    requires Steps(states, Receives(MissingFrom(src, [], SYNC_LIMIT))) && Blank(states[0])
    ensures var list := Recent(src, SYNC_LIMIT);
      && Repairs(states, [], list) && ShortInv(states[0], []) && AllTaken(states, Receives(list))
      && states[0].messages == []
  {
    AnswerToNothing(src, SYNC_LIMIT);
    BlankInv(states[0]);
    BlankRepairIsCompleteIff(src, acc, states);
  }

  /** So where a small ledger answers, such a late joiner sees what it shows, even where the order goes round. */
  lemma ShortRepairKeepsList(src: LedgerState, acc: seq<Message>, states: seq<LedgerState>)
    requires Inv(src, acc) && ShortInv(src, acc) && Small(src, acc) && Chained(acc)
    requires Steps(states, Receives(MissingFrom(src, [], SYNC_LIMIT))) && Blank(states[0])
    requires |src.messages| <= states[0].max
    ensures states[|states| - 1].messages == src.messages
  {
    assert Recent(src, SYNC_LIMIT) == src.messages;
    BlankRepairKeepsListIff(src, acc, states);
  }
}
