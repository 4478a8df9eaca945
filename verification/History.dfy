/** The AI's chat history (internal/ai/orchestrator.go): appended in batches, sorted and cut each time. */
module History {
  import opened Arrangements
  import opened Batcher
  import opened Comparators
  import opened Ledger
  import opened Messages
  import opened MessageOrder
  import opened Orders
  import opened Sorting
  import Strings

  const MAX_HISTORY: nat := 30

  predicate HistoryLess(a: Message, b: Message) {
    CompareChatMessage(a, b) < 0
  }

  /** What is left of a sorted history. */
  function Cut(pool: seq<Message>): seq<Message> {
    pool[Surplus(MAX_HISTORY, pool)..]
  }

  /** One batch goes into the history. The sort is the only freedom. */
  ghost predicate Absorbs(h: seq<Message>, batch: seq<Message>, t: seq<Message>) {
    exists pool :: SliceStable(HistoryLess, h + batch, pool) && t == Cut(pool)
  }

  /** The messages of a batch that are not the persona's own. */
  function Others(msgs: seq<Message>, persona: string): seq<Message> {
    if msgs == [] then []
    else
      var front, m := Others(msgs[..|msgs| - 1], persona), msgs[|msgs| - 1];
      if m.senderName == persona then front else front + [m]
  }

  /** The filter keeps just the messages of other names, each as often as it came, in their order. */
  lemma {:induction false} OthersMeaning(msgs: seq<Message>, persona: string) returns (places: seq<nat>)
    ensures |places| == |Others(msgs, persona)|
    ensures forall k :: 0 <= k < |places| ==> places[k] < |msgs| && Others(msgs, persona)[k] == msgs[places[k]]
    ensures forall k, l :: 0 <= k < l < |places| ==> places[k] < places[l]
    ensures forall i :: 0 <= i < |msgs| ==> (i in places <==> msgs[i].senderName != persona)
  {
    places := [];
    if msgs != [] {
      var n := |msgs| - 1;
      places := OthersMeaning(msgs[..n], persona);
      if msgs[n].senderName != persona {
        places := places + [n];
      }
    }
  }

  class Orchestrator {
    var history: seq<Message>
    var persona: string
    var stopped: bool
    var newOthersMsgs: nat

    constructor (persona: string)
      ensures history == [] && this.persona == persona && !stopped && newOthersMsgs == 0
    {
      history, this.persona, stopped, newOthersMsgs := [], persona, false, 0;
    }

    method AddToHistory(msg: Message)
      modifies this`history
      ensures Absorbs(old(history), [msg], history)
    {
      history := history + [msg];
      ghost var pool := CompactHistory();
    }

    /** What Process does before it thinks about a reply. */
    method Observe(newMessages: seq<Message>) returns (filtered: seq<Message>)
      modifies this`history, this`newOthersMsgs
      ensures stopped ==> filtered == [] && history == old(history) && newOthersMsgs == old(newOthersMsgs)
      ensures !stopped ==> filtered == Others(newMessages, persona) && Absorbs(old(history), filtered, history)
      ensures !stopped ==> newOthersMsgs == old(newOthersMsgs) + |filtered|
    {
      filtered := [];
      if stopped {
        return;
      }
      for i := 0 to |newMessages|
        invariant filtered == Others(newMessages[..i], persona)
        invariant newOthersMsgs == old(newOthersMsgs) + |filtered| && history == old(history)
      {
        assert newMessages[..i + 1][..i] == newMessages[..i];
        if newMessages[i].senderName != persona {
          filtered := filtered + [newMessages[i]];
          newOthersMsgs := newOthersMsgs + 1;
        }
      }
      assert newMessages[..|newMessages|] == newMessages;
      history := history + filtered;
      ghost var pool := CompactHistory();
    }

    method CompactHistory() returns (ghost pool: seq<Message>)
      modifies this`history
      ensures SliceStable(HistoryLess, old(history), pool) && history == Cut(pool)
    {
      history := SortSlice(HistoryLess, history);
      pool := history;
      if |history| > MAX_HISTORY {
        history := history[|history| - MAX_HISTORY..];
      }
    }
  }

  // ---- Feeding a history

  /** The histories along a sequence of batches, from the empty one on. */
  ghost predicate Fed(hs: seq<seq<Message>>, batches: seq<seq<Message>>) {
    && |hs| == |batches| + 1 && hs[0] == []
    && forall i {:trigger batches[i]} :: 0 <= i < |batches| ==> Absorbs(hs[i], batches[i], hs[i + 1])
  }

  lemma HistoryLessFlips(s: set<Message>)
    ensures AsymmetricOn(HistoryLess, s)
  {
    forall a, b | a in s && b in s && HistoryLess(a, b) ensures !HistoryLess(b, a) {
      ClockPartsAgreeIff(a.clock, b.clock);
      ClockPartsAgreeIff(b.clock, a.clock);
      VectorClocksFlip(a, b);
      Strings.CompareFlips(a.senderId, b.senderId);
      Strings.CompareFlips(a.id, b.id);
      Strings.CompareFlips(Strings.Lower(a.senderName), Strings.Lower(b.senderName));
      Strings.CompareFlips(a.content, b.content);
    }
  }

  lemma VectorClocksFlip(a: Message, b: Message)
    ensures HistoryClockPart(b.clock, a.clock) == -HistoryClockPart(a.clock, b.clock)
  {
  }

  lemma FlatGrows(batches: seq<seq<Message>>, n: nat)
    requires n < |batches|
    ensures Flat(batches[..n + 1]) == Flat(batches[..n]) + batches[n]
  {
    assert batches[..n + 1][..n] == batches[..n];
  }

  /** Up to twenty messages the history is the insertion sort of all batches, one after the other. */
  lemma {:induction false} HistoryIsInsertionSort(hs: seq<seq<Message>>, batches: seq<seq<Message>>, n: nat)
    requires Fed(hs, batches) && n <= |batches| && |Flat(batches[..n])| <= 20
    ensures hs[n] == InsertionSort(HistoryLess, Flat(batches[..n]))
  {
    if n > 0 {
      var before, batch := Flat(batches[..n - 1]), batches[n - 1];
      FlatGrows(batches, n - 1);
      HistoryIsInsertionSort(hs, batches, n - 1);
      assert Absorbs(hs[n - 1], batch, hs[n - 1 + 1]);
      SortedBatch(before, batch, hs[n]);
    }
  }

  lemma SortedBatch(before: seq<Message>, batch: seq<Message>, t: seq<Message>)
    requires Absorbs(InsertionSort(HistoryLess, before), batch, t) && |before + batch| <= 20
    ensures t == InsertionSort(HistoryLess, before + batch)
  {
    HistoryLessFlips(Elements(before));
    SortIsSteady(HistoryLess, before);
    SortResumes(HistoryLess, before, batch);
  }

  // ---- The greatest thirty

  /** Different messages in a total order. */
  ghost predicate Ordered(seen: seq<Message>) {
    NoRepeats(seen) && TransitiveOn(HistoryLess, Elements(seen)) && TotalOn(HistoryLess, Elements(seen))
  }

  /** The history is in order and holds the greatest of all it was fed. */
  ghost predicate Top(h: seq<Message>, seen: seq<Message>) {
    && Increasing(HistoryLess, h) && NoRepeats(h) && (forall m :: m in h ==> m in seen)
    && |h| == (if |seen| <= 30 then |seen| else 30)
    && forall x, y :: x in seen && x !in h && y in h ==> HistoryLess(x, y)
  }

  lemma OrderedFront(seen: seq<Message>, batch: seq<Message>)
    requires Ordered(seen + batch)
    ensures Ordered(seen)
  {
    ElementsAppend(seen, batch);
    forall i, j | 0 <= i < j < |seen| ensures seen[i] != seen[j] {
      assert (seen + batch)[i] == seen[i] && (seen + batch)[j] == seen[j];
    }
  }

  lemma PoolOfBatch(h: seq<Message>, seen: seq<Message>, batch: seq<Message>, pool: seq<Message>)
    requires Top(h, seen) && Ordered(seen + batch) && SliceStable(HistoryLess, h + batch, pool)
    ensures Increasing(HistoryLess, pool) && NoRepeats(pool) && |pool| == |h| + |batch|
    ensures forall x :: x in pool <==> x in h || x in batch
  {
    var all := h + batch;
    forall i, j | 0 <= i < j < |all| ensures all[i] != all[j] {
      FreshInBatch(h, seen, batch, i, j);
    }
    ElementsAppend(h, batch);
    ElementsAppend(seen, batch);
    forall x | x in Elements(all) ensures x in Elements(seen + batch) {
      assert x in h || x in batch;
    }
    PermutationElements(all, pool);
    PermutationHasNoRepeats(all, pool);
    forall x ensures x in pool <==> x in h || x in batch {
      assert x in Elements(pool) <==> x in Elements(h) + Elements(batch);
    }
  }

  lemma FreshInBatch(h: seq<Message>, seen: seq<Message>, batch: seq<Message>, i: nat, j: nat)
    requires NoRepeats(h) && (forall m :: m in h ==> m in seen) && NoRepeats(seen + batch) && i < j < |h + batch|
    ensures (h + batch)[i] != (h + batch)[j]
  {
    var all := seen + batch;
    if i < |h| <= j {
      assert h[i] in seen;
      var k :| 0 <= k < |seen| && seen[k] == h[i];
      assert all[k] == h[i] && all[|seen| + (j - |h|)] == batch[j - |h|];
    } else if |h| <= i {
      assert all[|seen| + (i - |h|)] == batch[i - |h|] && all[|seen| + (j - |h|)] == batch[j - |h|];
    }
  }

  lemma OneIsPushedOut(h: seq<Message>, t: seq<Message>, y: Message) returns (z: Message)
    requires NoRepeats(h) && NoRepeats(t) && |h| == |t| && y in t && y !in h
    ensures z in h && z !in t
  {
    NoRepeatsSize(h);
    NoRepeatsSize(t);
    z := EqualSizeExchange(Elements(t), Elements(h), y);
  }

  lemma MissingMeansFull(h: seq<Message>, seen: seq<Message>, x: Message)
    requires Top(h, seen) && x in seen && x !in h
    ensures |h| == MAX_HISTORY
  {
    NoRepeatsSize(h);
    AtMostAsMany(seen);
    var rest := Elements(seen) - {x};
    assert Elements(h) <= rest && Elements(seen) == rest + {x};
    assert rest == Elements(h) + (rest - Elements(h));
    assert |h| < |seen|;
  }

  lemma {:induction false} AtMostAsMany(s: seq<Message>)
    ensures |Elements(s)| <= |s|
  {
    if s != [] {
      var n := |s| - 1;
      assert s == s[..n] + [s[n]];
      AtMostAsMany(s[..n]);
      assert Elements(s) == Elements(s[..n]) + {s[n]};
    }
  }

  lemma CutIsAbove(h: seq<Message>, seen: seq<Message>, batch: seq<Message>, pool: seq<Message>, x: Message, y: Message)
    requires Top(h, seen) && Ordered(seen + batch) && SliceStable(HistoryLess, h + batch, pool)
    requires x in seen + batch && x !in Cut(pool) && y in Cut(pool)
    ensures HistoryLess(x, y)
  {
    PoolOfBatch(h, seen, batch, pool);
    var t, k := Cut(pool), Surplus(MAX_HISTORY, pool);
    ElementsAppend(seen, batch);
    assert y in pool by { assert pool == pool[..k] + t; }
    assert y in Elements(seen + batch) && x in Elements(seen + batch);
    if x in pool {
      AcrossTheCut(pool, k, x, y);
    } else {
      MissingMeansFull(h, seen, x);
      if y !in h {
        BackHasNoRepeats(pool, k);
        var z := OneIsPushedOut(h, t, y);
        AcrossTheCut(pool, k, z, y);
        assert z in Elements(seen + batch);
      }
    }
  }

  lemma BackHasNoRepeats(pool: seq<Message>, k: nat)
    requires NoRepeats(pool) && k <= |pool|
    ensures NoRepeats(pool[k..])
  {
  }

  lemma AcrossTheCut(pool: seq<Message>, k: nat, x: Message, y: Message)
    requires Increasing(HistoryLess, pool) && k <= |pool| && x in pool && x !in pool[k..] && y in pool[k..]
    ensures HistoryLess(x, y)
  {
    assert forall q :: k <= q < |pool| ==> pool[q] == pool[k..][q - k];
    var i :| 0 <= i < |pool| && pool[i] == x;
    var j :| 0 <= j < |pool[k..]| && pool[k..][j] == y;
    assert pool[k + j] == y;
  }

  lemma BatchKeepsTop(h: seq<Message>, seen: seq<Message>, batch: seq<Message>, t: seq<Message>)
    requires Top(h, seen) && Ordered(seen + batch) && Absorbs(h, batch, t)
    ensures Top(t, seen + batch)
  {
    var pool :| SliceStable(HistoryLess, h + batch, pool) && t == Cut(pool);
    PoolOfBatch(h, seen, batch, pool);
    forall x, y | x in seen + batch && x !in t && y in t ensures HistoryLess(x, y) {
      CutIsAbove(h, seen, batch, pool, x, y);
    }
    forall m | m in t ensures m in seen + batch {
      assert m in pool;
    }
  }

  lemma {:induction false} FedKeepsTop(hs: seq<seq<Message>>, batches: seq<seq<Message>>, n: nat)
    requires Fed(hs, batches) && n <= |batches| && Ordered(Flat(batches[..n]))
    ensures Top(hs[n], Flat(batches[..n]))
  {
    if n > 0 {
      FlatGrows(batches, n - 1);
      OrderedFront(Flat(batches[..n - 1]), batches[n - 1]);
      FedKeepsTop(hs, batches, n - 1);
      assert Absorbs(hs[n - 1], batches[n - 1], hs[n - 1 + 1]);
      BatchKeepsTop(hs[n - 1], Flat(batches[..n - 1]), batches[n - 1], hs[n]);
    }
  }

  lemma SameTopSameHistory(h: seq<Message>, seen: seq<Message>, t: seq<Message>, other: seq<Message>)
    requires Top(h, seen) && Top(t, other) && Ordered(seen) && Ordered(other) && Elements(seen) == Elements(other)
    ensures h == t
  {
    SameElementsSameBag(seen, other);
    NoRepeatsSize(h);
    NoRepeatsSize(t);
    var all := Elements(seen);
    HistoryLessFlips(all);
    forall x, y | x in all - Elements(h) && y in Elements(h) ensures HistoryLess(x, y) {}
    forall x, y | x in all - Elements(t) && y in Elements(t) ensures HistoryLess(x, y) {
      assert x in Elements(other);
    }
    forall x | x in Elements(t) ensures x in all {
      assert x in Elements(other);
    }
    UpperSetsAgree(HistoryLess, all, Elements(h), Elements(t));
    SameElementsSameBag(h, t);
    HistoryLessFlips(Elements(h));
    ArrangementIsUnique(HistoryLess, h, t);
  }

  // ---- When the history is deterministic

  /** The messages of `s`, each once, in some order and some division into batches. */
  ghost predicate Feeds(hs: seq<seq<Message>>, batches: seq<seq<Message>>, s: set<Message>) {
    Fed(hs, batches) && Arranges(Flat(batches), s)
  }

  ghost predicate OneHistory(s: set<Message>) {
    forall ones: seq<seq<Message>>, one: seq<seq<Message>>, others: seq<seq<Message>>, other: seq<seq<Message>> ::
      Feeds(ones, one, s) && Feeds(others, other, s) ==> ones[|one|] == others[|other|]
  }

  /** On messages that passed validation the history has the ledger's order. */
  lemma HistoryOrderIff(s: set<Message>)
    requires DistinctIds(s) && forall m :: m in s ==> OwnClock(m) > 0
    ensures TotalOn(HistoryLess, s) && (TransitiveOn(HistoryLess, s) <==> NoInversion(s))
  {
    forall a, b | a in s && b in s ensures HistoryLess(a, b) <==> Less(a, b) {
      if a != b {
        HistoryFollowsLedger(a, b);
      } else {
        HistoryLessFlips({a});
        CompareMessagesFlips(a, a);
      }
    }
    forall a, b | a in s && b in s && a != b ensures HistoryLess(a, b) || HistoryLess(b, a) {
      HistoryFollowsLedger(a, b);
    }
    TransitiveIff(s);
  }

  lemma NoInversionOneHistory(s: set<Message>)
    requires DistinctIds(s) && (forall m :: m in s ==> OwnClock(m) > 0) && NoInversion(s)
    ensures OneHistory(s)
  {
    HistoryOrderIff(s);
    forall ones: seq<seq<Message>>, one: seq<seq<Message>>, others: seq<seq<Message>>, other: seq<seq<Message>>
      | Feeds(ones, one, s) && Feeds(others, other, s)
      ensures ones[|one|] == others[|other|]
    {
      assert one[..|one|] == one && other[..|other|] == other;
      FedKeepsTop(ones, one, |one|);
      FedKeepsTop(others, other, |other|);
      SameTopSameHistory(ones[|one|], Flat(one), others[|other|], Flat(other));
    }
  }

  function Singles(list: seq<Message>): (batches: seq<seq<Message>>)
    ensures |batches| == |list|
  {
    seq(|list|, i requires 0 <= i < |list| => [list[i]])
  }

  lemma {:induction false} FlatSingles(list: seq<Message>)
    ensures Flat(Singles(list)) == list
  {
    if list != [] {
      var n := |list| - 1;
      FlatSingles(list[..n]);
      assert Singles(list)[..n] == Singles(list[..n]) && list == list[..n] + [list[n]];
    }
  }

  lemma SinglesGrow(front: seq<Message>, m: Message)
    ensures Singles(front + [m]) == Singles(front) + [[m]]
  {
  }

  lemma OneMoreOrder(front: seq<Message>, m: Message, before: seq<seq<Message>>) returns (hs: seq<seq<Message>>)
    requires |front| < MAX_HISTORY && Fed(before, Singles(front))
    requires before[|front|] == InsertionSort(HistoryLess, front)
    ensures Fed(hs, Singles(front + [m])) && hs[|front| + 1] == InsertionSort(HistoryLess, front + [m])
  {
    var h := before[|front|];
    var pool := InsertionSort(HistoryLess, h + [m]);
    OneFeeds(front, m, h, pool);
    SinglesGrow(front, m);
    hs := before + [pool];
    OneMoreFed(before, Singles(front), [m], pool);
  }

  /** Fed one by one, a history with room may be just the insertion sort; up to twenty messages it is. */
  lemma {:induction false} EveryOrderFeeds(list: seq<Message>) returns (hs: seq<seq<Message>>)
    requires |list| <= MAX_HISTORY
    ensures Fed(hs, Singles(list)) && hs[|list|] == InsertionSort(HistoryLess, list)
  {
    if list == [] {
      hs := [[]];
    } else {
      var n := |list| - 1;
      var front := list[..n];
      assert list == front + [list[n]];
      hs := EveryOrderFeeds(front);
      hs := OneMoreOrder(front, list[n], hs);
    }
  }

  lemma OneMoreFed(hs: seq<seq<Message>>, batches: seq<seq<Message>>, batch: seq<Message>, t: seq<Message>)
    requires Fed(hs, batches) && Absorbs(hs[|batches|], batch, t)
    ensures Fed(hs + [t], batches + [batch])
  {
    var more, all := hs + [t], batches + [batch];
    forall i | 0 <= i < |all| ensures Absorbs(more[i], all[i], more[i + 1]) {
      if i < |batches| {
        assert all[i] == batches[i] && more[i] == hs[i] && more[i + 1] == hs[i + 1];
      }
    }
  }

  lemma OneFeeds(front: seq<Message>, m: Message, h: seq<Message>, pool: seq<Message>)
    requires h == InsertionSort(HistoryLess, front) && |front| < MAX_HISTORY
    requires pool == InsertionSort(HistoryLess, h + [m])
    ensures Absorbs(h, [m], pool) && pool == InsertionSort(HistoryLess, front + [m])
  {
    InsertionIsStable(HistoryLess, h + [m]);
    assert Cut(pool) == pool;
    HistoryLessFlips(Elements(front));
    SortIsSteady(HistoryLess, front);
    SortResumes(HistoryLess, front, [m]);
  }

  lemma OneHistoryIsDetermined(s: set<Message>)
    requires |s| <= MAX_HISTORY && OneHistory(s)
    ensures Determined(HistoryLess, s)
  {
    forall one, two | Arranges(one, s) && Arranges(two, s)
      ensures InsertionSort(HistoryLess, one) == InsertionSort(HistoryLess, two)
    {
      NoRepeatsSize(one);
      NoRepeatsSize(two);
      FlatSingles(one);
      FlatSingles(two);
      var ones := EveryOrderFeeds(one);
      var twos := EveryOrderFeeds(two);
      assert Feeds(ones, Singles(one), s) && Feeds(twos, Singles(two), s);
    }
  }

  /**
   A history with room for all messages of a set is the same for every order of arrival and every
   division into batches exactly when the set holds no inversion. Up to twenty messages every
   history is as `HistoryIsInsertionSort` says; beyond, the other one is one that the sort is free
   to give.
  */
  lemma HistoryIsDeterministicIff(s: set<Message>)
    requires DistinctIds(s) && (forall m :: m in s ==> OwnClock(m) > 0) && |s| <= MAX_HISTORY
    ensures OneHistory(s) <==> NoInversion(s)
  {
    if NoInversion(s) {
      NoInversionOneHistory(s);
    }
    if OneHistory(s) {
      OneHistoryIsDetermined(s);
      HistoryLessFlips(s);
      DeterminedIff(HistoryLess, s);
      HistoryOrderIff(s);
    }
  }
}
