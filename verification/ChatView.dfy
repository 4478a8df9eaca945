/** The browser's message list (insertChat in web/app.js). */
module ChatView {
  import opened Arrangements
  import opened Comparators
  import opened Messages
  import opened MessageOrder
  import opened Orders
  import opened Sorting
  import opened VectorClocks
  import Strings

  predicate IsRepeat(list: seq<Message>, m: Message) {
    m.id != "" && exists i :: 0 <= i < |list| && list[i].id == m.id
  }

  /** `x` goes in front of `y`: the scan passes `y` by. */
  function Passes(collate: (string, string) -> int): (Message, Message) -> bool {
    (x, y) => CompareMsg(collate, y, x) > 0
  }

  function Inserted(collate: (string, string) -> int, list: seq<Message>, m: Message): seq<Message> {
    if IsRepeat(list, m) then list else Insert(Passes(collate), list, m)
  }

  /** The list after a sequence of arrivals. */
  function Shown(collate: (string, string) -> int, arrivals: seq<Message>): seq<Message> {
    if arrivals == [] then []
    else Inserted(collate, Shown(collate, arrivals[..|arrivals| - 1]), arrivals[|arrivals| - 1])
  }

  class View {
    const collate: (string, string) -> int
    var messages: seq<Message>

    constructor (collate: (string, string) -> int)
      ensures this.collate == collate && messages == []
    {
      this.collate := collate;
      messages := [];
    }

    /** Scans backwards for a message that is not above the new one, and splices behind it. */
    method InsertChat(msg: Message)
      modifies this
      ensures messages == Inserted(collate, old(messages), msg)
    {
      if msg.id != "" && exists i :: 0 <= i < |messages| && messages[i].id == msg.id {
        return;
      }
      var idx := |messages|;
      var i := |messages| - 1;
      while i >= 0
        invariant -1 <= i < |messages| && idx == i + 1
        invariant forall k :: idx <= k < |messages| ==> CompareMsg(collate, messages[k], msg) > 0
      {
        if CompareMsg(collate, messages[i], msg) <= 0 {
          idx := i + 1;
          break;
        }
        idx := i;
        i := i - 1;
      }
      InsertedAt(collate, messages, msg, idx);
      messages := messages[..idx] + [msg] + messages[idx..];
    }
  }

  /** The place found by the scan is the one `Insert` takes. */
  lemma InsertedAt(collate: (string, string) -> int, list: seq<Message>, m: Message, idx: nat)
    requires idx <= |list|
    requires idx > 0 ==> CompareMsg(collate, list[idx - 1], m) <= 0
    requires forall k :: idx <= k < |list| ==> CompareMsg(collate, list[k], m) > 0
    ensures Insert(Passes(collate), list, m) == list[..idx] + [m] + list[idx..]
  {
    var p := InsertPlace(Passes(collate), list, m);
    assert forall k :: 0 <= k < |list| ==> (Passes(collate)(m, list[k]) <==> CompareMsg(collate, list[k], m) > 0);
  }

  /** An arrival is dropped exactly when it carries an ID that is already shown; else it adds itself and no more. */
  lemma DroppedIff(collate: (string, string) -> int, list: seq<Message>, m: Message)
    ensures var shown := Inserted(collate, list, m);
      if m.id != "" && exists x :: x in list && x.id == m.id then shown == list
      else multiset(shown) == multiset(list) + multiset{m}
  {
    InsertIsPermutation(Passes(collate), list, m);
    if x :| x in list && x.id == m.id {
      var i :| 0 <= i < |list| && list[i] == x;
    }
  }

  // ---- What holds for any arrivals

  /** Neighbours are in order, although the comparator need not be transitive. */
  ghost predicate NeighboursInOrder(collate: (string, string) -> int, list: seq<Message>) {
    forall k :: 0 < k < |list| ==> CompareMsg(collate, list[k - 1], list[k]) <= 0
  }

  lemma InsertKeepsNeighbours(collate: (string, string) -> int, list: seq<Message>, m: Message)
    requires IsCollation(collate) && NeighboursInOrder(collate, list)
    ensures NeighboursInOrder(collate, Insert(Passes(collate), list, m))
  {
    var p := InsertPlace(Passes(collate), list, m);
    if p < |list| {
      assert Passes(collate)(m, list[p]);
      BrowserOrderFlips(collate, list[p], m);
    }
    if p > 0 {
      assert !Passes(collate)(m, list[p - 1]);
    }
  }

  lemma {:induction false} NeighboursStayInOrder(collate: (string, string) -> int, arrivals: seq<Message>)
    requires IsCollation(collate)
    ensures NeighboursInOrder(collate, Shown(collate, arrivals))
  {
    if arrivals != [] {
      NeighboursStayInOrder(collate, arrivals[..|arrivals| - 1]);
      InsertKeepsNeighbours(collate, Shown(collate, arrivals[..|arrivals| - 1]), arrivals[|arrivals| - 1]);
    }
  }

  /** A new message is never placed before a causal predecessor already shown. */
  lemma NeverBeforePredecessor(collate: (string, string) -> int, list: seq<Message>, m: Message) returns (p: nat)
    requires IsCollation(collate) && OwnClock(m) > 0 && forall x :: x in list ==> OwnClock(x) > 0
    ensures p <= |list| && Insert(Passes(collate), list, m) == list[..p] + [m] + list[p..]
    ensures forall i :: p <= i < |list| ==> !CausallyBefore(list[i], m)
  {
    p := InsertPlace(Passes(collate), list, m);
    forall i | p <= i < |list| ensures !CausallyBefore(list[i], m) {
      assert Passes(collate)(m, list[i]) && list[i] in list;
      BrowserOrderFlips(collate, list[i], m);
    }
  }

  lemma {:induction false} ShownComesFromArrivals(collate: (string, string) -> int, arrivals: seq<Message>)
    ensures forall m :: m in Shown(collate, arrivals) ==> m in arrivals
    ensures (forall i, j :: 0 <= i < j < |arrivals| ==> arrivals[i].id != arrivals[j].id)
            ==> multiset(Shown(collate, arrivals)) == multiset(arrivals)
  {
    if arrivals != [] {
      var front, m := arrivals[..|arrivals| - 1], arrivals[|arrivals| - 1];
      var list := Shown(collate, front);
      assert arrivals == front + [m];
      ShownComesFromArrivals(collate, front);
      var p := InsertPlace(Passes(collate), list, m);
      InsertIsPermutation(Passes(collate), list, m);
      if IsRepeat(list, m) {
        var i :| 0 <= i < |list| && list[i].id == m.id;
        assert list[i] in front;
      }
    }
  }

  /** No message stands behind one that it causally precedes. */
  ghost predicate LinearExtension(list: seq<Message>) {
    forall i, j :: 0 <= i < j < |list| ==> !CausallyBefore(list[j], list[i])
  }

  lemma InsertKeepsExtension(collate: (string, string) -> int, list: seq<Message>, m: Message)
    requires IsCollation(collate) && LinearExtension(list)
    requires OwnClock(m) > 0 && forall x :: x in list ==> OwnClock(x) > 0 && !CausallyBefore(m, x)
    ensures LinearExtension(Insert(Passes(collate), list, m))
  {
    var p := NeverBeforePredecessor(collate, list, m);
    forall i | 0 <= i < |list| ensures !CausallyBefore(m, list[i]) {
      assert list[i] in list;
    }
  }

  lemma LastLeadsNone(arrivals: seq<Message>, x: Message)
    requires LinearExtension(arrivals) && arrivals != [] && x in arrivals[..|arrivals| - 1]
    ensures x in arrivals && !CausallyBefore(arrivals[|arrivals| - 1], x)
  {
    var k :| 0 <= k < |arrivals| - 1 && arrivals[k] == x;
  }

  /** Delivered in causal order, the messages are shown in causal order, for any comparator cycles in between. */
  lemma {:induction false} CausalDeliveryIsShownCausally(collate: (string, string) -> int, arrivals: seq<Message>)
    requires IsCollation(collate) && LinearExtension(arrivals)
    requires forall m :: m in arrivals ==> OwnClock(m) > 0
    ensures LinearExtension(Shown(collate, arrivals))
  {
    if arrivals != [] {
      var front, m := arrivals[..|arrivals| - 1], arrivals[|arrivals| - 1];
      var list := Shown(collate, front);
      assert arrivals == front + [m] && m in arrivals;
      CausalDeliveryIsShownCausally(collate, front);
      ShownComesFromArrivals(collate, front);
      forall x | x in list ensures OwnClock(x) > 0 && !CausallyBefore(m, x) {
        LastLeadsNone(arrivals, x);
      }
      InsertKeepsExtension(collate, list, m);
    }
  }

  /** Out of causal order it can go wrong: the answer is shown above the message it answers. */
  lemma LateOpeningIsShownLate(collate: (string, string) -> int, low: string, mid: string, high: string)
    returns (opening: Message, answer: Message, aside: Message)
    requires IsCollation(collate) && collate(low, mid) < 0 && collate(mid, high) < 0
    requires Strings.Compare(low, mid) < 0 && Strings.Compare(mid, high) < 0
    ensures CausallyBefore(opening, answer)
    ensures Shown(collate, [answer, aside, opening]) == [answer, aside, opening]
  {
    Strings.CompareTransitive(low, mid, high);
    opening, answer, aside := ThreeSendersCanCycle(low, mid, high);
    CompareMeaning(opening.clock, answer.clock);
    assert CausallyBefore(opening, answer) by {
      assert At(opening.clock, low) < At(answer.clock, low);
    }
    ConcurrentByCollation(collate, answer, aside);
    ConcurrentByCollation(collate, aside, opening);
    ShownInArrivalOrder(collate, answer, aside, opening);
  }

  lemma ConcurrentByCollation(collate: (string, string) -> int, a: Message, b: Message)
    requires a.senderId != b.senderId && collate(a.senderId, b.senderId) < 0
    requires At(a.clock, a.senderId) > At(b.clock, a.senderId)
    requires At(b.clock, b.senderId) > At(a.clock, b.senderId)
    ensures CompareMsg(collate, a, b) < 0
  {
    ConcurrentBySender(a, b);
  }

  lemma ShownInArrivalOrder(collate: (string, string) -> int, a: Message, b: Message, c: Message)
    requires a.id != b.id && b.id != c.id && a.id != c.id
    requires CompareMsg(collate, a, b) <= 0 && CompareMsg(collate, b, c) <= 0
    ensures Shown(collate, [a, b, c]) == [a, b, c]
  {
    assert [a, b, c][..2] == [a, b] && [a, b][..1] == [a] && [a][..0] == [];
    assert Shown(collate, [a]) == [a];
    assert Shown(collate, [a, b]) == [a, b];
  }

  // ---- What arrives, and what is shown of it

  function Below(collate: (string, string) -> int): (Message, Message) -> bool {
    (x, y) => CompareMsg(collate, x, y) < 0
  }

  /**
   The messages of `s` arriving in some order, each repeated at will. A message without an ID comes
   once, since the list would not recognise it.
  */
  ghost predicate Delivers(arrivals: seq<Message>, s: set<Message>) {
    && Elements(arrivals) == s
    && forall i, j :: 0 <= i < j < |arrivals| && arrivals[i] == arrivals[j] ==> arrivals[i].id != ""
  }

  /** Arrivals without their repeats. */
  function Firsts(arrivals: seq<Message>): seq<Message> {
    if arrivals == [] then []
    else
      var front, m := arrivals[..|arrivals| - 1], arrivals[|arrivals| - 1];
      if m in front then Firsts(front) else Firsts(front) + [m]
  }

  lemma {:induction false} PassesIsBelow(collate: (string, string) -> int, list: seq<Message>, m: Message)
    requires IsCollation(collate)
    ensures Insert(Passes(collate), list, m) == Insert(Below(collate), list, m)
  {
    if list != [] {
      BrowserOrderFlips(collate, list[|list| - 1], m);
      assert Passes(collate)(m, list[|list| - 1]) == Below(collate)(m, list[|list| - 1]);
      PassesIsBelow(collate, list[..|list| - 1], m);
    }
  }

  lemma {:induction false} FirstsArrange(arrivals: seq<Message>)
    ensures Arranges(Firsts(arrivals), Elements(arrivals))
  {
    if arrivals != [] {
      var front, m := arrivals[..|arrivals| - 1], arrivals[|arrivals| - 1];
      assert arrivals == front + [m];
      FirstsArrange(front);
      ElementsAppend(front, [m]);
      ElementsAppend(Firsts(front), [m]);
      assert m in Firsts(front) <==> m in Elements(Firsts(front));
    }
  }

  lemma {:induction false} FirstsOfArrangement(list: seq<Message>)
    requires NoRepeats(list)
    ensures Firsts(list) == list
  {
    if list != [] {
      FirstsOfArrangement(list[..|list| - 1]);
    }
  }

  /** A message is dropped as a repeat exactly when it came before. */
  lemma RepeatMeansSeen(list: seq<Message>, front: seq<Message>, m: Message)
    requires Elements(list) == Elements(front) && DistinctIds(Elements(front + [m]))
    requires m in front ==> m.id != ""
    ensures IsRepeat(list, m) <==> m in front
  {
    ElementsAppend(front, [m]);
    assert m in Elements([m]);
    if IsRepeat(list, m) {
      var i :| 0 <= i < |list| && list[i].id == m.id;
      assert list[i] in Elements(list);
    }
    if m in front {
      assert m in Elements(list);
    }
  }

  /** The list shown is the insertion sort of the first arrivals. */
  lemma {:induction false} ShownIsSorted(collate: (string, string) -> int, arrivals: seq<Message>, s: set<Message>)
    requires IsCollation(collate) && DistinctIds(s) && Delivers(arrivals, s)
    ensures Shown(collate, arrivals) == InsertionSort(Below(collate), Firsts(arrivals))
    ensures Arranges(Shown(collate, arrivals), s)
  {
    FirstsArrange(arrivals);
    SortArranges(Below(collate), Firsts(arrivals), s);
    if arrivals != [] {
      var front, m := arrivals[..|arrivals| - 1], arrivals[|arrivals| - 1];
      assert arrivals == front + [m];
      ElementsAppend(front, [m]);
      ShownIsSorted(collate, front, Elements(front));
      RepeatMeansSeen(Shown(collate, front), front, m);
      PassesIsBelow(collate, Shown(collate, front), m);
    }
  }

  lemma ShownArrangement(collate: (string, string) -> int, list: seq<Message>, s: set<Message>)
    requires IsCollation(collate) && DistinctIds(s) && Arranges(list, s)
    ensures Delivers(list, s) && Shown(collate, list) == InsertionSort(Below(collate), list)
  {
    FirstsOfArrangement(list);
    ShownIsSorted(collate, list, s);
  }

  // ---- When the list is deterministic

  lemma BelowIsAsymmetric(collate: (string, string) -> int, s: set<Message>)
    requires IsCollation(collate)
    ensures AsymmetricOn(Below(collate), s)
  {
    forall x, y | x in s && y in s && Below(collate)(x, y) ensures !Below(collate)(y, x) {
      BrowserOrderFlips(collate, x, y);
    }
  }

  /** Whatever the order of arrival, one list. */
  ghost predicate OneList(collate: (string, string) -> int, s: set<Message>) {
    forall one, two :: Delivers(one, s) && Delivers(two, s) ==> Shown(collate, one) == Shown(collate, two)
  }

  lemma OneListMeaning(collate: (string, string) -> int, s: set<Message>)
    requires IsCollation(collate) && DistinctIds(s)
    ensures OneList(collate, s) <==> Determined(Below(collate), s)
  {
    if Determined(Below(collate), s) {
      forall one, two | Delivers(one, s) && Delivers(two, s) ensures Shown(collate, one) == Shown(collate, two) {
        ShownIsSorted(collate, one, s);
        ShownIsSorted(collate, two, s);
        FirstsArrange(one);
        FirstsArrange(two);
      }
    }
    if OneList(collate, s) {
      forall one, two | Arranges(one, s) && Arranges(two, s)
        ensures InsertionSort(Below(collate), one) == InsertionSort(Below(collate), two)
      {
        ShownArrangement(collate, one, s);
        ShownArrangement(collate, two, s);
      }
    }
  }

  lemma OrderedMeansNoInversion(collate: (string, string) -> int, s: set<Message>)
    requires IsCollation(collate) && TransitiveOn(Below(collate), s) && TotalOn(Below(collate), s)
    ensures NoBrowserInversion(collate, s)
  {
    forall a, b, c | a in s && b in s && c in s ensures !BrowserInversion(collate, a, b, c) {
      CompareMsgMeaning(collate, a, b);
      BrowserOrderFlips(collate, a, b);
      BrowserOrderFlips(collate, b, c);
      BrowserOrderFlips(collate, c, a);
      assert Below(collate)(a, b) && Below(collate)(b, c) ==> Below(collate)(a, c);
    }
  }

  lemma NoInversionMeansOrdered(collate: (string, string) -> int, s: set<Message>)
    requires IsCollation(collate) && NoBrowserInversion(collate, s) && TotalOn(Below(collate), s)
    ensures TransitiveOn(Below(collate), s)
  {
    forall x, y, z | x in s && y in s && z in s && Below(collate)(x, y) && Below(collate)(y, z)
      ensures Below(collate)(x, z)
    {
      AtMostThrough(collate, x, y, z);
      BrowserOrderFlips(collate, x, y);
      BrowserOrderFlips(collate, x, z);
    }
  }

  /**
   The browser's list is deterministic on a set of messages exactly when the collation tells its
   messages apart and no message lies across a causal pair.
  */
  lemma ListIsDeterministicIff(collate: (string, string) -> int, s: set<Message>)
    requires IsCollation(collate) && DistinctIds(s)
    ensures OneList(collate, s) <==> TotalOn(Below(collate), s) && NoBrowserInversion(collate, s)
  {
    OneListMeaning(collate, s);
    BelowIsAsymmetric(collate, s);
    DeterminedIff(Below(collate), s);
    if TotalOn(Below(collate), s) && TransitiveOn(Below(collate), s) {
      OrderedMeansNoInversion(collate, s);
    }
    if TotalOn(Below(collate), s) && NoBrowserInversion(collate, s) {
      NoInversionMeansOrdered(collate, s);
    }
  }

  // ---- When causes are shown above effects

  /** Whatever the order of arrival, no message stands behind one that it causally precedes. */
  ghost predicate AlwaysCausal(collate: (string, string) -> int, s: set<Message>) {
    forall arrivals :: Delivers(arrivals, s) ==> LinearExtension(Shown(collate, arrivals))
  }

  lemma {:induction false} NeighboursReach(collate: (string, string) -> int, list: seq<Message>, i: nat, j: nat)
    requires IsCollation(collate) && NoBrowserInversion(collate, Elements(list))
    requires NeighboursInOrder(collate, list) && i < j < |list|
    ensures CompareMsg(collate, list[i], list[j]) <= 0
    decreases j
  {
    if i < j - 1 {
      NeighboursReach(collate, list, i, j - 1);
      assert list[i] in Elements(list) && list[j - 1] in Elements(list) && list[j] in Elements(list);
      AtMostThrough(collate, list[i], list[j - 1], list[j]);
    }
  }

  lemma NoInversionShowsCausally(collate: (string, string) -> int, arrivals: seq<Message>, s: set<Message>)
    requires IsCollation(collate) && DistinctIds(s) && NoBrowserInversion(collate, s) && Delivers(arrivals, s)
    requires forall m :: m in s ==> OwnClock(m) > 0
    ensures LinearExtension(Shown(collate, arrivals))
  {
    var list := Shown(collate, arrivals);
    ShownIsSorted(collate, arrivals, s);
    NeighboursStayInOrder(collate, arrivals);
    forall i, j | 0 <= i < j < |list| ensures !CausallyBefore(list[j], list[i]) {
      assert list[i] in Elements(list) && list[j] in Elements(list);
      NeighboursReach(collate, list, i, j);
      BrowserOrderFlips(collate, list[j], list[i]);
    }
  }

  /** The effect first, then the message across, then the cause: they stay that way. */
  lemma InversionShowsBackwards(collate: (string, string) -> int, s: set<Message>, a: Message, b: Message,
                                c: Message)
    returns (arrivals: seq<Message>)
    requires IsCollation(collate) && DistinctIds(s) && a in s && b in s && c in s
    requires BrowserInversion(collate, a, b, c)
    ensures Delivers(arrivals, s) && Stands(Shown(collate, arrivals), b, a)
  {
    CompareMsgMeaning(collate, a, b);
    BrowserOrderFlips(collate, a, b);
    BrowserOrderFlips(collate, b, c);
    BrowserOrderFlips(collate, c, a);
    arrivals := Complete([b, c, a], s);
    assert arrivals[0] == b && arrivals[1] == c && arrivals[2] == a;
    LaterStandsBehind(Below(collate), arrivals, 0, 1);
    LaterStandsBehind(Below(collate), arrivals, 1, 2);
    ShownArrangement(collate, arrivals, s);
    SortArranges(Below(collate), arrivals, s);
    StandsBetween(Shown(collate, arrivals), b, c, a);
  }

  /** The browser shows causes above effects, however they arrive, exactly when no message lies across a causal pair. */
  lemma ListIsCausalIff(collate: (string, string) -> int, s: set<Message>)
    requires IsCollation(collate) && DistinctIds(s)
    requires forall m :: m in s ==> OwnClock(m) > 0
    ensures AlwaysCausal(collate, s) <==> NoBrowserInversion(collate, s)
  {
    if NoBrowserInversion(collate, s) {
      forall arrivals | Delivers(arrivals, s) ensures LinearExtension(Shown(collate, arrivals)) {
        NoInversionShowsCausally(collate, arrivals, s);
      }
    } else {
      var a, b, c :| a in s && b in s && c in s && BrowserInversion(collate, a, b, c);
      var arrivals := InversionShowsBackwards(collate, s, a, b, c);
      assert !LinearExtension(Shown(collate, arrivals));
    }
  }

  lemma ToldApartIsTotal(collate: (string, string) -> int, s: set<Message>)
    requires IsCollation(collate) && forall a, b :: a in s && b in s && a != b ==> collate(a.id, b.id) != 0
    ensures TotalOn(Below(collate), s)
  {
    forall a, b | a in s && b in s && a != b ensures Below(collate)(a, b) || Below(collate)(b, a) {
      BrowserOrderFlips(collate, a, b);
    }
  }

  /** Where the collation tells all messages apart, the list is deterministic exactly when it is always causal. */
  lemma DeterministicIffCausal(collate: (string, string) -> int, s: set<Message>)
    requires IsCollation(collate) && DistinctIds(s)
    requires forall m :: m in s ==> OwnClock(m) > 0
    requires forall a, b :: a in s && b in s && a != b ==> collate(a.id, b.id) != 0
    ensures OneList(collate, s) <==> AlwaysCausal(collate, s)
  {
    ToldApartIsTotal(collate, s);
    ListIsDeterministicIff(collate, s);
    ListIsCausalIff(collate, s);
  }
}
