/**
 The three comparators of the program side by side: the ledger's, the AI history's
 (internal/ai/orchestrator.go) and the browser's (web/app.js).
*/
module Comparators {
  import opened Messages
  import opened MessageOrder
  import opened VectorClocks
  import Strings

  function Sign(o: Ordering): int {
    match o
    case Before => -1
    case After => 1
    case _ => 0
  }

  /** The AI history does not compare clocks when one of them is empty. */
  function HistoryClockPart(a: Clock, b: Clock): int {
    if a == map[] || b == map[] then 0 else Sign(Compare(a, b))
  }

  function CompareChatMessage(a: Message, b: Message): int {
    if HistoryClockPart(a.clock, b.clock) != 0 then HistoryClockPart(a.clock, b.clock)
    else if a.senderId != b.senderId then Strings.Compare(a.senderId, b.senderId)
    else if a.id != b.id then Strings.Compare(a.id, b.id)
    else if a.senderName != b.senderName then
      Strings.Compare(Strings.Lower(a.senderName), Strings.Lower(b.senderName))
    else Strings.Compare(a.content, b.content)
  }

  /** An empty clock reaches the browser as a missing field. */
  function Sent(c: Clock): Option<Clock> {
    if c == map[] then None else Some(c)
  }

  function BrowserClockPart(a: Option<Clock>, b: Option<Clock>): int {
    if a.None? || b.None? then 0 else Sign(Compare(a.value, b.value))
  }

  /** The browser's tie-break; `collate` stands for localeCompare. */
  function Collated(collate: (string, string) -> int, a: Message, b: Message): int {
    if collate(a.senderId, b.senderId) != 0 then collate(a.senderId, b.senderId)
    else if collate(a.id, b.id) != 0 then collate(a.id, b.id)
    else if collate(a.senderName, b.senderName) != 0 then collate(a.senderName, b.senderName)
    else collate(a.content, b.content)
  }

  function CompareMsg(collate: (string, string) -> int, a: Message, b: Message): int {
    var part := BrowserClockPart(Sent(a.clock), Sent(b.clock));
    if part != 0 then part else Collated(collate, a, b)
  }

  /**
   What a locale may do: signed answers that flip with the arguments, and a transitive "at most".
   Different strings may count as equal.
  */
  ghost predicate IsCollation(collate: (string, string) -> int) {
    && (forall s, t :: collate(s, t) < 0 <==> collate(t, s) > 0)
    && (forall s, t, u :: collate(s, t) <= 0 && collate(t, u) <= 0 ==> collate(s, u) <= 0)
  }

  /** Byte order is one. */
  lemma BytesCollate()
    ensures IsCollation(Strings.Compare)
  {
    forall s, t ensures Strings.Compare(s, t) < 0 <==> Strings.Compare(t, s) > 0 {
      Strings.CompareFlips(s, t);
    }
    forall s, t, u | Strings.Compare(s, t) <= 0 && Strings.Compare(t, u) <= 0 ensures Strings.Compare(s, u) <= 0 {
      if s != t && t != u {
        Strings.CompareTransitive(s, t, u);
      }
    }
  }

  /** The loop over the union of the keys. */
  method CompareVectorClock(a: Clock, b: Clock) returns (r: int)
    ensures r == HistoryClockPart(a, b)
  {
    if |a| == 0 || |b| == 0 {
      return 0;
    }
    var keys := a.Keys + b.Keys;
    var aLess, bLess := false, false;
    var todo := keys;
    while todo != {}
      invariant todo <= keys
      invariant aLess <==> exists k :: k in keys - todo && At(a, k) < At(b, k)
      invariant bLess <==> exists k :: k in keys - todo && At(b, k) < At(a, k)
      decreases todo
    {
      var k :| k in todo;
      ghost var seen := keys - todo;
      todo := todo - {k};
      assert keys - todo == seen + {k};
      if At(a, k) < At(b, k) {
        aLess := true;
      }
      if At(b, k) < At(a, k) {
        bLess := true;
      }
    }
    assert keys - todo == keys == b.Keys + a.Keys;
    if aLess && !bLess {
      return -1;
    }
    if bLess && !aLess {
      return 1;
    }
    return 0;
  }

  ghost predicate AllZero(c: Clock) {
    forall peer :: At(c, peer) == 0
  }

  /**
   Ledger and AI history agree on the clocks of two messages unless just one of them counts nothing
   and a clock is empty.
  */
  lemma ClockPartsAgreeIff(a: Clock, b: Clock)
    ensures Sign(Compare(a, b)) == HistoryClockPart(a, b) <==> (a != map[] && b != map[]) || (AllZero(a) && AllZero(b))
    ensures HistoryClockPart(a, b) == BrowserClockPart(Sent(a), Sent(b))
  {
    CompareMeaning(a, b);
  }

  /** On messages that passed validation, the AI history keeps the ledger's order. */
  lemma HistoryFollowsLedger(a: Message, b: Message)
    requires OwnClock(a) > 0 && OwnClock(b) > 0 && a.id != b.id
    ensures CompareChatMessage(a, b) == CompareMessages(a, b)
    ensures CompareChatMessage(b, a) == -CompareChatMessage(a, b) != 0
  {
    assert a.clock != map[] && b.clock != map[];
    ClockPartsAgreeIff(a.clock, b.clock);
    ClockPartsAgreeIff(b.clock, a.clock);
    CompareMessagesFlips(a, b);
  }

  /** The strings that decide a tie in the ledger: the senders, or the IDs of one sender's messages. */
  function LedgerDeciders(a: Message, b: Message): (string, string) {
    if a.senderId != b.senderId then (a.senderId, b.senderId) else (a.id, b.id)
  }

  /** Those that decide it in the browser: the first that the collation tells apart. */
  function BrowserDeciders(collate: (string, string) -> int, a: Message, b: Message): (string, string) {
    if collate(a.senderId, b.senderId) != 0 then (a.senderId, b.senderId)
    else if collate(a.id, b.id) != 0 then (a.id, b.id)
    else if collate(a.senderName, b.senderName) != 0 then (a.senderName, b.senderName)
    else (a.content, b.content)
  }

  /**
   The browser keeps the ledger's order on a pair exactly when causality decides, or when its
   collation sorts its deciding strings as byte order sorts the ledger's.
  */
  lemma BrowserFollowsLedgerIff(collate: (string, string) -> int, a: Message, b: Message)
    requires IsCollation(collate)
    requires OwnClock(a) > 0 && OwnClock(b) > 0 && a.id != b.id
    ensures (CompareMsg(collate, a, b) < 0 <==> CompareMessages(a, b) < 0) <==>
            !Tied(a, b) || (var (s, t) := BrowserDeciders(collate, a, b);
                            var (u, v) := LedgerDeciders(a, b);
                            collate(s, t) < 0 <==> Strings.Compare(u, v) < 0)
  {
    assert a.clock != map[] && b.clock != map[];
    PrecedesIsStrictOrder(a.clock, b.clock, a.clock);
    PrecedesIsStrictOrder(b.clock, a.clock, b.clock);
    CompareMessagesFlips(a, b);
  }

  /** Whatever the collation, the browser's comparator never contradicts itself. */
  lemma BrowserOrderFlips(collate: (string, string) -> int, a: Message, b: Message)
    requires IsCollation(collate)
    ensures CompareMsg(collate, a, b) < 0 <==> CompareMsg(collate, b, a) > 0
    ensures collate(a.id, b.id) != 0 ==> CompareMsg(collate, a, b) != 0
    ensures OwnClock(a) > 0 && OwnClock(b) > 0 && CausallyBefore(a, b) ==> CompareMsg(collate, a, b) < 0
  {
    PrecedesIsStrictOrder(a.clock, b.clock, a.clock);
    PrecedesIsStrictOrder(b.clock, a.clock, b.clock);
  }

  // ---- When the browser's order is transitive

  /** Causal order as the browser sees it: messages without a clock have no place in it. */
  predicate Leads(a: Message, b: Message) {
    a.clock != map[] && b.clock != map[] && CausallyBefore(a, b)
  }

  /** `a` leads `b`, but a third message lies at or above `b` and at or below `a`. */
  predicate BrowserInversion(collate: (string, string) -> int, a: Message, b: Message, c: Message) {
    Leads(a, b) && CompareMsg(collate, b, c) <= 0 && CompareMsg(collate, c, a) <= 0
  }

  ghost predicate NoBrowserInversion(collate: (string, string) -> int, s: set<Message>) {
    forall a, b, c :: a in s && b in s && c in s ==> !BrowserInversion(collate, a, b, c)
  }

  /** With a middle string, "at most" adds up, and the ends are equal only if the middle equals both. */
  lemma CollateThrough(collate: (string, string) -> int, s: string, t: string, u: string)
    requires IsCollation(collate) && collate(s, t) <= 0 && collate(t, u) <= 0
    ensures collate(s, u) <= 0 && (collate(s, u) == 0 ==> collate(s, t) == 0 && collate(t, u) == 0)
  {
    if collate(s, u) == 0 {
      assert collate(u, s) <= 0 && collate(t, s) <= 0 && collate(u, t) <= 0;
    }
  }

  lemma CollatedTransitive(collate: (string, string) -> int, a: Message, b: Message, c: Message)
    requires IsCollation(collate) && Collated(collate, a, b) <= 0 && Collated(collate, b, c) <= 0
    ensures Collated(collate, a, c) <= 0
  {
    CollateThrough(collate, a.senderId, b.senderId, c.senderId);
    if collate(a.senderId, c.senderId) == 0 {
      CollateThrough(collate, a.id, b.id, c.id);
      if collate(a.id, c.id) == 0 {
        CollateThrough(collate, a.senderName, b.senderName, c.senderName);
        if collate(a.senderName, c.senderName) == 0 {
          CollateThrough(collate, a.content, b.content, c.content);
        }
      }
    }
  }

  lemma CompareMsgMeaning(collate: (string, string) -> int, a: Message, b: Message)
    ensures CompareMsg(collate, a, b) <= 0 <==> Leads(a, b) || (!Leads(b, a) && Collated(collate, a, b) <= 0)
    ensures CompareMsg(collate, a, b) < 0 <==> Leads(a, b) || (!Leads(b, a) && Collated(collate, a, b) < 0)
    ensures !(Leads(a, b) && Leads(b, a))
  {
    PrecedesIsStrictOrder(a.clock, b.clock, a.clock);
    PrecedesIsStrictOrder(b.clock, a.clock, b.clock);
  }

  /** Without an inversion among three messages, "at most" is transitive on them. */
  lemma AtMostThrough(collate: (string, string) -> int, x: Message, y: Message, z: Message)
    requires IsCollation(collate) && CompareMsg(collate, x, y) <= 0 && CompareMsg(collate, y, z) <= 0
    requires !BrowserInversion(collate, x, y, z) && !BrowserInversion(collate, y, z, x)
    requires !BrowserInversion(collate, z, x, y)
    ensures CompareMsg(collate, x, z) <= 0
  {
    BrowserOrderFlips(collate, x, z);
    CompareMsgMeaning(collate, x, y);
    CompareMsgMeaning(collate, y, z);
    CompareMsgMeaning(collate, z, x);
    CompareMsgMeaning(collate, x, z);
    if CompareMsg(collate, x, z) > 0 {
      CollatedTransitive(collate, x, y, z);
    }
  }
}
