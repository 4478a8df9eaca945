/**
 The order of messages in the ledger (CompareMessages in internal/chat/ledger.go): where it is
 transitive, and where it goes round.
*/
module MessageOrder {
  import opened Messages
  import opened Orders
  import opened VectorClocks
  import Strings

  /** The tie-break for messages neither of which causally precedes the other. */
  function CompareTie(a: Message, b: Message): int {
    if a.senderId != b.senderId then Strings.Compare(a.senderId, b.senderId)
    else if a.id != b.id then Strings.Compare(a.id, b.id)
    else if Strings.Lower(a.senderName) != Strings.Lower(b.senderName) then
      Strings.Compare(Strings.Lower(a.senderName), Strings.Lower(b.senderName))
    else Strings.Compare(a.content, b.content)
  }

  function CompareMessages(a: Message, b: Message): int {
    match Compare(a.clock, b.clock)
    case Before => -1
    case After => 1
    case _ => CompareTie(a, b)
  }

  predicate Less(a: Message, b: Message) {
    CompareMessages(a, b) < 0
  }

  predicate CausallyBefore(a: Message, b: Message) {
    Precedes(a.clock, b.clock)
  }

  predicate Tied(a: Message, b: Message) {
    !CausallyBefore(a, b) && !CausallyBefore(b, a)
  }

  predicate TieLess(a: Message, b: Message) {
    CompareTie(a, b) < 0
  }

  ghost predicate DistinctIds(s: set<Message>) {
    forall a, b :: a in s && b in s && a.id == b.id ==> a == b
  }

  lemma CompareTieFlips(a: Message, b: Message)
    ensures CompareTie(b, a) == -CompareTie(a, b)
    ensures a.id != b.id ==> CompareTie(a, b) != 0
  {
    Strings.CompareFlips(a.senderId, b.senderId);
    Strings.CompareFlips(a.id, b.id);
    Strings.CompareFlips(Strings.Lower(a.senderName), Strings.Lower(b.senderName));
    Strings.CompareFlips(a.content, b.content);
  }

  /** Swapping the arguments negates the answer; messages with different IDs are never equal. */
  lemma CompareMessagesFlips(a: Message, b: Message)
    ensures CompareMessages(b, a) == -CompareMessages(a, b)
    ensures a.id != b.id ==> Less(a, b) || Less(b, a)
  {
    PrecedesIsStrictOrder(a.clock, b.clock, a.clock);
    PrecedesIsStrictOrder(b.clock, a.clock, b.clock);
    CompareTieFlips(a, b);
  }

  lemma LessIsAsymmetric(s: set<Message>)
    ensures AsymmetricOn(Less, s)
  {
    forall a, b | a in s && b in s && Less(a, b) ensures !Less(b, a) {
      CompareMessagesFlips(a, b);
    }
  }

  lemma LessMeaning(a: Message, b: Message)
    ensures Less(a, b) <==> CausallyBefore(a, b) || (Tied(a, b) && TieLess(a, b))
  {
    PrecedesIsStrictOrder(a.clock, b.clock, a.clock);
    PrecedesIsStrictOrder(b.clock, a.clock, b.clock);
  }

  /** Dictionary order of lists of strings. */
  ghost predicate ListedBefore(a: seq<string>, b: seq<string>)
    requires |a| == |b|
  {
    exists k :: 0 <= k < |a| && a[..k] == b[..k] && Strings.Earlier(a[k], b[k])
  }

  /** The four things that decide, in the order promised: sender, ID, then name and content. */
  function Deciders(m: Message): seq<string> {
    [m.senderId, m.id, Strings.Lower(m.senderName), m.content]
  }

  lemma TieIsListed(a: Message, b: Message)
    ensures CompareTie(a, b) < 0 <==> ListedBefore(Deciders(a), Deciders(b))
  {
    var s, t := Deciders(a), Deciders(b);
    forall k | 0 <= k < 4 ensures Strings.Compare(s[k], t[k]) < 0 <==> Strings.Earlier(s[k], t[k]) {
      Strings.CompareMeaning(s[k], t[k]);
    }
    assert forall k, i :: 0 <= i < k < 4 && s[..k] == t[..k] ==> s[..k][i] == t[..k][i];
    assert forall k, i :: 0 <= i < k < 4 && s[..k] == t[..k] ==> s[i] == t[i];
    assert s[..0] == t[..0];
    assert s[0] == t[0] ==> s[..1] == t[..1];
    assert s[0] == t[0] && s[1] == t[1] ==> s[..2] == t[..2];
    assert s[0] == t[0] && s[1] == t[1] && s[2] == t[2] ==> s[..3] == t[..3];
  }

  /** The ledger's order: causality first, and among messages tied by it, by sender, ID, name and content. */
  lemma OrderMeaning(a: Message, b: Message)
    ensures CompareMessages(a, b) < 0 <==>
            CausallyBefore(a, b) || (!CausallyBefore(b, a) && ListedBefore(Deciders(a), Deciders(b)))
  {
    LessMeaning(a, b);
    TieIsListed(a, b);
  }

  lemma TieLessTransitive(a: Message, b: Message, c: Message)
    requires a.id != b.id && b.id != c.id && a.id != c.id
    requires TieLess(a, b) && TieLess(b, c)
    ensures TieLess(a, c)
  {
    if a.senderId != b.senderId && b.senderId != c.senderId {
      Strings.CompareTransitive(a.senderId, b.senderId, c.senderId);
    } else if a.senderId == b.senderId == c.senderId {
      Strings.CompareTransitive(a.id, b.id, c.id);
    }
  }

  /** `a` causally precedes `b`, but a third message tied with both falls after `b` and before `a` by sender or ID. */
  predicate Inversion(a: Message, b: Message, c: Message) {
    && CausallyBefore(a, b)
    && Tied(a, c) && Tied(b, c)
    && TieLess(b, c) && TieLess(c, a)
  }

  ghost predicate NoInversion(s: set<Message>) {
    forall a, b, c :: a in s && b in s && c in s ==> !Inversion(a, b, c)
  }

  /** Where the order goes round: `a` below `b` below `c` below `a` needs an inversion at one of the three. */
  lemma CycleHasInversion(a: Message, b: Message, c: Message)
    requires a.id != b.id && b.id != c.id && a.id != c.id
    requires Less(a, b) && Less(b, c) && Less(c, a)
    ensures Inversion(a, b, c) || Inversion(b, c, a) || Inversion(c, a, b)
  {
    LessMeaning(a, b);
    LessMeaning(b, c);
    LessMeaning(c, a);
    CompareTieFlips(a, b);
    CompareTieFlips(b, c);
    CompareTieFlips(c, a);
    PrecedesIsStrictOrder(a.clock, b.clock, c.clock);
    PrecedesIsStrictOrder(b.clock, c.clock, a.clock);
    PrecedesIsStrictOrder(c.clock, a.clock, b.clock);
    if Tied(a, b) && Tied(b, c) && Tied(c, a) {
      TieLessTransitive(a, b, c);
    }
  }

  /** The ledger's order is transitive on a set of messages exactly when the set holds no inversion. */
  lemma TransitiveIff(s: set<Message>)
    requires DistinctIds(s)
    ensures TransitiveOn(Less, s) <==> NoInversion(s)
  {
    if NoInversion(s) {
      forall a, b, c | a in s && b in s && c in s && Less(a, b) && Less(b, c) ensures Less(a, c) {
        CompareMessagesFlips(a, b);
        CompareMessagesFlips(b, c);
        CompareMessagesFlips(a, c);
        if !Less(a, c) {
          CycleHasInversion(a, b, c);
        }
      }
    } else {
      var a, b, c :| a in s && b in s && c in s && Inversion(a, b, c);
      LessMeaning(a, b);
      LessMeaning(b, c);
      LessMeaning(c, a);
      CompareMessagesFlips(a, c);
      assert !TransitiveOn(Less, s) by {
        assert Less(a, b) && Less(b, c) && !Less(a, c);
      }
    }
  }

  /** Each sender's own messages are pairwise causally ordered. */
  ghost predicate SendersAreChains(s: set<Message>) {
    forall a, b :: a in s && b in s && a != b && a.senderId == b.senderId ==>
      CausallyBefore(a, b) || CausallyBefore(b, a)
  }

  /** Messages of at most two senders, each a causal chain, are totally ordered. */
  lemma TwoSendersAreOrdered(s: set<Message>, first: string, second: string)
    requires DistinctIds(s) && SendersAreChains(s)
    requires forall m :: m in s ==> m.senderId == first || m.senderId == second
    ensures TransitiveOn(Less, s) && TotalOn(Less, s)
  {
    forall a, b, c | a in s && b in s && c in s ensures !Inversion(a, b, c) {
      PrecedesIsStrictOrder(a.clock, b.clock, a.clock);
      CompareTieFlips(a, b);
      CompareTieFlips(b, c);
      CompareTieFlips(c, a);
      Strings.CompareFlips(a.senderId, c.senderId);
    }
    TransitiveIff(s);
    forall a, b | a in s && b in s && a != b ensures Less(a, b) || Less(b, a) {
      CompareMessagesFlips(a, b);
    }
  }

  function Sample(id: string, sender: string, clock: Clock): Message {
    Message(id, sender, sender, "", [], false, clock, "", "", false)
  }

  lemma ConcurrentBySender(a: Message, b: Message)
    requires a.senderId != b.senderId
    requires At(a.clock, a.senderId) > At(b.clock, a.senderId)
    requires At(b.clock, b.senderId) > At(a.clock, b.senderId)
    ensures Compare(a.clock, b.clock) == Concurrent
    ensures CompareMessages(a, b) == Strings.Compare(a.senderId, b.senderId)
  {
    CompareMeaning(a.clock, b.clock);
  }

  lemma ThreeStrangers(a: Message, b: Message, c: Message)
    requires a.senderId != b.senderId && b.senderId != c.senderId && c.senderId != a.senderId
    requires a.id != b.id && b.id != c.id && c.id != a.id
    ensures DistinctIds({a, b, c}) && SendersAreChains({a, b, c})
  {
  }

  /**
   Two senders is the limit: any three can go round without leaving their chains. The last in
   dictionary order speaks, the first answers, and the middle one speaks concurrently.
  */
  lemma ThreeSendersCanCycle(low: string, mid: string, high: string)
    returns (opening: Message, answer: Message, aside: Message)
    requires Strings.Compare(low, mid) < 0 && Strings.Compare(mid, high) < 0
    ensures opening == Sample("1", high, map[high := 1])
    ensures answer == Sample("2", low, map[low := 1, high := 1])
    ensures aside == Sample("3", mid, map[mid := 1])
    ensures DistinctIds({opening, answer, aside}) && SendersAreChains({opening, answer, aside})
    ensures Less(opening, answer) && Less(answer, aside) && Less(aside, opening)
  {
    Strings.CompareTransitive(low, mid, high);
    opening := Sample("1", high, map[high := 1]);
    answer := Sample("2", low, map[low := 1, high := 1]);
    aside := Sample("3", mid, map[mid := 1]);
    CompareMeaning(opening.clock, answer.clock);
    assert At(opening.clock, low) < At(answer.clock, low);
    ConcurrentBySender(answer, aside);
    ConcurrentBySender(aside, opening);
    ThreeStrangers(opening, answer, aside);
  }
}
