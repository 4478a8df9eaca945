/** Whole runs of one ledger: any sequence of calls on it, in any order. */
module LedgerRuns {
  import opened Ledger
  import opened LedgerInvariant
  import opened Messages
  import opened MessageOrder
  import opened Orders
  import opened Sorting
  import opened VectorClocks

  /** Add is a sender's own insertion; Receive is acceptMessage's, which also notes why a message is refused. */
  datatype Op =
    | Add(msg: Message)
    | Receive(msg: Message)
    | Reject(reason: string)
    | MarkRejected
    | AddRepaired(n: int)
    | SetStatus(text: string)
  {
    predicate Offers() {
      Add? || Receive?
    }
  }

  function AfterVerdict(s: LedgerState, v: Verdict): LedgerState {
    if v.Accepted? || v.Duplicate? then s else Noted(s, Reason(v))
  }

  ghost predicate Received(s: LedgerState, m: Message, t: LedgerState) {
    exists mid :: Offer(s, m, mid) && t == AfterVerdict(mid, Judge(s, m))
  }

  ghost predicate Step(s: LedgerState, op: Op, t: LedgerState) {
    match op
    case Add(m) => Offer(s, m, t)
    case Receive(m) => Received(s, m, t)
    case Reject(reason) => t == Noted(s, reason)
    case MarkRejected => t == s.(rejected := s.rejected + 1)
    case AddRepaired(n) => t == s.(repaired := s.repaired + if n <= 0 then 0 else n)
    case SetStatus(text) => t == s.(syncStatus := if text == "" then "idle" else text)
  }

  ghost predicate Steps(states: seq<LedgerState>, ops: seq<Op>) {
    |states| == |ops| + 1 && forall i :: 0 <= i < |ops| ==> StepAt(states, ops, i)
  }

  ghost predicate StepAt(states: seq<LedgerState>, ops: seq<Op>, i: nat)
    requires i < |ops| && |states| == |ops| + 1
  {
    Step(states[i], ops[i], states[i + 1])
  }

  ghost predicate Run(states: seq<LedgerState>, ops: seq<Op>) {
    Steps(states, ops) && states[0].max > 0 && states[0] == Fresh(states[0].max)
  }

  ghost predicate TakenAt(states: seq<LedgerState>, ops: seq<Op>, i: nat)
    requires i < |ops| && |states| == |ops| + 1
  {
    ops[i].Offers() && Judge(states[i], ops[i].msg).Accepted?
  }

  /** The messages accepted by the first `n` calls, in order. */
  ghost function AcceptedOf(states: seq<LedgerState>, ops: seq<Op>, n: nat): seq<Message>
    requires |states| == |ops| + 1 && n <= |ops|
  {
    if n == 0 then [] else Grown(AcceptedOf(states, ops, n - 1), states[n - 1], ops[n - 1])
  }

  function Grown(acc: seq<Message>, s: LedgerState, op: Op): seq<Message> {
    if op.Offers() && Judge(s, op.msg).Accepted? then acc + [op.msg] else acc
  }

  lemma StepKeepsInv(s: LedgerState, acc: seq<Message>, op: Op, t: LedgerState)
    requires Inv(s, acc) && Step(s, op, t)
    ensures Inv(t, Grown(acc, s, op))
    ensures t.max == s.max
  {
    match op
    case Add(m) => OfferKeepsInv(s, acc, m, t);
    case Receive(m) => ReceiveKeepsInv(s, acc, m, t);
    case _ => SameCoreKeepsInv(s, t, acc);
  }

  lemma ReceiveKeepsInv(s: LedgerState, acc: seq<Message>, m: Message, t: LedgerState)
    requires Inv(s, acc) && Received(s, m, t)
    ensures Inv(t, Extended(acc, m, Judge(s, m))) && t.max == s.max
  {
    var mid :| Offer(s, m, mid) && t == AfterVerdict(mid, Judge(s, m));
    OfferKeepsInv(s, acc, m, mid);
    SameCoreKeepsInv(mid, t, Extended(acc, m, Judge(s, m)));
  }

  lemma SameCoreKeepsInv(s: LedgerState, t: LedgerState, acc: seq<Message>)
    requires Inv(s, acc) && SameCore(s, t)
    ensures Inv(t, acc)
  {
  }

  /** A ledger that has accepted nothing yet; its status and counters may have been touched. */
  ghost predicate Blank(s: LedgerState) {
    s.max > 0 && SameCore(s, Fresh(s.max))
  }

  /** What one call keeps, whatever has been accepted, any number of calls keep. */
  lemma {:induction false} Kept(q: (LedgerState, seq<Message>) -> bool, states: seq<LedgerState>, ops: seq<Op>,
                                had: seq<Message>, n: nat)
    requires |states| == |ops| + 1 && n <= |ops| && q(states[0], had)
    requires forall i :: 0 <= i < n && q(states[i], had + AcceptedOf(states, ops, i)) ==>
      q(states[i + 1], had + AcceptedOf(states, ops, i + 1))
    ensures q(states[n], had + AcceptedOf(states, ops, n))
  {
    if n == 0 {
      assert had + [] == had;
    } else {
      Kept(q, states, ops, had, n - 1);
      assert q(states[n - 1 + 1], had + AcceptedOf(states, ops, n - 1 + 1));
    }
  }

  lemma InvNext(states: seq<LedgerState>, ops: seq<Op>, had: seq<Message>, n: nat)
    requires Steps(states, ops) && n < |ops| && Inv(states[n], had + AcceptedOf(states, ops, n))
    ensures Inv(states[n + 1], had + AcceptedOf(states, ops, n + 1)) && states[n + 1].max == states[n].max
  {
    var acc := AcceptedOf(states, ops, n);
    assert StepAt(states, ops, n);
    StepKeepsInv(states[n], had + acc, ops[n], states[n + 1]);
    GrownBehind(had, acc, states[n], ops[n]);
    SameInv(states[n + 1], Grown(had + acc, states[n], ops[n]), had + AcceptedOf(states, ops, n + 1));
  }

  /** Calls on a ledger that has accepted `had` keep the invariant, with what they accept behind. */
  lemma StepsExtendInv(states: seq<LedgerState>, ops: seq<Op>, had: seq<Message>, n: nat)
    requires Steps(states, ops) && Inv(states[0], had) && n <= |ops|
    ensures Inv(states[n], had + AcceptedOf(states, ops, n))
    ensures states[n].max == states[0].max
  {
    var q := (s, acc) => Inv(s, acc) && s.max == states[0].max;
    forall i | 0 <= i < n && q(states[i], had + AcceptedOf(states, ops, i))
      ensures q(states[i + 1], had + AcceptedOf(states, ops, i + 1))
    {
      InvNext(states, ops, had, i);
    }
    Kept(q, states, ops, had, n);
  }

  lemma SameInv(s: LedgerState, acc: seq<Message>, same: seq<Message>)
    requires Inv(s, acc) && acc == same
    ensures Inv(s, same)
  {
  }

  lemma GrownBehind(had: seq<Message>, acc: seq<Message>, s: LedgerState, op: Op)
    ensures Grown(had + acc, s, op) == had + Grown(acc, s, op)
  {
    if op.Offers() {
      assert had + acc + [op.msg] == had + (acc + [op.msg]);
    }
  }

  lemma BlankInv(s: LedgerState)
    requires Blank(s)
    ensures Inv(s, []) && ShortInv(s, [])
  {
    FreshInv(s.max);
    SameCoreKeepsInv(Fresh(s.max), s, []);
  }

  lemma StepsKeepInv(states: seq<LedgerState>, ops: seq<Op>, n: nat)
    requires Steps(states, ops) && Blank(states[0]) && n <= |ops|
    ensures Inv(states[n], AcceptedOf(states, ops, n))
    ensures states[n].max == states[0].max
  {
    BlankInv(states[0]);
    StepsExtendInv(states, ops, [], n);
    assert [] + AcceptedOf(states, ops, n) == AcceptedOf(states, ops, n);
  }

  // ---- Small ledgers

  lemma StepKeepsShort(s: LedgerState, acc: seq<Message>, op: Op, t: LedgerState)
    requires ListInv(s, acc) && ClockInv(s, acc) && ShortInv(s, acc) && Step(s, op, t)
    ensures ShortInv(t, Grown(acc, s, op))
  {
    match op
    case Add(m) => OfferKeepsShort(s, acc, m, t);
    case Receive(m) =>
      var mid :| Offer(s, m, mid) && t == AfterVerdict(mid, Judge(s, m));
      OfferKeepsShort(s, acc, m, mid);
    case _ =>
  }

  lemma ShortNext(states: seq<LedgerState>, ops: seq<Op>, had: seq<Message>, n: nat)
    requires Steps(states, ops) && Inv(states[0], had) && n < |ops|
    requires ShortInv(states[n], had + AcceptedOf(states, ops, n))
    ensures ShortInv(states[n + 1], had + AcceptedOf(states, ops, n + 1))
  {
    var acc := AcceptedOf(states, ops, n);
    StepsExtendInv(states, ops, had, n);
    assert StepAt(states, ops, n);
    StepKeepsShort(states[n], had + acc, ops[n], states[n + 1]);
    GrownBehind(had, acc, states[n], ops[n]);
  }

  /** Calls on a small ledger keep it steady and its senders in order. */
  lemma StepsExtendShort(states: seq<LedgerState>, ops: seq<Op>, had: seq<Message>, n: nat)
    requires Steps(states, ops) && Inv(states[0], had) && ShortInv(states[0], had) && n <= |ops|
    ensures ShortInv(states[n], had + AcceptedOf(states, ops, n))
  {
    var q := (s, acc) => ShortInv(s, acc);
    forall i | 0 <= i < n && q(states[i], had + AcceptedOf(states, ops, i))
      ensures q(states[i + 1], had + AcceptedOf(states, ops, i + 1))
    {
      ShortNext(states, ops, had, i);
    }
    Kept(q, states, ops, had, n);
  }

  /** Every reachable ledger satisfies the invariant. */
  lemma RunKeepsInv(states: seq<LedgerState>, ops: seq<Op>, n: nat)
    requires Run(states, ops) && n <= |ops|
    ensures Inv(states[n], AcceptedOf(states, ops, n))
    ensures states[n].max == states[0].max
  {
    StepsKeepInv(states, ops, n);
  }

  lemma RunKeepsShort(states: seq<LedgerState>, ops: seq<Op>, n: nat)
    requires Steps(states, ops) && Blank(states[0]) && n <= |ops|
    ensures ShortInv(states[n], AcceptedOf(states, ops, n))
  {
    BlankInv(states[0]);
    StepsExtendShort(states, ops, [], n);
    assert [] + AcceptedOf(states, ops, n) == AcceptedOf(states, ops, n);
  }

  // ---- Outcomes

  /** A call that accepts its message puts it in its place by plain insertion. */
  ghost predicate Inserts(s: LedgerState, op: Op, t: LedgerState) {
    op.Offers() && Judge(s, op.msg).Accepted? ==> t.messages == InsertionSort(Less, s.messages + [op.msg])
  }

  /** Offering is never stuck: a ledger always has an outcome, and with room to spare one by plain insertion. */
  lemma OfferHasOutcome(s: LedgerState, m: Message) returns (t: LedgerState)
    ensures Offer(s, m, t)
    ensures |s.messages| < s.max ==> Inserts(s, Add(m), t)
  {
    if Judge(s, m).Accepted? {
      var appended := s.messages + [m];
      var pool := InsertionSort(Less, appended);
      InsertionIsStable(Less, appended);
      t := Absorbed(s, m, pool);
    } else if Judge(s, m).Duplicate? {
      t := s.(duplicate := s.duplicate + 1);
    } else if Judge(s, m).ClockRegression? {
      t := s.(clockBack := s.clockBack + 1, lastReject := Reason(ClockRegression));
    } else if Judge(s, m).Fork? {
      t := s.(equivocation := s.equivocation + 1, lastReject := Reason(Fork));
    } else {
      t := s;
    }
  }

  // ---- Accounting

  /** Offers that carry an ID. */
  function OfferCount(ops: seq<Op>): nat {
    if ops == [] then 0
    else OfferCount(ops[..|ops| - 1]) + if ops[|ops| - 1].Offers() && ops[|ops| - 1].msg.id != "" then 1 else 0
  }

  function Counted(s: LedgerState): nat {
    s.verified + s.duplicate + s.clockBack + s.equivocation
  }

  lemma StepCounts(s: LedgerState, op: Op, t: LedgerState)
    requires Step(s, op, t)
    ensures Counted(t) == Counted(s) + if op.Offers() && op.msg.id != "" then 1 else 0
  {
    if op.Receive? {
      var mid :| Offer(s, op.msg, mid) && t == AfterVerdict(mid, Judge(s, op.msg));
    }
  }

  /** Every offer with an ID is counted once, under its verdict. */
  lemma {:induction false} EveryOfferIsCounted(states: seq<LedgerState>, ops: seq<Op>, n: nat)
    requires Run(states, ops) && n <= |ops|
    ensures Counted(states[n]) == OfferCount(ops[..n])
  {
    if n > 0 {
      EveryOfferIsCounted(states, ops, n - 1);
      assert StepAt(states, ops, n - 1);
      StepCounts(states[n - 1], ops[n - 1], states[n]);
      assert ops[..n][..n - 1] == ops[..n - 1];
    }
  }

  /** The shape of every reachable ledger. */
  lemma ReachableLedger(states: seq<LedgerState>, ops: seq<Op>, n: nat)
    requires Run(states, ops) && n <= |ops|
    ensures var s, acc := states[n], AcceptedOf(states, ops, n);
      && DifferentIds(s.messages) && s.ids == Ids(s.messages)
      && |s.messages| == (if s.verified <= s.max then s.verified else s.max) && s.verified == |acc|
      && ClockInv(s, acc) && ForkInv(s, acc)
      && Counted(s) == OfferCount(ops[..n])
  {
    RunKeepsInv(states, ops, n);
    EveryOfferIsCounted(states, ops, n);
  }

  // ---- Finality

  /**
   A message the guards refuse whatever happens to the list: its clock is spent, or its link belongs
   to another ID.
  */
  ghost predicate Barred(s: LedgerState, m: Message) {
    && OwnClock(m) > 0
    && (|| OwnClock(m) <= At(s.senderClock, m.senderId)
        || (m.prevHash != "" && ForkKey(m) in s.forks && s.forks[ForkKey(m)] != m.id))
  }

  lemma StepKeepsGuards(s: LedgerState, op: Op, t: LedgerState)
    requires Step(s, op, t)
    ensures Leq(s.senderClock, t.senderClock)
    ensures forall k :: k in s.forks ==> k in t.forks && t.forks[k] == s.forks[k]
  {
    match op
    case Add(m) => OfferKeepsGuards(s, m, t);
    case Receive(m) =>
      var mid :| Offer(s, m, mid) && t == AfterVerdict(mid, Judge(s, m));
      OfferKeepsGuards(s, m, mid);
    case _ =>
  }

  /** Over any stretch of a run, clocks only rise and no link changes its ID. */
  lemma {:induction false} GuardsOnlyGrow(states: seq<LedgerState>, ops: seq<Op>, i: nat, j: nat)
    requires Steps(states, ops) && i <= j <= |ops|
    ensures Leq(states[i].senderClock, states[j].senderClock)
    ensures forall k :: k in states[i].forks ==> k in states[j].forks && states[j].forks[k] == states[i].forks[k]
    decreases j
  {
    if i < j {
      GuardsOnlyGrow(states, ops, i, j - 1);
      assert StepAt(states, ops, j - 1);
      StepKeepsGuards(states[j - 1], ops[j - 1], states[j]);
    }
  }

  ghost predicate IdsFixSenderClock(ops: seq<Op>) {
    forall i, j :: 0 <= i < |ops| && 0 <= j < |ops| && ops[i].Offers() && ops[j].Offers()
      && ops[i].msg.id == ops[j].msg.id
      ==> ops[i].msg.senderId == ops[j].msg.senderId && OwnClock(ops[i].msg) == OwnClock(ops[j].msg)
  }

  lemma {:induction false} AcceptedWasOffered(states: seq<LedgerState>, ops: seq<Op>, n: nat, m: Message)
    returns (i: nat)
    requires |states| == |ops| + 1 && n <= |ops| && m in AcceptedOf(states, ops, n)
    ensures i < n && ops[i].Offers() && ops[i].msg == m && TakenAt(states, ops, i)
  {
    var before := AcceptedOf(states, ops, n - 1);
    if m in before {
      i := AcceptedWasOffered(states, ops, n - 1, m);
    } else {
      i := n - 1;
    }
  }

  lemma BarredStays(states: seq<LedgerState>, ops: seq<Op>, m: Message, i: nat, j: nat)
    requires Steps(states, ops) && i <= j <= |ops| && Barred(states[i], m)
    ensures Barred(states[j], m) && !Judge(states[j], m).Accepted?
  {
    GuardsOnlyGrow(states, ops, i, j);
  }

  lemma OfferBars(s: LedgerState, acc: seq<Message>, op: Op, t: LedgerState)
    requires Inv(s, acc) && op.Offers() && Step(s, op, t)
    requires op.msg.id != "" && OwnClock(op.msg) > 0
    requires forall x :: x in acc && x.id == op.msg.id ==>
      x.senderId == op.msg.senderId && OwnClock(x) == OwnClock(op.msg)
    ensures Barred(t, op.msg)
  {
    var m := op.msg;
    StepKeepsGuards(s, op, t);
    match Judge(s, m)
    case Duplicate =>
      var x :| x in s.messages && x.id == m.id;
      assert x in acc;
    case Accepted =>
      StepKeepsInv(s, acc, op, t);
      assert m in acc + [m];
    case _ =>
  }

  lemma SameIdSameClock(states: seq<LedgerState>, ops: seq<Op>, i: nat, x: Message)
    requires |states| == |ops| + 1 && i < |ops| && ops[i].Offers() && IdsFixSenderClock(ops)
    requires x in AcceptedOf(states, ops, i) && x.id == ops[i].msg.id
    ensures x.senderId == ops[i].msg.senderId && OwnClock(x) == OwnClock(ops[i].msg)
  {
    var k := AcceptedWasOffered(states, ops, i, x);
  }

  /**
   Once offered, never accepted later: not even after its ID has been evicted, and whether or
   not it was accepted the first time. IDs must determine the sender and its clock.
  */
  lemma Finality(states: seq<LedgerState>, ops: seq<Op>, i: nat, j: nat)
    requires Run(states, ops) && i < j < |ops|
    requires ops[i].Offers() && ops[j].Offers() && ops[i].msg == ops[j].msg
    requires OwnClock(ops[i].msg) > 0 && IdsFixSenderClock(ops)
    ensures !TakenAt(states, ops, j)
  {
    var m := ops[i].msg;
    var acc := AcceptedOf(states, ops, i);
    RunKeepsInv(states, ops, i);
    forall x | x in acc && x.id == m.id ensures x.senderId == m.senderId && OwnClock(x) == OwnClock(m) {
      SameIdSameClock(states, ops, i, x);
    }
    if m.id != "" {
      assert StepAt(states, ops, i);
      OfferBars(states[i], acc, ops[i], states[i + 1]);
      BarredStays(states, ops, m, i + 1, j);
    }
  }

  /** Exactly when an accepted message is accepted again: it carries no own clock and has been evicted. */
  lemma AcceptedAgainIff(states: seq<LedgerState>, ops: seq<Op>, i: nat, j: nat)
    requires Run(states, ops) && i < j <= |ops| && TakenAt(states, ops, i)
    ensures Judge(states[j], ops[i].msg).Accepted? <==> OwnClock(ops[i].msg) == 0 && ops[i].msg.id !in states[j].ids
  {
    TakenIsRecorded(states, ops, i);
    GuardsOnlyGrow(states, ops, i + 1, j);
    OnlyIdsLeft(states[i + 1], AcceptedOf(states, ops, i + 1), ops[i].msg, states[j]);
  }

  lemma TakenIsRecorded(states: seq<LedgerState>, ops: seq<Op>, i: nat)
    requires Run(states, ops) && i < |ops| && TakenAt(states, ops, i)
    ensures var s, acc := states[i + 1], AcceptedOf(states, ops, i + 1);
      ClockInv(s, acc) && ForkInv(s, acc) && ops[i].msg in acc && ops[i].msg.id != ""
  {
    RunKeepsInv(states, ops, i + 1);
    assert ops[i].msg in AcceptedOf(states, ops, i + 1);
  }

  /** Once a message is accepted, nothing but its clock and its ID can keep it out. */
  lemma OnlyIdsLeft(s: LedgerState, acc: seq<Message>, m: Message, t: LedgerState)
    requires ClockInv(s, acc) && ForkInv(s, acc) && m in acc && m.id != ""
    requires Leq(s.senderClock, t.senderClock)
      && (forall k :: k in s.forks ==> k in t.forks && t.forks[k] == s.forks[k])
    ensures Judge(t, m).Accepted? <==> OwnClock(m) == 0 && m.id !in t.ids
  {
    assert OwnClock(m) <= At(t.senderClock, m.senderId);
  }

  // ---- In-order delivery

  /** The key separates sender and link as long as senders do not contain the separator. */
  lemma ForkKeyIsInjective(a: Message, b: Message)
    requires '|' !in a.senderId && '|' !in b.senderId && ForkKey(a) == ForkKey(b)
    ensures a.senderId == b.senderId && a.prevHash == b.prevHash
  {
    var key, p, q := ForkKey(a), |a.senderId|, |b.senderId|;
    assert key[p] == '|' && key[q] == '|';
    forall i | 0 <= i < p ensures key[i] != '|' {
      assert key[i] == a.senderId[i] && a.senderId[i] in a.senderId;
    }
    forall i | 0 <= i < q ensures key[i] != '|' {
      assert key[i] == b.senderId[i] && b.senderId[i] in b.senderId;
    }
    assert key[..p] == a.senderId && key[..q] == b.senderId;
    assert key[p + 1..] == a.prevHash && key[q + 1..] == b.prevHash;
  }

  ghost predicate FirstOffer(ops: seq<Op>, n: nat)
    requires n < |ops|
  {
    ops[n].Offers() && forall i :: 0 <= i < n && ops[i].Offers() ==> ops[i].msg != ops[n].msg
  }

  /** Messages as honest senders make them: clocked, uniquely named, each link used once. */
  ghost predicate HonestTraffic(ops: seq<Op>) {
    && (forall i :: 0 <= i < |ops| && ops[i].Offers() ==>
          && ops[i].msg.id != "" && OwnClock(ops[i].msg) > 0
          && (ops[i].msg.prevHash != "" ==> '|' !in ops[i].msg.senderId))
    && (forall i, j :: 0 <= i < |ops| && 0 <= j < |ops| && ops[i].Offers() && ops[j].Offers()
          && ops[i].msg.id == ops[j].msg.id
          ==> ops[i].msg == ops[j].msg)
    && (forall i, j :: 0 <= i < |ops| && 0 <= j < |ops| && ops[i].Offers() && ops[j].Offers()
          && ops[i].msg.senderId == ops[j].msg.senderId && ops[i].msg.prevHash == ops[j].msg.prevHash != ""
          ==> ops[i].msg == ops[j].msg)
  }

  /** A message arrives for the first time only after everything its sender sent before it that arrives at all. */
  ghost predicate InOrder(ops: seq<Op>) {
    forall i, j :: 0 <= i < j < |ops| && ops[i].Offers() && FirstOffer(ops, j)
      && ops[i].msg.senderId == ops[j].msg.senderId
      ==> OwnClock(ops[i].msg) < OwnClock(ops[j].msg)
  }

  lemma FirstOfferIsNovel(states: seq<LedgerState>, ops: seq<Op>, n: nat, x: Message)
    requires |states| == |ops| + 1 && HonestTraffic(ops) && InOrder(ops) && n < |ops| && FirstOffer(ops, n)
    requires x in AcceptedOf(states, ops, n)
    ensures x.id != ops[n].msg.id && (x.senderId == ops[n].msg.senderId ==> OwnClock(x) < OwnClock(ops[n].msg))
    ensures x.prevHash != "" && ops[n].msg.prevHash != "" ==> ForkKey(x) != ForkKey(ops[n].msg)
  {
    var i := AcceptedWasOffered(states, ops, n, x);
    if x.prevHash != "" && ops[n].msg.prevHash != "" && ForkKey(x) == ForkKey(ops[n].msg) {
      ForkKeyIsInjective(x, ops[n].msg);
    }
  }

  lemma FirstOfferIsTaken(states: seq<LedgerState>, ops: seq<Op>, n: nat)
    requires Run(states, ops) && HonestTraffic(ops) && InOrder(ops) && n < |ops| && FirstOffer(ops, n)
    ensures TakenAt(states, ops, n)
  {
    var acc := AcceptedOf(states, ops, n);
    RunKeepsInv(states, ops, n);
    forall x | x in acc
      ensures x.id != ops[n].msg.id && (x.senderId == ops[n].msg.senderId ==> OwnClock(x) < OwnClock(ops[n].msg))
      ensures x.prevHash != "" && ops[n].msg.prevHash != "" ==> ForkKey(x) != ForkKey(ops[n].msg)
    {
      FirstOfferIsNovel(states, ops, n, x);
    }
    NovelIsAccepted(states[n], acc, ops[n].msg);
  }

  /**
   Delivered in each sender's order, with any duplication, interleaving and list size, every message
   is accepted exactly once.
  */
  lemma InOrderIsAcceptedOnce(states: seq<LedgerState>, ops: seq<Op>, n: nat)
    requires Run(states, ops) && HonestTraffic(ops) && InOrder(ops) && n < |ops| && ops[n].Offers()
    ensures TakenAt(states, ops, n) <==> FirstOffer(ops, n)
  {
    if FirstOffer(ops, n) {
      FirstOfferIsTaken(states, ops, n);
    } else {
      var i :| 0 <= i < n && ops[i].Offers() && ops[i].msg == ops[n].msg;
      Finality(states, ops, i, n);
    }
  }

  ghost function Offered(ops: seq<Op>): set<Message> {
    set i | 0 <= i < |ops| && ops[i].Offers() :: ops[i].msg
  }

  lemma AllOfferedAreAccepted(states: seq<LedgerState>, ops: seq<Op>)
    requires Run(states, ops) && HonestTraffic(ops) && InOrder(ops)
    ensures Elements(AcceptedOf(states, ops, |ops|)) == Offered(ops)
  {
    var acc := AcceptedOf(states, ops, |ops|);
    forall m | m in Offered(ops) ensures m in acc {
      var n := FirstIndex(ops, m);
      FirstOfferIsTaken(states, ops, n);
      AcceptedGrows(states, ops, n + 1, |ops|);
      var taken := AcceptedOf(states, ops, n + 1);
      assert taken[|taken| - 1] == m && acc[|taken| - 1] == m;
    }
    forall m | m in acc ensures m in Offered(ops) {
      var i := AcceptedWasOffered(states, ops, |ops|, m);
    }
  }

  lemma {:induction false} FirstIndex(ops: seq<Op>, m: Message) returns (n: nat)
    requires m in Offered(ops)
    ensures n < |ops| && FirstOffer(ops, n) && ops[n].msg == m
  {
    var front := ops[..|ops| - 1];
    if m in Offered(front) {
      n := FirstIndex(front, m);
      assert forall i :: 0 <= i <= n ==> front[i] == ops[i];
    } else {
      n := |ops| - 1;
      assert forall i :: 0 <= i < n && ops[i].Offers() ==> front[i] == ops[i] && ops[i].msg in Offered(front);
    }
  }

  lemma {:induction false} AcceptedGrows(states: seq<LedgerState>, ops: seq<Op>, i: nat, j: nat)
    requires |states| == |ops| + 1 && i <= j <= |ops|
    ensures AcceptedOf(states, ops, i) <= AcceptedOf(states, ops, j)
    decreases j
  {
    if i < j {
      AcceptedGrows(states, ops, i, j - 1);
    }
  }

  lemma {:induction false} TakenSoFar(states: seq<LedgerState>, ops: seq<Op>, list: seq<Message>, n: nat)
    requires |states| == |ops| + 1 && n <= |ops| == |list|
    requires forall i :: 0 <= i < n ==> TakenAt(states, ops, i) && ops[i].msg == list[i]
    ensures AcceptedOf(states, ops, n) == list[..n]
  {
    if n > 0 {
      TakenSoFar(states, ops, list, n - 1);
      assert TakenAt(states, ops, n - 1) && ops[n - 1].msg == list[n - 1];
      assert list[..n] == list[..n - 1] + [list[n - 1]];
    }
  }

  // ---- Convergence

  lemma AcceptedAreDistinct(s: LedgerState, acc: seq<Message>)
    requires Inv(s, acc) && AllClocked(acc)
    ensures NoRepeats(acc)
  {
    forall i, j | 0 <= i < j < |acc| ensures acc[i] != acc[j] {
      assert acc[j] in acc;
    }
  }

  /** Two ledgers of one size that have accepted the same orderly messages hold the same list, evictions and all. */
  lemma SameAcceptedSameList(s: LedgerState, sAcc: seq<Message>, t: LedgerState, tAcc: seq<Message>)
    requires Inv(s, sAcc) && Inv(t, tAcc) && s.max == t.max
    requires Orderly(sAcc) && Elements(sAcc) == Elements(tAcc)
    ensures s.messages == t.messages
  {
    forall m | m in tAcc ensures OwnClock(m) > 0 {
      assert m in Elements(sAcc);
    }
    AcceptedAreDistinct(s, sAcc);
    AcceptedAreDistinct(t, tAcc);
    SameElementsSameBag(sAcc, tAcc);
    NoRepeatsSize(s.messages);
    NoRepeatsSize(t.messages);
    LessIsAsymmetric(Elements(sAcc));
    var all, a, b := Elements(sAcc), Elements(s.messages), Elements(t.messages);
    forall x | x in b ensures x in all {
      assert x in tAcc;
    }
    forall x, y | x in all - b && y in b ensures Less(x, y) {
      assert x in Elements(tAcc);
    }
    UpperSetsAgree(Less, all, a, b);
    SameElementsSameBag(s.messages, t.messages);
    LessIsAsymmetric(Elements(s.messages));
    ArrangementIsUnique(Less, s.messages, t.messages);
  }

  /**
   Eventual consistency: two nodes that receive the same honest messages, each in its senders'
   order but interleaved, duplicated and evicted in any way, end with the same list, provided
   the order has no inversion on those messages.
  */
  lemma InOrderConvergence(sStates: seq<LedgerState>, sOps: seq<Op>, tStates: seq<LedgerState>, tOps: seq<Op>)
    requires Run(sStates, sOps) && HonestTraffic(sOps) && InOrder(sOps)
    requires Run(tStates, tOps) && HonestTraffic(tOps) && InOrder(tOps)
    requires sStates[0].max == tStates[0].max && Offered(sOps) == Offered(tOps) && NoInversion(Offered(sOps))
    ensures sStates[|sOps|].messages == tStates[|tOps|].messages
  {
    RunKeepsInv(sStates, sOps, |sOps|);
    RunKeepsInv(tStates, tOps, |tOps|);
    AllOfferedAreAccepted(sStates, sOps);
    AllOfferedAreAccepted(tStates, tOps);
    var acc := AcceptedOf(sStates, sOps, |sOps|);
    TransitiveIff(Offered(sOps));
    forall m | m in acc ensures OwnClock(m) > 0 {
      assert m in Offered(sOps);
    }
    SameAcceptedSameList(sStates[|sOps|], acc, tStates[|tOps|], AcceptedOf(tStates, tOps, |tOps|));
  }
}
