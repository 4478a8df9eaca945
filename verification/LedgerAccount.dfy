/** What the counters and reasons of a ledger mean, told from the calls and the states alone. */
module LedgerAccount {
  import opened Ledger
  import opened LedgerInvariant
  import opened LedgerRuns
  import opened Messages
  import opened VectorClocks

  /** The call that raised the count of accepted messages. */
  ghost predicate Accepts(states: seq<LedgerState>, ops: seq<Op>, i: nat)
    requires i < |ops| && |states| == |ops| + 1
  {
    ops[i].Offers() && states[i + 1].verified > states[i].verified
  }

  ghost predicate Named(ops: seq<Op>, i: nat)
    requires i < |ops|
  {
    ops[i].Offers() && ops[i].msg.id != ""
  }

  /** The ID is held at the time. */
  ghost predicate Held(states: seq<LedgerState>, ops: seq<Op>, i: nat)
    requires i < |ops| && |states| == |ops| + 1
  {
    Named(ops, i) && ops[i].msg.id in states[i].ids
  }

  /** The ID is not held, and a message as late of this sender has been accepted. */
  ghost predicate Late(states: seq<LedgerState>, ops: seq<Op>, i: nat)
    requires i < |ops| && |states| == |ops| + 1
  {
    && Named(ops, i) && ops[i].msg.id !in states[i].ids && OwnClock(ops[i].msg) > 0
    && exists j :: 0 <= j < i && Accepts(states, ops, j) && ops[j].msg.senderId == ops[i].msg.senderId
         && OwnClock(ops[j].msg) >= OwnClock(ops[i].msg)
  }

  /** Neither, but another message with this sender and previous hash has been accepted. */
  ghost predicate Forked(states: seq<LedgerState>, ops: seq<Op>, i: nat)
    requires i < |ops| && |states| == |ops| + 1
  {
    && Named(ops, i) && ops[i].msg.id !in states[i].ids && !Late(states, ops, i) && ops[i].msg.prevHash != ""
    && exists j :: 0 <= j < i && Accepts(states, ops, j) && ops[j].msg.prevHash != "" && ops[j].msg.id != ops[i].msg.id
         && ops[j].msg.senderId + "|" + ops[j].msg.prevHash == ops[i].msg.senderId + "|" + ops[i].msg.prevHash
  }

  ghost predicate New(states: seq<LedgerState>, ops: seq<Op>, i: nat)
    requires i < |ops| && |states| == |ops| + 1
  {
    Named(ops, i) && !Held(states, ops, i) && !Late(states, ops, i) && !Forked(states, ops, i)
  }

  // ---- The verdicts

  lemma OfferVerified(s: LedgerState, m: Message, t: LedgerState)
    requires Offer(s, m, t)
    ensures t.verified > s.verified <==> Judge(s, m).Accepted?
  {
  }

  lemma AcceptsIsTaken(states: seq<LedgerState>, ops: seq<Op>, i: nat)
    requires Steps(states, ops) && i < |ops|
    ensures Accepts(states, ops, i) <==> TakenAt(states, ops, i)
  {
    assert StepAt(states, ops, i);
    match ops[i]
    case Add(m) => OfferVerified(states[i], m, states[i + 1]);
    case Receive(m) =>
      var mid :| Offer(states[i], m, mid) && states[i + 1] == AfterVerdict(mid, Judge(states[i], m));
      OfferVerified(states[i], m, mid);
    case _ =>
  }

  /** What has been accepted is what the accepting calls offered. */
  lemma AcceptedByCalls(states: seq<LedgerState>, ops: seq<Op>, i: nat)
    requires Run(states, ops) && i <= |ops|
    ensures forall j :: 0 <= j < i && Accepts(states, ops, j) ==> ops[j].msg in AcceptedOf(states, ops, i)
    ensures forall x :: x in AcceptedOf(states, ops, i) ==>
      exists j :: 0 <= j < i && Accepts(states, ops, j) && ops[j].msg == x
  {
    forall j | 0 <= j < i && Accepts(states, ops, j) ensures ops[j].msg in AcceptedOf(states, ops, i) {
      AcceptsIsTaken(states, ops, j);
      AcceptedGrows(states, ops, j + 1, i);
      var taken := AcceptedOf(states, ops, j + 1);
      assert AcceptedOf(states, ops, i)[|taken| - 1] == taken[|taken| - 1] == ops[j].msg;
    }
    forall x | x in AcceptedOf(states, ops, i)
      ensures exists j :: 0 <= j < i && Accepts(states, ops, j) && ops[j].msg == x
    {
      var j := AcceptedWasOffered(states, ops, i, x);
      AcceptsIsTaken(states, ops, j);
    }
  }

  lemma LateMeaning(states: seq<LedgerState>, ops: seq<Op>, i: nat)
    requires Run(states, ops) && i < |ops| && Named(ops, i) && ops[i].msg.id !in states[i].ids
    ensures Late(states, ops, i) <==> Judge(states[i], ops[i].msg).ClockRegression?
  {
    var s, m, acc := states[i], ops[i].msg, AcceptedOf(states, ops, i);
    RunKeepsInv(states, ops, i);
    AcceptedByCalls(states, ops, i);
    SpentMeaning(s, acc, m);
  }

  lemma SpentMeaning(s: LedgerState, acc: seq<Message>, m: Message)
    requires ClockInv(s, acc) && m.id != "" && m.id !in s.ids
    ensures Judge(s, m).ClockRegression? <==>
            OwnClock(m) > 0 && exists x :: x in acc && x.senderId == m.senderId && OwnClock(x) >= OwnClock(m)
  {
  }

  lemma ForkedMeaning(states: seq<LedgerState>, ops: seq<Op>, i: nat)
    requires Run(states, ops) && i < |ops| && Named(ops, i) && ops[i].msg.id !in states[i].ids
    requires !Judge(states[i], ops[i].msg).ClockRegression?
    ensures Forked(states, ops, i) <==> Judge(states[i], ops[i].msg).Fork?
  {
    var s, m, acc := states[i], ops[i].msg, AcceptedOf(states, ops, i);
    RunKeepsInv(states, ops, i);
    AcceptedByCalls(states, ops, i);
    LateMeaning(states, ops, i);
    TakenLinkMeaning(s, acc, m);
  }

  lemma TakenLinkMeaning(s: LedgerState, acc: seq<Message>, m: Message)
    requires ForkInv(s, acc) && m.id != "" && m.id !in s.ids && !Judge(s, m).ClockRegression?
    ensures Judge(s, m).Fork? <==>
            m.prevHash != "" && exists x :: x in acc && x.prevHash != "" && ForkKey(x) == ForkKey(m) && x.id != m.id
  {
  }

  lemma VerdictMeaning(states: seq<LedgerState>, ops: seq<Op>, i: nat)
    requires Run(states, ops) && i < |ops| && Named(ops, i)
    ensures var v := Judge(states[i], ops[i].msg);
      && (Held(states, ops, i) <==> v.Duplicate?) && (Late(states, ops, i) <==> v.ClockRegression?)
      && (Forked(states, ops, i) <==> v.Fork?) && (New(states, ops, i) <==> v.Accepted?)
  {
    if !Held(states, ops, i) {
      LateMeaning(states, ops, i);
      if !Judge(states[i], ops[i].msg).ClockRegression? {
        ForkedMeaning(states, ops, i);
      }
    }
  }

  // ---- What each does

  /** The state after an offer that is turned away, and the counters after one that is not. */
  ghost predicate Explained(s: LedgerState, op: Op, held: bool, late: bool, forked: bool, t: LedgerState)
    requires op.Offers()
  {
    var noted := if op.Receive? then 1 else 0;
    if op.msg.id == "" then
      t == if op.Receive? then s.(rejected := s.rejected + 1, lastReject := "invalid_message") else s
    else if held then t == s.(duplicate := s.duplicate + 1)
    else if late then
      t == s.(clockBack := s.clockBack + 1, lastReject := "clock_regression", rejected := s.rejected + noted)
    else if forked then
      t == s.(equivocation := s.equivocation + 1, lastReject := "equivocation_fork", rejected := s.rejected + noted)
    else
      && t.verified == s.verified + 1 && t.duplicate == s.duplicate && t.clockBack == s.clockBack
      && t.equivocation == s.equivocation && t.rejected == s.rejected && t.lastReject == s.lastReject
  }

  lemma StepExplained(s: LedgerState, op: Op, t: LedgerState)
    requires Step(s, op, t) && op.Offers()
    ensures var v := Judge(s, op.msg); Explained(s, op, v.Duplicate?, v.ClockRegression?, v.Fork?, t)
  {
    if op.Receive? {
      var mid :| Offer(s, op.msg, mid) && t == AfterVerdict(mid, Judge(s, op.msg));
    }
  }

  /**
   Every offer in every run, told without the guards: an ID held is a duplicate and leaves no other
   trace; else a clock no later than one accepted of the sender is a regression; else a link accepted
   for another ID is a fork; and all others are accepted.
  */
  lemma OfferExplained(states: seq<LedgerState>, ops: seq<Op>, i: nat)
    requires Run(states, ops) && i < |ops| && ops[i].Offers()
    ensures Explained(states[i], ops[i], Held(states, ops, i), Late(states, ops, i), Forked(states, ops, i),
      states[i + 1])
  {
    assert StepAt(states, ops, i);
    StepExplained(states[i], ops[i], states[i + 1]);
    if Named(ops, i) {
      VerdictMeaning(states, ops, i);
    }
  }

  // ---- The counters

  ghost function Count(p: nat -> bool, n: nat): nat {
    if n == 0 then 0 else Count(p, n - 1) + if p(n - 1) then 1 else 0
  }

  /** A call that counts as a reject: a message turned away other than as a duplicate, or a note made from outside. */
  ghost predicate Rejects(states: seq<LedgerState>, ops: seq<Op>, i: nat)
    requires i < |ops| && |states| == |ops| + 1
  {
    || ops[i].Reject? || ops[i].MarkRejected?
    || (ops[i].Receive? && (ops[i].msg.id == "" || Late(states, ops, i) || Forked(states, ops, i)))
  }

  lemma StepCounters(states: seq<LedgerState>, ops: seq<Op>, i: nat)
    requires Run(states, ops) && i < |ops|
    ensures var s, t := states[i], states[i + 1];
      && t.verified == s.verified + (if New(states, ops, i) then 1 else 0)
      && t.duplicate == s.duplicate + (if Held(states, ops, i) then 1 else 0)
      && t.clockBack == s.clockBack + (if Late(states, ops, i) then 1 else 0)
      && t.equivocation == s.equivocation + (if Forked(states, ops, i) then 1 else 0)
      && t.rejected == s.rejected + (if Rejects(states, ops, i) then 1 else 0)
  {
    if ops[i].Offers() {
      OfferExplained(states, ops, i);
    } else {
      assert StepAt(states, ops, i);
    }
  }

  /** Each counter of a reachable ledger is the number of calls of its kind. */
  lemma {:induction false} CountersMean(states: seq<LedgerState>, ops: seq<Op>, n: nat)
    requires Run(states, ops) && n <= |ops|
    ensures states[n].verified == Count((i: nat) => i < |ops| && New(states, ops, i), n)
    ensures states[n].duplicate == Count((i: nat) => i < |ops| && Held(states, ops, i), n)
    ensures states[n].clockBack == Count((i: nat) => i < |ops| && Late(states, ops, i), n)
    ensures states[n].equivocation == Count((i: nat) => i < |ops| && Forked(states, ops, i), n)
    ensures states[n].rejected == Count((i: nat) => i < |ops| && Rejects(states, ops, i), n)
  {
    if n > 0 {
      CountersMean(states, ops, n - 1);
      StepCounters(states, ops, n - 1);
    }
  }
}
