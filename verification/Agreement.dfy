/** Agreement of ledgers over whole runs of the chat room. */
module Agreement {
  import opened Causality
  import opened Ledger
  import opened LedgerInvariant
  import opened Messages
  import opened MessageOrder
  import opened Orders
  import opened Protocol
  import opened VectorClocks
  import O = LedgerOrder
  import R = LedgerRuns
  import S = ProtocolSafety

  /** Without foreign signatures, no two signed messages share an ID. */
  lemma {:induction false} SignedIdsDiffer(e: Setting, worlds: seq<World>, steps: seq<Step>, k: nat)
    requires Run(e, worlds, steps) && k <= |steps| && AllHonest(worlds[k])
    ensures DistinctIds(worlds[k].signed)
  {
    if k > 0 {
      assert Next(e, worlds[k - 1], steps[k - 1], worlds[k - 1 + 1]);
      HonestBackwards(e, worlds[k - 1], steps[k - 1], worlds[k]);
      SignedIdsDiffer(e, worlds, steps, k - 1);
      NextKeepsIds(e, worlds[k - 1], steps[k - 1], worlds[k]);
    }
  }

  lemma HonestBackwards(e: Setting, w: World, step: Step, t: World)
    requires Next(e, w, step, t) && AllHonest(t)
    ensures AllHonest(w)
  {
  }

  lemma NextKeepsIds(e: Setting, w: World, step: Step, t: World)
    requires Next(e, w, step, t) && AllHonest(t) && DistinctIds(w.signed)
    ensures DistinctIds(t.signed)
  {
    if step.Act? && step.action.FinishSend? {
      assert t.signed == w.signed + {step.action.msg};
    }
  }

  /** What a node has accepted, seen through its payloads. */
  ghost predicate AcceptedSigned(w: World, acc: seq<Message>) {
    ClocksRise(acc) && AllClocked(acc) && forall m :: m in acc ==> Payload(m) in w.signed
  }

  lemma NodeAccepted(e: Setting, w: World, j: string)
    requires Safe(e, w) && j in w.nodes
    ensures AcceptedSigned(w, w.nodes[j].accepted) && Inv(w.nodes[j].ledger, w.nodes[j].accepted)
  {
    assert NodeOk(e, w.signed, j, w.nodes[j]);
  }

  lemma AcceptedIdsDiffer(w: World, acc: seq<Message>)
    requires AcceptedSigned(w, acc) && DistinctIds(w.signed)
    ensures DistinctIds(Elements(acc))
  {
    forall a, b | a in acc && b in acc && a.id == b.id ensures a == b {
      assert Payload(a) == Payload(b);
      assert a.senderId == Payload(a).senderId && OwnClock(a) == OwnClock(Payload(a));
      assert b.senderId == Payload(b).senderId && OwnClock(b) == OwnClock(Payload(b));
      var i :| 0 <= i < |acc| && acc[i] == a;
      var j :| 0 <= j < |acc| && acc[j] == b;
      assert OwnClock(a) > 0;
    }
  }

  /** One sender's sends precede each other in the order of their own clocks. */
  lemma OwnSendsAreOrdered(w: World, a: nat, b: nat)
    requires Logged(w) && Causal(w) && LogsOwn(w) && a < |w.sends| && b < |w.sends|
    requires w.sends[a].msg.senderId == w.sends[b].msg.senderId && OwnClock(w.sends[a].msg) < OwnClock(w.sends[b].msg)
    ensures CausallyBefore(w.sends[a].msg, w.sends[b].msg)
  {
    assert Covers(w.sends[b].msg.clock, w.sends[a].msg);
    CompareIffHappened(w, a, b);
  }

  lemma AcceptedChain(w: World, acc: seq<Message>, a: Message, b: Message)
    requires Logged(w) && Causal(w) && LogsOwn(w) && AcceptedSigned(w, acc)
    requires a in acc && b in acc && a != b && a.senderId == b.senderId
    ensures CausallyBefore(a, b) || CausallyBefore(b, a)
  {
    var i :| 0 <= i < |acc| && acc[i] == a;
    var j :| 0 <= j < |acc| && acc[j] == b;
    assert i != j && OwnClock(a) > 0 && OwnClock(b) > 0;
    assert OwnClock(a) != OwnClock(b) by {
      assert i < j || j < i;
    }
    var c := SentIndex(w, Payload(a));
    var d := SentIndex(w, Payload(b));
    assert w.sends[c].msg.clock == a.clock && w.sends[d].msg.clock == b.clock;
    assert OwnClock(w.sends[c].msg) == OwnClock(a) && OwnClock(w.sends[d].msg) == OwnClock(b);
    if OwnClock(a) < OwnClock(b) {
      OwnSendsAreOrdered(w, c, d);
    } else {
      OwnSendsAreOrdered(w, d, c);
    }
  }

  /** In a run with honest keys only, each sender's accepted messages form a causal chain. */
  lemma AcceptedAreChains(w: World, acc: seq<Message>)
    requires Logged(w) && Causal(w) && LogsOwn(w) && AcceptedSigned(w, acc)
    ensures SendersAreChains(Elements(acc))
  {
    forall a, b | a in Elements(acc) && b in Elements(acc) && a != b && a.senderId == b.senderId
      ensures CausallyBefore(a, b) || CausallyBefore(b, a)
    {
      AcceptedChain(w, acc, a, b);
    }
  }

  lemma CausalWorld(e: Setting, worlds: seq<World>, steps: seq<Step>, k: nat)
    requires Run(e, worlds, steps) && k <= |steps| && AllHonest(worlds[k])
    ensures var w := worlds[k]; Safe(e, w) && Logged(w) && Causal(w) && LogsOwn(w) && DistinctIds(w.signed)
  {
    RunIsSafe(e, worlds, steps, k);
    RunIsCausal(e, worlds, steps, k);
    HonestIsLogged(e, worlds[k]);
    SafeLogsOwn(e, worlds[k]);
    SignedIdsDiffer(e, worlds, steps, k);
  }

  lemma OneListWhenOrderly(s: LedgerState, sAcc: seq<Message>, t: LedgerState, tAcc: seq<Message>)
    requires Inv(s, sAcc) && Inv(t, tAcc) && s.max == t.max && AllClocked(sAcc)
    requires Elements(sAcc) == Elements(tAcc) && DistinctIds(Elements(sAcc)) && NoInversion(Elements(sAcc))
    ensures s.messages == t.messages
  {
    TransitiveIff(Elements(sAcc));
    R.SameAcceptedSameList(s, sAcc, t, tAcc);
  }

  /**
   In every run, foreign signers and all, two nodes with ledgers of one size that have accepted the
   same messages, no two under one ID, hold the same list, whatever was delivered when and whatever
   was evicted, unless an inversion is among those messages.
  */
  lemma SameAcceptedAgree(e: Setting, worlds: seq<World>, steps: seq<Step>, k: nat, i: string, j: string)
    requires Run(e, worlds, steps) && k <= |steps| && i in worlds[k].nodes && j in worlds[k].nodes
    requires var s, t := worlds[k].nodes[i], worlds[k].nodes[j];
      && s.ledger.max == t.ledger.max && Elements(s.accepted) == Elements(t.accepted)
      && DistinctIds(Elements(s.accepted)) && NoInversion(Elements(s.accepted))
    ensures worlds[k].nodes[i].ledger.messages == worlds[k].nodes[j].ledger.messages
  {
    var s, t := worlds[k].nodes[i], worlds[k].nodes[j];
    RunIsSafe(e, worlds, steps, k);
    NodeAccepted(e, worlds[k], i);
    NodeAccepted(e, worlds[k], j);
    OneListWhenOrderly(s.ledger, s.accepted, t.ledger, t.accepted);
  }

  /** With honest keys only, IDs differ by themselves. */
  lemma HonestAgreement(e: Setting, worlds: seq<World>, steps: seq<Step>, k: nat, i: string, j: string)
    requires Run(e, worlds, steps) && k <= |steps| && AllHonest(worlds[k])
    requires i in worlds[k].nodes && j in worlds[k].nodes
    requires var s, t := worlds[k].nodes[i], worlds[k].nodes[j];
      && s.ledger.max == t.ledger.max && Elements(s.accepted) == Elements(t.accepted)
      && NoInversion(Elements(s.accepted))
    ensures worlds[k].nodes[i].ledger.messages == worlds[k].nodes[j].ledger.messages
  {
    RunIsSafe(e, worlds, steps, k);
    NodeAccepted(e, worlds[k], i);
    SignedIdsDiffer(e, worlds, steps, k);
    AcceptedIdsDiffer(worlds[k], worlds[k].nodes[i].accepted);
    SameAcceptedAgree(e, worlds, steps, k, i, j);
  }

  lemma TwoSpeakersHaveNoInversion(w: World, acc: seq<Message>, p: string, q: string)
    requires Logged(w) && Causal(w) && LogsOwn(w) && DistinctIds(w.signed) && AcceptedSigned(w, acc)
    requires forall m :: m in w.signed ==> m.senderId == p || m.senderId == q
    ensures NoInversion(Elements(acc))
  {
    AcceptedIdsDiffer(w, acc);
    AcceptedAreChains(w, acc);
    forall m | m in Elements(acc) ensures m.senderId == p || m.senderId == q {
      assert Payload(m) in w.signed && Payload(m).senderId == m.senderId;
    }
    TwoSendersAreOrdered(Elements(acc), p, q);
    TransitiveIff(Elements(acc));
  }

  /** As long as only two people have spoken there is none: the promised total order then holds outright. */
  lemma TwoSpeakersAgree(e: Setting, worlds: seq<World>, steps: seq<Step>, k: nat, p: string, q: string, i: string,
                         j: string)
    requires Run(e, worlds, steps) && k <= |steps| && AllHonest(worlds[k])
    requires i in worlds[k].nodes && j in worlds[k].nodes
    requires forall m :: m in worlds[k].signed ==> m.senderId == p || m.senderId == q
    requires worlds[k].nodes[i].ledger.max == worlds[k].nodes[j].ledger.max
    requires Elements(worlds[k].nodes[i].accepted) == Elements(worlds[k].nodes[j].accepted)
    ensures worlds[k].nodes[i].ledger.messages == worlds[k].nodes[j].ledger.messages
  {
    CausalWorld(e, worlds, steps, k);
    NodeAccepted(e, worlds[k], i);
    TwoSpeakersHaveNoInversion(worlds[k], worlds[k].nodes[i].accepted, p, q);
    HonestAgreement(e, worlds, steps, k, i, j);
  }

  // ---- Exactly when the order is deterministic

  lemma AcceptedRise(acc: seq<Message>, a: Message, b: Message)
    requires ClocksRise(acc) && AllClocked(acc) && a in acc && b in acc && a != b && a.senderId == b.senderId
    requires CausallyBefore(a, b)
    ensures OwnClock(a) < OwnClock(b)
  {
    var i :| 0 <= i < |acc| && acc[i] == a;
    var j :| 0 <= j < |acc| && acc[j] == b;
    CompareMeaning(a.clock, b.clock);
    assert i != j && At(a.clock, a.senderId) <= At(b.clock, a.senderId);
    assert OwnClock(a) > 0 && OwnClock(b) > 0;
    assert i < j || j < i;
  }

  lemma SignedIsNamed(e: Setting, w: World, m: Message)
    requires Safe(e, w) && Logged(w) && Payload(m) in w.signed
    ensures m.id != "" && m.senderId in w.nodes
  {
    S.LoggedFacts(e, w, m.senderId, m);
  }

  lemma AcceptedLinksDiffer(e: Setting, w: World, acc: seq<Message>, a: Message, b: Message)
    requires Ideal(e) && Safe(e, w) && Logged(w) && AcceptedSigned(w, acc) && DistinctIds(Elements(acc))
    requires a in acc && b in acc && a.senderId == b.senderId && a.prevHash == b.prevHash
    ensures a == b
  {
    SignedIsNamed(e, w, a);
    S.LinkDeterminesId(e, w, a.senderId, a, b);
    assert a in Elements(acc) && b in Elements(acc);
  }

  lemma AcceptedIsEarlier(w: World, acc: seq<Message>, a: Message, b: Message)
    requires Logged(w) && Causal(w) && LogsOwn(w) && AcceptedSigned(w, acc)
    requires a in acc && b in acc && a != b && a.senderId == b.senderId
    ensures O.Earlier(a, b) || O.Earlier(b, a)
  {
    AcceptedChain(w, acc, a, b);
    if CausallyBefore(a, b) {
      AcceptedRise(acc, a, b);
    } else {
      AcceptedRise(acc, b, a);
    }
  }

  lemma AcceptedFields(e: Setting, w: World, j: string, m: Message)
    requires Safe(e, w) && Logged(w) && j in w.nodes && m in w.nodes[j].accepted
    ensures m.id != "" && OwnClock(m) > 0 && '|' !in m.senderId
  {
    NodeAccepted(e, w, j);
    S.NodeFacts(e, w, j);
    SignedIsNamed(e, w, m);
  }

  lemma AllFields(e: Setting, w: World, j: string)
    requires Safe(e, w) && Logged(w) && j in w.nodes
    ensures forall m :: m in w.nodes[j].accepted ==> m.id != "" && OwnClock(m) > 0 && '|' !in m.senderId
  {
    forall m | m in w.nodes[j].accepted ensures m.id != "" && OwnClock(m) > 0 && '|' !in m.senderId {
      AcceptedFields(e, w, j, m);
    }
  }

  lemma AllEarlier(w: World, acc: seq<Message>)
    requires Logged(w) && Causal(w) && LogsOwn(w) && AcceptedSigned(w, acc)
    ensures forall a, b :: a in acc && b in acc && a != b && a.senderId == b.senderId ==>
      O.Earlier(a, b) || O.Earlier(b, a)
  {
    forall a, b | a in acc && b in acc && a != b && a.senderId == b.senderId
      ensures O.Earlier(a, b) || O.Earlier(b, a)
    {
      AcceptedIsEarlier(w, acc, a, b);
    }
  }

  lemma AllLinksDiffer(e: Setting, w: World, acc: seq<Message>)
    requires Ideal(e) && Safe(e, w) && Logged(w) && AcceptedSigned(w, acc) && DistinctIds(Elements(acc))
    ensures forall a, b :: a in acc && b in acc && a.senderId == b.senderId && a.prevHash == b.prevHash ==> a == b
  {
    forall a, b | a in acc && b in acc && a.senderId == b.senderId && a.prevHash == b.prevHash ensures a == b {
      AcceptedLinksDiffer(e, w, acc, a, b);
    }
  }

  /** With honest keys only, what a node has accepted is what honest senders may have sent. */
  lemma AcceptedIsHonest(e: Setting, w: World, j: string)
    requires Ideal(e) && Safe(e, w) && Logged(w) && Causal(w) && LogsOwn(w) && DistinctIds(w.signed) && j in w.nodes
    ensures O.HonestSet(Elements(w.nodes[j].accepted))
  {
    var acc := w.nodes[j].accepted;
    NodeAccepted(e, w, j);
    AcceptedIdsDiffer(w, acc);
    AllFields(e, w, j);
    AllEarlier(w, acc);
    AllLinksDiffer(e, w, acc);
    HonestParts(acc);
  }

  lemma HonestParts(acc: seq<Message>)
    requires DistinctIds(Elements(acc))
    requires forall m :: m in acc ==> m.id != "" && OwnClock(m) > 0 && '|' !in m.senderId
    requires forall a, b :: a in acc && b in acc && a != b && a.senderId == b.senderId ==>
      O.Earlier(a, b) || O.Earlier(b, a)
    requires forall a, b :: a in acc && b in acc && a.senderId == b.senderId && a.prevHash == b.prevHash ==> a == b
    ensures O.HonestSet(Elements(acc))
  {
  }

  /**
   What a node of an honest run has accepted makes one list in every ledger with room for it, however
   each sender's messages are interleaved and repeated, exactly when no inversion is among it.
  */
  lemma AgreementIff(e: Setting, worlds: seq<World>, steps: seq<Step>, k: nat, j: string, max: nat)
    requires Run(e, worlds, steps) && k <= |steps| && AllHonest(worlds[k]) && j in worlds[k].nodes
    requires |Elements(worlds[k].nodes[j].accepted)| <= max
    ensures var s := Elements(worlds[k].nodes[j].accepted); O.OneList(s, max) <==> NoInversion(s)
  {
    CausalWorld(e, worlds, steps, k);
    AcceptedIsHonest(e, worlds[k], j);
    O.OrderIsDeterministicIff(Elements(worlds[k].nodes[j].accepted), max);
  }
}
