/** One node's send, receive and sync operations as they run (cmd/main.go). */
module Nodes {
  import opened Ledger
  import opened LedgerInvariant
  import opened Messages
  import opened Orders
  import opened VectorClocks
  import P = Protocol
  import R = LedgerRuns
  import Repair = LedgerRepair
  import V = Validator

  function Decimal(n: nat): string {
    if n < 10 then [n as char + '0'] else Decimal(n / 10) + [(n % 10) as char + '0']
  }

  /** The status after a sync response. */
  function Outcome(repaired: nat): string {
    if repaired > 0 then "repaired " + Decimal(repaired) else "idle"
  }

  /** A clock merged with those of some messages, one after the other. */
  function MergedAll(c: Clock, msgs: seq<Message>): Clock {
    if msgs == [] then c else Merged(MergedAll(c, msgs[..|msgs| - 1]), msgs[|msgs| - 1].clock)
  }

  /** The number a decimal text stands for. */
  function Value(s: string): int {
    if s == "" then 0 else Value(s[..|s| - 1]) * 10 + (s[|s| - 1] as int - '0' as int)
  }

  lemma {:induction false} DecimalMeaning(n: nat)
    ensures Value(Decimal(n)) == n && forall c :: c in Decimal(n) ==> '0' <= c <= '9'
  {
    if n >= 10 {
      DecimalMeaning(n / 10);
      assert Decimal(n)[..|Decimal(n)| - 1] == Decimal(n / 10);
    } else {
      assert Decimal(n)[..0] == "";
    }
  }

  class Node {
    const peerId: string
    const hash: Message -> string
    const ledger: Ledger
    const vc: VectorClock
    var prevHash: string

    constructor (peerId: string, hash: Message -> string, limit: int)
      ensures this.peerId == peerId && this.hash == hash && prevHash == ""
      ensures fresh(ledger) && fresh(vc) && vc.clock == map[]
      ensures ledger.State() == Fresh(if limit <= 0 then DEFAULT_MAX_MESSAGES else limit)
    {
      this.peerId := peerId;
      this.hash := hash;
      prevHash := "";
      var l := new Ledger(limit);
      var c := new VectorClock();
      ledger, vc := l, c;
    }

    /**
     Signs the next message: count, snapshot, link, sign, and remember the hash. `id` is the fresh
     UUID and `sign` the node's key.
    */
    method Sign(id: string, senderName: string, content: string, mentions: seq<string>, mentionAll: bool, isAI: bool,
                sign: Message -> string) returns (msg: Message)
      modifies this`prevHash, vc
      ensures vc.clock == Incremented(old(vc.clock), peerId)
      ensures Payload(msg) ==
        Unsigned(id, peerId, senderName, content, mentions, mentionAll, vc.clock, old(prevHash), isAI)
      ensures msg == Payload(msg).(signature := sign(Payload(msg))) && prevHash == hash(Payload(msg))
      ensures OwnClock(msg) == old(At(vc.clock, peerId)) + 1
      ensures msg.id == id && msg.senderId == peerId && msg.senderName == senderName && msg.content == content
      ensures msg.mentions == mentions && msg.mentionAll == mentionAll && msg.isAI == isAI
      ensures msg.clock == vc.clock && msg.prevHash == old(prevHash)
    {
      vc.Increment(peerId);
      var snap := vc.Snapshot();
      var payload := Unsigned(id, peerId, senderName, content, mentions, mentionAll, snap, prevHash, isAI);
      msg := payload.(signature := sign(payload));
      prevHash := hash(payload);
    }

    /** Signs, publishes and keeps a message; `published` is the outcome of publishing. */
    method SignAndPublish(id: string, senderName: string, content: string, mentions: seq<string>, mentionAll: bool,
                          isAI: bool, sign: Message -> string, published: bool) returns (sent: Option<Message>)
      modifies this`prevHash, vc, ledger
      ensures vc.clock == Incremented(old(vc.clock), peerId)
      ensures sent.Some? <==> published
      ensures sent.None? ==> ledger.State() == old(ledger.State())
      ensures sent.Some? ==> Offer(old(ledger.State()), sent.value, ledger.State())
      ensures var payload :=
          Unsigned(id, peerId, senderName, content, mentions, mentionAll, vc.clock, old(prevHash), isAI);
        prevHash == hash(payload) && (sent.Some? ==> sent.value == payload.(signature := sign(payload)))
      ensures sent.Some? ==>
        && sent.value.id == id && sent.value.senderId == peerId && sent.value.senderName == senderName
        && sent.value.content == content && sent.value.mentions == mentions && sent.value.mentionAll == mentionAll
        && sent.value.isAI == isAI && sent.value.clock == vc.clock && sent.value.prevHash == old(prevHash)
    {
      var msg := Sign(id, senderName, content, mentions, mentionAll, isAI, sign);
      if !published {
        return None;
      }
      var ok := ledger.Add(Some(msg));
      return Some(msg);
    }

    /** Offers a message to the ledger and merges its clock only if it is accepted. */
    method AcceptMessage(msg: Option<Message>) returns (ok: bool)
      modifies ledger, vc
      ensures msg.None? ==> !ok && ledger.State() == old(ledger.State()) && vc.clock == old(vc.clock)
      ensures msg.Some? ==> R.Received(old(ledger.State()), msg.value, ledger.State())
      ensures msg.Some? ==> ok == Judge(old(ledger.State()), msg.value).Accepted?
      ensures vc.clock == if ok && msg.Some? then Merged(old(vc.clock), msg.value.clock) else old(vc.clock)
    {
      if msg.None? {
        return false;
      }
      ok := Offers(msg.value);
      if ok {
        vc.Merge(msg.value.clock);
      }
    }

    /** The ledger's half: a refusal other than a duplicate is noted. */
    method Offers(m: Message) returns (ok: bool)
      modifies ledger
      ensures R.Received(old(ledger.State()), m, ledger.State())
      ensures ok == Judge(old(ledger.State()), m).Accepted?
    {
      var reason;
      ok, reason := ledger.AddWithReason(Some(m));
      ghost var mid := ledger.State();
      if !ok && reason != "duplicate_message" {
        ledger.MarkRejectedReason(reason);
      }
      assert ledger.State() == R.AfterVerdict(mid, Judge(old(ledger.State()), m));
    }

    /** The known IDs of a sync request. */
    method RequestSync() returns (known: seq<string>)
      modifies ledger
      ensures (set id | id in known) == ledger.ids
      ensures ledger.State() == old(ledger.State()).(syncStatus := "requesting")
    {
      ledger.SetSyncStatus("requesting");
      known := ledger.IDs();
    }

    /** What a node answers to a sync request: the recent messages the requester does not know. */
    method AnswerSync(known: seq<string>) returns (missing: seq<Message>)
      ensures missing == MissingFrom(ledger.State(), known, Repair.SYNC_LIMIT)
      ensures NoRepeats(ledger.messages) ==> forall k :: 0 <= k < |ledger.messages| ==>
        (ledger.messages[k] in missing <==> ledger.messages[k].id !in known && |ledger.messages| - 1 - k < 80)
    {
      if NoRepeats(ledger.messages) {
        forall k | 0 <= k < |ledger.messages|
          ensures ledger.messages[k] in MissingFrom(ledger.State(), known, Repair.SYNC_LIMIT) <==>
                  ledger.messages[k].id !in known && |ledger.messages| - 1 - k < 80
        {
          Repair.AnswerHoldsIff(ledger.State(), known, Repair.SYNC_LIMIT, k);
        }
      }
      missing := ledger.GetMissingFrom(known, Repair.SYNC_LIMIT);
    }

    /**
     Applies a sync response message by message. `trail` lists the ledger's states on the way: it
     is a run in the sense of LedgerRuns, from the ledger marked as repairing to the ledger before
     the repair is counted. The clock takes in just the messages accepted.
    */
    method ApplySyncResponse(msgs: seq<Message>) returns (repaired: nat, ghost trail: seq<LedgerState>)
      modifies ledger, vc
      ensures |trail| == |msgs| + 1
        && Traces(trail, msgs, old(ledger.State()).(syncStatus := "repairing"), trail[|msgs|], repaired)
      ensures ledger.State() == trail[|msgs|].(repaired := old(ledger.repaired) + repaired,
                                               syncStatus := Outcome(repaired))
      ensures ledger.syncStatus == if repaired == 0 then "idle" else "repaired " + Decimal(repaired)
      ensures Merges(trail, msgs, old(vc.clock), vc.clock)
    {
      ledger.SetSyncStatus("repairing");
      repaired := 0;
      trail := [ledger.State()];
      for i := 0 to |msgs|
        invariant Traces(trail, msgs[..i], old(ledger.State()).(syncStatus := "repairing"), ledger.State(), repaired)
        invariant Merges(trail, msgs[..i], old(vc.clock), vc.clock)
      {
        ghost var before := vc.clock;
        var ok := AcceptMessage(Some(msgs[i]));
        MergesGrow(trail, msgs, i, old(vc.clock), before, ledger.State());
        TraceGrows(trail, msgs, i, old(ledger.State()).(syncStatus := "repairing"), ledger.State(), repaired);
        trail := trail + [ledger.State()];
        if ok {
          repaired := repaired + 1;
        }
      }
      assert msgs[..|msgs|] == msgs;
      ledger.AddRepaired(repaired);
      ledger.SetSyncStatus(Outcome(repaired));
    }
  }

  // ---- The methods carry out the protocol's actions

  /** A node that is sending can say anything: what is typed is what can be signed. */
  lemma AnythingCanBeSaid(w: P.World, n: string, id: string, senderName: string, content: string, mentions: seq<string>,
                          mentionAll: bool, isAI: bool)
    returns (m: Message)
    requires n in w.nodes && w.nodes[n].sending && id != "" && forall p :: p in w.signed ==> p.id != id
    ensures P.MaySend(w, n, m)
    ensures m.id == id && m.senderId == n && m.senderName == senderName && m.content == content
    ensures m.mentions == mentions && m.mentionAll == mentionAll && m.isAI == isAI
    ensures m.clock == w.nodes[n].vc && m.prevHash == w.nodes[n].prevHash
  {
    m := Unsigned(id, n, senderName, content, mentions, mentionAll, w.nodes[n].vc, w.nodes[n].prevHash, isAI);
  }

  /** And every message that can be signed is told apart by what it says. */
  lemma SentIsTyped(w: P.World, n: string, m: Message, other: Message)
    requires P.MaySend(w, n, m) && P.MaySend(w, n, other)
    requires m.id == other.id && m.senderName == other.senderName && m.content == other.content
    requires m.mentions == other.mentions && m.mentionAll == other.mentionAll && m.isAI == other.isAI
    ensures m == other
  {
  }

  /** An answer of a node is the protocol's, unless there is nothing to send. */
  lemma AnswerIsAnAnswer(e: P.Setting, w: P.World, n: string, packet: P.Packet, missing: seq<Message>)
    returns (t: P.World)
    requires n in w.nodes && packet in w.network && packet.SyncRequest? && packet.from != n
    requires missing == MissingFrom(w.nodes[n].ledger, packet.known, Repair.SYNC_LIMIT) && missing != []
    ensures P.Next(e, w, P.Answer(n, packet), t) && t.network == w.network + {P.SyncResponse(n, missing)}
  {
    t := w.(network := w.network + {P.SyncResponse(n, missing)});
  }

  /** What Sign promises is BeginSend followed by FinishSend, given a fresh ID. */
  lemma SignIsASend(e: P.Setting, w: P.World, n: string, msg: Message, vc: Clock, prevHash: string)
    returns (next: P.NodeState)
    requires n in w.nodes && !w.nodes[n].sending && msg.id != "" && forall p :: p in w.signed ==> p.id != msg.id
    requires vc == Incremented(w.nodes[n].vc, n) && prevHash == e.hash(Payload(msg))
    requires Payload(msg) ==
      Unsigned(msg.id, n, msg.senderName, msg.content, msg.mentions, msg.mentionAll, vc, w.nodes[n].prevHash,
               msg.isAI)
    ensures var counted := P.Counted(n, w.nodes[n]);
      && P.NodeStep(e, w, n, P.BeginSend, counted)
      && P.NodeStep(e, P.Moved(w, n, P.BeginSend, counted), n, P.FinishSend(Payload(msg)), next)
    ensures next.vc == vc && next.prevHash == prevHash && next.ledger == w.nodes[n].ledger
      && next.log == w.nodes[n].log + [Payload(msg)]
  {
    next := P.AfterSend(e, P.Counted(n, w.nodes[n]), Payload(msg));
  }

  /**
   What AcceptMessage promises for a well-signed message on the network is Deliver, and then Merge if
   it is accepted.
  */
  lemma AcceptIsADelivery(e: P.Setting, w: P.World, n: string, packet: P.Packet, m: Message, after: LedgerState,
                          vc: Clock)
    returns (taken: P.NodeState, next: P.NodeState)
    requires n in w.nodes && packet in w.network && m in P.Carried(packet) && V.WellSigned(P.CryptoOf(e, w.signed), m)
    requires R.Received(w.nodes[n].ledger, m, after)
    requires var ok := Judge(w.nodes[n].ledger, m).Accepted?;
      vc == if ok then Merged(w.nodes[n].vc, m.clock) else w.nodes[n].vc
    ensures P.NodeStep(e, w, n, P.Deliver(packet, m), taken)
    ensures if Judge(w.nodes[n].ledger, m).Accepted?
            then P.NodeStep(e, P.Moved(w, n, P.Deliver(packet, m), taken), n, P.Merge(m), next) else next == taken
    ensures next.ledger == after && next.vc == vc && next.prevHash == w.nodes[n].prevHash
  {
    var node, ok := w.nodes[n], Judge(w.nodes[n].ledger, m).Accepted?;
    taken := node.(ledger := after,
                   accepted := Extended(node.accepted, m, Judge(node.ledger, m)),
                   unmerged := if ok then node.unmerged + {m} else node.unmerged);
    next := if ok then P.AfterMerge(taken, m) else taken;
  }

  // ---- Repairs

  /** Receiving `msgs` led from `first` to `last` by the states of `trail`; `repaired` of them were accepted. */
  ghost predicate Traces(trail: seq<LedgerState>, msgs: seq<Message>, first: LedgerState, last: LedgerState,
                         repaired: nat)
  {
    && R.Steps(trail, Repair.Receives(msgs))
    && trail[0] == first && trail[|msgs|] == last && last.repaired == first.repaired
    && repaired == |R.AcceptedOf(trail, Repair.Receives(msgs), |msgs|)|
  }

  /**
   Catching up: a node that has accepted `had`, live or otherwise, asks with the IDs it knows and
   applies the answer. It repairs just the messages that fit; it repairs all of them exactly when
   each sender's stand in clock order and none is as early as one already accepted; and then, with
   room, it holds what it had and the answer, and the very list of the answerer where that has
   accepted no more and the order is total.
  */
  lemma JoinerCatchesUp(src: LedgerState, acc: seq<Message>, known: seq<string>, joiner: LedgerState, had: seq<Message>,
                        trail: seq<LedgerState>, repaired: nat)
    requires Inv(src, acc) && AllClocked(acc) && Inv(joiner, had)
    requires Repair.IdsAgree(had, acc) && Repair.LinksAgree(had, acc)
    requires var answer := MissingFrom(src, known, Repair.SYNC_LIMIT);
      |trail| == |answer| + 1 && Traces(trail, answer, joiner.(syncStatus := "repairing"), trail[|answer|], repaired)
    ensures var answer, end := MissingFrom(src, known, Repair.SYNC_LIMIT), trail[|trail| - 1];
      && repaired == |Repair.Fitting(had, answer, |answer|)|
      && (repaired == |answer| <==> SendersInOrder(answer) && forall m :: m in answer ==> Repair.Ahead(had, m))
      && (repaired == |answer| && |had| + |answer| <= end.max ==> end.ids == Ids(had + answer))
      && (repaired == |answer| && Orderly(acc) && Elements(had + answer) == Elements(acc) && end.max == src.max ==>
            end.messages == src.messages)
  {
    var answer := MissingFrom(src, known, Repair.SYNC_LIMIT);
    Repair.AnswerIsIssuable(src, acc, known, Repair.SYNC_LIMIT);
    R.SameCoreKeepsInv(joiner, trail[0], had);
    Repair.RepairsAreFitting(trail, had, answer, |answer|);
    Repair.FitsMeans(had, answer);
    Repair.AllFitMeansAll(had, answer, |answer|);
    if repaired == |answer| {
      Repair.AllTakenIff(trail, had, answer);
      Repair.RepairRestores(src, acc, trail, had, answer);
    }
  }

  /** The clock took in the messages accepted on the way, and no other. */
  ghost predicate Merges(trail: seq<LedgerState>, msgs: seq<Message>, first: Clock, last: Clock) {
    |trail| == |msgs| + 1 && last == MergedAll(first, R.AcceptedOf(trail, Repair.Receives(msgs), |msgs|))
  }

  lemma MergesGrow(trail: seq<LedgerState>, msgs: seq<Message>, i: nat, first: Clock, last: Clock, next: LedgerState)
    requires i < |msgs| && Merges(trail, msgs[..i], first, last)
    ensures Merges(trail + [next], msgs[..i + 1], first,
                   if Judge(trail[i], msgs[i]).Accepted? then Merged(last, msgs[i].clock) else last)
  {
    ExtendAccepted(trail, msgs, i, next);
    var acc := R.AcceptedOf(trail, Repair.Receives(msgs[..i]), i);
    assert acc + [] == acc && (acc + [msgs[i]])[..|acc|] == acc;
  }

  lemma TraceGrows(trail: seq<LedgerState>, msgs: seq<Message>, i: nat, first: LedgerState, next: LedgerState,
                   repaired: nat)
    requires i < |msgs| && |trail| == i + 1 && Traces(trail, msgs[..i], first, trail[i], repaired)
    requires R.Received(trail[i], msgs[i], next)
    ensures Traces(trail + [next], msgs[..i + 1], first, next,
                   repaired + if Judge(trail[i], msgs[i]).Accepted? then 1 else 0)
  {
    ExtendSteps(trail, msgs, i, next);
    ExtendAccepted(trail, msgs, i, next);
    ReceivedKeepsRepaired(trail[i], msgs[i], next);
  }

  /**
   Applying a sync response again repairs nothing: once each of its messages has been offered in
   the run, by that response or otherwise, none is accepted, evicted or not.
  */
  lemma ReapplyingRepairsNothing(states: seq<LedgerState>, ops: seq<R.Op>, msgs: seq<Message>, j: nat, repaired: nat)
    requires R.Run(states, ops) && R.IdsFixSenderClock(ops)
    requires j + |msgs| <= |ops| && ops[j..j + |msgs|] == Repair.Receives(msgs)
    requires forall m :: m in msgs ==> OwnClock(m) > 0 && exists k :: 0 <= k < j && ops[k].Offers() && ops[k].msg == m
    requires Traces(states[j..j + |msgs| + 1], msgs, states[j], states[j + |msgs|], repaired)
    ensures repaired == 0
  {
    var trail := states[j..j + |msgs| + 1];
    forall i | 0 <= i < |msgs| ensures !Judge(trail[i], msgs[i]).Accepted? {
      assert ops[j + i] == ops[j..j + |msgs|][i] && msgs[i] in msgs;
      ReofferedIsRefused(states, ops, j + i, msgs[i]);
    }
    NothingTaken(trail, msgs, |msgs|);
  }

  lemma ReofferedIsRefused(states: seq<LedgerState>, ops: seq<R.Op>, n: nat, m: Message)
    requires R.Run(states, ops) && R.IdsFixSenderClock(ops) && OwnClock(m) > 0
    requires n < |ops| && ops[n] == R.Receive(m) && exists k :: 0 <= k < n && ops[k].Offers() && ops[k].msg == m
    ensures !Judge(states[n], m).Accepted?
  {
    var k :| 0 <= k < n && ops[k].Offers() && ops[k].msg == m;
    R.Finality(states, ops, k, n);
  }

  lemma {:induction false} NothingTaken(trail: seq<LedgerState>, msgs: seq<Message>, n: nat)
    requires |trail| == |msgs| + 1 && n <= |msgs|
    requires forall i :: 0 <= i < n ==> !Judge(trail[i], msgs[i]).Accepted?
    ensures R.AcceptedOf(trail, Repair.Receives(msgs), n) == []
  {
    if n > 0 {
      NothingTaken(trail, msgs, n - 1);
    }
  }

  /** The clock afterwards is the least above the clock before and those of the messages merged. */
  lemma {:induction false} MergedAllIsLeast(c: Clock, msgs: seq<Message>, bound: Clock)
    ensures Leq(c, MergedAll(c, msgs)) && forall m :: m in msgs ==> Leq(m.clock, MergedAll(c, msgs))
    ensures Leq(c, bound) && (forall m :: m in msgs ==> Leq(m.clock, bound)) ==> Leq(MergedAll(c, msgs), bound)
  {
    if msgs != [] {
      var n := |msgs| - 1;
      assert msgs == msgs[..n] + [msgs[n]];
      MergedAllIsLeast(c, msgs[..n], bound);
      MergedIsLeastUpperBound(MergedAll(c, msgs[..n]), msgs[n].clock, bound);
    }
  }

  /** One more received message extends a trail. */
  lemma ExtendSteps(trail: seq<LedgerState>, msgs: seq<Message>, i: nat, next: LedgerState)
    requires i < |msgs| && |trail| == i + 1 && R.Steps(trail, Repair.Receives(msgs[..i]))
    requires R.Received(trail[i], msgs[i], next)
    ensures R.Steps(trail + [next], Repair.Receives(msgs[..i + 1]))
  {
    var more, ops, front := trail + [next], Repair.Receives(msgs[..i + 1]), Repair.Receives(msgs[..i]);
    forall k | 0 <= k < |ops| ensures R.StepAt(more, ops, k) {
      if k < i {
        assert R.StepAt(trail, front, k);
        assert front[k] == ops[k] && more[k] == trail[k] && more[k + 1] == trail[k + 1];
      }
    }
  }

  lemma ExtendAccepted(trail: seq<LedgerState>, msgs: seq<Message>, i: nat, next: LedgerState)
    requires i < |msgs| && |trail| == i + 1
    ensures R.AcceptedOf(trail + [next], Repair.Receives(msgs[..i + 1]), i + 1)
            == R.AcceptedOf(trail, Repair.Receives(msgs[..i]), i)
               + if Judge(trail[i], msgs[i]).Accepted? then [msgs[i]] else []
  {
    SameStart(trail, Repair.Receives(msgs[..i]), trail + [next], Repair.Receives(msgs[..i + 1]), i);
  }

  lemma ReceivedKeepsRepaired(s: LedgerState, m: Message, t: LedgerState)
    requires R.Received(s, m, t)
    ensures t.repaired == s.repaired
  {
  }

  lemma {:induction false} SameStart(s: seq<LedgerState>, sOps: seq<R.Op>, t: seq<LedgerState>, tOps: seq<R.Op>, n: nat)
    requires |s| == |sOps| + 1 && |t| == |tOps| + 1 && n <= |sOps| <= |tOps|
    requires forall k :: 0 <= k < n ==> s[k] == t[k] && sOps[k] == tOps[k]
    ensures R.AcceptedOf(s, sOps, n) == R.AcceptedOf(t, tOps, n)
  {
    if n > 0 {
      SameStart(s, sOps, t, tOps, n - 1);
    }
  }
}
