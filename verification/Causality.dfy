/**
 Vector clocks tell causality: in every run where only honest keys have signed, one message's
 clock is before another's exactly when it happened before it.
*/
module Causality {
  import opened Messages
  import opened Protocol
  import opened VectorClocks

  /** `p` reached the sender of the `b`-th send before that send: directly, or through a message that did. */
  ghost predicate Happened(sends: seq<Sent>, p: Message, b: nat)
    requires b < |sends|
    decreases b
  {
    p in sends[b].past || exists c: nat :: c < b && sends[c].msg in sends[b].past && Happened(sends, p, c)
  }

  /** The same for what a node has seen by now. */
  ghost predicate Known(sends: seq<Sent>, seen: set<Message>, p: Message) {
    p in seen || exists c: nat :: c < |sends| && sends[c].msg in seen && Happened(sends, p, c)
  }

  /** No foreign key has signed. */
  ghost predicate AllHonest(w: World) {
    forall p :: p in w.signed ==> p.senderId in w.nodes
  }

  // ---- The history of sends

  ghost predicate WasSent(sends: seq<Sent>, p: Message) {
    exists b: nat :: b < |sends| && sends[b].msg == p
  }

  ghost predicate HistoryOk(sends: seq<Sent>) {
    && (forall a: nat, b: nat :: a < b < |sends| ==> sends[a].msg != sends[b].msg)
    && (forall b: nat, p :: b < |sends| && p in sends[b].past ==> WasSent(sends[..b], p))
  }

  lemma {:induction false} HappenedInPrefix(sends: seq<Sent>, more: seq<Sent>, p: Message, b: nat)
    requires b < |sends| && sends <= more
    ensures Happened(sends, p, b) <==> Happened(more, p, b)
    decreases b
  {
    forall c: nat | c < b ensures Happened(sends, p, c) <==> Happened(more, p, c) {
      HappenedInPrefix(sends, more, p, c);
    }
  }

  /** What happened before a send was itself sent earlier. */
  lemma {:induction false} HappenedIsEarlier(sends: seq<Sent>, p: Message, b: nat) returns (c: nat)
    requires HistoryOk(sends) && b < |sends| && Happened(sends, p, b)
    ensures c < b && sends[c].msg == p
    decreases b
  {
    if p in sends[b].past {
      assert WasSent(sends[..b], p);
      c :| c < b && sends[..b][c].msg == p;
    } else {
      var d: nat :| d < b && sends[d].msg in sends[b].past && Happened(sends, p, d);
      c := HappenedIsEarlier(sends, p, d);
    }
  }

  lemma {:induction false} HappenedTransitive(sends: seq<Sent>, p: Message, a: nat, b: nat)
    requires HistoryOk(sends) && a < |sends| && b < |sends|
    requires Happened(sends, p, a) && Happened(sends, sends[a].msg, b)
    ensures Happened(sends, p, b)
    decreases b
  {
    if sends[a].msg in sends[b].past {
      var c := HappenedIsEarlier(sends, sends[a].msg, b);
      assert c == a;
    } else {
      var c: nat :| c < b && sends[c].msg in sends[b].past && Happened(sends, sends[a].msg, c);
      HappenedTransitive(sends, p, a, c);
    }
  }

  // ---- What clocks say

  /** A clock covers a message when it counts it. */
  predicate Covers(clock: Clock, p: Message) {
    OwnClock(p) <= At(clock, p.senderId)
  }

  /** Own entries are log positions, and a node's own counter is the length of its log. */
  ghost predicate Numbered(w: World) {
    forall n :: n in w.nodes ==>
      var node := w.nodes[n];
      && (forall k :: 0 <= k < |node.log| ==> OwnClock(node.log[k]) == k + 1)
      && At(node.vc, n) == |node.log| + if node.sending then 1 else 0
  }

  function LogLength(nodes: map<string, NodeState>, n: string): nat {
    if n in nodes then |nodes[n].log| else 0
  }

  /** No entry counts a message that has not been sent; a node may only be one ahead for itself. */
  ghost predicate Bounded(w: World) {
    && (forall b: nat, i :: b < |w.sends| ==> At(w.sends[b].msg.clock, i) <= LogLength(w.nodes, i))
    && (forall n, i :: n in w.nodes && i != n ==> At(w.nodes[n].vc, i) <= LogLength(w.nodes, i))
  }

  ghost predicate Recorded(w: World) {
    && HistoryOk(w.sends)
    && (forall p :: p in w.signed <==> WasSent(w.sends, p))
    && (forall n :: n in w.nodes ==> w.nodes[n].seen <= w.signed && forall k :: 0 <= k < |w.nodes[n].log| ==>
      w.nodes[n].log[k] in w.nodes[n].seen)
  }

  ghost predicate ClocksTell(w: World) {
    && (forall a: nat, b: nat :: a < |w.sends| && b < |w.sends| ==>
          (Covers(w.sends[b].msg.clock, w.sends[a].msg) <==> a == b || Happened(w.sends, w.sends[a].msg, b)))
    && (forall n, a: nat :: n in w.nodes && a < |w.sends| ==>
          (Covers(w.nodes[n].vc, w.sends[a].msg) <==> Known(w.sends, w.nodes[n].seen, w.sends[a].msg)))
  }

  ghost predicate Causal(w: World) {
    Numbered(w) && Bounded(w) && Recorded(w) && ClocksTell(w)
  }

  // ---- Facts used by every step

  /** Everything signed is in the log of an honest sender. */
  ghost predicate Logged(w: World) {
    forall p :: p in w.signed ==> p.senderId in w.nodes && p in w.nodes[p.senderId].log && p == Payload(p)
  }

  lemma HonestIsLogged(e: Setting, w: World)
    requires Safe(e, w) && AllHonest(w)
    ensures Logged(w)
  {
  }

  /** A sent message stands in its sender's log at the place its own entry says. */
  lemma SentFacts(w: World, a: nat)
    requires Logged(w) && Recorded(w) && Numbered(w) && a < |w.sends|
    ensures var p := w.sends[a].msg;
      p in w.signed && p == Payload(p) && p.senderId in w.nodes && 0 < OwnClock(p) <= |w.nodes[p.senderId].log|
      && w.nodes[p.senderId].log[OwnClock(p) - 1] == p
  {
    var p := w.sends[a].msg;
    assert WasSent(w.sends, p) && p in w.signed;
    var log := w.nodes[p.senderId].log;
    var k :| 0 <= k < |log| && log[k] == p;
  }

  lemma SentIndex(w: World, p: Message) returns (c: nat)
    requires Recorded(w) && p in w.signed
    ensures c < |w.sends| && w.sends[c].msg == p
  {
    assert WasSent(w.sends, p);
    c :| c < |w.sends| && w.sends[c].msg == p;
  }

  /** A node's clock covers its own sends, and it knows them. */
  lemma KnowsOwn(w: World, n: string, a: nat)
    requires Logged(w) && Recorded(w) && Numbered(w) && n in w.nodes && a < |w.sends|
    requires w.sends[a].msg.senderId == n
    ensures OwnClock(w.sends[a].msg) <= |w.nodes[n].log| && w.sends[a].msg in w.nodes[n].seen
  {
    SentFacts(w, a);
  }

  lemma InitIsCausal(e: Setting, w: World)
    requires Init(e, w)
    ensures Causal(w)
  {
  }

  /** Causality only looks at clocks, logs and history. */
  ghost predicate SameCausal(w: World, t: World) {
    && t.nodes.Keys == w.nodes.Keys && t.signed == w.signed && t.sends == w.sends
    && forall n :: n in w.nodes ==>
         t.nodes[n].vc == w.nodes[n].vc && t.nodes[n].log == w.nodes[n].log && t.nodes[n].seen == w.nodes[n].seen
         && t.nodes[n].sending == w.nodes[n].sending
  }

  lemma FrameCausal(w: World, t: World)
    requires Causal(w) && SameCausal(w, t)
    ensures Causal(t)
  {
    assert forall i :: LogLength(t.nodes, i) == LogLength(w.nodes, i);
  }

  // ---- Counting a send

  lemma CountTells(w: World, n: string, a: nat)
    requires Logged(w) && Recorded(w) && Numbered(w) && n in w.nodes && a < |w.sends|
    requires Covers(w.nodes[n].vc, w.sends[a].msg) <==> Known(w.sends, w.nodes[n].seen, w.sends[a].msg)
    ensures Covers(Incremented(w.nodes[n].vc, n), w.sends[a].msg) <==> Known(w.sends, w.nodes[n].seen, w.sends[a].msg)
  {
    if w.sends[a].msg.senderId == n {
      KnowsOwn(w, n, a);
    }
  }

  lemma SameLengths(w: World, t: World)
    requires t.nodes.Keys == w.nodes.Keys && forall n :: n in w.nodes ==> t.nodes[n].log == w.nodes[n].log
    ensures forall i :: LogLength(t.nodes, i) == LogLength(w.nodes, i)
  {
  }

  lemma CountKeepsRest(w: World, n: string, t: World)
    requires Numbered(w) && Bounded(w) && Recorded(w) && n in w.nodes && !w.nodes[n].sending
    requires t == Moved(w, n, BeginSend, Counted(n, w.nodes[n]))
    ensures Numbered(t) && Bounded(t) && Recorded(t)
  {
    SameLengths(w, t);
    forall b: nat, i | b < |t.sends| ensures At(t.sends[b].msg.clock, i) <= LogLength(t.nodes, i) {
      assert At(w.sends[b].msg.clock, i) <= LogLength(w.nodes, i);
    }
    forall x, i | x in t.nodes && i != x ensures At(t.nodes[x].vc, i) <= LogLength(t.nodes, i) {
      assert At(w.nodes[x].vc, i) <= LogLength(w.nodes, i);
    }
  }

  lemma CountKeepsCausal(w: World, n: string, t: World)
    requires Logged(w) && Causal(w) && n in w.nodes && !w.nodes[n].sending
    requires t == Moved(w, n, BeginSend, Counted(n, w.nodes[n]))
    ensures Causal(t)
  {
    CountKeepsRest(w, n, t);
    forall x, a: nat | x in t.nodes && a < |t.sends|
      ensures Covers(t.nodes[x].vc, t.sends[a].msg) <==> Known(t.sends, t.nodes[x].seen, t.sends[a].msg)
    {
      if x == n {
        CountTells(w, n, a);
      }
    }
  }

  // ---- Merging

  lemma KnownAfterMerge(sends: seq<Sent>, seen: set<Message>, c: nat, p: Message)
    requires HistoryOk(sends) && c < |sends|
    ensures Known(sends, seen + {sends[c].msg}, p) <==>
      Known(sends, seen, p) || p == sends[c].msg || Happened(sends, p, c)
  {
    var more := seen + {sends[c].msg};
    if Known(sends, more, p) && p !in more {
      var d: nat :| d < |sends| && sends[d].msg in more && Happened(sends, p, d);
      if sends[d].msg !in seen {
        assert d == c;
      }
    }
    if Known(sends, seen, p) && p !in seen {
      var d: nat :| d < |sends| && sends[d].msg in seen && Happened(sends, p, d);
      assert sends[d].msg in more;
    }
    if Happened(sends, p, c) {
      assert sends[c].msg in more;
    }
  }

  lemma MergeTells(sends: seq<Sent>, vc: Clock, seen: set<Message>, c: nat, a: nat)
    requires HistoryOk(sends) && c < |sends| && a < |sends|
    requires Covers(vc, sends[a].msg) <==> Known(sends, seen, sends[a].msg)
    requires Covers(sends[c].msg.clock, sends[a].msg) <==> a == c || Happened(sends, sends[a].msg, c)
    ensures Covers(Merged(vc, sends[c].msg.clock), sends[a].msg) <==> Known(sends, seen + {sends[c].msg}, sends[a].msg)
  {
    MergedIsLeastUpperBound(vc, sends[c].msg.clock, map[]);
    KnownAfterMerge(sends, seen, c, sends[a].msg);
  }

  lemma MergeKeepsBounds(w: World, n: string, m: Message, c: nat, t: World)
    requires Bounded(w) && n in w.nodes && c < |w.sends| && w.sends[c].msg == Payload(m)
    requires t == Moved(w, n, Merge(m), AfterMerge(w.nodes[n], m))
    ensures Bounded(t) && At(m.clock, n) <= LogLength(w.nodes, n)
  {
    SameLengths(w, t);
    assert m.clock == w.sends[c].msg.clock;
    forall b: nat, i | b < |t.sends| ensures At(t.sends[b].msg.clock, i) <= LogLength(t.nodes, i) {
      assert At(w.sends[b].msg.clock, i) <= LogLength(w.nodes, i);
    }
    forall x, i | x in t.nodes && i != x ensures At(t.nodes[x].vc, i) <= LogLength(t.nodes, i) {
      assert At(w.nodes[x].vc, i) <= LogLength(w.nodes, i);
      assert At(w.sends[c].msg.clock, i) <= LogLength(w.nodes, i);
      MergedIsLeastUpperBound(w.nodes[n].vc, m.clock, map[]);
    }
  }

  lemma MergeKeepsRest(w: World, n: string, m: Message, t: World)
    requires Numbered(w) && Recorded(w) && n in w.nodes && Payload(m) in w.signed
      && At(m.clock, n) <= LogLength(w.nodes, n)
    requires t == Moved(w, n, Merge(m), AfterMerge(w.nodes[n], m))
    ensures Numbered(t) && Recorded(t)
  {
    MergedIsLeastUpperBound(w.nodes[n].vc, m.clock, map[]);
  }

  lemma MergeKeepsCausal(w: World, n: string, m: Message, t: World)
    requires Causal(w) && n in w.nodes && Payload(m) in w.signed
    requires t == Moved(w, n, Merge(m), AfterMerge(w.nodes[n], m))
    ensures Causal(t)
  {
    var c := SentIndex(w, Payload(m));
    MergeKeepsBounds(w, n, m, c, t);
    MergeKeepsRest(w, n, m, t);
    forall x, a: nat | x in t.nodes && a < |t.sends|
      ensures Covers(t.nodes[x].vc, t.sends[a].msg) <==> Known(t.sends, t.nodes[x].seen, t.sends[a].msg)
    {
      if x == n {
        MergeTells(w.sends, w.nodes[n].vc, w.nodes[n].seen, c, a);
      }
    }
  }

  // ---- Taking the snapshot

  lemma HistoryGrows(sends: seq<Sent>, m: Message, past: set<Message>)
    requires HistoryOk(sends) && !WasSent(sends, m) && forall p :: p in past ==> WasSent(sends, p)
    ensures HistoryOk(sends + [Sent(m, past)])
  {
    var more := sends + [Sent(m, past)];
    forall b: nat, p | b < |more| && p in more[b].past ensures WasSent(more[..b], p) {
      if b < |sends| {
        assert more[..b] == sends[..b];
      } else {
        assert more[..b] == sends;
      }
    }
  }

  /** What a node knows becomes what happened before its next send. */
  lemma KnownBecomesHappened(sends: seq<Sent>, m: Message, past: set<Message>, p: Message)
    ensures Happened(sends + [Sent(m, past)], p, |sends|) <==> Known(sends, past, p)
  {
    var more := sends + [Sent(m, past)];
    forall c: nat | c < |sends| ensures Happened(sends, p, c) <==> Happened(more, p, c) {
      HappenedInPrefix(sends, more, p, c);
    }
  }

  lemma NotYetHappened(sends: seq<Sent>, m: Message, b: nat)
    requires HistoryOk(sends) && b < |sends| && !WasSent(sends, m)
    ensures !Happened(sends, m, b)
  {
    if Happened(sends, m, b) {
      var c := HappenedIsEarlier(sends, m, b);
    }
  }

  lemma NotYetKnown(sends: seq<Sent>, seen: set<Message>, m: Message)
    requires HistoryOk(sends) && !WasSent(sends, m) && m !in seen
    ensures !Known(sends, seen, m)
  {
    forall c: nat | c < |sends| ensures !Happened(sends, m, c) {
      NotYetHappened(sends, m, c);
    }
  }

  lemma KnownInPrefix(sends: seq<Sent>, last: Sent, seen: set<Message>, p: Message)
    requires last.msg !in seen
    ensures Known(sends + [last], seen, p) <==> Known(sends, seen, p)
  {
    var more := sends + [last];
    forall c: nat | c < |sends| ensures Happened(sends, p, c) <==> Happened(more, p, c) {
      HappenedInPrefix(sends, more, p, c);
    }
    if Known(sends, seen, p) && p !in seen {
      var c: nat :| c < |sends| && sends[c].msg in seen && Happened(sends, p, c);
      assert more[c].msg in seen;
    }
  }

  /** A node that sends knows nothing new but its own message. */
  lemma KnownAfterSend(sends: seq<Sent>, m: Message, seen: set<Message>, p: Message)
    requires HistoryOk(sends + [Sent(m, seen)])
    ensures Known(sends + [Sent(m, seen)], seen + {m}, p) <==> Known(sends + [Sent(m, seen)], seen, p) || p == m
  {
    var more := sends + [Sent(m, seen)];
    KnownAfterMerge(more, seen, |sends|, p);
    KnownBecomesHappened(sends, m, seen, p);
    if m !in seen {
      KnownInPrefix(sends, Sent(m, seen), seen, p);
    }
  }

  /** The step that finishes a send, on the parts of the world that causality looks at. */
  ghost predicate Sends(w: World, n: string, m: Message, t: World) {
    && n in w.nodes && n in t.nodes && w.nodes[n].sending
    && m.senderId == n && m.clock == w.nodes[n].vc && m !in w.signed
    && t.nodes == w.nodes[n := t.nodes[n]]
    && t.nodes[n].vc == w.nodes[n].vc && !t.nodes[n].sending
    && t.nodes[n].log == w.nodes[n].log + [m] && t.nodes[n].seen == w.nodes[n].seen + {m}
    && t.signed == w.signed + {m} && t.sends == w.sends + [Sent(m, w.nodes[n].seen)]
  }

  lemma SendKeepsRest(w: World, n: string, m: Message, t: World)
    requires Numbered(w) && Bounded(w) && Sends(w, n, m, t)
    ensures Numbered(t) && Bounded(t)
  {
    assert forall i :: LogLength(t.nodes, i) == LogLength(w.nodes, i) + if i == n then 1 else 0;
    assert At(m.clock, n) == |w.nodes[n].log| + 1;
  }

  lemma SendKeepsRecord(w: World, n: string, m: Message, t: World)
    requires Recorded(w) && Sends(w, n, m, t)
    ensures Recorded(t)
  {
    HistoryGrows(w.sends, m, w.nodes[n].seen);
    forall p ensures p in t.signed <==> WasSent(t.sends, p) {
      if WasSent(w.sends, p) {
        var b: nat :| b < |w.sends| && w.sends[b].msg == p;
        assert t.sends[b].msg == p;
      }
      assert t.sends[|w.sends|].msg == m;
    }
    forall x | x in t.nodes
      ensures t.nodes[x].seen <= t.signed && forall k :: 0 <= k < |t.nodes[x].log| ==>
        t.nodes[x].log[k] in t.nodes[x].seen
    {
      assert w.nodes[x].seen <= w.signed;
    }
  }

  /** Clocks of sends, old and new. */
  lemma SendTellsSends(w: World, n: string, m: Message, t: World, a: nat, b: nat)
    requires Causal(w) && Sends(w, n, m, t) && HistoryOk(t.sends) && a < |t.sends| && b < |t.sends|
    ensures Covers(t.sends[b].msg.clock, t.sends[a].msg) <==> a == b || Happened(t.sends, t.sends[a].msg, b)
  {
    var last := |w.sends|;
    assert !WasSent(w.sends, m);
    if b < last {
      HappenedInPrefix(w.sends, t.sends, t.sends[a].msg, b);
      if a == last {
        NotYetHappened(w.sends, m, b);
        assert At(w.sends[b].msg.clock, n) <= LogLength(w.nodes, n);
        assert OwnClock(m) == At(w.nodes[n].vc, n) == |w.nodes[n].log| + 1;
      }
    } else if a < last {
      KnownBecomesHappened(w.sends, m, w.nodes[n].seen, w.sends[a].msg);
    }
  }

  /** Clocks of nodes. */
  lemma SendTellsNodes(w: World, n: string, m: Message, t: World, x: string, a: nat)
    requires Logged(w) && Causal(w) && Sends(w, n, m, t) && HistoryOk(t.sends) && x in t.nodes && a < |t.sends|
    ensures Covers(t.nodes[x].vc, t.sends[a].msg) <==> Known(t.sends, t.nodes[x].seen, t.sends[a].msg)
  {
    var last := Sent(m, w.nodes[n].seen);
    var p, seen := t.sends[a].msg, w.nodes[x].seen;
    assert !WasSent(w.sends, m) && seen <= w.signed && m !in seen;
    KnownInPrefix(w.sends, last, seen, p);
    if x == n {
      KnownAfterSend(w.sends, m, seen, p);
    } else if a == |w.sends| {
      NotYetKnown(w.sends, seen, m);
      assert At(w.nodes[x].vc, n) <= LogLength(w.nodes, n);
      assert OwnClock(m) == At(w.nodes[n].vc, n) == |w.nodes[n].log| + 1;
    }
  }

  lemma SendKeepsCausal(w: World, n: string, m: Message, t: World)
    requires Logged(w) && Causal(w) && Sends(w, n, m, t)
    ensures Causal(t)
  {
    SendKeepsRest(w, n, m, t);
    SendKeepsRecord(w, n, m, t);
    forall a: nat, b: nat | a < |t.sends| && b < |t.sends|
      ensures Covers(t.sends[b].msg.clock, t.sends[a].msg) <==> a == b || Happened(t.sends, t.sends[a].msg, b)
    {
      SendTellsSends(w, n, m, t, a, b);
    }
    forall x, a: nat | x in t.nodes && a < |t.sends|
      ensures Covers(t.nodes[x].vc, t.sends[a].msg) <==> Known(t.sends, t.nodes[x].seen, t.sends[a].msg)
    {
      SendTellsNodes(w, n, m, t, x, a);
    }
  }

  // ---- Runs

  lemma FinishMeansSends(w: World, n: string, m: Message, next: NodeState)
    requires Shape(w, n, FinishSend(m), next)
    ensures Sends(w, n, m, Moved(w, n, FinishSend(m), next))
  {
  }

  lemma MergedWasSigned(e: Setting, w: World, n: string, m: Message)
    requires Safe(e, w) && n in w.nodes && m in w.nodes[n].unmerged
    ensures Payload(m) in w.signed
  {
    assert NodeOk(e, w.signed, n, w.nodes[n]);
  }

  lemma ActKeepsCausal(w: World, n: string, a: Action, next: NodeState)
    requires Logged(w) && Causal(w) && Shape(w, n, a, next)
    requires a.Merge? ==> Payload(a.msg) in w.signed
    ensures Causal(Moved(w, n, a, next))
  {
    match a
    case BeginSend => CountKeepsCausal(w, n, Moved(w, n, a, next));
    case FinishSend(m) =>
      FinishMeansSends(w, n, m, next);
      SendKeepsCausal(w, n, m, Moved(w, n, a, next));
    case Merge(m) => MergeKeepsCausal(w, n, m, Moved(w, n, a, next));
    case _ => FrameCausal(w, Moved(w, n, a, next));
  }

  lemma ActIsCausal(e: Setting, w: World, n: string, a: Action, next: NodeState)
    requires Safe(e, w) && AllHonest(w) && Causal(w) && NodeStep(e, w, n, a, next)
    ensures Causal(Moved(w, n, a, next))
  {
    HonestIsLogged(e, w);
    ActionShape(e, w, n, a, next);
    if a.Merge? {
      MergedWasSigned(e, w, n, a.msg);
    }
    ActKeepsCausal(w, n, a, next);
  }

  lemma NextIsCausal(e: Setting, w: World, step: Step, t: World)
    requires Safe(e, w) && Next(e, w, step, t) && AllHonest(t)
    ensures AllHonest(w) && (Causal(w) ==> Causal(t))
  {
    if Causal(w) {
      match step
      case Act(n, a) => ActIsCausal(e, w, n, a, t.nodes[n]);
      case ForeignSign(m) =>
      case _ => FrameCausal(w, t);
    }
  }

  lemma {:induction false} RunIsCausal(e: Setting, worlds: seq<World>, steps: seq<Step>, k: nat)
    requires Run(e, worlds, steps) && k <= |steps| && AllHonest(worlds[k])
    ensures Causal(worlds[k])
  {
    if k == 0 {
      InitIsCausal(e, worlds[0]);
    } else {
      RunIsSafe(e, worlds, steps, k - 1);
      assert Next(e, worlds[k - 1], steps[k - 1], worlds[k - 1 + 1]);
      NextIsCausal(e, worlds[k - 1], steps[k - 1], worlds[k]);
      RunIsCausal(e, worlds, steps, k - 1);
    }
  }

  // ---- The meaning of Compare

  /** The message that the `i` entry of a send's clock counts. */
  lemma EntryIsASend(w: World, i: string, v: nat) returns (c: nat)
    requires Logged(w) && Numbered(w) && Recorded(w) && i in w.nodes && 0 < v <= |w.nodes[i].log|
    requires forall k :: 0 <= k < |w.nodes[i].log| ==> w.nodes[i].log[k].senderId == i
    ensures c < |w.sends| && w.sends[c].msg.senderId == i && OwnClock(w.sends[c].msg) == v
  {
    var x := w.nodes[i].log[v - 1];
    assert x in w.nodes[i].seen && x in w.signed;
    c := SentIndex(w, x);
  }

  lemma HappenedMeansLeqAt(w: World, a: nat, b: nat, i: string)
    requires Logged(w) && Causal(w) && LogsOwn(w) && a < |w.sends| && b < |w.sends|
    requires a == b || Happened(w.sends, w.sends[a].msg, b)
    ensures At(w.sends[a].msg.clock, i) <= At(w.sends[b].msg.clock, i)
  {
    var v := At(w.sends[a].msg.clock, i);
    if v > 0 {
      assert v <= LogLength(w.nodes, i);
      var c := EntryIsASend(w, i, v);
      assert Covers(w.sends[a].msg.clock, w.sends[c].msg);
      if a != b && c != a {
        HappenedTransitive(w.sends, w.sends[c].msg, a, b);
      }
      assert Covers(w.sends[b].msg.clock, w.sends[c].msg);
    }
  }

  ghost predicate LogsOwn(w: World) {
    forall n, k :: n in w.nodes && 0 <= k < |w.nodes[n].log| ==> w.nodes[n].log[k].senderId == n
  }

  lemma SafeLogsOwn(e: Setting, w: World)
    requires Safe(e, w)
    ensures LogsOwn(w)
  {
    forall n, k | n in w.nodes && 0 <= k < |w.nodes[n].log| ensures w.nodes[n].log[k].senderId == n {
      assert NodeOk(e, w.signed, n, w.nodes[n]);
    }
  }

  /** Pointwise order of clocks is causal order. */
  lemma LeqIffHappened(w: World, a: nat, b: nat)
    requires Logged(w) && Causal(w) && LogsOwn(w) && a < |w.sends| && b < |w.sends|
    ensures Leq(w.sends[a].msg.clock, w.sends[b].msg.clock) <==> a == b || Happened(w.sends, w.sends[a].msg, b)
  {
    if a == b || Happened(w.sends, w.sends[a].msg, b) {
      forall i ensures At(w.sends[a].msg.clock, i) <= At(w.sends[b].msg.clock, i) {
        HappenedMeansLeqAt(w, a, b, i);
      }
    }
    if Leq(w.sends[a].msg.clock, w.sends[b].msg.clock) {
      assert Covers(w.sends[b].msg.clock, w.sends[a].msg);
    }
  }

  lemma NotBothWays(sends: seq<Sent>, a: nat, b: nat)
    requires HistoryOk(sends) && a < |sends| && b < |sends| && Happened(sends, sends[a].msg, b)
    ensures a < b
  {
    var c := HappenedIsEarlier(sends, sends[a].msg, b);
  }

  lemma CompareIffHappened(w: World, a: nat, b: nat)
    requires Logged(w) && Causal(w) && LogsOwn(w) && a < |w.sends| && b < |w.sends|
    ensures Precedes(w.sends[a].msg.clock, w.sends[b].msg.clock) <==> Happened(w.sends, w.sends[a].msg, b)
    ensures Compare(w.sends[a].msg.clock, w.sends[b].msg.clock) == Equal <==> a == b
  {
    LeqIffHappened(w, a, b);
    LeqIffHappened(w, b, a);
    CompareMeaning(w.sends[a].msg.clock, w.sends[b].msg.clock);
    if Happened(w.sends, w.sends[a].msg, b) {
      NotBothWays(w.sends, a, b);
    }
    if Happened(w.sends, w.sends[b].msg, a) {
      NotBothWays(w.sends, b, a);
    }
  }

  /**
   In every run in which only honest keys have signed, a message's clock precedes another's
   exactly when it happened before it, and clocks are equal only for one message.
  */
  lemma ClocksDecideHappenedBefore(e: Setting, worlds: seq<World>, steps: seq<Step>, k: nat, a: nat, b: nat)
    requires Run(e, worlds, steps) && k <= |steps| && AllHonest(worlds[k])
    requires a < |worlds[k].sends| && b < |worlds[k].sends|
    ensures var sends := worlds[k].sends;
      && (Precedes(sends[a].msg.clock, sends[b].msg.clock) <==> Happened(sends, sends[a].msg, b))
      && (Compare(sends[a].msg.clock, sends[b].msg.clock) == Equal <==> a == b)
  {
    RunIsSafe(e, worlds, steps, k);
    RunIsCausal(e, worlds, steps, k);
    HonestIsLogged(e, worlds[k]);
    SafeLogsOwn(e, worlds[k]);
    CompareIffHappened(worlds[k], a, b);
  }

  /** A message's own entry is its place in its sender's log, counted from one. */
  lemma OwnEntryIsPlace(e: Setting, worlds: seq<World>, steps: seq<Step>, k: nat, n: string, i: nat)
    requires Run(e, worlds, steps) && k <= |steps| && AllHonest(worlds[k])
    requires n in worlds[k].nodes && i < |worlds[k].nodes[n].log|
    ensures OwnClock(worlds[k].nodes[n].log[i]) == i + 1
  {
    RunIsCausal(e, worlds, steps, k);
  }
}
