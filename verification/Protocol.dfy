/**
 The chat room as a transition system (the send, receive and sync steps of cmd/main.go): honest
 nodes, a network that may lose, repeat and reorder packets, and foreign peers that may send
 anything and sign with any key but an honest node's.

 Ed25519 is ideal: a message verifies exactly when its payload has been signed with its sender's
 key, and `signed` holds those payloads.
*/
module Protocol {
  import opened Ledger
  import opened LedgerInvariant
  import opened Messages
  import opened Orders
  import opened VectorClocks
  import R = LedgerRuns
  import Repair = LedgerRepair
  import V = Validator

  datatype Packet =
    | Chat(msg: Message)
    | SyncRequest(from: string, known: seq<string>)
    | SyncResponse(from: string, msgs: seq<Message>)

  /**
   One honest node. `sending` holds between counting a send and taking its snapshot; `unmerged`
   are messages accepted whose clocks are still to be merged. `log`, `accepted` and `seen` are
   history: payloads sent, messages accepted, and payloads sent or merged.
  */
  datatype NodeState = NodeState(
    ledger: LedgerState,
    vc: Clock,
    prevHash: string,
    sending: bool,
    unmerged: set<Message>,
    log: seq<Message>,
    accepted: seq<Message>,
    seen: set<Message>)

  /** A send, with what its node had sent or merged before. */
  datatype Sent = Sent(msg: Message, past: set<Message>)

  datatype World = World(nodes: map<string, NodeState>, network: set<Packet>, signed: set<Message>, sends: seq<Sent>)

  /** `hash` stands for SHA-256 (section 6.2 of FIPS 180-4) over the signable bytes. */
  datatype Setting = Setting(hash: Message -> string, decodes: string -> bool)

  ghost predicate Ideal(e: Setting) {
    && (forall a, b :: e.hash(a) == e.hash(b) ==> Payload(a) == Payload(b))
    && (forall a :: e.hash(a) != "")
    && (forall id :: e.decodes(id) ==> '|' !in id)
  }

  datatype Action =
    | BeginSend
    | FinishSend(msg: Message)
    | AddOwn(msg: Message)
    | Deliver(packet: Packet, msg: Message)
    | Merge(msg: Message)

  datatype Step =
    | Act(n: string, action: Action)
    | Publish(n: string, msg: Message)
    | Ask(n: string, known: seq<string>)
    | Answer(n: string, packet: Packet)
    | Lose(packet: Packet)
    | Inject(packet: Packet)
    | ForeignSign(msg: Message)

  function NewNode(max: nat): NodeState {
    NodeState(Fresh(max), map[], "", false, {}, [], [], {})
  }

  ghost predicate Init(e: Setting, w: World) {
    && w.network == {} && w.signed == {} && w.sends == []
    && forall n :: n in w.nodes ==>
         e.decodes(n) && w.nodes[n].ledger.max > 0 && w.nodes[n] == NewNode(w.nodes[n].ledger.max)
  }

  function CryptoOf(e: Setting, signed: set<Message>): V.Crypto {
    V.Crypto(e.decodes, m => true, m => if Payload(m) in signed then V.Valid else V.Wrong)
  }

  /** The messages a packet carries to the ledger. */
  function Carried(p: Packet): seq<Message> {
    match p
    case Chat(m) => [m]
    case SyncRequest(_, _) => []
    case SyncResponse(_, msgs) => msgs
  }

  function Counted(n: string, node: NodeState): NodeState {
    node.(vc := Incremented(node.vc, n), sending := true)
  }

  ghost predicate MaySend(w: World, n: string, m: Message) {
    && n in w.nodes && w.nodes[n].sending
    && m == Unsigned(m.id, n, m.senderName, m.content, m.mentions, m.mentionAll, w.nodes[n].vc, w.nodes[n].prevHash,
                     m.isAI)
    && m.id != "" && (forall p :: p in w.signed ==> p.id != m.id)
  }

  function AfterSend(e: Setting, node: NodeState, m: Message): NodeState {
    node.(sending := false, prevHash := e.hash(m), log := node.log + [m], seen := node.seen + {m})
  }

  /** Offering a message to a node's ledger; only a received message is queued for merging. */
  ghost predicate Takes(node: NodeState, m: Message, own: bool, next: NodeState) {
    var v := Judge(node.ledger, m);
    && (if own then Offer(node.ledger, m, next.ledger) else R.Received(node.ledger, m, next.ledger))
    && next == node.(ledger := next.ledger,
                     accepted := Extended(node.accepted, m, v),
                     unmerged := if v.Accepted? && !own then node.unmerged + {m} else node.unmerged)
  }

  function AfterMerge(node: NodeState, m: Message): NodeState {
    node.(vc := Merged(node.vc, m.clock), seen := node.seen + {Payload(m)}, unmerged := node.unmerged - {m})
  }

  ghost predicate NodeStep(e: Setting, w: World, n: string, a: Action, next: NodeState) {
    && n in w.nodes
    && var node := w.nodes[n];
       match a
       case BeginSend => !node.sending && next == Counted(n, node)
       case FinishSend(m) => MaySend(w, n, m) && next == AfterSend(e, node, m)
       case AddOwn(m) => Payload(m) in node.log && Takes(node, m, true, next)
       case Deliver(p, m) =>
         p in w.network && m in Carried(p) && V.WellSigned(CryptoOf(e, w.signed), m) && Takes(node, m, false, next)
       case Merge(m) => m in node.unmerged && next == AfterMerge(node, m)
  }

  /** The world after node `n` has become `next` by action `a`. */
  function Moved(w: World, n: string, a: Action, next: NodeState): World
    requires n in w.nodes
  {
    var stepped := w.(nodes := w.nodes[n := next]);
    if a.FinishSend? then stepped.(signed := w.signed + {a.msg}, sends := w.sends + [Sent(a.msg, w.nodes[n].seen)])
    else stepped
  }

  ghost predicate Next(e: Setting, w: World, step: Step, t: World) {
    match step
    case Act(n, a) =>
      n in t.nodes && NodeStep(e, w, n, a, t.nodes[n]) && t == Moved(w, n, a, t.nodes[n])
    case Publish(n, m) =>
      n in w.nodes && Payload(m) in w.nodes[n].log && t == w.(network := w.network + {Chat(m)})
    case Ask(n, known) =>
      && n in w.nodes && Elements(known) == w.nodes[n].ledger.ids
      && t == w.(network := w.network + {SyncRequest(n, known)})
    case Answer(n, p) =>
      && n in w.nodes && p in w.network && p.SyncRequest? && p.from != n
      && var missing := MissingFrom(w.nodes[n].ledger, p.known, Repair.SYNC_LIMIT);
         missing != [] && t == w.(network := w.network + {SyncResponse(n, missing)})
    case Lose(p) => t == w.(network := w.network - {p})
    case Inject(p) => t == w.(network := w.network + {p})
    case ForeignSign(m) => m.senderId !in w.nodes && m == Payload(m) && t == w.(signed := w.signed + {m})
  }

  ghost predicate Run(e: Setting, worlds: seq<World>, steps: seq<Step>) {
    && Ideal(e)
    && |worlds| == |steps| + 1
    && Init(e, worlds[0])
    && forall i {:trigger steps[i]} :: 0 <= i < |steps| ==> Next(e, worlds[i], steps[i], worlds[i + 1])
  }

  // ---- What every node keeps

  /** A send log: rising own clocks, and each message linked to the one before. */
  ghost predicate LogOk(e: Setting, n: string, log: seq<Message>) {
    && (forall k :: 0 <= k < |log| ==>
          log[k].senderId == n && log[k].id != "" && log[k] == Payload(log[k]) && OwnClock(log[k]) > 0)
    && (forall k, l :: 0 <= k < l < |log| ==> OwnClock(log[k]) < OwnClock(log[l]))
    && (forall k :: 0 <= k < |log| ==> log[k].prevHash == Link(e, log[..k]))
  }

  /** What the next message of a log must carry as its previous hash. */
  function Link(e: Setting, log: seq<Message>): string {
    if log == [] then "" else e.hash(log[|log| - 1])
  }

  /** The sending side of a node. */
  ghost predicate SenderOk(e: Setting, signed: set<Message>, n: string, node: NodeState) {
    && '|' !in n
    && LogOk(e, n, node.log) && node.prevHash == Link(e, node.log)
    && (forall k :: 0 <= k < |node.log| ==> node.log[k] in signed && OwnClock(node.log[k]) <= At(node.vc, n))
    && (node.sending ==>
          At(node.vc, n) > 0 && forall k :: 0 <= k < |node.log| ==> OwnClock(node.log[k]) < At(node.vc, n))
  }

  /** The receiving side of a node. */
  ghost predicate ReceiverOk(signed: set<Message>, node: NodeState) {
    && Inv(node.ledger, node.accepted)
    && (forall m :: m in node.accepted ==> Payload(m) in signed && OwnClock(m) > 0 && '|' !in m.senderId)
    && (forall m :: m in node.unmerged ==> Payload(m) in signed)
  }

  ghost predicate NodeOk(e: Setting, signed: set<Message>, n: string, node: NodeState) {
    SenderOk(e, signed, n, node) && ReceiverOk(signed, node)
  }

  ghost predicate SignedOk(w: World) {
    forall p :: p in w.signed ==> p == Payload(p) && (p.senderId in w.nodes ==> p in w.nodes[p.senderId].log)
  }

  ghost predicate Safe(e: Setting, w: World) {
    && SignedOk(w)
    && forall n :: n in w.nodes ==> NodeOk(e, w.signed, n, w.nodes[n])
  }

  lemma InitIsSafe(e: Setting, w: World)
    requires Ideal(e) && Init(e, w)
    ensures Safe(e, w)
  {
    forall n | n in w.nodes ensures NodeOk(e, w.signed, n, w.nodes[n]) {
      FreshInv(w.nodes[n].ledger.max);
    }
  }

  lemma MoreSigned(e: Setting, signed: set<Message>, more: set<Message>, n: string, node: NodeState)
    requires NodeOk(e, signed, n, node) && signed <= more
    ensures NodeOk(e, more, n, node)
  {
  }

  lemma TakesKeepsReceiver(signed: set<Message>, node: NodeState, m: Message, own: bool, next: NodeState)
    requires ReceiverOk(signed, node) && Takes(node, m, own, next)
    requires Payload(m) in signed && OwnClock(m) > 0 && '|' !in m.senderId
    ensures ReceiverOk(signed, next)
  {
    if own {
      OfferKeepsInv(node.ledger, node.accepted, m, next.ledger);
    } else {
      R.ReceiveKeepsInv(node.ledger, node.accepted, m, next.ledger);
    }
  }

  lemma LogGrows(e: Setting, n: string, log: seq<Message>, m: Message)
    requires LogOk(e, n, log) && m == Payload(m) && m.senderId == n && m.id != "" && m.prevHash == Link(e, log)
    requires OwnClock(m) > 0 && forall k :: 0 <= k < |log| ==> OwnClock(log[k]) < OwnClock(m)
    ensures LogOk(e, n, log + [m])
  {
    var more := log + [m];
    forall k | 0 <= k < |more| ensures more[k].prevHash == Link(e, more[..k]) {
      assert more[..k] == log[..k];
      assert log[..|log|] == log;
    }
  }

  lemma SendKeepsSender(e: Setting, w: World, n: string, m: Message)
    requires n in w.nodes && SenderOk(e, w.signed, n, w.nodes[n]) && MaySend(w, n, m)
    ensures SenderOk(e, w.signed + {m}, n, AfterSend(e, w.nodes[n], m))
  {
    LogGrows(e, n, w.nodes[n].log, m);
  }

  lemma MergeKeepsSender(e: Setting, signed: set<Message>, n: string, node: NodeState, m: Message)
    requires SenderOk(e, signed, n, node)
    ensures SenderOk(e, signed, n, AfterMerge(node, m))
  {
    MergedIsLeastUpperBound(node.vc, m.clock, map[]);
    assert At(node.vc, n) <= At(Merged(node.vc, m.clock), n);
  }

  /** What an action does to the parts of a node that clocks and logs live in. */
  ghost predicate Shape(w: World, n: string, a: Action, next: NodeState) {
    && n in w.nodes
    && var node := w.nodes[n];
       match a
       case BeginSend => !node.sending && next == Counted(n, node)
       case FinishSend(m) =>
         && MaySend(w, n, m) && next.log == node.log + [m] && next.seen == node.seen + {m}
         && next.vc == node.vc && !next.sending
       case Merge(m) => m in node.unmerged && next == AfterMerge(node, m)
       case _ => next.vc == node.vc && next.log == node.log && next.seen == node.seen && next.sending == node.sending
  }

  lemma ActionShape(e: Setting, w: World, n: string, a: Action, next: NodeState)
    requires NodeStep(e, w, n, a, next)
    ensures Shape(w, n, a, next)
  {
  }

  function SignedAfter(w: World, a: Action): set<Message> {
    if a.FinishSend? then w.signed + {a.msg} else w.signed
  }

  lemma OwnTakesKeepsNode(e: Setting, w: World, n: string, m: Message, next: NodeState)
    requires n in w.nodes && NodeOk(e, w.signed, n, w.nodes[n]) && Payload(m) in w.nodes[n].log
      && Takes(w.nodes[n], m, true, next)
    ensures NodeOk(e, w.signed, n, next)
  {
    var log := w.nodes[n].log;
    var k :| 0 <= k < |log| && log[k] == Payload(m);
    assert OwnClock(m) == OwnClock(log[k]);
    TakesKeepsReceiver(w.signed, w.nodes[n], m, true, next);
  }

  lemma DeliveredKeepsNode(e: Setting, w: World, n: string, m: Message, next: NodeState)
    requires Ideal(e) && n in w.nodes && NodeOk(e, w.signed, n, w.nodes[n])
    requires V.WellSigned(CryptoOf(e, w.signed), m) && Takes(w.nodes[n], m, false, next)
    ensures NodeOk(e, w.signed, n, next)
  {
    TakesKeepsReceiver(w.signed, w.nodes[n], m, false, next);
  }

  lemma NodeStepKeepsNode(e: Setting, w: World, n: string, a: Action, next: NodeState)
    requires Ideal(e) && Safe(e, w) && NodeStep(e, w, n, a, next)
    ensures NodeOk(e, SignedAfter(w, a), n, next)
    ensures next.log == if a.FinishSend? then w.nodes[n].log + [a.msg] else w.nodes[n].log
  {
    match a
    case BeginSend =>
    case FinishSend(m) => SendKeepsSender(e, w, n, m);
    case AddOwn(m) => OwnTakesKeepsNode(e, w, n, m, next);
    case Deliver(p, m) => DeliveredKeepsNode(e, w, n, m, next);
    case Merge(m) => MergeKeepsSender(e, w.signed, n, w.nodes[n], m);
  }

  lemma ActKeepsSigned(w: World, n: string, a: Action, next: NodeState)
    requires SignedOk(w) && n in w.nodes
    requires next.log == if a.FinishSend? then w.nodes[n].log + [a.msg] else w.nodes[n].log
    requires a.FinishSend? ==> a.msg == Payload(a.msg) && a.msg.senderId == n
    ensures SignedOk(Moved(w, n, a, next))
  {
    var t := Moved(w, n, a, next);
    forall p | p in t.signed && p.senderId in t.nodes ensures p in t.nodes[p.senderId].log {
      if p in w.signed {
        assert p in w.nodes[p.senderId].log;
      } else {
        assert next.log[|next.log| - 1] == p;
      }
    }
  }

  lemma ActKeepsNodes(e: Setting, w: World, n: string, a: Action, next: NodeState, x: string)
    requires n in w.nodes && x in w.nodes && NodeOk(e, w.signed, x, w.nodes[x]) && NodeOk(e, SignedAfter(w, a), n, next)
    ensures NodeOk(e, Moved(w, n, a, next).signed, x, Moved(w, n, a, next).nodes[x])
  {
    var t := Moved(w, n, a, next);
    assert t.signed == SignedAfter(w, a);
    if x == n {
      assert t.nodes[x] == next;
    } else {
      assert t.nodes[x] == w.nodes[x];
      MoreSigned(e, w.signed, t.signed, x, w.nodes[x]);
    }
  }

  lemma ActIsSafe(e: Setting, w: World, n: string, a: Action, next: NodeState)
    requires Ideal(e) && Safe(e, w) && NodeStep(e, w, n, a, next)
    ensures Safe(e, Moved(w, n, a, next))
  {
    var t := Moved(w, n, a, next);
    NodeStepKeepsNode(e, w, n, a, next);
    ActKeepsSigned(w, n, a, next);
    forall x | x in t.nodes ensures NodeOk(e, t.signed, x, t.nodes[x]) {
      ActKeepsNodes(e, w, n, a, next, x);
    }
  }

  lemma NextIsSafe(e: Setting, w: World, step: Step, t: World)
    requires Ideal(e) && Safe(e, w) && Next(e, w, step, t)
    ensures Safe(e, t)
  {
    match step
    case Act(n, a) => ActIsSafe(e, w, n, a, t.nodes[n]);
    case ForeignSign(m) =>
      forall x | x in t.nodes ensures NodeOk(e, t.signed, x, t.nodes[x]) {
        MoreSigned(e, w.signed, t.signed, x, w.nodes[x]);
      }
    case _ =>
  }

  /** Every state of every run is safe. */
  lemma {:induction false} RunIsSafe(e: Setting, worlds: seq<World>, steps: seq<Step>, i: nat)
    requires Run(e, worlds, steps) && i <= |steps|
    ensures Safe(e, worlds[i])
  {
    if i == 0 {
      InitIsSafe(e, worlds[0]);
    } else {
      RunIsSafe(e, worlds, steps, i - 1);
      assert Next(e, worlds[i - 1], steps[i - 1], worlds[i - 1 + 1]);
      NextIsSafe(e, worlds[i - 1], steps[i - 1], worlds[i]);
    }
  }

  /** A step changes at most the node that acts. */
  lemma NextNodes(e: Setting, w: World, step: Step, t: World)
    requires Next(e, w, step, t)
    ensures if step.Act?
            then step.n in w.nodes && step.n in t.nodes && t.nodes == w.nodes[step.n := t.nodes[step.n]]
                 && NodeStep(e, w, step.n, step.action, t.nodes[step.n])
            else t.nodes == w.nodes
  {
  }

  /** What holds at first and is kept by each step holds all along. */
  lemma {:induction false} AlongWorlds(p: World -> bool, worlds: seq<World>, k: nat)
    requires k < |worlds| && p(worlds[0]) && forall i :: 0 <= i < k && p(worlds[i]) ==> p(worlds[i + 1])
    ensures p(worlds[k])
  {
    if k > 0 {
      AlongWorlds(p, worlds, k - 1);
      assert p(worlds[k - 1 + 1]);
    }
  }
}
