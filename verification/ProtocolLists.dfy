/** Short lists over whole runs of the chat room, and repairs between its honest nodes. */
module ProtocolLists {
  import opened LedgerInvariant
  import opened Messages
  import opened Protocol
  import R = LedgerRuns

  ghost predicate ListsShort(w: World) {
    forall n :: n in w.nodes ==> ShortInv(w.nodes[n].ledger, w.nodes[n].accepted)
  }

  lemma TakesKeepsShort(signed: set<Message>, node: NodeState, m: Message, own: bool, next: NodeState)
    requires ReceiverOk(signed, node) && ShortInv(node.ledger, node.accepted) && Takes(node, m, own, next)
    ensures ShortInv(next.ledger, next.accepted)
  {
    R.StepKeepsShort(node.ledger, node.accepted, if own then R.Add(m) else R.Receive(m), next.ledger);
  }

  lemma ActionKeepsShort(e: Setting, w: World, n: string, a: Action, next: NodeState)
    requires NodeStep(e, w, n, a, next) && ReceiverOk(w.signed, w.nodes[n])
    requires ShortInv(w.nodes[n].ledger, w.nodes[n].accepted)
    ensures ShortInv(next.ledger, next.accepted)
  {
    match a
    case AddOwn(m) => TakesKeepsShort(w.signed, w.nodes[n], m, true, next);
    case Deliver(p, m) => TakesKeepsShort(w.signed, w.nodes[n], m, false, next);
    case _ =>
  }

  lemma NextKeepsShort(e: Setting, w: World, step: Step, t: World)
    requires (forall n :: n in w.nodes ==> ReceiverOk(w.signed, w.nodes[n])) && ListsShort(w) && Next(e, w, step, t)
    ensures ListsShort(t)
  {
    NextNodes(e, w, step, t);
    if step.Act? {
      ActionKeepsShort(e, w, step.n, step.action, t.nodes[step.n]);
    }
  }

  lemma SafeReceivers(e: Setting, w: World)
    requires Safe(e, w)
    ensures forall n :: n in w.nodes ==> ReceiverOk(w.signed, w.nodes[n])
  {
    forall n | n in w.nodes ensures ReceiverOk(w.signed, w.nodes[n]) {
      assert NodeOk(e, w.signed, n, w.nodes[n]);
    }
  }

  lemma NextAtKeepsShort(e: Setting, worlds: seq<World>, steps: seq<Step>, k: nat)
    requires Run(e, worlds, steps) && k < |steps| && ListsShort(worlds[k])
    ensures ListsShort(worlds[k + 1])
  {
    RunIsSafe(e, worlds, steps, k);
    SafeReceivers(e, worlds[k]);
    assert Next(e, worlds[k], steps[k], worlds[k + 1]);
    NextKeepsShort(e, worlds[k], steps[k], worlds[k + 1]);
  }

  lemma InitIsShort(e: Setting, w: World)
    requires Init(e, w)
    ensures ListsShort(w)
  {
    forall n | n in w.nodes ensures ShortInv(w.nodes[n].ledger, w.nodes[n].accepted) {
      FreshInv(w.nodes[n].ledger.max);
    }
  }

  /** In every run small ledgers stay steady, and keep honest senders in order. */
  lemma RunIsShort(e: Setting, worlds: seq<World>, steps: seq<Step>, k: nat)
    requires Run(e, worlds, steps) && k <= |steps|
    ensures ListsShort(worlds[k])
  {
    var p := w => ListsShort(w);
    InitIsShort(e, worlds[0]);
    forall i | 0 <= i < k && p(worlds[i]) ensures p(worlds[i + 1]) {
      NextAtKeepsShort(e, worlds, steps, i);
    }
    AlongWorlds(p, worlds, k);
  }
}
