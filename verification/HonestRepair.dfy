/** Repairs between nodes of a run in which only honest keys have signed. */
module HonestRepair {
  import opened Agreement
  import opened Causality
  import opened Ledger
  import opened LedgerInvariant
  import opened LedgerRepair
  import opened Messages
  import opened MessageOrder
  import opened Protocol
  import opened ProtocolLists
  import O = LedgerOrder
  import R = LedgerRuns
  import S = ProtocolSafety

  lemma SignedAgree(e: Setting, w: World, a: Message, b: Message)
    requires Ideal(e) && Safe(e, w) && Logged(w) && DistinctIds(w.signed)
    requires Payload(a) in w.signed && Payload(b) in w.signed && '|' !in a.senderId && '|' !in b.senderId
    ensures a.id == b.id ==> a.senderId == b.senderId && OwnClock(a) == OwnClock(b)
    ensures a.prevHash != "" && b.prevHash != "" && ForkKey(a) == ForkKey(b) ==> a.id == b.id
  {
    if a.id == b.id {
      assert Payload(a) == Payload(b);
      assert OwnClock(a) == OwnClock(Payload(a)) && OwnClock(b) == OwnClock(Payload(b));
      assert a.senderId == Payload(a).senderId && b.senderId == Payload(b).senderId;
    }
    if a.prevHash != "" && b.prevHash != "" && ForkKey(a) == ForkKey(b) {
      R.ForkKeyIsInjective(a, b);
      SignedIsNamed(e, w, a);
      S.LinkDeterminesId(e, w, a.senderId, a, b);
    }
  }

  /** What two honest nodes have accepted never clashes. */
  lemma AcceptedAgree(e: Setting, w: World, i: string, j: string)
    requires Ideal(e) && Safe(e, w) && Logged(w) && DistinctIds(w.signed) && i in w.nodes && j in w.nodes
    ensures IdsAgree(w.nodes[j].accepted, w.nodes[i].accepted) && LinksAgree(w.nodes[j].accepted, w.nodes[i].accepted)
  {
    S.NodeFacts(e, w, i);
    S.NodeFacts(e, w, j);
    forall a, b | a in w.nodes[j].accepted && b in w.nodes[i].accepted
      ensures a.id == b.id ==> a.senderId == b.senderId && OwnClock(a) == OwnClock(b)
      ensures a.prevHash != "" && b.prevHash != "" && ForkKey(a) == ForkKey(b) ==> a.id == b.id
    {
      SignedAgree(e, w, a, b);
    }
  }

  /** In an honest run a list stands in its senders' order, if its order is total or its ledger small. */
  lemma HonestListsStandInOrder(e: Setting, worlds: seq<World>, steps: seq<Step>, k: nat, i: string)
    requires Run(e, worlds, steps) && k <= |steps| && AllHonest(worlds[k]) && i in worlds[k].nodes
    requires var node := worlds[k].nodes[i]; Orderly(node.accepted) || Small(node.ledger, node.accepted)
    ensures SendersInOrder(worlds[k].nodes[i].ledger.messages) && Chained(worlds[k].nodes[i].accepted)
  {
    var node := worlds[k].nodes[i];
    CausalWorld(e, worlds, steps, k);
    NodeAccepted(e, worlds[k], i);
    AcceptedAreChains(worlds[k], node.accepted);
    RunIsShort(e, worlds, steps, k);
    ChainsStandInOrder(node.ledger, node.accepted);
  }

  lemma AnswerAgrees(src: LedgerState, acc: seq<Message>, known: seq<string>, had: seq<Message>)
    requires Inv(src, acc) && AllClocked(acc) && IdsAgree(had, acc) && LinksAgree(had, acc)
    ensures LinksAgree(had, MissingFrom(src, known, SYNC_LIMIT))
  {
    AnswerIsIssuable(src, acc, known, SYNC_LIMIT);
  }

  lemma OrderedRepairIff(src: LedgerState, acc: seq<Message>, known: seq<string>, states: seq<LedgerState>,
                         had: seq<Message>)
    requires Inv(src, acc) && AllClocked(acc) && SendersInOrder(src.messages) && IdsAgree(had, acc)
      && LinksAgree(had, acc)
    requires Repairs(states, had, MissingFrom(src, known, SYNC_LIMIT))
    ensures var answer := MissingFrom(src, known, SYNC_LIMIT);
      AllTaken(states, Receives(answer)) <==> forall m :: m in answer ==> Ahead(had, m)
  {
    AnswerIsIssuable(src, acc, known, SYNC_LIMIT);
    AnswerAgrees(src, acc, known, had);
    RepairIsCompleteIff(src, acc, known, states, had);
  }

  /**
   Between two nodes of an honest run, whatever the joiner heard live and whatever it says it knows,
   the repair is complete exactly when the joiner had accepted nothing of a sender as late as a
   message it lacks.
  */
  lemma HonestRepairIff(e: Setting, worlds: seq<World>, steps: seq<Step>, k: nat, i: string, j: string,
                        known: seq<string>, states: seq<LedgerState>)
    requires Run(e, worlds, steps) && k <= |steps| && AllHonest(worlds[k])
    requires i in worlds[k].nodes && j in worlds[k].nodes
    requires var node := worlds[k].nodes[i]; Orderly(node.accepted) || Small(node.ledger, node.accepted)
    requires R.Steps(states, Receives(MissingFrom(worlds[k].nodes[i].ledger, known, SYNC_LIMIT)))
    requires states[0] == worlds[k].nodes[j].ledger
    ensures var answer := MissingFrom(worlds[k].nodes[i].ledger, known, SYNC_LIMIT);
      AllTaken(states, Receives(answer)) <==> forall m :: m in answer ==> Ahead(worlds[k].nodes[j].accepted, m)
  {
    var w := worlds[k];
    CausalWorld(e, worlds, steps, k);
    NodeAccepted(e, w, i);
    NodeAccepted(e, w, j);
    AcceptedAgree(e, w, i, j);
    HonestListsStandInOrder(e, worlds, steps, k, i);
    OrderedRepairIff(w.nodes[i].ledger, w.nodes[i].accepted, known, states, w.nodes[j].accepted);
  }

  /** A joiner that has heard nothing sees just what a small ledger shows, even where the order goes round. */
  lemma HonestShortRepairKeepsList(e: Setting, worlds: seq<World>, steps: seq<Step>, k: nat, i: string,
                                   states: seq<LedgerState>)
    requires Run(e, worlds, steps) && k <= |steps| && AllHonest(worlds[k]) && i in worlds[k].nodes
    requires Small(worlds[k].nodes[i].ledger, worlds[k].nodes[i].accepted)
    requires R.Steps(states, Receives(MissingFrom(worlds[k].nodes[i].ledger, [], SYNC_LIMIT))) && R.Blank(states[0])
    requires |worlds[k].nodes[i].ledger.messages| <= states[0].max
    ensures states[|states| - 1].messages == worlds[k].nodes[i].ledger.messages
  {
    RunIsSafe(e, worlds, steps, k);
    NodeAccepted(e, worlds[k], i);
    RunIsShort(e, worlds, steps, k);
    HonestListsStandInOrder(e, worlds, steps, k, i);
    O.ShortRepairKeepsList(worlds[k].nodes[i].ledger, worlds[k].nodes[i].accepted, states);
  }
}
