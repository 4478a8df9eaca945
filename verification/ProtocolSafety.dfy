/** Whole-run safety: what an honest node can ever accept from an honest sender. */
module ProtocolSafety {
  import opened Ledger
  import opened LedgerInvariant
  import opened Messages
  import opened Protocol
  import opened VectorClocks
  import R = LedgerRuns

  /** The messages of one sender, in order. */
  function From(acc: seq<Message>, sender: string): seq<Message> {
    if acc == [] then []
    else
      var front := From(acc[..|acc| - 1], sender);
      if acc[|acc| - 1].senderId == sender then front + [acc[|acc| - 1]] else front
  }

  /**
   `places` says where each accepted message stands in the log: strictly forward, so nothing is
   repeated or reordered.
  */
  ghost predicate EmbedsAt(taken: seq<Message>, log: seq<Message>, places: seq<nat>) {
    && |places| == |taken|
    && (forall k :: 0 <= k < |places| ==> places[k] < |log| && log[places[k]] == Payload(taken[k]))
    && (forall k, l :: 0 <= k < l < |places| ==> places[k] < places[l])
  }

  lemma {:induction false} FromMeaning(acc: seq<Message>, sender: string)
    ensures forall m :: m in From(acc, sender) <==> m in acc && m.senderId == sender
  {
    if acc != [] {
      assert acc == acc[..|acc| - 1] + [acc[|acc| - 1]];
      FromMeaning(acc[..|acc| - 1], sender);
    }
  }

  ghost predicate Rising(taken: seq<Message>) {
    forall k, l :: 0 <= k < l < |taken| ==> OwnClock(taken[k]) < OwnClock(taken[l])
  }

  lemma LastIsHighest(acc: seq<Message>, x: Message)
    requires ClocksRise(acc) && AllClocked(acc) && acc != []
    requires x in acc[..|acc| - 1] && x.senderId == acc[|acc| - 1].senderId
    ensures OwnClock(x) < OwnClock(acc[|acc| - 1])
  {
    var i :| 0 <= i < |acc| - 1 && acc[i] == x;
    assert acc[|acc| - 1] in acc;
  }

  lemma {:induction false} FromRises(acc: seq<Message>, sender: string)
    requires ClocksRise(acc) && AllClocked(acc)
    ensures Rising(From(acc, sender))
  {
    if acc != [] {
      var front, m := acc[..|acc| - 1], acc[|acc| - 1];
      assert forall x :: x in front ==> x in acc;
      FromRises(front, sender);
      FromMeaning(front, sender);
      var taken := From(front, sender);
      if m.senderId == sender {
        forall k | 0 <= k < |taken| ensures OwnClock(taken[k]) < OwnClock(m) {
          assert taken[k] in taken;
          LastIsHighest(acc, taken[k]);
        }
      }
    }
  }

  lemma {:induction false} PlacesInLog(taken: seq<Message>, log: seq<Message>) returns (places: seq<nat>)
    requires forall m :: m in taken ==> Payload(m) in log
    ensures |places| == |taken|
    ensures forall k :: 0 <= k < |places| ==> places[k] < |log| && log[places[k]] == Payload(taken[k])
  {
    if taken == [] {
      places := [];
    } else {
      var n := |taken| - 1;
      var front := PlacesInLog(taken[..n], log);
      assert taken[n] in taken;
      var last :| 0 <= last < |log| && log[last] == Payload(taken[n]);
      places := front + [last];
    }
  }

  lemma PlacesRise(e: Setting, i: string, taken: seq<Message>, log: seq<Message>, places: seq<nat>)
    requires LogOk(e, i, log) && |places| == |taken| && Rising(taken)
    requires forall k :: 0 <= k < |places| ==> places[k] < |log| && log[places[k]] == Payload(taken[k])
    ensures EmbedsAt(taken, log, places)
  {
    forall k, l | 0 <= k < l < |places| ensures places[k] < places[l] {
      assert OwnClock(log[places[k]]) == OwnClock(taken[k]) < OwnClock(taken[l]) == OwnClock(log[places[l]]);
    }
  }

  lemma AcceptedComesFromLog(e: Setting, w: World, i: string, j: string)
    requires Safe(e, w) && i in w.nodes && j in w.nodes
    ensures forall m :: m in w.nodes[j].accepted && m.senderId == i ==> Payload(m) in w.nodes[i].log
    ensures ClocksRise(w.nodes[j].accepted) && AllClocked(w.nodes[j].accepted)
    ensures LogOk(e, i, w.nodes[i].log)
  {
    assert NodeOk(e, w.signed, j, w.nodes[j]) && NodeOk(e, w.signed, i, w.nodes[i]);
  }

  lemma SafeMeansEmbedded(e: Setting, w: World, i: string, j: string) returns (places: seq<nat>)
    requires Safe(e, w) && i in w.nodes && j in w.nodes
    ensures EmbedsAt(From(w.nodes[j].accepted, i), w.nodes[i].log, places)
  {
    AcceptedComesFromLog(e, w, i, j);
    FromMeaning(w.nodes[j].accepted, i);
    FromRises(w.nodes[j].accepted, i);
    places := PlacesInLog(From(w.nodes[j].accepted, i), w.nodes[i].log);
    PlacesRise(e, i, From(w.nodes[j].accepted, i), w.nodes[i].log, places);
  }

  /**
   In every run, whatever the foreign peers and the network do and whatever has been evicted,
   what an honest node has accepted from an honest sender is a subsequence of what that sender
   sent: in its order, without repeats and without forgeries.
  */
  lemma AcceptedIsSubsequenceOfSent(e: Setting, worlds: seq<World>, steps: seq<Step>, k: nat, i: string, j: string)
    returns (places: seq<nat>)
    requires Run(e, worlds, steps) && k <= |steps| && i in worlds[k].nodes && j in worlds[k].nodes
    ensures EmbedsAt(From(worlds[k].nodes[j].accepted, i), worlds[k].nodes[i].log, places)
  {
    RunIsSafe(e, worlds, steps, k);
    places := SafeMeansEmbedded(e, worlds[k], i, j);
  }

  // ---- The fork guard

  /** In an honest log, a link is used once. */
  lemma LinksDiffer(e: Setting, n: string, log: seq<Message>, k: nat, l: nat)
    requires Ideal(e) && LogOk(e, n, log) && k < l < |log|
    ensures log[k].prevHash != log[l].prevHash
  {
    assert log[..l][l - 1] == log[l - 1];
    if k > 0 {
      assert log[..k][k - 1] == log[k - 1] && log[k - 1] == Payload(log[k - 1]) && log[l - 1] == Payload(log[l - 1]);
      assert OwnClock(log[k - 1]) < OwnClock(log[l - 1]);
    }
  }

  lemma PlaceInLog(e: Setting, w: World, i: string, m: Message) returns (k: nat)
    requires Safe(e, w) && i in w.nodes && m.senderId == i && Payload(m) in w.signed
    ensures k < |w.nodes[i].log| && w.nodes[i].log[k] == Payload(m)
  {
    k :| 0 <= k < |w.nodes[i].log| && w.nodes[i].log[k] == Payload(m);
  }

  lemma LinkDeterminesId(e: Setting, w: World, i: string, x: Message, m: Message)
    requires Ideal(e) && Safe(e, w) && i in w.nodes && x.senderId == m.senderId == i
    requires Payload(x) in w.signed && Payload(m) in w.signed && x.prevHash == m.prevHash
    ensures x.id == m.id
  {
    var k := PlaceInLog(e, w, i, x);
    var l := PlaceInLog(e, w, i, m);
    if k < l {
      LinksDiffer(e, i, w.nodes[i].log, k, l);
    } else if l < k {
      LinksDiffer(e, i, w.nodes[i].log, l, k);
    }
  }

  lemma ForkHasRival(s: LedgerState, acc: seq<Message>, m: Message) returns (x: Message)
    requires ForkInv(s, acc) && Judge(s, m).Fork?
    ensures x in acc && ForkKey(x) == ForkKey(m) && x.id != m.id
  {
    x :| x in acc && x.prevHash != "" && ForkKey(x) == ForkKey(m) && x.id == s.forks[ForkKey(m)];
  }

  lemma NodeFacts(e: Setting, w: World, j: string)
    requires Safe(e, w) && j in w.nodes
    ensures '|' !in j && ClockInv(w.nodes[j].ledger, w.nodes[j].accepted)
      && ForkInv(w.nodes[j].ledger, w.nodes[j].accepted)
    ensures forall m :: m in w.nodes[j].accepted ==> Payload(m) in w.signed && '|' !in m.senderId
    ensures forall p :: p in w.nodes[j].log ==> p in w.signed && p.id != "" && OwnClock(p) > 0 && p.senderId == j
  {
    assert NodeOk(e, w.signed, j, w.nodes[j]);
  }

  lemma SafeMeansNoFork(e: Setting, w: World, i: string, j: string, m: Message)
    requires Ideal(e) && Safe(e, w) && i in w.nodes && j in w.nodes
    requires m.senderId == i && Payload(m) in w.nodes[i].log
    ensures !Judge(w.nodes[j].ledger, m).Fork?
  {
    NodeFacts(e, w, i);
    NodeFacts(e, w, j);
    if Judge(w.nodes[j].ledger, m).Fork? {
      var x := ForkHasRival(w.nodes[j].ledger, w.nodes[j].accepted, m);
      R.ForkKeyIsInjective(x, m);
      LinkDeterminesId(e, w, i, x, m);
    }
  }

  /** No honest message is ever taken for a fork, at any honest node. */
  lemma HonestIsNeverAFork(e: Setting, worlds: seq<World>, steps: seq<Step>, k: nat, i: string, j: string, m: Message)
    requires Run(e, worlds, steps) && k <= |steps| && i in worlds[k].nodes && j in worlds[k].nodes
    requires m.senderId == i && Payload(m) in worlds[k].nodes[i].log
    ensures !Judge(worlds[k].nodes[j].ledger, m).Fork?
  {
    RunIsSafe(e, worlds, steps, k);
    SafeMeansNoFork(e, worlds[k], i, j, m);
  }

  lemma ClockGuardMeaning(s: LedgerState, acc: seq<Message>, m: Message)
    requires ClockInv(s, acc) && OwnClock(m) > 0
    ensures OwnClock(m) > At(s.senderClock, m.senderId) <==>
      forall x :: x in acc && x.senderId == m.senderId ==> OwnClock(x) < OwnClock(m)
  {
    if At(s.senderClock, m.senderId) > 0 {
      var x :| x in acc && x.senderId == m.senderId && OwnClock(x) == At(s.senderClock, m.senderId);
    }
  }

  lemma GuardsLeft(s: LedgerState, acc: seq<Message>, m: Message)
    requires ClockInv(s, acc) && m.id != "" && OwnClock(m) > 0 && !Judge(s, m).Fork?
    ensures Judge(s, m).Accepted? <==>
            m.id !in s.ids && forall x :: x in acc && x.senderId == m.senderId ==> OwnClock(x) < OwnClock(m)
  {
    ClockGuardMeaning(s, acc, m);
  }

  lemma LoggedFacts(e: Setting, w: World, i: string, m: Message)
    requires Safe(e, w) && i in w.nodes && Payload(m) in w.nodes[i].log
    ensures m.id != "" && OwnClock(m) > 0
  {
    NodeFacts(e, w, i);
    assert OwnClock(m) == OwnClock(Payload(m));
  }

  /**
   An honest message is turned away only as a repeat, or because its sender's own later message was
   accepted before it.
  */
  lemma WhyHonestIsRefused(e: Setting, worlds: seq<World>, steps: seq<Step>, k: nat, i: string, j: string, m: Message)
    requires Run(e, worlds, steps) && k <= |steps| && i in worlds[k].nodes && j in worlds[k].nodes
    requires m.senderId == i && Payload(m) in worlds[k].nodes[i].log
    ensures var node := worlds[k].nodes[j];
      Judge(node.ledger, m).Accepted? <==>
      m.id !in node.ledger.ids && forall x :: x in node.accepted && x.senderId == i ==> OwnClock(x) < OwnClock(m)
  {
    RunIsSafe(e, worlds, steps, k);
    SafeMeansNoFork(e, worlds[k], i, j, m);
    LoggedFacts(e, worlds[k], i, m);
    NodeFacts(e, worlds[k], j);
    GuardsLeft(worlds[k].nodes[j].ledger, worlds[k].nodes[j].accepted, m);
  }
}
