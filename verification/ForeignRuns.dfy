/** What clocks still tell when foreign keys have signed, with any numbers in their clocks. */
module ForeignRuns {
  import opened Causality
  import opened Messages
  import opened Protocol
  import opened VectorClocks

  /** A node's clock is above all it has seen, and a message's clock above all that went into it. */
  ghost predicate ClocksCover(w: World) {
    && (forall n, p :: n in w.nodes && p in w.nodes[n].seen ==> Leq(p.clock, w.nodes[n].vc))
    && PastsCovered(w.sends)
  }

  ghost predicate PastsCovered(sends: seq<Sent>) {
    forall b: nat, p :: b < |sends| && p in sends[b].past ==> Leq(p.clock, sends[b].msg.clock)
  }

  lemma CountRaises(c: Clock, n: string)
    ensures Leq(c, Incremented(c, n))
  {
  }

  lemma ActionKeepsSeenBelow(w: World, n: string, a: Action, next: NodeState)
    requires Shape(w, n, a, next) && forall p :: p in w.nodes[n].seen ==> Leq(p.clock, w.nodes[n].vc)
    ensures forall p :: p in next.seen ==> Leq(p.clock, next.vc)
  {
    match a
    case BeginSend => CountRaises(w.nodes[n].vc, n);
    case Merge(m) => MergedIsLeastUpperBound(w.nodes[n].vc, m.clock, map[]);
    case _ =>
  }

  lemma ActionKeepsPasts(w: World, n: string, a: Action, next: NodeState)
    requires Shape(w, n, a, next) && PastsCovered(w.sends)
    requires forall p :: p in w.nodes[n].seen ==> Leq(p.clock, w.nodes[n].vc)
    ensures PastsCovered(Moved(w, n, a, next).sends)
  {
  }

  lemma SendsStay(e: Setting, w: World, step: Step, t: World)
    requires Next(e, w, step, t)
    ensures if step.Act? then step.n in w.nodes && t.sends == Moved(w, step.n, step.action, t.nodes[step.n]).sends
            else t.sends == w.sends
  {
  }

  lemma NextKeepsCover(e: Setting, w: World, step: Step, t: World)
    requires Next(e, w, step, t) && ClocksCover(w)
    ensures ClocksCover(t)
  {
    NextNodes(e, w, step, t);
    SendsStay(e, w, step, t);
    if step.Act? {
      ActionShape(e, w, step.n, step.action, t.nodes[step.n]);
      ActionKeepsSeenBelow(w, step.n, step.action, t.nodes[step.n]);
      ActionKeepsPasts(w, step.n, step.action, t.nodes[step.n]);
    }
  }

  lemma NextAtKeepsCover(e: Setting, worlds: seq<World>, steps: seq<Step>, k: nat)
    requires Run(e, worlds, steps) && k < |steps| && ClocksCover(worlds[k])
    ensures ClocksCover(worlds[k + 1])
  {
    assert Next(e, worlds[k], steps[k], worlds[k + 1]);
    NextKeepsCover(e, worlds[k], steps[k], worlds[k + 1]);
  }

  lemma RunIsCovered(e: Setting, worlds: seq<World>, steps: seq<Step>, k: nat)
    requires Run(e, worlds, steps) && k <= |steps|
    ensures ClocksCover(worlds[k])
  {
    var p := w => ClocksCover(w);
    forall i | 0 <= i < k && p(worlds[i]) ensures p(worlds[i + 1]) {
      NextAtKeepsCover(e, worlds, steps, i);
    }
    AlongWorlds(p, worlds, k);
  }

  lemma {:induction false} HappenedIsBelow(sends: seq<Sent>, p: Message, b: nat)
    requires PastsCovered(sends) && b < |sends| && Happened(sends, p, b)
    ensures Leq(p.clock, sends[b].msg.clock)
    decreases b
  {
    if p !in sends[b].past {
      var c: nat :| c < b && sends[c].msg in sends[b].past && Happened(sends, p, c);
      HappenedIsBelow(sends, p, c);
    }
  }

  /**
   In every run, foreign signers and all, a message that happened before an honest send, whoever
   wrote it, is never shown by Compare as after it or concurrent with it.
  */
  lemma CausesAreNeverAfter(e: Setting, worlds: seq<World>, steps: seq<Step>, k: nat, p: Message, b: nat)
    requires Run(e, worlds, steps) && k <= |steps| && b < |worlds[k].sends| && Happened(worlds[k].sends, p, b)
    ensures var o := Compare(p.clock, worlds[k].sends[b].msg.clock); o == Before || o == Equal
  {
    RunIsCovered(e, worlds, steps, k);
    HappenedIsBelow(worlds[k].sends, p, b);
    CompareMeaning(p.clock, worlds[k].sends[b].msg.clock);
  }
}
