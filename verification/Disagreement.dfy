/**
 A run of the chat room in which honest nodes that have accepted the same messages show different
 lists: three people speak once each, the middle one concurrently with the other two.
*/
module Disagreement {
  import opened Arrangements
  import opened Ledger
  import opened LedgerInvariant
  import opened Messages
  import opened MessageOrder
  import opened Orders
  import opened Protocol
  import opened ProtocolLists
  import opened Sorting
  import opened VectorClocks
  import A = Causality
  import R = LedgerRuns
  import Strings
  import V = Validator

  // ---- Growing a run

  datatype Trip = Trip(worlds: seq<World>, steps: seq<Step>)

  ghost predicate Leads(e: Setting, trip: Trip, w: World) {
    Run(e, trip.worlds, trip.steps) && trip.worlds[|trip.steps|] == w
  }

  lemma Go(e: Setting, trip: Trip, w: World, step: Step, t: World) returns (longer: Trip)
    requires Leads(e, trip, w) && Next(e, w, step, t)
    ensures Leads(e, longer, t)
  {
    var worlds, steps := trip.worlds + [t], trip.steps + [step];
    longer := Trip(worlds, steps);
    forall i | 0 <= i < |steps| ensures Next(e, worlds[i], steps[i], worlds[i + 1]) {
      if i < |trip.steps| {
        assert trip.steps[i] == steps[i] && trip.worlds[i] == worlds[i] && trip.worlds[i + 1] == worlds[i + 1];
      }
    }
  }

  lemma Act(e: Setting, trip: Trip, w: World, n: string, a: Action, next: NodeState) returns (longer: Trip, t: World)
    requires Leads(e, trip, w) && NodeStep(e, w, n, a, next)
    ensures t == Moved(w, n, a, next) && Leads(e, longer, t)
  {
    t := Moved(w, n, a, next);
    longer := Go(e, trip, w, Step.Act(n, a), t);
  }

  /** What a node is seen by, between two of its operations. */
  ghost predicate Idle(node: NodeState, max: nat, vc: Clock, prevHash: string, accepted: seq<Message>) {
    && !node.sending && node.vc == vc && node.prevHash == prevHash && node.accepted == accepted
    && node.ledger.max == max
  }

  /** Only node `n` has changed, and nothing has left the network. */
  ghost predicate OnlyMoved(w: World, n: string, t: World) {
    && n in w.nodes && n in t.nodes && t.nodes == w.nodes[n := t.nodes[n]]
    && w.network <= t.network && w.signed <= t.signed
  }

  lemma NovelIsTaken(e: Setting, trip: Trip, w: World, n: string, m: Message)
    requires Leads(e, trip, w) && n in w.nodes && Novel(w.nodes[n].accepted, m)
    ensures Judge(w.nodes[n].ledger, m).Accepted?
  {
    RunIsSafe(e, trip.worlds, trip.steps, |trip.steps|);
    SafeReceivers(e, w);
    NovelIsAccepted(w.nodes[n].ledger, w.nodes[n].accepted, m);
  }

  lemma OfferKeepsMax(s: LedgerState, m: Message, t: LedgerState)
    requires Offer(s, m, t)
    ensures t.max == s.max
  {
  }

  lemma Taken(node: NodeState, m: Message, own: bool) returns (next: NodeState)
    requires Judge(node.ledger, m).Accepted?
    ensures Takes(node, m, own, next) && next.ledger.max == node.ledger.max
    ensures next == node.(ledger := next.ledger, accepted := node.accepted + [m],
                          unmerged := if own then node.unmerged else node.unmerged + {m})
  {
    var t := R.OfferHasOutcome(node.ledger, m);
    OfferKeepsMax(node.ledger, m, t);
    next := node.(ledger := t, accepted := node.accepted + [m],
                  unmerged := if own then node.unmerged else node.unmerged + {m});
    assert !own ==> t == R.AfterVerdict(t, Judge(node.ledger, m));
  }

  // ---- The operations of a node, as runs

  /** Counting, snapshot, signing. */
  lemma Signs(e: Setting, trip: Trip, w: World, n: string, max: nat, vc: Clock, acc: seq<Message>, m: Message)
    returns (longer: Trip, t: World)
    requires Leads(e, trip, w) && n in w.nodes && Idle(w.nodes[n], max, vc, "", acc)
    requires m == Sample(m.id, n, Incremented(vc, n)) && m.id != "" && forall p :: p in w.signed ==> p.id != m.id
    ensures Leads(e, longer, t) && OnlyMoved(w, n, t) && t.signed == w.signed + {m} && t.network == w.network
    ensures m in t.nodes[n].log && t.nodes[n].accepted == acc && t.nodes[n].ledger == w.nodes[n].ledger
    ensures t.nodes[n].vc == m.clock && !t.nodes[n].sending
  {
    var counted := Counted(n, w.nodes[n]);
    var mid;
    longer, mid := Act(e, trip, w, n, BeginSend, counted);
    assert MaySend(mid, n, m);
    longer, t := Act(e, longer, mid, n, FinishSend(m), AfterSend(e, counted, m));
    var log := t.nodes[n].log;
    assert log[|log| - 1] == m;
  }

  /** A first message: signed, published and kept. */
  lemma Speaks(e: Setting, trip: Trip, w: World, n: string, max: nat, vc: Clock, acc: seq<Message>, m: Message)
    returns (longer: Trip, t: World)
    requires Leads(e, trip, w) && n in w.nodes && Idle(w.nodes[n], max, vc, "", acc) && Novel(acc, m)
    requires m == Sample(m.id, n, Incremented(vc, n)) && m.id != "" && forall p :: p in w.signed ==> p.id != m.id
    ensures Leads(e, longer, t) && OnlyMoved(w, n, t) && t.signed == w.signed + {m} && Chat(m) in t.network
    ensures Idle(t.nodes[n], max, m.clock, t.nodes[n].prevHash, acc + [m])
  {
    var mid, sent;
    longer, mid := Signs(e, trip, w, n, max, vc, acc, m);
    assert Payload(m) == m;
    sent := mid.(network := mid.network + {Chat(m)});
    longer := Go(e, longer, mid, Publish(n, m), sent);
    NovelIsTaken(e, longer, sent, n, m);
    var next := Taken(sent.nodes[n], m, true);
    longer, t := Act(e, longer, sent, n, AddOwn(m), next);
  }

  lemma Accepts(e: Setting, trip: Trip, w: World, n: string, m: Message) returns (longer: Trip, t: World)
    requires Leads(e, trip, w) && n in w.nodes && Novel(w.nodes[n].accepted, m)
    requires Chat(m) in w.network && V.WellSigned(CryptoOf(e, w.signed), m)
    ensures Leads(e, longer, t) && OnlyMoved(w, n, t) && t.signed == w.signed && t.network == w.network
    ensures t.nodes[n].ledger.max == w.nodes[n].ledger.max && m in t.nodes[n].unmerged
    ensures t.nodes[n] == w.nodes[n].(ledger := t.nodes[n].ledger, accepted := w.nodes[n].accepted + [m],
                                      unmerged := t.nodes[n].unmerged)
  {
    NovelIsTaken(e, trip, w, n, m);
    var next := Taken(w.nodes[n], m, false);
    assert m in Carried(Chat(m));
    longer, t := Act(e, trip, w, n, Deliver(Chat(m), m), next);
  }

  /** A message delivered, accepted and merged. */
  lemma Hears(e: Setting, trip: Trip, w: World, n: string, max: nat, vc: Clock, prevHash: string, acc: seq<Message>,
              m: Message)
    returns (longer: Trip, t: World)
    requires Leads(e, trip, w) && n in w.nodes && Idle(w.nodes[n], max, vc, prevHash, acc) && Novel(acc, m)
    requires Chat(m) in w.network && V.WellSigned(CryptoOf(e, w.signed), m)
    ensures Leads(e, longer, t) && OnlyMoved(w, n, t) && t.signed == w.signed && t.network == w.network
    ensures Idle(t.nodes[n], max, Merged(vc, m.clock), prevHash, acc + [m])
  {
    var mid;
    longer, mid := Accepts(e, trip, w, n, m);
    longer, t := Act(e, longer, mid, n, Merge(m), AfterMerge(mid.nodes[n], m));
  }

  // ---- The conversation

  /** The three speakers, in dictionary order, and what each says. */
  datatype Cast = Cast(low: string, mid: string, high: string, opening: Message, answer: Message, aside: Message)

  ghost predicate CastOk(e: Setting, c: Cast) {
    && Ideal(e) && e.decodes(c.low) && e.decodes(c.mid) && e.decodes(c.high)
    && c.low != "" && c.mid != "" && c.high != "" && c.low != c.mid && c.mid != c.high && c.low != c.high
    && c.opening == Sample("1", c.high, map[c.high := 1])
    && c.answer == Sample("2", c.low, map[c.low := 1, c.high := 1])
    && c.aside == Sample("3", c.mid, map[c.mid := 1])
  }

  const ROOM := DEFAULT_MAX_MESSAGES

  /** Where the three stand: what each has accepted and counts, and that their messages are around. */
  ghost predicate Scene(c: Cast, w: World, lowVc: Clock, low: seq<Message>, mid: seq<Message>, highVc: Clock,
                        high: seq<Message>)
  {
    && w.nodes.Keys == {c.low, c.mid, c.high}
    && Idle(w.nodes[c.low], ROOM, lowVc, w.nodes[c.low].prevHash, low)
    && Idle(w.nodes[c.mid], ROOM, w.nodes[c.mid].vc, w.nodes[c.mid].prevHash, mid)
    && Idle(w.nodes[c.high], ROOM, highVc, w.nodes[c.high].prevHash, high)
    && (forall m :: m in w.signed ==> m in {c.opening, c.answer, c.aside} && Chat(m) in w.network)
  }

  lemma Audible(e: Setting, c: Cast, w: World, m: Message)
    requires CastOk(e, c) && m in {c.opening, c.answer, c.aside} && m in w.signed
    ensures V.WellSigned(CryptoOf(e, w.signed), m)
  {
    assert Payload(m) == m;
  }

  lemma Opens(e: Setting, c: Cast) returns (trip: Trip, w: World)
    requires CastOk(e, c)
    ensures Leads(e, trip, w) && Scene(c, w, map[], [], [], map[c.high := 1], [c.opening])
    ensures w.signed == {c.opening} && w.nodes[c.low].prevHash == "" && w.nodes[c.mid] == NewNode(ROOM)
  {
    var start := World(map[c.low := NewNode(ROOM), c.mid := NewNode(ROOM), c.high := NewNode(ROOM)], {}, {}, []);
    trip := Trip([start], []);
    assert Leads(e, trip, start);
    assert Incremented(map[], c.high) == map[c.high := 1] && [] + [c.opening] == [c.opening];
    trip, w := Speaks(e, trip, start, c.high, ROOM, map[], [], c.opening);
  }

  lemma Intervenes(e: Setting, c: Cast) returns (trip: Trip, w: World)
    requires CastOk(e, c)
    ensures Leads(e, trip, w) && Scene(c, w, map[], [], [c.aside], map[c.high := 1], [c.opening])
    ensures w.signed == {c.opening, c.aside} && w.nodes[c.low].prevHash == ""
  {
    var before;
    trip, before := Opens(e, c);
    assert Incremented(map[], c.mid) == map[c.mid := 1] && [] + [c.aside] == [c.aside];
    trip, w := Speaks(e, trip, before, c.mid, ROOM, map[], [], c.aside);
  }

  lemma LowHearsOpening(e: Setting, c: Cast) returns (trip: Trip, w: World)
    requires CastOk(e, c)
    ensures Leads(e, trip, w) && Scene(c, w, map[c.high := 1], [c.opening], [c.aside], map[c.high := 1], [c.opening])
    ensures w.signed == {c.opening, c.aside} && w.nodes[c.low].prevHash == ""
  {
    var before;
    trip, before := Intervenes(e, c);
    Audible(e, c, before, c.opening);
    assert Merged(map[], c.opening.clock) == map[c.high := 1] && [] + [c.opening] == [c.opening];
    trip, w := Hears(e, trip, before, c.low, ROOM, map[], "", [], c.opening);
  }

  lemma Answers(e: Setting, c: Cast) returns (trip: Trip, w: World)
    requires CastOk(e, c)
    ensures Leads(e, trip, w)
    ensures Scene(c, w, c.answer.clock, [c.opening, c.answer], [c.aside], map[c.high := 1], [c.opening])
    ensures w.signed == {c.opening, c.aside, c.answer}
  {
    var before;
    trip, before := LowHearsOpening(e, c);
    assert Incremented(map[c.high := 1], c.low) == c.answer.clock;
    assert [c.opening] + [c.answer] == [c.opening, c.answer];
    trip, w := Speaks(e, trip, before, c.low, ROOM, map[c.high := 1], [c.opening], c.answer);
  }

  lemma LowHearsAside(e: Setting, c: Cast) returns (trip: Trip, w: World, lowVc: Clock)
    requires CastOk(e, c)
    ensures Leads(e, trip, w) && w.signed == {c.opening, c.aside, c.answer}
    ensures Scene(c, w, lowVc, [c.opening, c.answer, c.aside], [c.aside], map[c.high := 1], [c.opening])
  {
    var before;
    trip, before := Answers(e, c);
    Audible(e, c, before, c.aside);
    lowVc := Merged(c.answer.clock, c.aside.clock);
    assert [c.opening, c.answer] + [c.aside] == [c.opening, c.answer, c.aside];
    var prevHash := before.nodes[c.low].prevHash;
    trip, w := Hears(e, trip, before, c.low, ROOM, c.answer.clock, prevHash, [c.opening, c.answer], c.aside);
  }

  lemma HighHearsAside(e: Setting, c: Cast) returns (trip: Trip, w: World, lowVc: Clock, highVc: Clock)
    requires CastOk(e, c)
    ensures Leads(e, trip, w) && w.signed == {c.opening, c.aside, c.answer}
    ensures Scene(c, w, lowVc, [c.opening, c.answer, c.aside], [c.aside], highVc, [c.opening, c.aside])
  {
    var before;
    trip, before, lowVc := LowHearsAside(e, c);
    Audible(e, c, before, c.aside);
    highVc := Merged(map[c.high := 1], c.aside.clock);
    assert [c.opening] + [c.aside] == [c.opening, c.aside];
    var prevHash := before.nodes[c.high].prevHash;
    trip, w := Hears(e, trip, before, c.high, ROOM, map[c.high := 1], prevHash, [c.opening], c.aside);
  }

  lemma HighHearsAnswer(e: Setting, c: Cast) returns (trip: Trip, w: World, lowVc: Clock, highVc: Clock)
    requires CastOk(e, c)
    ensures Leads(e, trip, w) && w.signed == {c.opening, c.aside, c.answer}
    ensures Scene(c, w, lowVc, [c.opening, c.answer, c.aside], [c.aside], highVc, [c.opening, c.aside, c.answer])
  {
    var before, vc;
    trip, before, lowVc, vc := HighHearsAside(e, c);
    Audible(e, c, before, c.answer);
    highVc := Merged(vc, c.answer.clock);
    assert [c.opening, c.aside] + [c.answer] == [c.opening, c.aside, c.answer];
    var prevHash := before.nodes[c.high].prevHash;
    trip, w := Hears(e, trip, before, c.high, ROOM, vc, prevHash, [c.opening, c.aside], c.answer);
  }

  // ---- What they see

  lemma ThreeTurn<T>(less: (T, T) -> bool, a: T, b: T, c: T)
    requires !less(b, a) && !less(c, b) && less(c, a)
    ensures InsertionSort(less, [a, b, c]) == [a, b, c] && InsertionSort(less, [a, c, b]) == [c, a, b]
  {
    SteadyStays(less, [a, b, c]);
    SteadyStays(less, [a]);
    assert [a, c][..1] == [a] && [a][..0] == [];
    SortOneMore(less, [a], c);
    assert [a] + [c] == [a, c] && InsertionSort(less, [a, c]) == [c, a];
    SortOneMore(less, [a, c], b);
    assert [a, c] + [b] == [a, c, b];
  }

  lemma ListsTurn(a: Message, b: Message, c: Message)
    requires Less(a, b) && Less(b, c) && Less(c, a)
    ensures InsertionSort(Less, [a, b, c]) == [a, b, c] && InsertionSort(Less, [a, c, b]) == [c, a, b] && a != c
  {
    CompareMessagesFlips(a, b);
    CompareMessagesFlips(b, c);
    CompareMessagesFlips(c, a);
    ThreeTurn(Less, a, b, c);
  }

  lemma ShownList(e: Setting, trip: Trip, w: World, n: string)
    requires Leads(e, trip, w) && n in w.nodes
    requires |w.nodes[n].accepted| <= w.nodes[n].ledger.max && |w.nodes[n].accepted| <= INSERTION_BLOCK
    ensures w.nodes[n].ledger.messages == InsertionSort(Less, w.nodes[n].accepted)
  {
    RunIsShort(e, trip.worlds, trip.steps, |trip.steps|);
  }

  /**
   Whatever the hash and with any three peers, there is a run of honest nodes only, with ledgers of
   one size, at whose end two of them have accepted the same messages and show different lists.
  */
  lemma HonestNodesDisagree(e: Setting, low: string, mid: string, high: string)
    returns (worlds: seq<World>, steps: seq<Step>)
    requires Ideal(e) && e.decodes(low) && e.decodes(mid) && e.decodes(high) && low != ""
    requires Strings.Compare(low, mid) < 0 && Strings.Compare(mid, high) < 0
    ensures Run(e, worlds, steps) && A.AllHonest(worlds[|steps|])
    ensures worlds[|steps|].nodes.Keys == {low, mid, high}
    ensures var one, other := worlds[|steps|].nodes[low], worlds[|steps|].nodes[high];
      && one.ledger.max == other.ledger.max == DEFAULT_MAX_MESSAGES
      && Elements(one.accepted) == Elements(other.accepted) && |one.accepted| == 3
      && one.ledger.messages != other.ledger.messages
  {
    Strings.CompareTransitive(low, mid, high);
    var a, b, c := ThreeSendersCanCycle(low, mid, high);
    var cast := Cast(low, mid, high, a, b, c);
    var trip, w, lowVc, highVc := HighHearsAnswer(e, cast);
    worlds, steps := trip.worlds, trip.steps;
    ListsTurn(a, b, c);
    assert [a, b, c][0] == a && [c, a, b][0] == c;
    ShownList(e, trip, w, low);
    ShownList(e, trip, w, high);
    assert Elements([a, b, c]) == Elements([a, c, b]);
  }
}
