/** Repair from another ledger (the sync loop in cmd/main.go): exactly what a receiver takes of an answer. */
module LedgerRepair {
  import opened Arrangements
  import opened Ledger
  import opened LedgerInvariant
  import opened LedgerRuns
  import opened Messages
  import opened MessageOrder
  import opened Orders
  import opened Sorting
  import opened VectorClocks

  const SYNC_LIMIT := 80

  /** A sync response applied message by message. */
  function Receives(list: seq<Message>): (ops: seq<Op>)
    ensures |ops| == |list|
  {
    seq(|list|, i requires 0 <= i < |list| => Receive(list[i]))
  }

  ghost predicate AllTaken(states: seq<LedgerState>, ops: seq<Op>)
    requires |states| == |ops| + 1
  {
    forall i :: 0 <= i < |ops| ==> TakenAt(states, ops, i)
  }

  /** A ledger that has accepted `had` so far is offered the messages of `list` in turn. */
  ghost predicate Repairs(states: seq<LedgerState>, had: seq<Message>, list: seq<Message>) {
    Steps(states, Receives(list)) && Inv(states[0], had)
  }

  // ---- What can be handed out

  /** What any ledger can hand out: different IDs, and no link used under two IDs. */
  ghost predicate Issuable(list: seq<Message>) {
    && DifferentIds(list) && AllClocked(list)
    && (forall m :: m in list ==> m.id != "")
    && LinksAgree(list, list)
  }

  ghost predicate LinksAgree(some: seq<Message>, others: seq<Message>) {
    forall a, b :: a in some && b in others && a.prevHash != "" && b.prevHash != "" && ForkKey(a) == ForkKey(b) ==>
      a.id == b.id
  }

  /** One ID means one sender and one place in its log. */
  ghost predicate IdsAgree(some: seq<Message>, others: seq<Message>) {
    forall a, b :: a in some && b in others && a.id == b.id ==> a.senderId == b.senderId && OwnClock(a) == OwnClock(b)
  }

  lemma {:induction false} WithoutKeepsOrder(msgs: seq<Message>, known: set<string>)
    requires DifferentIds(msgs)
    ensures var list := Without(msgs, known);
      DifferentIds(list) && |list| <= |msgs| && (SendersInOrder(msgs) ==> SendersInOrder(list))
  {
    if msgs != [] {
      var n := |msgs| - 1;
      WithoutKeepsOrder(msgs[..n], known);
      WithoutMeaning(msgs[..n], known);
      OneMoreKeepsOrder(msgs, Without(msgs[..n], known));
    }
  }

  lemma OneMoreKeepsOrder(msgs: seq<Message>, front: seq<Message>)
    requires msgs != [] && DifferentIds(msgs) && DifferentIds(front)
    requires forall m :: m in front ==> m in msgs[..|msgs| - 1]
    requires SendersInOrder(msgs[..|msgs| - 1]) ==> SendersInOrder(front)
    ensures var list := front + [msgs[|msgs| - 1]];
      DifferentIds(list) && (SendersInOrder(msgs) ==> SendersInOrder(list))
  {
    var n := |msgs| - 1;
    forall k | 0 <= k < |front|
      ensures front[k].id != msgs[n].id
      ensures SendersInOrder(msgs) && front[k].senderId == msgs[n].senderId ==> OwnClock(front[k]) < OwnClock(msgs[n])
    {
      assert front[k] in front;
      var i :| 0 <= i < n && msgs[i] == front[k];
    }
  }

  lemma RecentIsHeld(src: LedgerState, acc: seq<Message>, limit: int)
    requires ListInv(src, acc)
    ensures var list := Recent(src, limit);
      DifferentIds(list) && (limit > 0 ==> |list| <= limit) && forall m :: m in list ==> m in acc
  {
    forall m | m in Recent(src, limit) ensures m in acc {
      assert m in src.messages;
    }
  }

  /** Which messages an answer holds: those not known of which fewer than `limit` stand behind. */
  lemma AnswerHoldsIff(s: LedgerState, known: seq<string>, limit: int, k: nat)
    requires NoRepeats(s.messages) && k < |s.messages|
    ensures s.messages[k] in MissingFrom(s, known, limit) <==>
            s.messages[k].id !in known && (limit <= 0 || |s.messages| - 1 - k < limit)
  {
    WithoutMeaning(Recent(s, limit), Known(known));
    RecentByPlace(s, limit, k);
  }

  lemma RecentByPlace(s: LedgerState, limit: int, k: nat)
    requires NoRepeats(s.messages) && k < |s.messages|
    ensures s.messages[k] in Recent(s, limit) <==> limit <= 0 || |s.messages| - 1 - k < limit
  {
    var recent, x := Recent(s, limit), s.messages[k];
    var start := |s.messages| - |recent|;
    if k >= start {
      assert recent[k - start] == x;
    }
    if x in recent {
      var i :| 0 <= i < |recent| && recent[i] == x;
      assert s.messages[start + i] == x;
      assert k == start + i;
    }
  }

  /** It holds nothing else, and in the order of the list. */
  lemma {:induction false} AnswerKeepsPlaces(msgs: seq<Message>, known: set<string>)
    ensures forall m :: m in Without(msgs, known) ==> m in msgs
    ensures forall x, y :: Stands(Without(msgs, known), x, y) ==> Stands(msgs, x, y)
  {
    if msgs != [] {
      var n := |msgs| - 1;
      var front := Without(msgs[..n], known);
      assert msgs == msgs[..n] + [msgs[n]];
      AnswerKeepsPlaces(msgs[..n], known);
      forall x, y | Stands(Without(msgs, known), x, y) ensures Stands(msgs, x, y) {
        var tail := if msgs[n].id in known then [] else [msgs[n]];
        assert Without(msgs, known) == front + tail;
        StandsInParts(front, tail, x, y);
        PartsStand(msgs[..n], [msgs[n]], x, y);
      }
    }
  }

  lemma RecentKeepsPlaces(s: LedgerState, limit: int, x: Message, y: Message)
    requires Stands(Recent(s, limit), x, y)
    ensures Stands(s.messages, x, y)
  {
    var recent := Recent(s, limit);
    var start := |s.messages| - |recent|;
    assert s.messages == s.messages[..start] + recent;
    PartsStand(s.messages[..start], recent, x, y);
  }

  /** Where the order is total, whatever was accepted and is left out for its age is below all that is kept. */
  lemma LeftOutIsBelow(s: LedgerState, acc: seq<Message>, limit: int, x: Message, y: Message)
    requires Inv(s, acc) && Orderly(acc) && x in acc && x !in Recent(s, limit) && y in Recent(s, limit)
    ensures Less(x, y)
  {
    RecentIsOnTop(s, acc, limit, x, y);
  }

  lemma RecentIsOnTop(s: LedgerState, acc: seq<Message>, limit: int, x: Message, y: Message)
    requires TopInv(s, acc) && x in acc && x !in Recent(s, limit) && y in Recent(s, limit)
    ensures Less(x, y)
  {
    var recent := Recent(s, limit);
    var start := |s.messages| - |recent|;
    assert s.messages == s.messages[..start] + recent;
    if x in s.messages {
      var i :| 0 <= i < start && s.messages[i] == x;
      var j :| 0 <= j < |recent| && recent[j] == y;
      assert s.messages[start + j] == y;
    }
  }

  lemma HeldLinksAgree(src: LedgerState, acc: seq<Message>, list: seq<Message>)
    requires ListInv(src, acc) && ForkInv(src, acc) && AllClocked(acc)
    requires DifferentIds(list) && forall m :: m in list ==> m in acc
    ensures Issuable(list)
  {
  }

  /** Every answer, to whatever known IDs, is such a list of messages accepted by the one who answers. */
  lemma AnswerIsIssuable(src: LedgerState, acc: seq<Message>, known: seq<string>, limit: int)
    requires Inv(src, acc) && AllClocked(acc)
    ensures var list := MissingFrom(src, known, limit);
      && Issuable(list) && (limit > 0 ==> |list| <= limit) && (forall m :: m in list ==> m in acc)
      && (SendersInOrder(src.messages) ==> SendersInOrder(list))
  {
    AnswerIsHeld(src, acc, known, limit);
    HeldLinksAgree(src, acc, MissingFrom(src, known, limit));
  }

  lemma AnswerIsHeld(src: LedgerState, acc: seq<Message>, known: seq<string>, limit: int)
    requires ListInv(src, acc)
    ensures var list := MissingFrom(src, known, limit);
      && DifferentIds(list) && (limit > 0 ==> |list| <= limit) && (forall m :: m in list ==> m in acc)
      && (SendersInOrder(src.messages) ==> SendersInOrder(list))
  {
    RecentIsHeld(src, acc, limit);
    WithoutKeepsOrder(Recent(src, limit), Known(known));
    WithoutMeaning(Recent(src, limit), Known(known));
  }

  lemma AnswerToNothing(src: LedgerState, limit: int)
    ensures MissingFrom(src, [], limit) == Recent(src, limit)
  {
    assert Known([]) == {};
    WithoutMeaning(Recent(src, limit), {});
  }

  // ---- What is taken

  /** Nothing as late of its sender has been accepted. */
  ghost predicate Ahead(had: seq<Message>, m: Message) {
    forall x :: x in had && x.senderId == m.senderId ==> OwnClock(x) < OwnClock(m)
  }

  /** Nor does anything as late of its sender stand before it in the answer. */
  ghost predicate Fits(had: seq<Message>, list: seq<Message>, i: nat)
    requires i < |list|
  {
    Ahead(had, list[i]) && forall j :: 0 <= j < i && list[j].senderId == list[i].senderId ==>
      OwnClock(list[j]) < OwnClock(list[i])
  }

  /** The messages that fit, in the order of the answer. */
  ghost function Fitting(had: seq<Message>, list: seq<Message>, n: nat): seq<Message>
    requires n <= |list|
  {
    if n == 0 then []
    else Fitting(had, list, n - 1) + if Fits(had, list, n - 1) then [list[n - 1]] else []
  }

  /** The receiver and the answer, each consistent in itself and with the other. */
  ghost predicate Compatible(had: seq<Message>, list: seq<Message>) {
    Issuable(list) && IdsAgree(had, list) && LinksAgree(had, list)
  }

  lemma FromAnswer(states: seq<LedgerState>, list: seq<Message>, n: nat, x: Message) returns (j: nat)
    requires |states| == |list| + 1 && n <= |list| && x in AcceptedOf(states, Receives(list), n)
    ensures j < n && list[j] == x
  {
    j := AcceptedWasOffered(states, Receives(list), n, x);
  }

  lemma FittingIsNovel(states: seq<LedgerState>, had: seq<Message>, list: seq<Message>, i: nat)
    requires |states| == |list| + 1 && Compatible(had, list) && i < |list| && Fits(had, list, i)
    ensures Novel(had + AcceptedOf(states, Receives(list), i), list[i])
  {
    var m, taken := list[i], AcceptedOf(states, Receives(list), i);
    assert m in list;
    forall x | x in had + taken
      ensures x.id != m.id && (x.senderId == m.senderId ==> OwnClock(x) < OwnClock(m))
      ensures x.prevHash != "" && m.prevHash != "" ==> ForkKey(x) != ForkKey(m)
    {
      if x in taken {
        var j := FromAnswer(states, list, i, x);
        assert x in list;
      } else {
        assert x in had;
      }
    }
  }

  /** An offer leaves the sender's clock at or above the message's, unless its link belongs to another ID. */
  lemma OfferRaises(s: LedgerState, acc: seq<Message>, op: Op, t: LedgerState)
    requires Inv(s, acc) && op.Offers() && Step(s, op, t) && op.msg.id != "" && OwnClock(op.msg) > 0
    requires forall x :: x in acc && x.id == op.msg.id ==>
      x.senderId == op.msg.senderId && OwnClock(x) == OwnClock(op.msg)
    requires !Judge(s, op.msg).Fork?
    ensures OwnClock(op.msg) <= At(t.senderClock, op.msg.senderId)
  {
    var m := op.msg;
    StepKeepsGuards(s, op, t);
    match Judge(s, m)
    case Duplicate =>
      var x :| x in s.messages && x.id == m.id;
      assert x in acc;
    case Accepted =>
      StepKeepsInv(s, acc, op, t);
      assert m in acc + [m];
    case _ =>
  }

  lemma AnswerIsNoFork(s: LedgerState, acc: seq<Message>, m: Message)
    requires ForkInv(s, acc)
    requires forall x :: x in acc && x.prevHash != "" && m.prevHash != "" && ForkKey(x) == ForkKey(m) ==> x.id == m.id
    ensures !Judge(s, m).Fork?
  {
  }

  /** What has been taken before a message of the answer agrees with it. */
  lemma TakenAgrees(states: seq<LedgerState>, had: seq<Message>, list: seq<Message>, j: nat)
    requires |states| == |list| + 1 && Compatible(had, list) && j < |list|
    ensures var acc, m := had + AcceptedOf(states, Receives(list), j), list[j];
      && (forall x :: x in acc && x.id == m.id ==> x.senderId == m.senderId && OwnClock(x) == OwnClock(m))
      && (forall x :: x in acc && x.prevHash != "" && m.prevHash != "" && ForkKey(x) == ForkKey(m) ==> x.id == m.id)
  {
    var acc, m := had + AcceptedOf(states, Receives(list), j), list[j];
    assert m in list;
    forall x | x in acc
      ensures x.id == m.id ==> x.senderId == m.senderId && OwnClock(x) == OwnClock(m)
      ensures x.prevHash != "" && m.prevHash != "" && ForkKey(x) == ForkKey(m) ==> x.id == m.id
    {
      if x !in had {
        var k := FromAnswer(states, list, j, x);
        assert x in list;
      }
    }
  }

  lemma AnswerRaises(states: seq<LedgerState>, had: seq<Message>, list: seq<Message>, j: nat)
    requires Repairs(states, had, list) && Compatible(had, list) && j < |list|
    ensures OwnClock(list[j]) <= At(states[j + 1].senderClock, list[j].senderId)
  {
    var acc, op := had + AcceptedOf(states, Receives(list), j), Receives(list)[j];
    assert list[j] in list && StepAt(states, Receives(list), j);
    StepsExtendInv(states, Receives(list), had, j);
    TakenAgrees(states, had, list, j);
    AnswerIsNoFork(states[j], acc, list[j]);
    OfferRaises(states[j], acc, op, states[j + 1]);
  }

  lemma TakenIsAhead(s: LedgerState, had: seq<Message>, more: seq<Message>, m: Message)
    requires ClockInv(s, had + more) && Judge(s, m).Accepted? && OwnClock(m) > 0
    ensures Ahead(had, m)
  {
    forall x | x in had && x.senderId == m.senderId ensures OwnClock(x) < OwnClock(m) {
      assert x in had + more;
    }
  }

  lemma TakenIsAheadOfHad(states: seq<LedgerState>, had: seq<Message>, list: seq<Message>, i: nat)
    requires Repairs(states, had, list) && i < |list| && TakenAt(states, Receives(list), i) && OwnClock(list[i]) > 0
    ensures Ahead(had, list[i])
  {
    StepsExtendInv(states, Receives(list), had, i);
    TakenIsAhead(states[i], had, AcceptedOf(states, Receives(list), i), list[i]);
  }

  lemma TakenIsLater(states: seq<LedgerState>, had: seq<Message>, list: seq<Message>, i: nat, j: nat)
    requires Repairs(states, had, list) && Compatible(had, list) && j < i < |list|
    requires TakenAt(states, Receives(list), i) && OwnClock(list[i]) > 0 && list[j].senderId == list[i].senderId
    ensures OwnClock(list[j]) < OwnClock(list[i])
  {
    AnswerRaises(states, had, list, j);
    GuardsOnlyGrow(states, Receives(list), j + 1, i);
    assert At(states[j + 1].senderClock, list[j].senderId) <= At(states[i].senderClock, list[j].senderId);
  }

  lemma TakenFits(states: seq<LedgerState>, had: seq<Message>, list: seq<Message>, i: nat)
    requires Repairs(states, had, list) && Compatible(had, list) && i < |list| && TakenAt(states, Receives(list), i)
    ensures Fits(had, list, i)
  {
    assert list[i] in list;
    TakenIsAheadOfHad(states, had, list, i);
    forall j | 0 <= j < i && list[j].senderId == list[i].senderId ensures OwnClock(list[j]) < OwnClock(list[i]) {
      TakenIsLater(states, had, list, i, j);
    }
  }

  /**
   Message by message: a message of the answer is repaired exactly when nothing as late of its
   sender was accepted before, live or otherwise, or stands before it in the answer.
  */
  lemma TakenIff(states: seq<LedgerState>, had: seq<Message>, list: seq<Message>, i: nat)
    requires Repairs(states, had, list) && Compatible(had, list) && i < |list|
    ensures TakenAt(states, Receives(list), i) <==> Fits(had, list, i)
  {
    if Fits(had, list, i) {
      StepsExtendInv(states, Receives(list), had, i);
      FittingIsNovel(states, had, list, i);
      NovelIsAccepted(states[i], had + AcceptedOf(states, Receives(list), i), list[i]);
    }
    if TakenAt(states, Receives(list), i) {
      TakenFits(states, had, list, i);
    }
  }

  /** So the repairs are the messages that fit. */
  lemma RepairsAreFitting(states: seq<LedgerState>, had: seq<Message>, list: seq<Message>, n: nat)
    requires Repairs(states, had, list) && Compatible(had, list) && n <= |list|
    ensures AcceptedOf(states, Receives(list), n) == Fitting(had, list, n)
  {
    forall i | 0 <= i < n ensures TakenAt(states, Receives(list), i) <==> Fits(had, list, i) {
      TakenIff(states, had, list, i);
    }
    FittingIsTaken(states, had, list, n);
  }

  lemma {:induction false} FittingIsTaken(states: seq<LedgerState>, had: seq<Message>, list: seq<Message>, n: nat)
    requires |states| == |list| + 1 && n <= |list|
    requires forall i :: 0 <= i < n ==> (TakenAt(states, Receives(list), i) <==> Fits(had, list, i))
    ensures AcceptedOf(states, Receives(list), n) == Fitting(had, list, n)
  {
    if n > 0 {
      FittingIsTaken(states, had, list, n - 1);
      assert TakenAt(states, Receives(list), n - 1) <==> Fits(had, list, n - 1);
    }
  }

  lemma {:induction false} AllFitMeansAll(had: seq<Message>, list: seq<Message>, n: nat)
    requires n <= |list|
    ensures |Fitting(had, list, n)| <= n
    ensures |Fitting(had, list, n)| == n <==> forall i :: 0 <= i < n ==> Fits(had, list, i)
  {
    if n > 0 {
      AllFitMeansAll(had, list, n - 1);
    }
  }

  // ---- When everything is taken

  lemma TakenLinksAgree(states: seq<LedgerState>, had: seq<Message>, list: seq<Message>)
    requires Repairs(states, had, list) && AllTaken(states, Receives(list))
    ensures LinksAgree(had, list)
  {
    forall x, m | x in had && m in list && x.prevHash != "" && m.prevHash != "" && ForkKey(x) == ForkKey(m)
      ensures x.id == m.id
    {
      var i :| 0 <= i < |list| && list[i] == m;
      assert TakenAt(states, Receives(list), i);
      GuardsOnlyGrow(states, Receives(list), 0, i);
    }
  }

  lemma FitsMeans(had: seq<Message>, list: seq<Message>)
    ensures (forall i :: 0 <= i < |list| ==> Fits(had, list, i)) <==>
            SendersInOrder(list) && forall m :: m in list ==> Ahead(had, m)
  {
    if forall i :: 0 <= i < |list| ==> Fits(had, list, i) {
      forall i, j | 0 <= i < j < |list| && list[i].senderId == list[j].senderId
        ensures OwnClock(list[i]) < OwnClock(list[j])
      {
        assert Fits(had, list, j);
      }
      forall m | m in list ensures Ahead(had, m) {
        var i :| 0 <= i < |list| && list[i] == m;
        assert Fits(had, list, i);
      }
    }
  }

  lemma AllTakenIff(states: seq<LedgerState>, had: seq<Message>, list: seq<Message>)
    requires Repairs(states, had, list) && Issuable(list) && IdsAgree(had, list)
    ensures AllTaken(states, Receives(list)) <==>
            SendersInOrder(list) && (forall m :: m in list ==> Ahead(had, m)) && LinksAgree(had, list)
  {
    FitsMeans(had, list);
    if AllTaken(states, Receives(list)) {
      TakenLinksAgree(states, had, list);
    }
    if LinksAgree(had, list) {
      forall i | 0 <= i < |list| ensures TakenAt(states, Receives(list), i) <==> Fits(had, list, i) {
        TakenIff(states, had, list, i);
      }
    }
  }

  /**
   A ledger that has accepted `had` takes every message of an answer, to whatever known IDs, exactly
   when each sender's messages stand in clock order in the answer, all of them later than what the
   ledger has accepted of that sender, and none uses a link that it knows under another ID.
  */
  lemma RepairIsCompleteIff(src: LedgerState, acc: seq<Message>, known: seq<string>, states: seq<LedgerState>,
                            had: seq<Message>)
    requires Inv(src, acc) && AllClocked(acc) && IdsAgree(had, acc)
    requires Repairs(states, had, MissingFrom(src, known, SYNC_LIMIT))
    ensures var list := MissingFrom(src, known, SYNC_LIMIT);
      AllTaken(states, Receives(list)) <==>
      SendersInOrder(list) && (forall m :: m in list ==> Ahead(had, m)) && LinksAgree(had, list)
  {
    AnswerIsIssuable(src, acc, known, SYNC_LIMIT);
    AllTakenIff(states, had, MissingFrom(src, known, SYNC_LIMIT));
  }

  /** A ledger that has accepted nothing only needs the clock order. */
  lemma BlankRepairIsCompleteIff(src: LedgerState, acc: seq<Message>, states: seq<LedgerState>)
    requires Inv(src, acc) && AllClocked(acc)
    requires Steps(states, Receives(MissingFrom(src, [], SYNC_LIMIT))) && Blank(states[0])
    ensures AllTaken(states, Receives(MissingFrom(src, [], SYNC_LIMIT))) <==> SendersInOrder(Recent(src, SYNC_LIMIT))
  {
    BlankInv(states[0]);
    AnswerToNothing(src, SYNC_LIMIT);
    RepairIsCompleteIff(src, acc, [], states, []);
  }

  // ---- Gaps

  /** A gap behind an accepted later message is never repaired, whatever else happens. */
  lemma GapIsNeverRepaired(states: seq<LedgerState>, ops: seq<Op>, i: nat, j: nat, m: Message)
    requires Run(states, ops) && i < j <= |ops| && TakenAt(states, ops, i)
    requires ops[i].msg.senderId == m.senderId && 0 < OwnClock(m) <= OwnClock(ops[i].msg)
    ensures !Judge(states[j], m).Accepted?
  {
    TakenIsRecorded(states, ops, i);
    assert Barred(states[i + 1], m);
    BarredStays(states, ops, m, i + 1, j);
  }

  /**
   It takes one live message: a joiner that hears a sender's second message before the answer
   arrives refuses the first, which it has never seen.
  */
  lemma LiveMessageLeavesGap(first: Message, second: Message, max: nat) returns (states: seq<LedgerState>)
    requires max > 0 && first.id != "" && second.id != "" && first.id != second.id
    requires first.senderId == second.senderId && 0 < OwnClock(first) < OwnClock(second)
    ensures Run(states, [Receive(second), Receive(first)]) && TakenAt(states, [Receive(second), Receive(first)], 0)
    ensures first.id !in states[1].ids && SendersInOrder([first]) && Judge(states[1], first).ClockRegression?
  {
    var s := Fresh(max);
    var t := ReceiptHasOutcome(s, second);
    FirstIsTaken(s, second, t);
    var u := ReceiptHasOutcome(t, first);
    states := [s, t, u];
    TwoCallsRun(s, Receive(second), t, Receive(first), u);
  }

  lemma ReceiptHasOutcome(s: LedgerState, m: Message) returns (t: LedgerState)
    ensures Received(s, m, t)
  {
    var mid := OfferHasOutcome(s, m);
    t := AfterVerdict(mid, Judge(s, m));
  }

  lemma FirstIsTaken(s: LedgerState, m: Message, t: LedgerState)
    requires Blank(s) && m.id != "" && OwnClock(m) > 0 && Received(s, m, t)
    ensures Judge(s, m).Accepted? && t.ids <= {m.id} && t.senderClock == map[m.senderId := OwnClock(m)]
  {
    var mid :| Offer(s, m, mid) && t == AfterVerdict(mid, Judge(s, m));
    BlankInv(s);
    OfferKeepsInv(s, [], m, mid);
  }

  lemma TwoCallsRun(s: LedgerState, one: Op, t: LedgerState, two: Op, u: LedgerState)
    requires s == Fresh(s.max) && s.max > 0 && Step(s, one, t) && Step(t, two, u)
    ensures Run([s, t, u], [one, two])
  {
    forall i | 0 <= i < 2 ensures StepAt([s, t, u], [one, two], i) {
      if i == 1 {
        assert Step(t, two, u);
      }
    }
  }

  // ---- What a repair ends with

  lemma RoomForAll(end: LedgerState, acc: seq<Message>)
    requires ListInv(end, acc) && |acc| <= end.max
    ensures multiset(end.messages) == multiset(acc) && end.ids == Ids(acc)
  {
    var held := end.messages;
    NoRepeatsSize(held);
    forall m ensures multiset(held)[m] <= multiset(acc)[m] {
      if m in held {
        assert m in acc && m in multiset(acc);
      }
    }
    assert multiset(acc) == multiset(held) + (multiset(acc) - multiset(held));
    assert |multiset(acc)| == |multiset(held)| + |multiset(acc) - multiset(held)|;
    PermutationElements(held, acc);
    forall m ensures m in held <==> m in acc {
      assert m in Elements(held) <==> m in Elements(acc);
    }
  }

  /**
   After a complete repair the ledger has accepted what it had and the answer, and holds all of it
   if it has room. Where the order is total it then holds the list of every ledger of its size that
   has accepted the same.
  */
  lemma RepairRestores(src: LedgerState, acc: seq<Message>, states: seq<LedgerState>, had: seq<Message>,
                       list: seq<Message>)
    requires Inv(src, acc) && Repairs(states, had, list) && AllTaken(states, Receives(list))
    ensures var end, all := states[|list|], had + list;
      && AcceptedOf(states, Receives(list), |list|) == list && Inv(end, all) && end.verified == |had| + |list|
      && (|all| <= end.max ==> multiset(end.messages) == multiset(all) && end.ids == Ids(all))
      && (Orderly(acc) && Elements(all) == Elements(acc) && end.max == src.max ==> end.messages == src.messages)
  {
    var end, all := states[|list|], had + list;
    TakenSoFar(states, Receives(list), list, |list|);
    assert list[..|list|] == list;
    StepsExtendInv(states, Receives(list), had, |list|);
    if |all| <= end.max {
      RoomForAll(end, all);
    }
    if Orderly(acc) && Elements(all) == Elements(acc) && end.max == src.max {
      SameAcceptedSameList(src, acc, end, all);
    }
  }

  lemma OrderlyIsIncreasing(s: LedgerState, acc: seq<Message>)
    requires Inv(s, acc) && Orderly(acc)
    ensures Increasing(Less, s.messages)
  {
  }

  lemma OrderlyPart(acc: seq<Message>, part: seq<Message>)
    requires Orderly(acc) && Elements(part) <= Elements(acc)
    ensures Orderly(part)
  {
    forall m | m in part ensures OwnClock(m) > 0 {
      assert m in Elements(part);
    }
  }

  /**
   A ledger that had accepted nothing and has room then holds just the answer, in its order where the
   order is total.
  */
  lemma BlankRepairRestores(src: LedgerState, acc: seq<Message>, states: seq<LedgerState>)
    requires Inv(src, acc) && AllClocked(acc) && SendersInOrder(Recent(src, SYNC_LIMIT))
    requires Steps(states, Receives(MissingFrom(src, [], SYNC_LIMIT))) && Blank(states[0])
    requires states[0].max >= |Recent(src, SYNC_LIMIT)|
    ensures var list, end := Recent(src, SYNC_LIMIT), states[|states| - 1];
      && |states| == |list| + 1 && AcceptedOf(states, Receives(list), |list|) == list
      && end.ids == Ids(list) && multiset(end.messages) == multiset(list) && end.verified == |list|
      && (Orderly(acc) ==> end.messages == list)
  {
    var list := Recent(src, SYNC_LIMIT);
    AnswerToNothing(src, SYNC_LIMIT);
    BlankRepairIsCompleteIff(src, acc, states);
    BlankInv(states[0]);
    RepairRestores(src, acc, states, [], list);
    assert [] + list == list;
    StepsExtendInv(states, Receives(list), [], |list|);
    if Orderly(acc) {
      OrderlyRepair(src, acc, states[|list|], list);
    }
  }

  lemma OrderlyRepair(src: LedgerState, acc: seq<Message>, end: LedgerState, list: seq<Message>)
    requires Inv(src, acc) && Orderly(acc) && list == Recent(src, SYNC_LIMIT)
    requires Inv(end, list) && multiset(end.messages) == multiset(list)
    ensures end.messages == list
  {
    RecentIsHeld(src, acc, SYNC_LIMIT);
    OrderlyIsIncreasing(src, acc);
    assert forall m :: m in list <==> m in Elements(list);
    OrderlyPart(acc, list);
    OrderlyIsIncreasing(end, list);
    LessIsAsymmetric(Elements(end.messages));
    ArrangementIsUnique(Less, end.messages, list);
  }

  // ---- When the answer stands in order

  /** Of two accepted messages in one chain, the one listed first has the lower own clock. */
  lemma ListedFirstIsEarlier(acc: seq<Message>, a: Message, b: Message)
    requires ClocksRise(acc) && AllClocked(acc) && a in acc && b in acc && a != b && a.senderId == b.senderId
    requires Less(a, b) && (CausallyBefore(a, b) || CausallyBefore(b, a))
    ensures OwnClock(a) < OwnClock(b)
  {
    LessMeaning(a, b);
    PrecedesIsStrictOrder(a.clock, b.clock, a.clock);
    CompareMeaning(a.clock, b.clock);
    var p :| 0 <= p < |acc| && acc[p] == a;
    var q :| 0 <= q < |acc| && acc[q] == b;
    assert OwnClock(a) > 0 && OwnClock(b) > 0;
    assert p < q || q < p;
  }

  lemma ChainsRiseInList(list: seq<Message>, acc: seq<Message>, i: nat, j: nat)
    requires ClocksRise(acc) && Chained(acc)
    requires Increasing(Less, list) && DifferentIds(list) && forall m :: m in list ==> m in acc
    requires i < j < |list| && list[i].senderId == list[j].senderId
    ensures OwnClock(list[i]) < OwnClock(list[j])
  {
    var a, b := list[i], list[j];
    assert a in Elements(acc) && b in Elements(acc) && a != b;
    ListedFirstIsEarlier(acc, a, b);
  }

  /** With honest clocks every list stands in its senders' order, if the order is total or the ledger small. */
  lemma ChainsStandInOrder(src: LedgerState, acc: seq<Message>)
    requires Inv(src, acc) && Chained(acc) && (Orderly(acc) || (Small(src, acc) && ShortInv(src, acc)))
    ensures SendersInOrder(src.messages)
  {
    if Orderly(acc) {
      OrderlyIsIncreasing(src, acc);
      forall i, j | 0 <= i < j < |src.messages| && src.messages[i].senderId == src.messages[j].senderId
        ensures OwnClock(src.messages[i]) < OwnClock(src.messages[j])
      {
        ChainsRiseInList(src.messages, acc, i, j);
      }
    }
  }
}
