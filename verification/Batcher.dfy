/**
 The hybrid context batcher (internal/ai/batcher.go): the class with its locked sections, and
 the machine of their interleavings with timers, stale firings and callbacks. Times are
 nanoseconds.
*/
module Batcher {
  import opened Messages

  const IDLE_TIMEOUT: nat := 3_000_000_000
  const MAX_TIMEOUT: nat := 20_000_000_000
  const CAPACITY: nat := 15

  /** A timer that has not been stopped. Once `fired`, its flush has been started and can no longer be stopped. */
  datatype Timer = Timer(deadline: nat, fired: bool)

  datatype BatcherState = BatcherState(messages: seq<Message>, idle: Option<Timer>, max: Option<Timer>, stopped: bool)

  const EMPTY := BatcherState([], None, None, false)

  function Drained(b: BatcherState): BatcherState {
    b.(messages := [], idle := None, max := None)
  }

  /** Add up to the capacity check. */
  function Buffered(b: BatcherState, m: Message, now: nat): BatcherState {
    b.(messages := b.messages + [m],
       idle := Some(Timer(now + IDLE_TIMEOUT, false)),
       max := if b.messages == [] then Some(Timer(now + MAX_TIMEOUT, false)) else b.max)
  }

  function Added(b: BatcherState, m: Message, now: nat): (BatcherState, seq<Message>) {
    if b.stopped then (b, [])
    else
      var next := Buffered(b, m, now);
      if |next.messages| >= CAPACITY then (Drained(next), next.messages) else (next, [])
  }

  function Flushed(b: BatcherState): (BatcherState, seq<Message>) {
    if b.messages == [] then (b, []) else (Drained(b), b.messages)
  }

  class Batcher {
    var messages: seq<Message>
    var idleTimer: Option<Timer>
    var maxTimer: Option<Timer>
    var stopped: bool

    ghost function State(): BatcherState
      reads this
    {
      BatcherState(messages, idleTimer, maxTimer, stopped)
    }

    constructor ()
      ensures State() == EMPTY
    {
      messages, idleTimer, maxTimer, stopped := [], None, None, false;
    }

    method Stop()
      modifies this
      ensures State() == Drained(old(State())).(stopped := true)
    {
      stopped := true;
      idleTimer, maxTimer := None, None;
      messages := [];
    }

    /** The locked part of Add; a batch that is not empty goes to the callback. */
    method Add(msg: Message, now: nat) returns (batch: seq<Message>)
      modifies this
      ensures (State(), batch) == Added(old(State()), msg, now)
    {
      batch := [];
      if stopped {
        return;
      }
      var first := |messages| == 0;
      messages := messages + [msg];
      if first {
        maxTimer := Some(Timer(now + MAX_TIMEOUT, false));
      }
      idleTimer := Some(Timer(now + IDLE_TIMEOUT, false));
      if |messages| >= CAPACITY {
        batch := DoFlushLocked();
      }
    }

    /** The locked part of ForceFlush; the batch goes to the callback even when empty. */
    method ForceFlush() returns (batch: seq<Message>)
      modifies this
      ensures State() == Drained(old(State())) && batch == old(messages)
    {
      batch := Drain();
    }

    /** The locked part of a timer's flush. */
    method DoFlushLocked() returns (batch: seq<Message>)
      modifies this
      ensures (State(), batch) == Flushed(old(State()))
    {
      if |messages| == 0 {
        return [];
      }
      batch := Drain();
    }

    method Drain() returns (batch: seq<Message>)
      modifies this
      ensures State() == Drained(old(State())) && batch == old(messages)
    {
      idleTimer, maxTimer := None, None;
      batch := messages;
      messages := [];
    }
  }

  // ---- Interleavings

  /**
   `firing` counts timer flushes that have started and wait for the lock; `waiting` are batches on
   their way to the callback, `running` the one it works on. The rest is history: messages
   accepted with their times, batches drained, batches delivered, messages discarded by Stop.
  */
  datatype Machine = Machine(
    b: BatcherState,
    now: nat,
    firing: nat,
    waiting: seq<seq<Message>>,
    running: Option<seq<Message>>,
    accepted: seq<Message>,
    times: seq<nat>,
    drained: seq<seq<Message>>,
    delivered: seq<seq<Message>>,
    discarded: seq<Message>)

  const START := Machine(EMPTY, 0, 0, [], None, [], [], [], [], [])

  datatype Step =
    | Add(msg: Message)
    | ForceFlush
    | Stop
    | ExpireIdle
    | ExpireMax
    | TimerFlush
    | CallbackStart(i: nat)
    | CallbackEnd
    | Tick(delta: nat)

  predicate Expires(t: Option<Timer>, now: nat) {
    t.Some? && !t.value.fired && t.value.deadline <= now
  }

  /** A drained batch that is sent to the callback. */
  function Send(m: Machine, b: BatcherState, batch: seq<Message>): Machine {
    m.(b := b, drained := m.drained + [batch], waiting := m.waiting + [batch])
  }

  function DoAdd(m: Machine, msg: Message): Machine {
    if m.b.stopped then m
    else
      var (b, batch) := Added(m.b, msg, m.now);
      var next := m.(b := b, accepted := m.accepted + [msg], times := m.times + [m.now]);
      if batch != [] then Send(next, b, batch) else next
  }

  function DoTimerFlush(m: Machine): Machine {
    var (b, batch) := Flushed(m.b);
    var next := m.(b := b, firing := if m.firing > 0 then m.firing - 1 else 0);
    if batch != [] then Send(next, b, batch) else next
  }

  /** A step that is not enabled changes nothing. */
  function Do(m: Machine, s: Step): Machine {
    match s
    case Add(msg) => DoAdd(m, msg)
    case ForceFlush => Send(m, Drained(m.b), m.b.messages)
    case Stop => m.(b := Drained(m.b).(stopped := true), discarded := m.discarded + m.b.messages)
    case ExpireIdle =>
      if Expires(m.b.idle, m.now) then
        m.(b := m.b.(idle := Some(m.b.idle.value.(fired := true))), firing := m.firing + 1)
      else m
    case ExpireMax =>
      if Expires(m.b.max, m.now) then
        m.(b := m.b.(max := Some(m.b.max.value.(fired := true))), firing := m.firing + 1)
      else m
    case TimerFlush => if m.firing > 0 then DoTimerFlush(m) else m
    case CallbackStart(i) =>
      if m.running.None? && i < |m.waiting| then
        m.(running := Some(m.waiting[i]), waiting := m.waiting[..i] + m.waiting[i + 1..])
      else m
    case CallbackEnd =>
      if m.running.Some? then m.(running := None, delivered := m.delivered + [m.running.value]) else m
    case Tick(delta) => m.(now := m.now + delta)
  }

  function Play(steps: seq<Step>): Machine {
    if steps == [] then START else Do(Play(steps[..|steps| - 1]), steps[|steps| - 1])
  }

  function Flat(batches: seq<seq<Message>>): seq<Message> {
    if batches == [] then [] else Flat(batches[..|batches| - 1]) + batches[|batches| - 1]
  }

  lemma FlatAppend(batches: seq<seq<Message>>, batch: seq<Message>)
    ensures Flat(batches + [batch]) == Flat(batches) + batch
  {
    assert (batches + [batch])[..|batches|] == batches;
  }

  // ---- Conservation

  /** Nothing accepted is lost, repeated or reordered on its way into batches; only Stop discards. */
  ghost predicate Conserves(m: Machine) {
    && m.accepted == Flat(m.drained) + m.discarded + m.b.messages
    && (m.b.stopped ==> m.b.messages == []) && (!m.b.stopped ==> m.discarded == [])
    && |m.b.messages| < 15
    && (forall i :: 0 <= i < |m.drained| ==> |m.drained[i]| <= 15)
  }

  lemma SendConserves(m: Machine, b: BatcherState, batch: seq<Message>)
    requires m.accepted == Flat(m.drained) + m.discarded + batch && |batch| <= CAPACITY
    requires b.messages == [] && (!b.stopped ==> m.discarded == []) && (b.stopped ==> batch == [])
    requires forall i :: 0 <= i < |m.drained| ==> |m.drained[i]| <= CAPACITY
    ensures Conserves(Send(m, b, batch))
  {
    FlatAppend(m.drained, batch);
    OneIsEmpty(Flat(m.drained), m.discarded, batch);
  }

  lemma OneIsEmpty(flat: seq<Message>, discarded: seq<Message>, batch: seq<Message>)
    requires discarded == [] || batch == []
    ensures flat + discarded + batch == (flat + batch) + discarded + []
  {
  }

  lemma AddConserves(m: Machine, msg: Message)
    requires Conserves(m)
    ensures Conserves(DoAdd(m, msg))
  {
    if !m.b.stopped {
      var (b, batch) := Added(m.b, msg, m.now);
      var next := m.(b := b, accepted := m.accepted + [msg], times := m.times + [m.now]);
      if batch != [] {
        SendConserves(next, b, batch);
      }
    }
  }

  lemma StepConserves(m: Machine, s: Step)
    requires Conserves(m)
    ensures Conserves(Do(m, s))
  {
    match s
    case Add(msg) => AddConserves(m, msg);
    case ForceFlush => SendConserves(m, Drained(m.b), m.b.messages);
    case TimerFlush =>
      if m.firing > 0 && m.b.messages != [] {
        SendConserves(m.(firing := m.firing - 1), Drained(m.b), m.b.messages);
      }
    case _ =>
  }

  /**
   In every reachable state the accepted messages are the drained batches in drain order, then what
   Stop discarded, then the buffer.
  */
  lemma {:induction false} PlayConserves(steps: seq<Step>)
    ensures Conserves(Play(steps))
  {
    if steps != [] {
      PlayConserves(steps[..|steps| - 1]);
      StepConserves(Play(steps[..|steps| - 1]), steps[|steps| - 1]);
    }
  }

  function Running(m: Machine): seq<seq<Message>> {
    if m.running.Some? then [m.running.value] else []
  }

  /** Every drained batch is delivered once, running, or waiting. */
  ghost predicate Accounted(m: Machine) {
    multiset(m.drained) == multiset(m.delivered) + multiset(Running(m)) + multiset(m.waiting)
  }

  lemma TakeOut<T>(s: seq<T>, i: nat)
    requires i < |s|
    ensures multiset(s) == multiset(s[..i] + s[i + 1..]) + multiset{s[i]}
  {
    assert s == s[..i] + [s[i]] + s[i + 1..];
  }

  lemma SendAccounts(m: Machine, b: BatcherState, batch: seq<Message>)
    requires Accounted(m)
    ensures Accounted(Send(m, b, batch))
  {
  }

  lemma AddAccounts(m: Machine, msg: Message)
    requires Accounted(m)
    ensures Accounted(DoAdd(m, msg))
  {
    var (b, batch) := Added(m.b, msg, m.now);
    var next := m.(b := b, accepted := m.accepted + [msg], times := m.times + [m.now]);
    assert Accounted(next);
    SendAccounts(next, b, batch);
  }

  lemma FlushAccounts(m: Machine)
    requires Accounted(m)
    ensures Accounted(DoTimerFlush(m))
  {
    var (b, batch) := Flushed(m.b);
    var next := m.(b := b, firing := if m.firing > 0 then m.firing - 1 else 0);
    assert Accounted(next);
    SendAccounts(next, b, batch);
  }

  /** The callback takes a waiting batch, or finishes with its own. */
  lemma CallbackAccounts(m: Machine, s: Step)
    requires Accounted(m) && (s.CallbackStart? || s.CallbackEnd?)
    ensures Accounted(Do(m, s))
  {
    if s.CallbackStart? && m.running.None? && s.i < |m.waiting| {
      TakeOut(m.waiting, s.i);
    }
  }

  /** The parts of the machine that the account is about. */
  predicate SameAccount(m: Machine, t: Machine) {
    m.delivered == t.delivered && m.waiting == t.waiting && m.running == t.running && m.drained == t.drained
  }

  lemma OtherStepsAccount(m: Machine, s: Step)
    requires !s.Add? && !s.ForceFlush? && !s.TimerFlush? && !s.CallbackStart? && !s.CallbackEnd?
    ensures SameAccount(m, Do(m, s))
  {
  }

  lemma StepAccounts(m: Machine, s: Step)
    requires Accounted(m)
    ensures Accounted(Do(m, s))
  {
    if s.Add? {
      AddAccounts(m, s.msg);
    } else if s.ForceFlush? {
      SendAccounts(m, Drained(m.b), m.b.messages);
    } else if s.TimerFlush? {
      FlushAccounts(m);
    } else if s.CallbackStart? || s.CallbackEnd? {
      CallbackAccounts(m, s);
    } else {
      OtherStepsAccount(m, s);
    }
  }

  /** No drained batch is lost or delivered twice, in whatever order the callbacks get their turn. */
  lemma {:induction false} PlayAccounts(steps: seq<Step>)
    ensures Accounted(Play(steps))
  {
    if steps != [] {
      PlayAccounts(steps[..|steps| - 1]);
      StepAccounts(Play(steps[..|steps| - 1]), steps[|steps| - 1]);
    }
  }

  // ---- When batches are drained

  /** In every reachable state an added message waits, unless it is the fifteenth; then all fifteen go. */
  lemma AddDrainsFifteen(steps: seq<Step>, msg: Message)
    ensures var m, t := Play(steps), Play(steps + [Add(msg)]);
      if m.b.stopped then t == m
      else if |m.b.messages| == 14 then
        t.drained == m.drained + [m.b.messages + [msg]] && t.waiting == m.waiting + [m.b.messages + [msg]]
          && t.b.messages == []
      else
        t.drained == m.drained && t.waiting == m.waiting && t.b.messages == m.b.messages + [msg]
    ensures var m, t := Play(steps), Play(steps + [Add(msg)]);
      !m.b.stopped ==> t.accepted == m.accepted + [msg] && t.times == m.times + [m.now]
  {
    PlayConserves(steps);
    PlayOneMore(steps, Add(msg));
  }

  lemma TimePasses(steps: seq<Step>, delta: nat)
    ensures Play(steps + [Tick(delta)]) == Play(steps).(now := Play(steps).now + delta)
  {
    PlayOneMore(steps, Tick(delta));
  }

  /** A timer's flush hands out what is buffered, if anything; a forced one always hands out the buffer. */
  lemma FlushesDrain(steps: seq<Step>)
    ensures var m, t := Play(steps), Play(steps + [ForceFlush]);
      t.drained == m.drained + [m.b.messages] && t.waiting == m.waiting + [m.b.messages] && t.b.messages == []
    ensures var m, t := Play(steps), Play(steps + [TimerFlush]);
      m.firing > 0 ==>
        t.b.messages == [] && t.drained == m.drained + if m.b.messages == [] then [] else [m.b.messages]
  {
    PlayOneMore(steps, ForceFlush);
    PlayOneMore(steps, TimerFlush);
  }

  /** A timer that has come due hands out the buffer as soon as its flush gets the lock. */
  lemma DueTimersDrain(steps: seq<Step>)
    ensures var m, t := Play(steps), Play(steps + [ExpireIdle] + [TimerFlush]);
      Expires(m.b.idle, m.now) ==> t.drained == m.drained + [m.b.messages] && t.b.messages == []
    ensures var m, t := Play(steps), Play(steps + [ExpireMax] + [TimerFlush]);
      Expires(m.b.max, m.now) ==> t.drained == m.drained + [m.b.messages] && t.b.messages == []
  {
    PlayArms(steps);
    PlayOneMore(steps, ExpireIdle);
    PlayOneMore(steps + [ExpireIdle], TimerFlush);
    PlayOneMore(steps, ExpireMax);
    PlayOneMore(steps + [ExpireMax], TimerFlush);
  }

  predicate Flushes(s: Step) {
    s.ForceFlush? || s.TimerFlush? || s.Stop?
  }

  function AddedBy(steps: seq<Step>): seq<Message> {
    if steps == [] then []
    else
      AddedBy(steps[..|steps| - 1]) + if steps[|steps| - 1].Add? then [steps[|steps| - 1].msg] else []
  }

  /** After `m` has been added `adds`: whole fifteens drained, the rest buffered. */
  ghost predicate ByFifteens(m: Machine, adds: seq<Message>, t: Machine) {
    && !t.b.stopped && m.drained <= t.drained && |t.drained| == |m.drained| + |adds| / 15
    && (forall k {:trigger t.drained[k]} :: |m.drained| <= k < |t.drained| ==>
          t.drained[k] == adds[15 * (k - |m.drained|)..15 * (k - |m.drained|) + 15])
    && t.b.messages == adds[|adds| - |adds| % 15..]
  }

  lemma OneMoreByFifteens(m: Machine, adds: seq<Message>, msg: Message, t: Machine)
    requires ByFifteens(m, adds, t)
    ensures ByFifteens(m, adds + [msg], DoAdd(t, msg))
  {
    var more, u := adds + [msg], DoAdd(t, msg);
    var q, r := |adds| / 15, |adds| % 15;
    assert |adds| == 15 * q + r;
    forall k | |m.drained| <= k < |u.drained|
      ensures u.drained[k] == more[15 * (k - |m.drained|)..15 * (k - |m.drained|) + 15]
    {
      if k < |t.drained| {
        assert u.drained[k] == t.drained[k];
      }
    }
  }

  lemma QuietStep(m: Machine, adds: seq<Message>, s: Step, t: Machine)
    requires ByFifteens(m, adds, t) && !Flushes(s)
    ensures ByFifteens(m, adds + if s.Add? then [s.msg] else [], Do(t, s))
  {
    if s.Add? {
      OneMoreByFifteens(m, adds, s.msg, t);
    } else {
      assert adds + [] == adds && Do(t, s).drained == t.drained && Do(t, s).b.messages == t.b.messages;
    }
  }

  lemma PlayOn(before: seq<Step>, more: seq<Step>)
    requires more != []
    ensures Play(before + more) == Do(Play(before + more[..|more| - 1]), more[|more| - 1])
  {
    assert before + more == (before + more[..|more| - 1]) + [more[|more| - 1]];
    PlayOneMore(before + more[..|more| - 1], more[|more| - 1]);
  }

  /** Without flush or Stop, messages go out in fifteens, in the order they were added. */
  lemma {:induction false} QuietStepsByFifteens(before: seq<Step>, more: seq<Step>)
    requires !Play(before).b.stopped && Play(before).b.messages == []
    requires forall k :: 0 <= k < |more| ==> !Flushes(more[k])
    ensures ByFifteens(Play(before), AddedBy(more), Play(before + more))
  {
    if more == [] {
      assert before + [] == before;
    } else {
      var n := |more| - 1;
      QuietStepsByFifteens(before, more[..n]);
      PlayOn(before, more);
      QuietStep(Play(before), AddedBy(more[..n]), more[n], Play(before + more[..n]));
    }
  }

  lemma FewByFifteens(m: Machine, adds: seq<Message>, t: Machine)
    requires ByFifteens(m, adds, t) && |adds| < 15
    ensures t.b.messages == adds && t.drained == m.drained
  {
    assert |adds| / 15 == 0 && |adds| % 15 == |adds|;
  }

  /** Fewer than fifteen messages, with no flush and no Stop in between, stay buffered. */
  lemma FewMessagesWait(before: seq<Step>, more: seq<Step>)
    requires !Play(before).b.stopped && Play(before).b.messages == [] && |AddedBy(more)| < 15
    requires forall k :: 0 <= k < |more| ==> !Flushes(more[k])
    ensures Play(before + more).b.messages == AddedBy(more) && Play(before + more).drained == Play(before).drained
  {
    QuietStepsByFifteens(before, more);
    FewByFifteens(Play(before), AddedBy(more), Play(before + more));
  }

  lemma StoppedStep(m: Machine, s: Step)
    requires m.b.stopped && m.b.messages == []
    ensures var t := Do(m, s);
      t.b.stopped && t.b.messages == [] && t.accepted == m.accepted && t.discarded == m.discarded
  {
  }

  /** After Stop nothing is accepted or buffered any more. */
  lemma {:induction false} StopIsFinal(before: seq<Step>, more: seq<Step>)
    ensures var m, t := Play(before), Play(before + [Stop] + more);
      t.b.stopped && t.b.messages == [] && t.accepted == m.accepted && t.discarded == m.discarded + m.b.messages
  {
    var stopped := before + [Stop];
    if more == [] {
      assert stopped + [] == stopped;
      PlayOneMore(before, Stop);
    } else {
      var n := |more| - 1;
      StopIsFinal(before, more[..n]);
      PlayOn(stopped, more);
      StoppedStep(Play(stopped + more[..n]), more[n]);
    }
  }

  // ---- Order of delivery

  /** Delivered, running and waiting batches, in that order, are the drained ones in drain order. */
  ghost predicate InDrainOrder(m: Machine) {
    m.delivered + Running(m) + m.waiting == m.drained
  }

  /** A callback that starts now takes a batch equal to every batch waiting before it. */
  ghost predicate TakesFirst(m: Machine, s: Step) {
    s.CallbackStart? && m.running.None? && s.i < |m.waiting| ==> forall j :: 0 <= j < s.i ==>
      m.waiting[j] == m.waiting[s.i]
  }

  lemma {:induction false} TurningFront<T>(front: seq<T>, x: T)
    ensures [x] + front == front + [x] <==> forall j :: 0 <= j < |front| ==> front[j] == x
  {
    if [x] + front == front + [x] && front != [] {
      assert ([x] + front)[0] == (front + [x])[0] == front[0];
      var rest := front[1..];
      assert front == [x] + rest;
      assert [x] + rest == rest + [x] by {
        assert [x] + front == [x] + ([x] + rest) && front + [x] == [x] + (rest + [x]);
        assert ([x] + ([x] + rest))[1..] == [x] + rest && ([x] + (rest + [x]))[1..] == rest + [x];
      }
      TurningFront(rest, x);
      forall j | 0 <= j < |front| ensures front[j] == x {
        if j > 0 {
          assert front[j] == rest[j - 1];
        }
      }
    }
  }

  lemma StartKeepsOrderIff(m: Machine, i: nat)
    requires InDrainOrder(m)
    ensures InDrainOrder(Do(m, CallbackStart(i))) <==> TakesFirst(m, CallbackStart(i))
  {
    if m.running.None? && i < |m.waiting| {
      var x, front, back := m.waiting[i], m.waiting[..i], m.waiting[i + 1..];
      var t := Do(m, CallbackStart(i));
      assert m.waiting == front + [x] + back;
      assert t.delivered + Running(t) + t.waiting == m.delivered + ([x] + front) + back;
      assert m.drained == m.delivered + (front + [x]) + back;
      var n := |m.delivered|;
      assert (m.delivered + ([x] + front) + back)[n..n + i + 1] == [x] + front;
      assert (m.delivered + (front + [x]) + back)[n..n + i + 1] == front + [x];
      TurningFront(front, x);
    }
  }

  lemma StepKeepsOrderIff(m: Machine, s: Step)
    requires InDrainOrder(m)
    ensures InDrainOrder(Do(m, s)) <==> TakesFirst(m, s)
  {
    if s.CallbackStart? {
      StartKeepsOrderIff(m, s.i);
    }
  }

  /** Now and at every moment before. */
  ghost predicate AlwaysInOrder(steps: seq<Step>) {
    InDrainOrder(Play(steps)) && (steps != [] ==> AlwaysInOrder(steps[..|steps| - 1]))
  }

  ghost predicate AlwaysTakesFirst(steps: seq<Step>) {
    steps != [] ==>
      AlwaysTakesFirst(steps[..|steps| - 1]) && TakesFirst(Play(steps[..|steps| - 1]), steps[|steps| - 1])
  }

  /**
   Batches are delivered in drain order, at every moment, exactly when each callback that starts
   takes a batch equal to all that were waiting before it.
  */
  lemma {:induction false} DeliveryIsInOrderIff(steps: seq<Step>)
    ensures AlwaysInOrder(steps) <==> AlwaysTakesFirst(steps)
  {
    if steps != [] {
      var front := steps[..|steps| - 1];
      DeliveryIsInOrderIff(front);
      if AlwaysInOrder(front) {
        StepKeepsOrderIff(Play(front), steps[|steps| - 1]);
      }
    }
  }

  /** First come, first served is enough. */
  lemma {:induction false} FirstComeIsInOrder(steps: seq<Step>)
    requires forall n :: 0 <= n < |steps| && steps[n].CallbackStart? ==> steps[n].i == 0
    ensures AlwaysInOrder(steps)
  {
    if steps != [] {
      var front := steps[..|steps| - 1];
      FirstComeIsInOrder(front);
      DeliveryIsInOrderIff(front);
      assert TakesFirst(Play(front), steps[|steps| - 1]);
    }
    DeliveryIsInOrderIff(steps);
  }

  // ---- Timers

  /** Both timers are armed exactly while something is buffered, and a fired one has a flush on its way. */
  ghost predicate Armed(m: Machine) {
    && (m.b.idle.Some? <==> m.b.messages != [])
    && (m.b.max.Some? <==> m.b.messages != [])
    && (m.b.idle.Some? && m.b.idle.value.fired ==> m.firing > 0)
    && (m.b.max.Some? && m.b.max.value.fired ==> m.firing > 0)
  }

  /** The deadlines come from the first and the last buffered message. */
  ghost predicate Timed(m: Machine) {
    && |m.b.messages| <= |m.times|
    && (m.b.messages != [] && m.b.max.Some? ==>
          m.b.max.value.deadline == m.times[|m.times| - |m.b.messages|] + MAX_TIMEOUT)
    && (m.b.messages != [] && m.b.idle.Some? ==> m.b.idle.value.deadline == m.times[|m.times| - 1] + IDLE_TIMEOUT)
    && (forall i, j :: 0 <= i <= j < |m.times| ==> m.times[i] <= m.times[j] <= m.now)
  }

  lemma StepArms(m: Machine, s: Step)
    requires Armed(m)
    ensures Armed(Do(m, s))
  {
  }

  lemma AddTimes(m: Machine, msg: Message)
    requires Armed(m) && Timed(m)
    ensures Timed(DoAdd(m, msg))
  {
    if !m.b.stopped {
      var times := m.times + [m.now];
      assert times[|times| - 1] == m.now;
      assert forall i :: 0 <= i < |m.times| ==> times[i] == m.times[i];
    }
  }

  lemma StepTimes(m: Machine, s: Step)
    requires Armed(m) && Timed(m)
    ensures Timed(Do(m, s))
  {
    match s
    case Add(msg) => AddTimes(m, msg);
    case _ =>
  }

  lemma {:induction false} PlayArms(steps: seq<Step>)
    ensures Armed(Play(steps)) && Timed(Play(steps))
  {
    if steps != [] {
      var m, s := Play(steps[..|steps| - 1]), steps[|steps| - 1];
      PlayArms(steps[..|steps| - 1]);
      StepArms(m, s);
      StepTimes(m, s);
    }
  }

  /** Prompt timers: time does not pass over a deadline, nor while a started flush waits. */
  predicate PromptTick(m: Machine, delta: nat) {
    delta > 0 ==>
      && m.firing == 0
      && (m.b.idle.Some? && !m.b.idle.value.fired ==> m.now + delta <= m.b.idle.value.deadline)
      && (m.b.max.Some? && !m.b.max.value.fired ==> m.now + delta <= m.b.max.value.deadline)
  }

  ghost predicate Prompt(steps: seq<Step>) {
    forall k :: 0 <= k < |steps| && steps[k].Tick? ==> PromptTick(Play(steps[..k]), steps[k].delta)
  }

  lemma StepOnTime(m: Machine, s: Step)
    requires Armed(m) && (m.b.messages != [] ==> m.now <= m.b.max.value.deadline && m.now <= m.b.idle.value.deadline)
    requires s.Tick? ==> PromptTick(m, s.delta)
    requires Armed(Do(m, s))
    ensures var t := Do(m, s);
      t.b.messages != [] ==> t.now <= t.b.max.value.deadline && t.now <= t.b.idle.value.deadline
  {
  }

  /**
   With prompt timers no message waits in the buffer for more than 20 seconds, nor more than 3 after
   the last arrival.
  */
  lemma {:induction false} NoMessageWaitsLong(steps: seq<Step>)
    requires Prompt(steps)
    ensures var m := Play(steps);
      m.b.messages != [] ==>
        && |m.b.messages| <= |m.times|
        && (forall i :: |m.times| - |m.b.messages| <= i < |m.times| ==> m.now <= m.times[i] + 20_000_000_000)
        && m.now <= m.times[|m.times| - 1] + 3_000_000_000
  {
    PlayArms(steps);
    if steps != [] {
      var front := steps[..|steps| - 1];
      var s := steps[|steps| - 1];
      forall k | 0 <= k < |front| && front[k].Tick? ensures PromptTick(Play(front[..k]), front[k].delta) {
        assert front[..k] == steps[..k] && front[k] == steps[k];
      }
      NoMessageWaitsLong(front);
      PlayArms(front);
      StepOnTime(Play(front), s);
    }
  }

  lemma PlayOneMore(steps: seq<Step>, s: Step)
    ensures Play(steps + [s]) == Do(Play(steps), s)
  {
    assert (steps + [s])[..|steps|] == steps;
  }

  lemma AddThenFlush(m: Machine, msg: Message) returns (t: Machine)
    requires m.b == EMPTY
    ensures t == Do(Do(m, Add(msg)), ForceFlush)
    ensures t.b == EMPTY && t.waiting == m.waiting + [[msg]] && t.drained == m.drained + [[msg]]
    ensures t.running == m.running && t.delivered == m.delivered
  {
    t := Do(Do(m, Add(msg)), ForceFlush);
    assert m.b.messages + [msg] == [msg];
  }

  lemma TwoBatchesWait(a: Message, b: Message) returns (steps: seq<Step>)
    ensures var m := Play(steps);
      m.drained == m.waiting == [[a], [b]] && m.running == None && m.delivered == []
  {
    steps := [] + [Add(a)] + [ForceFlush] + [Add(b)] + [ForceFlush];
    PlayOneMore([], Add(a));
    PlayOneMore([] + [Add(a)], ForceFlush);
    PlayOneMore([] + [Add(a)] + [ForceFlush], Add(b));
    PlayOneMore([] + [Add(a)] + [ForceFlush] + [Add(b)], ForceFlush);
    var m := AddThenFlush(START, a);
    m := AddThenFlush(m, b);
  }

  /** The order of delivery is not promised: a later batch may take the callback first. */
  lemma DeliveryMayOvertake(a: Message, b: Message) returns (steps: seq<Step>)
    ensures var m := Play(steps); m.drained == [[a], [b]] && m.delivered == [[b], [a]]
  {
    var adds := TwoBatchesWait(a, b);
    steps := adds + [CallbackStart(1)] + [CallbackEnd] + [CallbackStart(0)] + [CallbackEnd];
    PlayOneMore(adds, CallbackStart(1));
    PlayOneMore(adds + [CallbackStart(1)], CallbackEnd);
    PlayOneMore(adds + [CallbackStart(1)] + [CallbackEnd], CallbackStart(0));
    PlayOneMore(adds + [CallbackStart(1)] + [CallbackEnd] + [CallbackStart(0)], CallbackEnd);
  }
}
