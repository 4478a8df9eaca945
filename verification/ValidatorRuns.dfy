/**
 Whole histories of one node's tracker: envelopes at the topic validator, mixing chat, sync,
 activity and rejected traffic, and the read loop's second check of single messages.
*/
module ValidatorRuns {
  import opened Gate
  import opened Messages
  import opened RateLimit
  import opened Trust
  import opened Validator

  /** Arrival is an envelope at the validator; Recheck is a message at verifyMessage, where no forwarder is known. */
  datatype Event = Arrival(env: Envelope, forwardedBy: string, now: real) | Recheck(msg: Message)

  function Checked(c: Crypto, s: TrustState, e: Event): Outcome {
    match e
    case Arrival(env, forwardedBy, now) => CheckEnvelope(c, Some(s), env, forwardedBy, now)
    case Recheck(m) => CheckMessage(c, Some(s), Some(m), "")
  }

  function Played(c: Crypto, events: seq<Event>): TrustState {
    if events == [] then FRESH
    else
      var o := Checked(c, Played(c, events[..|events| - 1]), events[|events| - 1]);
      if o.trust.Some? then o.trust.value else FRESH
  }

  function ErrorAt(c: Crypto, events: seq<Event>, k: nat): Option<string>
    requires k < |events|
  {
    Checked(c, Played(c, events[..k]), events[k]).error
  }

  /** How many of the checks ended with an error that `which` selects. */
  function Errors(c: Crypto, events: seq<Event>, which: string -> bool): nat {
    if events == [] then 0
    else
      var n := |events| - 1;
      var e := ErrorAt(c, events, n);
      Errors(c, events[..n], which) + if e.Some? && which(e.value) then 1 else 0
  }

  lemma PlayedStep(c: Crypto, events: seq<Event>, k: nat)
    requires k < |events|
    ensures var o := Checked(c, Played(c, events[..k]), events[k]);
      Played(c, events[..k + 1]) == if o.trust.Some? then o.trust.value else FRESH
  {
    assert events[..k + 1][..k] == events[..k];
  }

  /** Either check charges a refusal once: an envelope's to its forwarder if known, a message's to its sender. */
  lemma EventChargesOnce(c: Crypto, s: TrustState, e: Event) returns (p: string)
    ensures var o := Checked(c, s, e);
      o.trust.Some? && ChargesOnce(s, o.trust.value, p, o.error.Some?, o.error == Some("rate_limited"))
    ensures e.Arrival? && e.forwardedBy != "" ==> p == e.forwardedBy
    ensures e.Recheck? && e.msg.senderId != "" ==> p == e.msg.senderId
  {
    match e
    case Arrival(env, forwardedBy, now) => p := EnvelopeChargesOnce(c, s, env, forwardedBy, now);
    case Recheck(m) => p := MessageChargesOnce(c, s, Some(m), "");
  }

  /**
   In every reachable state: rejects are exactly the errors of both checks, floods exactly the
   flooding errors, quarantine exactly the third reject.
  */
  lemma {:induction false} ReachableTracker(c: Crypto, events: seq<Event>)
    ensures var s := Played(c, events);
      && Total(s.invalid) == Errors(c, events, (e: string) => true)
      && s.rateLimited == Errors(c, events, (e: string) => e == "rate_limited")
      && QuarantineInv(s)
  {
    if events != [] {
      var n := |events| - 1;
      ReachableTracker(c, events[..n]);
      assert events[..n][..n] == events[..n];
      var p := EventChargesOnce(c, Played(c, events[..n]), events[n]);
    }
  }

  lemma {:induction false} QuarantineLasts(c: Crypto, events: seq<Event>, i: nat, j: nat)
    requires i <= j <= |events|
    ensures Played(c, events[..i]).quarantine <= Played(c, events[..j]).quarantine
    decreases j
  {
    if i < j {
      QuarantineLasts(c, events, i, j - 1);
      PlayedStep(c, events, j - 1);
      var p := EventChargesOnce(c, Played(c, events[..j - 1]), events[j - 1]);
    }
  }

  ghost predicate Voices(e: Event, pid: string) {
    match e
    case Arrival(env, _, _) => SpeaksFor(env, pid)
    case Recheck(m) => m.senderId == pid
  }

  /** From its third reject on, nothing that speaks for a peer passes either check again. */
  lemma QuarantinedIsSilenced(c: Crypto, events: seq<Event>, i: nat, j: nat, pid: string)
    requires i <= j < |events| && pid != ""
    requires Count(Played(c, events[..i]).invalid, pid) >= 3
    requires Voices(events[j], pid)
    ensures ErrorAt(c, events, j).Some?
  {
    ReachableTracker(c, events[..i]);
    QuarantineLasts(c, events, i, j);
    var s := Played(c, events[..j]);
    match events[j]
    case Arrival(env, forwardedBy, now) =>
      if ErrorAt(c, events, j).None? {
        AcceptedIsSound(c, Some(s), env, forwardedBy, now);
      }
    case Recheck(m) => MessageAcceptedIff(c, Some(s), Some(m), "");
  }

  /** How many envelopes forwarded by `pid` were refused. */
  function RefusedFrom(c: Crypto, events: seq<Event>, pid: string): nat {
    if events == [] then 0
    else
      var n := |events| - 1;
      var refused := events[n].Arrival? && events[n].forwardedBy == pid && ErrorAt(c, events, n).Some?;
      RefusedFrom(c, events[..n], pid) + if refused then 1 else 0
  }

  /** Every refused envelope counts against its forwarder, whoever wrote it; the third one quarantines. */
  lemma {:induction false} ForwarderPays(c: Crypto, events: seq<Event>, pid: string)
    requires pid != ""
    ensures RefusedFrom(c, events, pid) <= Count(Played(c, events).invalid, pid)
    ensures RefusedFrom(c, events, pid) >= 3 ==> pid in Played(c, events).quarantine
  {
    ReachableTracker(c, events);
    if events != [] {
      var n := |events| - 1;
      ForwarderPays(c, events[..n], pid);
      var p := EventChargesOnce(c, Played(c, events[..n]), events[n]);
    }
  }

  function Rechecks(msgs: seq<Message>): (events: seq<Event>)
    ensures |events| == |msgs|
  {
    seq(|msgs|, i requires 0 <= i < |msgs| => Recheck(msgs[i]))
  }

  /** The read loop's filter is such a stretch of rechecks on the same tracker. */
  lemma {:induction false} FilterIsPlayed(c: Crypto, events: seq<Event>, msgs: seq<Message>)
    ensures Survivors(c, Some(Played(c, events)), msgs).0 == Some(Played(c, events + Rechecks(msgs)))
  {
    if msgs == [] {
      assert events + Rechecks([]) == events;
    } else {
      var n := |msgs| - 1;
      var all := events + Rechecks(msgs);
      FilterIsPlayed(c, events, msgs[..n]);
      assert all[..|all| - 1] == events + Rechecks(msgs[..n]);
      RecheckIsPlayed(c, all, msgs[n]);
    }
  }

  lemma RecheckIsPlayed(c: Crypto, events: seq<Event>, m: Message)
    requires events != [] && events[|events| - 1] == Recheck(m)
    ensures CheckMessage(c, Some(Played(c, events[..|events| - 1])), Some(m), "").trust == Some(Played(c, events))
  {
    var p := MessageChargesOnce(c, Played(c, events[..|events| - 1]), Some(m), "");
  }

  // ---- The rate bound

  /** The peer whose bucket an event draws on, if it gets that far. It depends on the event alone. */
  function Draws(e: Event): Option<string> {
    if e.Recheck? || e.env.size == 0 || e.env.size > MAX_PAYLOAD then None
    else
      match e.env.body
      case Chat(Some(m)) => Some(RatePid(m.senderId, e.forwardedBy))
      case SyncRequest(Some(ctrl)) => ControlDraws(ctrl, e.forwardedBy)
      case SyncResponse(Some(ctrl)) => ControlDraws(ctrl, e.forwardedBy)
      case _ => None
  }

  function ControlDraws(ctrl: Control, forwardedBy: string): Option<string> {
    if ctrl.fromPeerId == "" || ctrl.requestId == "" || (forwardedBy != "" && ctrl.fromPeerId != forwardedBy) then None
    else Some(RatePid(ctrl.fromPeerId, forwardedBy))
  }

  function RateCalls(events: seq<Event>): seq<RateCall> {
    if events == [] then []
    else
      var e := events[|events| - 1];
      var before := RateCalls(events[..|events| - 1]);
      if Draws(e).Some? then before + [RateCall(Draws(e).value, e.now)] else before
  }

  predicate DrawsOn(e: Event, pid: string) {
    Draws(e).Some? && Named(Draws(e).value) == pid
  }

  /** The times at which events drew on a peer's bucket. */
  function DrawTimes(events: seq<Event>, pid: string): seq<real> {
    if events == [] then []
    else
      var n := |events| - 1;
      DrawTimes(events[..n], pid) + if DrawsOn(events[n], pid) then [events[n].now] else []
  }

  lemma {:induction false} DrawTimesAreCallTimes(events: seq<Event>, pid: string)
    ensures Times(RateCalls(events), pid) == DrawTimes(events, pid)
  {
    if events != [] {
      var n := |events| - 1;
      DrawTimesAreCallTimes(events[..n], pid);
      var before, e := RateCalls(events[..n]), events[n];
      if Draws(e).Some? {
        assert (before + [RateCall(Draws(e).value, e.now)])[..|before|] == before;
      }
    }
  }

  lemma {:induction false} CheckAllKeepsRates(c: Crypto, s: TrustState, msgs: seq<Option<Message>>, forwardedBy: string)
    ensures var o := CheckAll(c, Some(s), msgs, forwardedBy); o.trust.Some? && o.trust.value.rates == s.rates
  {
    if msgs != [] {
      MessageAcceptedIff(c, Some(s), msgs[0], forwardedBy);
      CheckAllKeepsRates(c, s, msgs[1..], forwardedBy);
    }
  }

  /** What a check does to the buckets: draw at most one token, and pass only if it was there. */
  ghost predicate DrawsToken(s: TrustState, o: Outcome, pid: Option<string>, now: real) {
    && o.trust.Some?
    && o.trust.value.rates == (if pid.None? then s.rates else Spent(s.rates, pid.value, now))
    && (o.error.None? && pid.Some? ==> Admits(s.rates, pid.value, now))
  }

  lemma ControlDrawsToken(s: TrustState, ctrl: Control, forwardedBy: string, now: real, malformed: string)
    ensures var o := CheckControl(Some(s), ctrl, forwardedBy, now, malformed);
      DrawsToken(s, o, ControlDraws(ctrl, forwardedBy), now)
        && (o.error.None? ==> ControlDraws(ctrl, forwardedBy).Some?)
  {
  }

  lemma EnvelopeDrawsToken(c: Crypto, s: TrustState, env: Envelope, forwardedBy: string, now: real)
    ensures var o, draws := CheckEnvelope(c, Some(s), env, forwardedBy, now), Draws(Arrival(env, forwardedBy, now));
      && DrawsToken(s, o, draws, now) && (o.error.None? && !env.body.Activity? ==> draws.Some?)
      && (forwardedBy != "" && draws.Some? ==> draws.value == forwardedBy)
  {
    if 0 < env.size <= MAX_PAYLOAD {
      match env.body
      case SyncRequest(Some(ctrl)) => ControlDrawsToken(s, ctrl, forwardedBy, now, "malformed_sync_request");
      case SyncResponse(Some(ctrl)) => ResponseDrawsToken(c, s, ctrl, forwardedBy, now);
      case Chat(Some(m)) => ChatDrawsToken(c, s, m, forwardedBy, now);
      case _ =>
    }
  }

  lemma ResponseDrawsToken(c: Crypto, s: TrustState, ctrl: Control, forwardedBy: string, now: real)
    ensures var checked := CheckControl(Some(s), ctrl, forwardedBy, now, "malformed_sync_response");
      var o := if checked.error.Some? then checked else CheckAll(c, checked.trust, ctrl.messages, forwardedBy);
      DrawsToken(s, o, ControlDraws(ctrl, forwardedBy), now)
      && (o.error.None? ==> ControlDraws(ctrl, forwardedBy).Some?)
  {
    ControlDrawsToken(s, ctrl, forwardedBy, now, "malformed_sync_response");
    var checked := CheckControl(Some(s), ctrl, forwardedBy, now, "malformed_sync_response");
    CheckAllKeepsRates(c, checked.trust.value, ctrl.messages, forwardedBy);
  }

  lemma ChatDrawsToken(c: Crypto, s: TrustState, m: Message, forwardedBy: string, now: real)
    ensures var rated := RateCheck(Some(s), RatePid(m.senderId, forwardedBy), now);
      var o := if rated.error.Some? then rated else CheckMessage(c, rated.trust, Some(m), forwardedBy);
      DrawsToken(s, o, Some(RatePid(m.senderId, forwardedBy)), now)
  {
    var rated := RateCheck(Some(s), RatePid(m.senderId, forwardedBy), now);
    CheckMessageKeepsRates(c, rated.trust.value, m, forwardedBy);
  }

  lemma CheckMessageKeepsRates(c: Crypto, s: TrustState, m: Message, forwardedBy: string)
    ensures var o := CheckMessage(c, Some(s), Some(m), forwardedBy); o.trust.Some? && o.trust.value.rates == s.rates
  {
  }

  lemma EventDrawsToken(c: Crypto, s: TrustState, e: Event)
    ensures var o := Checked(c, s, e); DrawsToken(s, o, Draws(e), if e.Arrival? then e.now else ZERO)
    ensures e.Arrival? && Checked(c, s, e).error.None? && !e.env.body.Activity? ==> Draws(e).Some?
    ensures e.Arrival? && e.forwardedBy != "" && Draws(e).Some? ==> Draws(e).value == e.forwardedBy
  {
    match e
    case Arrival(env, forwardedBy, now) => EnvelopeDrawsToken(c, s, env, forwardedBy, now);
    case Recheck(m) => CheckMessageKeepsRates(c, s, m, "");
  }

  lemma {:induction false} RatesAreReplayed(c: Crypto, events: seq<Event>)
    ensures Played(c, events).rates == Replay(RateCalls(events))
  {
    if events != [] {
      var n := |events| - 1;
      RatesAreReplayed(c, events[..n]);
      EventDrawsToken(c, Played(c, events[..n]), events[n]);
      var before, e := RateCalls(events[..n]), events[n];
      if Draws(e).Some? {
        assert (before + [RateCall(Draws(e).value, e.now)])[..|before|] == before;
      }
    }
  }

  /** An envelope of `pid` that is accepted; activity notes, which are not limited, do not count. */
  predicate Passes(c: Crypto, events: seq<Event>, k: nat, pid: string)
    requires k < |events|
  {
    && events[k].Arrival? && events[k].forwardedBy == pid && !events[k].env.body.Activity?
    && ErrorAt(c, events, k).None?
  }

  /** How many pass at times between `from` and `to`. */
  function PassedWithin(c: Crypto, events: seq<Event>, pid: string, from: real, to: real): nat {
    if events == [] then 0
    else
      var n := |events| - 1;
      PassedWithin(c, events[..n], pid, from, to) +
      if Passes(c, events, n, pid) && from <= events[n].now <= to then 1 else 0
  }

  lemma PassingDraws(c: Crypto, events: seq<Event>, pid: string)
    requires events != [] && pid != "" && Passes(c, events, |events| - 1, pid)
    ensures DrawsOn(events[|events| - 1], pid)
  {
    EventDrawsToken(c, Played(c, events[..|events| - 1]), events[|events| - 1]);
  }

  /** Passing means the bucket's verdict was favourable. */
  lemma PassedMeansAdmitted(c: Crypto, events: seq<Event>, pid: string)
    requires events != [] && Nondecreasing(DrawTimes(events, pid))
    requires DrawsOn(events[|events| - 1], pid) && ErrorAt(c, events, |events| - 1).None?
    ensures DrawTimes(events, pid) != [] && LastAdmitted(DrawTimes(events, pid))
  {
    var n := |events| - 1;
    var before := RateCalls(events[..n]);
    EventDrawsToken(c, Played(c, events[..n]), events[n]);
    RatesAreReplayed(c, events[..n]);
    DrawTimesAreCallTimes(events[..n], pid);
    LastVerdict(before, RateCall(Draws(events[n]).value, events[n].now), pid, DrawTimes(events, pid));
  }

  /** How many of the times are before `from`. */
  function Before(times: seq<real>, from: real): (q: nat)
    ensures q <= |times|
  {
    if times == [] then 0
    else Before(times[..|times| - 1], from) + if times[|times| - 1] < from then 1 else 0
  }

  lemma {:induction false} BeforeMeaning(times: seq<real>, from: real)
    requires Nondecreasing(times)
    ensures forall k :: 0 <= k < |times| ==> (times[k] < from <==> k < Before(times, from))
  {
    if times != [] {
      var n := |times| - 1;
      BeforeMeaning(times[..n], from);
      if times[n] < from {
        assert forall k :: 0 <= k < n ==> times[..n][k] == times[k] <= times[n];
      }
    }
  }

  lemma NothingBeforeTaken(times: seq<real>, from: real)
    requires times != [] && Nondecreasing(times) && times[|times| - 1] < from
    ensures Before(times, from) == |times| && Taken(times, Before(times, from)) == 0
  {
    BeforeMeaning(times, from);
  }

  /** One more draw raises what the window was granted by its verdict, if it lies in the window. */
  lemma OneMoreTaken(times: seq<real>, from: real)
    requires times != [] && Nondecreasing(times)
    ensures var front, last := times[..|times| - 1], times[|times| - 1];
      Taken(times, Before(times, from)) ==
      Taken(front, Before(front, from)) + if last >= from && LastAdmitted(times) then 1 else 0
  {
    var n := |times| - 1;
    var front := times[..n];
    BeforeMeaning(times, from);
    if times[n] < from {
      NothingBeforeTaken(times, from);
      if n > 0 {
        assert front[n - 1] == times[n - 1] <= times[n];
        PrefixIsNondecreasing(times, n);
        NothingBeforeTaken(front, from);
      }
    }
  }

  lemma OneMoreDraw(c: Crypto, events: seq<Event>, pid: string, from: real, to: real)
    requires events != [] && DrawsOn(events[|events| - 1], pid) && Nondecreasing(DrawTimes(events, pid))
    requires var before := DrawTimes(events[..|events| - 1], pid);
      PassedWithin(c, events[..|events| - 1], pid, from, to) <= Taken(before, Before(before, from))
    ensures var times := DrawTimes(events, pid);
      PassedWithin(c, events, pid, from, to) <= Taken(times, Before(times, from))
  {
    var n := |events| - 1;
    var times := DrawTimes(events, pid);
    assert times[..|times| - 1] == DrawTimes(events[..n], pid);
    OneMoreTaken(times, from);
    if Passes(c, events, n, pid) {
      PassedMeansAdmitted(c, events, pid);
    }
  }

  /** What passes in the window took tokens from its beginning on. */
  lemma {:induction false} PassedTookTokens(c: Crypto, events: seq<Event>, pid: string, from: real, to: real)
    requires pid != "" && Nondecreasing(DrawTimes(events, pid))
    ensures var times := DrawTimes(events, pid);
      PassedWithin(c, events, pid, from, to) <= Taken(times, Before(times, from))
  {
    if events != [] {
      var n := |events| - 1;
      var before, times := DrawTimes(events[..n], pid), DrawTimes(events, pid);
      assert before == times[..|before|];
      PrefixIsNondecreasing(times, |before|);
      PassedTookTokens(c, events[..n], pid, from, to);
      if DrawsOn(events[n], pid) {
        OneMoreDraw(c, events, pid, from, to);
      } else {
        assert times == before;
        if Passes(c, events, n, pid) {
          PassingDraws(c, events, pid);
        }
      }
    }
  }

  /** The stretch of draws that begins with the window, when none is later than it. */
  lemma WindowStretch(times: seq<real>, from: real, to: real)
    requires Nondecreasing(times) && from <= to && (times != [] ==> times[|times| - 1] <= to)
    ensures Taken(times, Before(times, from)) as real <= 12.0 + 8.0 * (to - from)
  {
    var q := Before(times, from);
    BeforeMeaning(times, from);
    if q < |times| {
      StretchBound(times, q);
    }
  }

  /**
   In any window of time, at most 12 plus 8 a second of one forwarder's envelopes are accepted,
   whatever else is checked in between. Only the forwarder's own draws need rising times.
  */
  lemma {:induction false} WindowBound(c: Crypto, events: seq<Event>, pid: string, from: real, to: real)
    requires pid != "" && from <= to && Nondecreasing(DrawTimes(events, pid))
    ensures PassedWithin(c, events, pid, from, to) as real <= 12.0 + 8.0 * (to - from)
  {
    var times := DrawTimes(events, pid);
    if times == [] || times[|times| - 1] <= to {
      PassedTookTokens(c, events, pid, from, to);
      WindowStretch(times, from, to);
    } else {
      var n := |events| - 1;
      var before := DrawTimes(events[..n], pid);
      assert before == times[..|before|];
      PrefixIsNondecreasing(times, |before|);
      if Passes(c, events, n, pid) {
        PassingDraws(c, events, pid);
      }
      WindowBound(c, events[..n], pid, from, to);
    }
  }

  // ---- Who is never refused

  /** An envelope that is well formed, speaks as `pid` where it is a control, and holds only well-signed messages. */
  ghost predicate Proper(c: Crypto, e: Envelope, pid: string) {
    && 0 < e.size <= 65536
    && match e.body
       case NotJson => false
       case Activity => true
       case SyncRequest(ctrl) => ctrl.Some? && ctrl.value.fromPeerId == pid && ctrl.value.requestId != ""
       case SyncResponse(ctrl) =>
         && ctrl.Some? && ctrl.value.fromPeerId == pid && ctrl.value.requestId != ""
         && forall msg :: msg in ctrl.value.messages ==> msg.Some? && WellSigned(c, msg.value)
       case Chat(msg) => msg.Some? && WellSigned(c, msg.value)
  }

  /** Nobody it speaks for is in quarantine. */
  ghost predicate Clean(s: TrustState, e: Envelope) {
    forall q :: SpeaksFor(e, q) ==> !IsQuarantined(s, q)
  }

  lemma ProperPassesIff(c: Crypto, s: TrustState, e: Envelope, pid: string, now: real)
    requires pid != "" && Proper(c, e, pid) && Clean(s, e)
    ensures CheckEnvelope(c, Some(s), e, pid, now).error.None? <==> e.body.Activity? || Admits(s.rates, pid, now)
  {
    EnvelopeAcceptedIff(c, Some(s), e, pid, now);
    match e.body
    case SyncResponse(Some(ctrl)) =>
      forall msg | msg in ctrl.messages ensures Good(c, Some(s), msg) {
        assert Some(msg.value) in ctrl.messages && SpeaksFor(e, msg.value.senderId);
      }
      assert SpeaksFor(e, pid);
    case SyncRequest(Some(ctrl)) => assert SpeaksFor(e, pid);
    case Chat(Some(m)) => assert SpeaksFor(e, m.senderId);
    case _ =>
  }

  /** The envelopes of `pid` in a history, all proper and clean when they come. */
  ghost predicate BehavesWell(c: Crypto, events: seq<Event>, pid: string) {
    forall k :: 0 <= k < |events| && ComesFrom(events[k], pid) ==>
      Proper(c, events[k].env, pid) && Clean(Played(c, events[..k]), events[k].env)
  }

  predicate ComesFrom(e: Event, pid: string) {
    e.Arrival? && e.forwardedBy == pid
  }

  lemma ProperDraws(c: Crypto, e: Event, pid: string)
    requires pid != "" && ComesFrom(e, pid) && Proper(c, e.env, pid)
    ensures Draws(e) == if e.env.body.Activity? then None else Some(pid)
  {
  }

  /** The call that an event makes on the buckets. */
  lemma {:induction false} CallOfEvent(events: seq<Event>, k: nat) returns (q: nat)
    requires k < |events| && Draws(events[k]).Some?
    ensures q < |RateCalls(events)| && RateCalls(events)[q] == RateCall(Draws(events[k]).value, events[k].now)
    ensures RateCalls(events)[..q] == RateCalls(events[..k])
    decreases |events|
  {
    var n := |events| - 1;
    var before := RateCalls(events[..n]);
    assert before <= RateCalls(events);
    if k == n {
      q := |before|;
    } else {
      q := CallOfEvent(events[..n], k);
      assert events[..n][..k] == events[..k] && RateCalls(events)[..q] == before[..q];
    }
  }

  /** And the event that makes a call. */
  lemma {:induction false} EventOfCall(events: seq<Event>, q: nat) returns (k: nat)
    requires q < |RateCalls(events)|
    ensures k < |events| && Draws(events[k]).Some?
    ensures RateCalls(events)[q] == RateCall(Draws(events[k]).value, events[k].now)
    ensures RateCalls(events)[..q] == RateCalls(events[..k])
    decreases |events|
  {
    var n := |events| - 1;
    var before := RateCalls(events[..n]);
    if q == |before| {
      k := n;
      assert RateCalls(events)[..q] == before;
    } else {
      k := EventOfCall(events[..n], q);
      assert events[..n][..k] == events[..k] && RateCalls(events)[..q] == before[..q];
    }
  }

  /** An envelope of a well-behaved forwarder is accepted exactly when its call is admitted. */
  lemma AcceptedIffAdmitted(c: Crypto, events: seq<Event>, pid: string, k: nat, q: nat)
    requires pid != "" && BehavesWell(c, events, pid) && k < |events| && ComesFrom(events[k], pid)
    requires Draws(events[k]).Some? && q < |RateCalls(events)| && RateCalls(events)[..q] == RateCalls(events[..k])
    requires RateCalls(events)[q] == RateCall(Draws(events[k]).value, events[k].now)
    ensures Named(RateCalls(events)[q].pid) == pid
      && (ErrorAt(c, events, k).None? <==> AdmittedAt(RateCalls(events), q))
  {
    ProperDraws(c, events[k], pid);
    ProperPassesIff(c, Played(c, events[..k]), events[k].env, pid, events[k].now);
    RatesAreReplayed(c, events[..k]);
  }

  ghost predicate NeverRefused(c: Crypto, events: seq<Event>, pid: string) {
    forall k :: 0 <= k < |events| && ComesFrom(events[k], pid) ==> ErrorAt(c, events, k).None?
  }

  /** A forwarder of proper envelopes whose draws fit 12 plus 8 a second is never refused, whatever others do. */
  lemma ConformingIsNeverRefused(c: Crypto, events: seq<Event>, pid: string)
    requires pid != "" && BehavesWell(c, events, pid) && Nondecreasing(DrawTimes(events, pid))
    requires Conforms(DrawTimes(events, pid))
    ensures NeverRefused(c, events, pid)
  {
    DrawTimesAreCallTimes(events, pid);
    NeverRefusedIffConforms(RateCalls(events), pid);
    forall k | 0 <= k < |events| && ComesFrom(events[k], pid) ensures ErrorAt(c, events, k).None? {
      ProperDraws(c, events[k], pid);
      if Draws(events[k]).Some? {
        var q := CallOfEvent(events, k);
        AcceptedIffAdmitted(c, events, pid, k, q);
      } else {
        ProperPassesIff(c, Played(c, events[..k]), events[k].env, pid, events[k].now);
      }
    }
  }

  /** Where only its own envelopes draw on its bucket, that is exactly when. */
  lemma NeverRefusedIffDrawsConform(c: Crypto, events: seq<Event>, pid: string)
    requires pid != "" && BehavesWell(c, events, pid) && Nondecreasing(DrawTimes(events, pid))
    requires forall k :: 0 <= k < |events| && DrawsOn(events[k], pid) ==> ComesFrom(events[k], pid)
    ensures NeverRefused(c, events, pid) <==> Conforms(DrawTimes(events, pid))
  {
    if Conforms(DrawTimes(events, pid)) {
      ConformingIsNeverRefused(c, events, pid);
    }
    if NeverRefused(c, events, pid) {
      var calls := RateCalls(events);
      forall q | 0 <= q < |calls| && Named(calls[q].pid) == pid ensures AdmittedAt(calls, q) {
        var k := EventOfCall(events, q);
        assert DrawsOn(events[k], pid);
        AcceptedIffAdmitted(c, events, pid, k, q);
      }
      DrawTimesAreCallTimes(events, pid);
      NeverRefusedIffConforms(calls, pid);
    }
  }

  // ---- Who is never charged

  /** It speaks for nobody but its forwarder. */
  ghost predicate OwnVoice(e: Envelope, pid: string) {
    forall q :: SpeaksFor(e, q) ==> q == pid
  }

  /**
   A peer that forwards its own proper envelopes only. Everybody else may do anything, except send
   envelopes without a forwarder, or get a badly signed message under its name as far as the second check.
  */
  ghost predicate Honest(c: Crypto, events: seq<Event>, pid: string) {
    forall k :: 0 <= k < |events| ==>
      match events[k]
      case Arrival(env, forwardedBy, _) => forwardedBy != ""
        && (forwardedBy == pid ==> Proper(c, env, pid) && OwnVoice(env, pid))
      case Recheck(m) => m.senderId != "" && (m.senderId == pid ==> WellSigned(c, m))
  }

  ghost predicate Spotless(s: TrustState, pid: string) {
    Count(s.invalid, pid) == 0 && pid !in s.quarantine
  }

  lemma HonestPrefix(c: Crypto, events: seq<Event>, pid: string, n: nat)
    requires Honest(c, events, pid) && n <= |events|
    ensures Honest(c, events[..n], pid)
  {
  }

  lemma DrawsConformPrefix(events: seq<Event>, pid: string)
    requires events != [] && Nondecreasing(DrawTimes(events, pid)) && Conforms(DrawTimes(events, pid))
    ensures var front := DrawTimes(events[..|events| - 1], pid); Nondecreasing(front) && Conforms(front)
  {
    var front, times := DrawTimes(events[..|events| - 1], pid), DrawTimes(events, pid);
    assert front == times[..|front|];
  }

  lemma HonestBehavesWell(c: Crypto, events: seq<Event>, pid: string)
    requires pid != "" && Honest(c, events, pid)
    requires forall k :: 0 <= k < |events| ==> Spotless(Played(c, events[..k]), pid)
    ensures BehavesWell(c, events, pid)
  {
    forall k | 0 <= k < |events| && ComesFrom(events[k], pid)
      ensures Proper(c, events[k].env, pid) && Clean(Played(c, events[..k]), events[k].env)
    {
      assert OwnVoice(events[k].env, pid) && Spotless(Played(c, events[..k]), pid);
    }
  }

  lemma LastIsUncharged(c: Crypto, events: seq<Event>, pid: string)
    requires pid != "" && events != [] && Honest(c, events, pid) && Spotless(Played(c, events[..|events| - 1]), pid)
    requires ComesFrom(events[|events| - 1], pid) ==> ErrorAt(c, events, |events| - 1).None?
    ensures Spotless(Played(c, events), pid)
  {
    var n := |events| - 1;
    var s := Played(c, events[..n]);
    var p := EventChargesOnce(c, s, events[n]);
    ReachableTracker(c, events[..n]);
    ReachableTracker(c, events);
    if events[n].Recheck? && events[n].msg.senderId == pid {
      MessageAcceptedIff(c, Some(s), Some(events[n].msg), "");
    }
  }

  /** Such a peer is never refused and never charged, as long as its draws fit 12 plus 8 a second. */
  lemma {:induction false} HonestIsNeverCharged(c: Crypto, events: seq<Event>, pid: string)
    requires pid != "" && Honest(c, events, pid)
    requires Nondecreasing(DrawTimes(events, pid)) && Conforms(DrawTimes(events, pid))
    ensures NeverRefused(c, events, pid) && forall k :: 0 <= k <= |events| ==> Spotless(Played(c, events[..k]), pid)
  {
    if events == [] {
      assert events[..0] == [];
    } else {
      var n := |events| - 1;
      DrawsConformPrefix(events, pid);
      HonestPrefix(c, events, pid, n);
      HonestIsNeverCharged(c, events[..n], pid);
      forall k | 0 <= k <= n ensures Spotless(Played(c, events[..k]), pid) {
        assert events[..n][..k] == events[..k];
      }
      HonestBehavesWell(c, events, pid);
      ConformingIsNeverRefused(c, events, pid);
      LastIsUncharged(c, events, pid);
      assert events[..n + 1] == events;
    }
  }
}
