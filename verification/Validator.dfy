/**
 The topic validator (internal/p2p/validate.go) and the second check in the read loop
 (internal/p2p/pubsub.go), over decoded envelopes. `Crypto` stands for peer-ID decoding and for
 Ed25519 as in section 5.1 of RFC 8032.
*/
module Validator {
  import opened Messages
  import opened Trust

  const MAX_PAYLOAD: nat := 64 * 1024
  const MAX_CONTENT: nat := 8192

  datatype SigResult = Valid | Wrong | Unreadable

  datatype Crypto = Crypto(decodes: string -> bool, signable: Message -> bool, verify: Message -> SigResult)

  datatype Control = Control(
    requestId: string,
    fromPeerId: string,
    knownIds: seq<string>,
    messages: seq<Option<Message>>)

  /** What the bytes decode to. None stands for bytes of that kind that do not decode. */
  datatype Body =
    | NotJson
    | Activity
    | SyncRequest(ctrl: Option<Control>)
    | SyncResponse(ctrl: Option<Control>)
    | Chat(msg: Option<Message>)

  datatype Envelope = Envelope(size: nat, body: Body)

  /** The tracker afterwards, and the error if there is one. */
  datatype Outcome = Outcome(trust: Option<TrustState>, error: Option<string>)

  /** Whom a reject is held against: the forwarder, if known. */
  function Culprit(forwardedBy: string, senderId: string): string {
    if forwardedBy != "" then forwardedBy else if senderId == "" then "unknown" else senderId
  }

  function Refuse(trust: Option<TrustState>, forwardedBy: string, senderId: string, reason: string): Outcome {
    Outcome(if trust.None? then None else Some(Rejected(trust.value, Culprit(forwardedBy, senderId), reason)),
            Some(reason))
  }

  predicate Quarantined(trust: Option<TrustState>, pid: string) {
    trust.Some? && IsQuarantined(trust.value, pid)
  }

  function CheckMessage(c: Crypto, trust: Option<TrustState>, msg: Option<Message>, forwardedBy: string): Outcome {
    if msg.None? then Refuse(trust, forwardedBy, "", "nil_message")
    else
      var m := msg.value;
      if m.id == "" || m.senderId == "" || m.senderName == "" then
        Refuse(trust, forwardedBy, m.senderId, "missing_required_fields")
      else if |m.content| > MAX_CONTENT then Refuse(trust, forwardedBy, m.senderId, "content_too_large")
      else if Quarantined(trust, m.senderId) then Refuse(trust, forwardedBy, m.senderId, "quarantined_peer")
      else if OwnClock(m) == 0 then Refuse(trust, forwardedBy, m.senderId, "missing_sender_clock")
      else if !c.decodes(m.senderId) then Refuse(trust, forwardedBy, m.senderId, "bad_sender_id")
      else if !c.signable(m) then Refuse(trust, forwardedBy, m.senderId, "signable_bytes_failed")
      else if c.verify(m) != Valid then Refuse(trust, forwardedBy, m.senderId, "bad_signature")
      else Outcome(trust, None)
  }

  /** Messages in turn, up to the first that fails. */
  function CheckAll(c: Crypto, trust: Option<TrustState>, msgs: seq<Option<Message>>, forwardedBy: string): Outcome {
    if msgs == [] then Outcome(trust, None)
    else
      var first := CheckMessage(c, trust, msgs[0], forwardedBy);
      if first.error.Some? then first else CheckAll(c, first.trust, msgs[1..], forwardedBy)
  }

  function RatePid(claimed: string, forwardedBy: string): string {
    if forwardedBy != "" then forwardedBy else claimed
  }

  /** The rate check, which is skipped without a tracker; None when the call may go on. */
  function RateCheck(trust: Option<TrustState>, pid: string, now: real): Outcome {
    if trust.None? then Outcome(None, None)
    else
      Outcome(Some(Rated(trust.value, pid, now)),
              if Admits(trust.value.rates, pid, now) then None else Some("rate_limited"))
  }

  /** The checks both sync kinds share. */
  function CheckControl(trust: Option<TrustState>, ctrl: Control, forwardedBy: string, now: real,
                        malformed: string): Outcome
  {
    if ctrl.fromPeerId == "" || ctrl.requestId == "" then Refuse(trust, forwardedBy, ctrl.fromPeerId, malformed)
    else if forwardedBy != "" && ctrl.fromPeerId != forwardedBy then
      Refuse(trust, forwardedBy, ctrl.fromPeerId, "from_peer_mismatch")
    else
      var rated := RateCheck(trust, RatePid(ctrl.fromPeerId, forwardedBy), now);
      if rated.error.Some? then rated
      else if Quarantined(rated.trust, ctrl.fromPeerId) then
        Refuse(rated.trust, forwardedBy, ctrl.fromPeerId, "quarantined_peer")
      else rated
  }

  function CheckEnvelope(c: Crypto, trust: Option<TrustState>, e: Envelope, forwardedBy: string, now: real): Outcome {
    if e.size == 0 then Refuse(trust, forwardedBy, "", "empty_payload")
    else if e.size > MAX_PAYLOAD then Refuse(trust, forwardedBy, "", "payload_too_large")
    else
      match e.body
      case NotJson => Refuse(trust, forwardedBy, "", "invalid_json")
      case Activity => Outcome(trust, None)
      case SyncRequest(None) => Refuse(trust, forwardedBy, "", "bad_sync_request")
      case SyncRequest(Some(ctrl)) => CheckControl(trust, ctrl, forwardedBy, now, "malformed_sync_request")
      case SyncResponse(None) => Refuse(trust, forwardedBy, "", "bad_sync_response")
      case SyncResponse(Some(ctrl)) =>
        var checked := CheckControl(trust, ctrl, forwardedBy, now, "malformed_sync_response");
        if checked.error.Some? then checked else CheckAll(c, checked.trust, ctrl.messages, forwardedBy)
      case Chat(None) => Refuse(trust, forwardedBy, "", "bad_chat_message")
      case Chat(Some(m)) =>
        var rated := RateCheck(trust, RatePid(m.senderId, forwardedBy), now);
        if rated.error.Some? then rated else CheckMessage(c, rated.trust, Some(m), forwardedBy)
  }

  // ---- What acceptance means

  /** A message that its claimed sender signed, complete and clocked. */
  ghost predicate WellSigned(c: Crypto, m: Message) {
    && m.id != "" && m.senderId != "" && m.senderName != "" && |m.content| <= 8192
    && OwnClock(m) > 0
    && c.decodes(m.senderId) && c.signable(m) && c.verify(m) == Valid
  }

  lemma MessageAcceptedIff(c: Crypto, trust: Option<TrustState>, msg: Option<Message>, forwardedBy: string)
    ensures CheckMessage(c, trust, msg, forwardedBy).error.None?
            <==> msg.Some? && WellSigned(c, msg.value) && !Quarantined(trust, msg.value.senderId)
    ensures CheckMessage(c, trust, msg, forwardedBy).error.None? ==>
      CheckMessage(c, trust, msg, forwardedBy).trust == trust
  {
  }

  lemma {:induction false} AllAcceptedIff(c: Crypto, trust: Option<TrustState>, msgs: seq<Option<Message>>,
                                          forwardedBy: string)
    ensures CheckAll(c, trust, msgs, forwardedBy).error.None?
            <==>
            forall msg :: msg in msgs ==>
              msg.Some? && WellSigned(c, msg.value) && !Quarantined(trust, msg.value.senderId)
    ensures CheckAll(c, trust, msgs, forwardedBy).error.None? ==> CheckAll(c, trust, msgs, forwardedBy).trust == trust
  {
    if msgs != [] {
      MessageAcceptedIff(c, trust, msgs[0], forwardedBy);
      AllAcceptedIff(c, trust, msgs[1..], forwardedBy);
      assert msgs == [msgs[0]] + msgs[1..];
    }
  }

  /**
   The peers an envelope speaks for: the sender, the claimed requester or responder, and the senders
   of embedded messages.
  */
  ghost predicate SpeaksFor(e: Envelope, pid: string) {
    match e.body
    case Chat(Some(m)) => m.senderId == pid
    case SyncRequest(Some(ctrl)) => ctrl.fromPeerId == pid
    case SyncResponse(Some(ctrl)) => ctrl.fromPeerId == pid || exists m :: Some(m) in ctrl.messages && m.senderId == pid
    case _ => false
  }

  ghost function Embedded(e: Envelope): set<Message> {
    match e.body
    case Chat(Some(m)) => {m}
    case SyncResponse(Some(ctrl)) =>
      set i | 0 <= i < |ctrl.messages| && ctrl.messages[i].Some? :: ctrl.messages[i].value
    case _ => {}
  }

  /** Nothing unsigned gets through, and nothing that speaks for a quarantined peer. */
  lemma AcceptedIsSound(c: Crypto, trust: Option<TrustState>, e: Envelope, forwardedBy: string, now: real)
    requires CheckEnvelope(c, trust, e, forwardedBy, now).error.None?
    ensures forall m :: m in Embedded(e) ==> WellSigned(c, m)
    ensures forall pid :: SpeaksFor(e, pid) ==> !Quarantined(trust, pid)
  {
    match e.body
    case Chat(Some(m)) =>
      MessageAcceptedIff(c, RateCheck(trust, RatePid(m.senderId, forwardedBy), now).trust, Some(m), forwardedBy);
    case SyncResponse(Some(ctrl)) =>
      var checked := CheckControl(trust, ctrl, forwardedBy, now, "malformed_sync_response");
      AllAcceptedIff(c, checked.trust, ctrl.messages, forwardedBy);
      forall i | 0 <= i < |ctrl.messages| && ctrl.messages[i].Some? ensures WellSigned(c, ctrl.messages[i].value) {
        assert ctrl.messages[i] in ctrl.messages;
      }
    case _ =>
  }

  // ---- Exactly when an envelope is accepted

  /** A message that passes: signed, and its sender not in quarantine. */
  ghost predicate Good(c: Crypto, trust: Option<TrustState>, msg: Option<Message>) {
    msg.Some? && WellSigned(c, msg.value) && !Quarantined(trust, msg.value.senderId)
  }

  /** Without a tracker everybody is admitted. */
  ghost predicate Admitted(trust: Option<TrustState>, pid: string, now: real) {
    trust.Some? ==> Admits(trust.value.rates, pid, now)
  }

  /** A complete sync control, of the forwarder if that is known, admitted and not in quarantine. */
  ghost predicate ControlPasses(trust: Option<TrustState>, ctrl: Control, forwardedBy: string, now: real) {
    && ctrl.fromPeerId != "" && ctrl.requestId != "" && (forwardedBy != "" ==> ctrl.fromPeerId == forwardedBy)
    && Admitted(trust, ctrl.fromPeerId, now) && !Quarantined(trust, ctrl.fromPeerId)
  }

  ghost predicate Passes(c: Crypto, trust: Option<TrustState>, e: Envelope, forwardedBy: string, now: real) {
    && 0 < e.size <= 65536
    && match e.body
       case NotJson => false
       case Activity => true
       case SyncRequest(ctrl) => ctrl.Some? && ControlPasses(trust, ctrl.value, forwardedBy, now)
       case SyncResponse(ctrl) =>
         && ctrl.Some? && ControlPasses(trust, ctrl.value, forwardedBy, now)
         && forall msg :: msg in ctrl.value.messages ==> Good(c, trust, msg)
       case Chat(msg) =>
         && msg.Some? && Good(c, trust, msg)
         && Admitted(trust, if forwardedBy != "" then forwardedBy else msg.value.senderId, now)
  }

  /** Passing leaves no mark but the token taken. */
  ghost predicate Unmarked(before: Option<TrustState>, after: Option<TrustState>) {
    match before
    case None => after.None?
    case Some(s) => after.Some? && after.value.(rates := s.rates) == s
  }

  /** A token taken changes nobody's standing. */
  lemma DrawKeepsStanding(trust: Option<TrustState>, pid: string, now: real)
    ensures var o := RateCheck(trust, pid, now);
      && (o.error.None? <==> Admitted(trust, pid, now)) && (o.error.None? ==> Unmarked(trust, o.trust))
      && (o.error.None? ==> forall p :: Quarantined(o.trust, p) <==> Quarantined(trust, p))
  {
  }

  lemma ControlAcceptedIff(trust: Option<TrustState>, ctrl: Control, forwardedBy: string, now: real, malformed: string)
    ensures var o := CheckControl(trust, ctrl, forwardedBy, now, malformed);
      && (o.error.None? <==> ControlPasses(trust, ctrl, forwardedBy, now))
        && (o.error.None? ==> Unmarked(trust, o.trust))
      && (o.error.None? ==> forall p :: Quarantined(o.trust, p) <==> Quarantined(trust, p))
  {
    DrawKeepsStanding(trust, RatePid(ctrl.fromPeerId, forwardedBy), now);
  }

  lemma SameStandingSameMessages(c: Crypto, trust: Option<TrustState>, later: Option<TrustState>,
                                 msgs: seq<Option<Message>>)
    requires forall p :: Quarantined(later, p) <==> Quarantined(trust, p)
    ensures (forall msg :: msg in msgs ==> Good(c, later, msg)) <==> (forall msg :: msg in msgs ==> Good(c, trust, msg))
  {
    assert forall msg :: Good(c, later, msg) <==> Good(c, trust, msg);
  }

  lemma ResponseAcceptedIff(c: Crypto, trust: Option<TrustState>, ctrl: Control, forwardedBy: string, now: real)
    ensures var checked := CheckControl(trust, ctrl, forwardedBy, now, "malformed_sync_response");
      var o := if checked.error.Some? then checked else CheckAll(c, checked.trust, ctrl.messages, forwardedBy);
      && (o.error.None? <==>
            ControlPasses(trust, ctrl, forwardedBy, now) && forall msg :: msg in ctrl.messages ==> Good(c, trust, msg))
      && (o.error.None? ==> Unmarked(trust, o.trust))
  {
    var checked := CheckControl(trust, ctrl, forwardedBy, now, "malformed_sync_response");
    ControlAcceptedIff(trust, ctrl, forwardedBy, now, "malformed_sync_response");
    if checked.error.None? {
      AllAcceptedIff(c, checked.trust, ctrl.messages, forwardedBy);
      SameStandingSameMessages(c, trust, checked.trust, ctrl.messages);
      assert forall msg :: Good(c, checked.trust, msg) <==>
        msg.Some? && WellSigned(c, msg.value) && !Quarantined(checked.trust, msg.value.senderId);
    }
  }

  lemma ChatAcceptedIff(c: Crypto, trust: Option<TrustState>, m: Message, forwardedBy: string, now: real)
    ensures var pid := RatePid(m.senderId, forwardedBy);
      var rated := RateCheck(trust, pid, now);
      var o := if rated.error.Some? then rated else CheckMessage(c, rated.trust, Some(m), forwardedBy);
      && (o.error.None? <==> Admitted(trust, pid, now) && Good(c, trust, Some(m)))
      && (o.error.None? ==> Unmarked(trust, o.trust))
  {
    var rated := RateCheck(trust, RatePid(m.senderId, forwardedBy), now);
    DrawKeepsStanding(trust, RatePid(m.senderId, forwardedBy), now);
    MessageAcceptedIff(c, rated.trust, Some(m), forwardedBy);
  }

  /**
   An envelope of any kind is accepted, with a tracker or without, exactly when it passes; and then
   nobody is charged.
  */
  lemma EnvelopeAcceptedIff(c: Crypto, trust: Option<TrustState>, e: Envelope, forwardedBy: string, now: real)
    ensures var o := CheckEnvelope(c, trust, e, forwardedBy, now);
      && (o.error.None? <==> Passes(c, trust, e, forwardedBy, now)) && (o.error.None? ==> Unmarked(trust, o.trust))
  {
    if 0 < e.size <= MAX_PAYLOAD {
      match e.body
      case SyncRequest(Some(ctrl)) => ControlAcceptedIff(trust, ctrl, forwardedBy, now, "malformed_sync_request");
      case SyncResponse(Some(ctrl)) => ResponseAcceptedIff(c, trust, ctrl, forwardedBy, now);
      case Chat(Some(m)) => ChatAcceptedIff(c, trust, m, forwardedBy, now);
      case _ =>
    }
  }

  // ---- Why an envelope is refused

  predicate Complete(m: Message) {
    m.id != "" && m.senderId != "" && m.senderName != ""
  }

  /** Complete, of legal size, and of a sender not in quarantine. */
  predicate Presentable(trust: Option<TrustState>, m: Message) {
    Complete(m) && |m.content| <= 8192 && !Quarantined(trust, m.senderId)
  }

  /** Each reason for refusing a message, and when it is given. */
  lemma WhyMessageIsRefused(c: Crypto, trust: Option<TrustState>, msg: Option<Message>, forwardedBy: string)
    ensures var why := CheckMessage(c, trust, msg, forwardedBy).error;
      if msg.None? then why == Some("nil_message")
      else
        var m := msg.value;
        && (why == Some("missing_required_fields") <==> !Complete(m))
        && (why == Some("content_too_large") <==> Complete(m) && |m.content| > 8192)
        && (why == Some("quarantined_peer") <==> Complete(m) && |m.content| <= 8192 && Quarantined(trust, m.senderId))
        && (why == Some("missing_sender_clock") <==> Presentable(trust, m) && OwnClock(m) == 0)
        && (why == Some("bad_sender_id") <==> Presentable(trust, m) && OwnClock(m) > 0 && !c.decodes(m.senderId))
        && (why == Some("signable_bytes_failed") <==>
              Presentable(trust, m) && OwnClock(m) > 0 && c.decodes(m.senderId) && !c.signable(m))
        && (why == Some("bad_signature") <==>
              && Presentable(trust, m) && OwnClock(m) > 0 && c.decodes(m.senderId) && c.signable(m)
              && c.verify(m) != Valid)
  {
  }

  /** The same for the checks that both sync kinds share. */
  lemma WhyControlIsRefused(trust: Option<TrustState>, ctrl: Control, forwardedBy: string, now: real, malformed: string)
    requires malformed == "malformed_sync_request" || malformed == "malformed_sync_response"
    ensures var why := CheckControl(trust, ctrl, forwardedBy, now, malformed).error;
      var whole := ctrl.fromPeerId != "" && ctrl.requestId != "";
      var own := forwardedBy == "" || ctrl.fromPeerId == forwardedBy;
      && (why == Some(malformed) <==> !whole)
      && (why == Some("from_peer_mismatch") <==> whole && !own)
      && (why == Some("rate_limited") <==> whole && own && !Admitted(trust, ctrl.fromPeerId, now))
      && (why == Some("quarantined_peer") ==> whole && own && Admitted(trust, ctrl.fromPeerId, now))
  {
  }

  /** And for an envelope as such. */
  lemma WhyEnvelopeIsRefused(c: Crypto, trust: Option<TrustState>, e: Envelope, forwardedBy: string, now: real)
    ensures var why := CheckEnvelope(c, trust, e, forwardedBy, now).error;
      && (e.size == 0 ==> why == Some("empty_payload"))
      && (e.size > 65536 ==> why == Some("payload_too_large"))
      && (0 < e.size <= 65536 ==>
            && (e.body.NotJson? ==> why == Some("invalid_json"))
            && (e.body == SyncRequest(None) ==> why == Some("bad_sync_request"))
            && (e.body == SyncResponse(None) ==> why == Some("bad_sync_response"))
            && (e.body == Chat(None) ==> why == Some("bad_chat_message"))
            && (e.body.Chat? && e.body.msg.Some? ==>
                  var pid := if forwardedBy != "" then forwardedBy else e.body.msg.value.senderId;
                  why == Some("rate_limited") <==> !Admitted(trust, pid, now)))
  {
    if e.body.Chat? && e.body.msg.Some? {
      var m := e.body.msg.value;
      WhyMessageIsRefused(c, RateCheck(trust, RatePid(m.senderId, forwardedBy), now).trust, Some(m), forwardedBy);
    }
  }

  // ---- Accounting

  /** The charge for one reject. `late` says that it was for flooding. */
  ghost predicate ChargesOnce(s: TrustState, t: TrustState, p: string, failed: bool, late: bool) {
    && Total(t.invalid) == Total(s.invalid) + (if failed then 1 else 0)
    && t.rateLimited == s.rateLimited + (if late then 1 else 0)
    && Count(t.invalid, p) == Count(s.invalid, p) + (if failed then 1 else 0)
    && (forall q :: q != p ==> Count(t.invalid, q) == Count(s.invalid, q))
    && s.quarantine <= t.quarantine
    && (QuarantineInv(s) ==> QuarantineInv(t))
  }

  lemma ChargedOnce(s: TrustState, p: string, reason: string)
    ensures ChargesOnce(s, Charged(s, p, reason), p, true, false)
  {
    ChargedAddsOne(s, p, reason);
    if QuarantineInv(s) {
      ChargedKeepsQuarantine(s, p, reason);
    }
  }

  lemma RatedChargesOnce(s: TrustState, pid: string, now: real)
    ensures ChargesOnce(s, Rated(s, pid, now), Named(pid), !Admits(s.rates, pid, now), !Admits(s.rates, pid, now))
  {
    var t := s.(rates := Spent(s.rates, pid, now));
    ChargedOnce(t, Named(pid), "rate_limited");
  }

  lemma RefuseChargesOnce(s: TrustState, forwardedBy: string, senderId: string, reason: string)
    ensures var t := Refuse(Some(s), forwardedBy, senderId, reason).trust.value;
      ChargesOnce(s, t, Culprit(forwardedBy, senderId), true, false)
  {
    ChargedOnce(s, Culprit(forwardedBy, senderId), if reason == "" then "invalid" else reason);
  }

  lemma MessageChargesOnce(c: Crypto, s: TrustState, msg: Option<Message>, forwardedBy: string) returns (p: string)
    ensures var o := CheckMessage(c, Some(s), msg, forwardedBy);
      o.trust.Some? && o.error != Some("rate_limited") && ChargesOnce(s, o.trust.value, p, o.error.Some?, false)
    ensures forwardedBy != "" ==> p == forwardedBy
    ensures forwardedBy == "" && msg.Some? && msg.value.senderId != "" ==> p == msg.value.senderId
  {
    var o := CheckMessage(c, Some(s), msg, forwardedBy);
    var senderId := if msg.Some? then msg.value.senderId else "";
    p := Culprit(forwardedBy, senderId);
    if o.error.Some? {
      RefuseChargesOnce(s, forwardedBy, senderId, o.error.value);
    }
  }

  lemma {:induction false} AllChargeOnce(c: Crypto, s: TrustState, msgs: seq<Option<Message>>, forwardedBy: string)
    returns (p: string)
    ensures var o := CheckAll(c, Some(s), msgs, forwardedBy);
      o.trust.Some? && o.error != Some("rate_limited") && ChargesOnce(s, o.trust.value, p, o.error.Some?, false)
    ensures forwardedBy != "" ==> p == forwardedBy
  {
    p := forwardedBy;
    if msgs != [] {
      p := MessageChargesOnce(c, s, msgs[0], forwardedBy);
      MessageAcceptedIff(c, Some(s), msgs[0], forwardedBy);
      if CheckMessage(c, Some(s), msgs[0], forwardedBy).error.None? {
        p := AllChargeOnce(c, s, msgs[1..], forwardedBy);
      }
    }
  }

  lemma ControlChargesOnce(s: TrustState, ctrl: Control, forwardedBy: string, now: real, malformed: string)
    requires malformed != "rate_limited"
    ensures var o := CheckControl(Some(s), ctrl, forwardedBy, now, malformed);
      && o.trust.Some?
      && ChargesOnce(s, o.trust.value, Culprit(forwardedBy, ctrl.fromPeerId), o.error.Some?,
                     o.error == Some("rate_limited"))
  {
    var p := Culprit(forwardedBy, ctrl.fromPeerId);
    if ctrl.fromPeerId == "" || ctrl.requestId == "" {
      RefuseChargesOnce(s, forwardedBy, ctrl.fromPeerId, malformed);
    } else if forwardedBy != "" && ctrl.fromPeerId != forwardedBy {
      RefuseChargesOnce(s, forwardedBy, ctrl.fromPeerId, "from_peer_mismatch");
    } else {
      RatedChargesOnce(s, RatePid(ctrl.fromPeerId, forwardedBy), now);
      var t := Rated(s, RatePid(ctrl.fromPeerId, forwardedBy), now);
      RefuseChargesOnce(t, forwardedBy, ctrl.fromPeerId, "quarantined_peer");
    }
  }

  lemma ChargesCompose(s: TrustState, m: TrustState, t: TrustState, p: string, q: string, failed: bool)
    requires ChargesOnce(s, m, p, false, false) && ChargesOnce(m, t, q, failed, false)
    ensures ChargesOnce(s, t, q, failed, false)
  {
  }

  lemma ResponseChargesOnce(c: Crypto, s: TrustState, ctrl: Control, forwardedBy: string, now: real) returns (p: string)
    ensures var checked := CheckControl(Some(s), ctrl, forwardedBy, now, "malformed_sync_response");
      var o := if checked.error.Some? then checked else CheckAll(c, checked.trust, ctrl.messages, forwardedBy);
      o.trust.Some? && ChargesOnce(s, o.trust.value, p, o.error.Some?, o.error == Some("rate_limited"))
    ensures forwardedBy != "" ==> p == forwardedBy
  {
    p := Culprit(forwardedBy, ctrl.fromPeerId);
    ControlChargesOnce(s, ctrl, forwardedBy, now, "malformed_sync_response");
    var checked := CheckControl(Some(s), ctrl, forwardedBy, now, "malformed_sync_response");
    if checked.error.None? {
      var o := CheckAll(c, checked.trust, ctrl.messages, forwardedBy);
      var q := AllChargeOnce(c, checked.trust.value, ctrl.messages, forwardedBy);
      ChargesCompose(s, checked.trust.value, o.trust.value, p, q, o.error.Some?);
      p := q;
    }
  }

  lemma ChatChargesOnce(c: Crypto, s: TrustState, m: Message, forwardedBy: string, now: real) returns (p: string)
    ensures var rated := RateCheck(Some(s), RatePid(m.senderId, forwardedBy), now);
      var o := if rated.error.Some? then rated else CheckMessage(c, rated.trust, Some(m), forwardedBy);
      o.trust.Some? && ChargesOnce(s, o.trust.value, p, o.error.Some?, o.error == Some("rate_limited"))
    ensures forwardedBy != "" ==> p == forwardedBy
  {
    p := Named(RatePid(m.senderId, forwardedBy));
    RatedChargesOnce(s, RatePid(m.senderId, forwardedBy), now);
    var rated := RateCheck(Some(s), RatePid(m.senderId, forwardedBy), now);
    if rated.error.None? {
      var o := CheckMessage(c, rated.trust, Some(m), forwardedBy);
      var q := MessageChargesOnce(c, rated.trust.value, Some(m), forwardedBy);
      ChargesCompose(s, rated.trust.value, o.trust.value, p, q, o.error.Some?);
      p := q;
    }
  }

  /**
   Exact accounting: an envelope that is refused, on whatever branch, adds exactly one reject,
   against the forwarder if it is known and against nobody else; an accepted one adds none; and
   the flood counter counts exactly the refusals for flooding.
  */
  lemma EnvelopeChargesOnce(c: Crypto, s: TrustState, e: Envelope, forwardedBy: string, now: real) returns (p: string)
    ensures var o := CheckEnvelope(c, Some(s), e, forwardedBy, now);
      o.trust.Some? && ChargesOnce(s, o.trust.value, p, o.error.Some?, o.error == Some("rate_limited"))
    ensures forwardedBy != "" ==> p == forwardedBy
  {
    p := Culprit(forwardedBy, "");
    if e.size == 0 || e.size > MAX_PAYLOAD {
      RefuseChargesOnce(s, forwardedBy, "", if e.size == 0 then "empty_payload" else "payload_too_large");
    } else {
      match e.body
      case NotJson => RefuseChargesOnce(s, forwardedBy, "", "invalid_json");
      case Activity =>
      case SyncRequest(None) => RefuseChargesOnce(s, forwardedBy, "", "bad_sync_request");
      case SyncRequest(Some(ctrl)) =>
        p := Culprit(forwardedBy, ctrl.fromPeerId);
        ControlChargesOnce(s, ctrl, forwardedBy, now, "malformed_sync_request");
      case SyncResponse(None) => RefuseChargesOnce(s, forwardedBy, "", "bad_sync_response");
      case SyncResponse(Some(ctrl)) => p := ResponseChargesOnce(c, s, ctrl, forwardedBy, now);
      case Chat(None) => RefuseChargesOnce(s, forwardedBy, "", "bad_chat_message");
      case Chat(Some(m)) => p := ChatChargesOnce(c, s, m, forwardedBy, now);
    }
  }
}
