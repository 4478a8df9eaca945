/**
 The validator as it runs: early returns that change the tracker on each failing branch, and
 the in-place filter of the read loop. The tracker may be missing.
*/
module Gate {
  import opened Messages
  import opened Trust
  import opened Validator

  ghost function View(trust: TrustTracker?): Option<TrustState>
    reads trust
  {
    if trust == null then None else Some(trust.State())
  }

  function Footprint(trust: TrustTracker?): set<object> {
    if trust == null then {} else {trust}
  }

  method RecordValidationReject(trust: TrustTracker?, forwardedBy: string, senderId: string, reason: string)
    modifies Footprint(trust)
    ensures View(trust) == Refuse(old(View(trust)), forwardedBy, senderId, reason).trust
  {
    if trust == null {
      return;
    }
    var pid := senderId;
    if forwardedBy != "" {
      pid := forwardedBy;
    } else if pid == "" {
      pid := "unknown";
    }
    trust.RecordReject(pid, reason);
  }

  method ValidateSignedMessage(c: Crypto, msg: Option<Message>, trust: TrustTracker?, forwardedBy: string)
    returns (error: Option<string>)
    modifies Footprint(trust)
    ensures Outcome(View(trust), error) == CheckMessage(c, old(View(trust)), msg, forwardedBy)
  {
    if msg.None? {
      RecordValidationReject(trust, forwardedBy, "", "nil_message");
      return Some("nil_message");
    }
    var m := msg.value;
    if m.id == "" || m.senderId == "" || m.senderName == "" {
      RecordValidationReject(trust, forwardedBy, m.senderId, "missing_required_fields");
      return Some("missing_required_fields");
    }
    if |m.content| > MAX_CONTENT {
      RecordValidationReject(trust, forwardedBy, m.senderId, "content_too_large");
      return Some("content_too_large");
    }
    if trust != null && m.senderId != "" && m.senderId in trust.quarantine {
      RecordValidationReject(trust, forwardedBy, m.senderId, "quarantined_peer");
      return Some("quarantined_peer");
    }
    if OwnClock(m) == 0 {
      RecordValidationReject(trust, forwardedBy, m.senderId, "missing_sender_clock");
      return Some("missing_sender_clock");
    }
    if !c.decodes(m.senderId) {
      RecordValidationReject(trust, forwardedBy, m.senderId, "bad_sender_id");
      return Some("bad_sender_id");
    }
    if !c.signable(m) {
      RecordValidationReject(trust, forwardedBy, m.senderId, "signable_bytes_failed");
      return Some("signable_bytes_failed");
    }
    if c.verify(m) != Valid {
      RecordValidationReject(trust, forwardedBy, m.senderId, "bad_signature");
      return Some("bad_signature");
    }
    return None;
  }

  method AllowedByRate(trust: TrustTracker?, claimed: string, forwardedBy: string, now: real)
    returns (error: Option<string>)
    requires now != ZERO
    modifies Footprint(trust)
    ensures Outcome(View(trust), error) == RateCheck(old(View(trust)), RatePid(claimed, forwardedBy), now)
  {
    if trust == null {
      return None;
    }
    var ratePid := claimed;
    if forwardedBy != "" {
      ratePid := forwardedBy;
    }
    var ok := trust.AllowRate(ratePid, now, now);
    return if ok then None else Some("rate_limited");
  }

  method ValidateControl(ctrl: Control, trust: TrustTracker?, forwardedBy: string, now: real, malformed: string)
    returns (error: Option<string>)
    requires now != ZERO
    modifies Footprint(trust)
    ensures Outcome(View(trust), error) == CheckControl(old(View(trust)), ctrl, forwardedBy, now, malformed)
  {
    if ctrl.fromPeerId == "" || ctrl.requestId == "" {
      RecordValidationReject(trust, forwardedBy, ctrl.fromPeerId, malformed);
      return Some(malformed);
    }
    if forwardedBy != "" && ctrl.fromPeerId != forwardedBy {
      RecordValidationReject(trust, forwardedBy, ctrl.fromPeerId, "from_peer_mismatch");
      return Some("from_peer_mismatch");
    }
    error := AllowedByRate(trust, ctrl.fromPeerId, forwardedBy, now);
    if error.Some? {
      return;
    }
    if trust != null && ctrl.fromPeerId != "" && ctrl.fromPeerId in trust.quarantine {
      RecordValidationReject(trust, forwardedBy, ctrl.fromPeerId, "quarantined_peer");
      return Some("quarantined_peer");
    }
  }

  method ValidateSyncMessages(c: Crypto, msgs: seq<Option<Message>>, trust: TrustTracker?, forwardedBy: string)
    returns (error: Option<string>)
    modifies Footprint(trust)
    ensures Outcome(View(trust), error) == CheckAll(c, old(View(trust)), msgs, forwardedBy)
  {
    for i := 0 to |msgs|
      invariant CheckAll(c, old(View(trust)), msgs, forwardedBy) == CheckAll(c, View(trust), msgs[i..], forwardedBy)
    {
      assert msgs[i..][0] == msgs[i] && msgs[i..][1..] == msgs[i + 1..];
      error := ValidateSignedMessage(c, msgs[i], trust, forwardedBy);
      if error.Some? {
        return;
      }
    }
    return None;
  }

  /** `now` is the wall clock, which is never Go's zero time. */
  method ValidateEnvelopeData(c: Crypto, e: Envelope, forwardedBy: string, trust: TrustTracker?, now: real)
    returns (error: Option<string>)
    requires now != ZERO
    modifies Footprint(trust)
    ensures Outcome(View(trust), error) == CheckEnvelope(c, old(View(trust)), e, forwardedBy, now)
  {
    if e.size == 0 {
      RecordValidationReject(trust, forwardedBy, "", "empty_payload");
      return Some("empty_payload");
    }
    if e.size > MAX_PAYLOAD {
      RecordValidationReject(trust, forwardedBy, "", "payload_too_large");
      return Some("payload_too_large");
    }
    match e.body
    case NotJson =>
      RecordValidationReject(trust, forwardedBy, "", "invalid_json");
      return Some("invalid_json");
    case Activity =>
      return None;
    case SyncRequest(None) =>
      RecordValidationReject(trust, forwardedBy, "", "bad_sync_request");
      return Some("bad_sync_request");
    case SyncRequest(Some(ctrl)) =>
      error := ValidateControl(ctrl, trust, forwardedBy, now, "malformed_sync_request");
    case SyncResponse(None) =>
      RecordValidationReject(trust, forwardedBy, "", "bad_sync_response");
      return Some("bad_sync_response");
    case SyncResponse(Some(ctrl)) =>
      error := ValidateControl(ctrl, trust, forwardedBy, now, "malformed_sync_response");
      if error.None? {
        error := ValidateSyncMessages(c, ctrl.messages, trust, forwardedBy);
      }
    case Chat(None) =>
      RecordValidationReject(trust, forwardedBy, "", "bad_chat_message");
      return Some("bad_chat_message");
    case Chat(Some(m)) =>
      error := AllowedByRate(trust, m.senderId, forwardedBy, now);
      if error.None? {
        error := ValidateSignedMessage(c, Some(m), trust, forwardedBy);
      }
  }

  // ---- The read loop's filter of sync messages

  /** The tracker after re-checking all messages, and those that survived, in order. */
  function Survivors(c: Crypto, trust: Option<TrustState>, msgs: seq<Message>): (Option<TrustState>, seq<Message>) {
    if msgs == [] then (trust, [])
    else
      var n := |msgs| - 1;
      var (before, kept) := Survivors(c, trust, msgs[..n]);
      var o := CheckMessage(c, before, Some(msgs[n]), "");
      (o.trust, if o.error.None? then kept + [msgs[n]] else kept)
  }

  lemma SurvivorsStep(c: Crypto, trust: Option<TrustState>, msgs: seq<Message>, i: nat)
    requires i < |msgs|
    ensures var (before, kept) := Survivors(c, trust, msgs[..i]);
      var o := CheckMessage(c, before, Some(msgs[i]), "");
      Survivors(c, trust, msgs[..i + 1]) == (o.trust, if o.error.None? then kept + [msgs[i]] else kept)
  {
    assert msgs[..i + 1][..i] == msgs[..i];
  }

  method FilterVerified(c: Crypto, trust: TrustTracker?, a: array<Message>) returns (n: nat)
    modifies a, Footprint(trust)
    ensures n <= a.Length
    ensures (View(trust), a[..n]) == Survivors(c, old(View(trust)), old(a[..]))
  {
    ghost var was := a[..];
    n := 0;
    for i := 0 to a.Length
      invariant n <= i && a[i..] == was[i..]
      invariant (View(trust), a[..n]) == Survivors(c, old(View(trust)), was[..i])
    {
      var m := a[i];
      ghost var kept, before := a[..n], View(trust);
      SurvivorsStep(c, old(View(trust)), was, i);
      var error := ValidateSignedMessage(c, Some(m), trust, "");
      if error.None? {
        a[n] := m;
        n := n + 1;
        assert a[..n] == kept + [m];
      } else {
        assert a[..n] == kept;
      }
      assert a[i + 1..] == was[i + 1..];
    }
    assert was[..a.Length] == was;
  }

  /** The filter keeps only well-signed messages of the list. */
  lemma {:induction false} SurvivorsAreSigned(c: Crypto, trust: Option<TrustState>, msgs: seq<Message>)
    ensures forall m :: m in Survivors(c, trust, msgs).1 ==>
      m in msgs && WellSigned(c, m) && !Quarantined(trust, m.senderId)
    ensures trust.Some? ==>
      var t := Survivors(c, trust, msgs).0;
      t.Some? && trust.value.quarantine <= t.value.quarantine
  {
    if msgs != [] {
      var n := |msgs| - 1;
      var before := Survivors(c, trust, msgs[..n]).0;
      SurvivorsAreSigned(c, trust, msgs[..n]);
      MessageAcceptedIff(c, before, Some(msgs[n]), "");
      if before.Some? {
        var p := MessageChargesOnce(c, before.value, Some(msgs[n]), "");
      }
      assert msgs == msgs[..n] + [msgs[n]];
    }
  }

  /** Nothing is lost or charged in the second check unless a sender was quarantined after the first. */
  lemma {:induction false} AllSurviveIff(c: Crypto, trust: Option<TrustState>, msgs: seq<Message>)
    requires forall m :: m in msgs ==> WellSigned(c, m)
    ensures Survivors(c, trust, msgs) == (trust, msgs) <==> forall m :: m in msgs ==> !Quarantined(trust, m.senderId)
  {
    if msgs != [] {
      var n := |msgs| - 1;
      assert msgs == msgs[..n] + [msgs[n]];
      AllSurviveIff(c, trust, msgs[..n]);
      MessageAcceptedIff(c, trust, Some(msgs[n]), "");
      SurvivorsAreSigned(c, trust, msgs);
    }
  }
}
