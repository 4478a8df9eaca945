/**
 The trust tracker (internal/p2p/trust.go): reject counts, quarantine, and one token bucket per
 peer. Seconds and tokens are exact reals; ZERO stands for Go's zero time.
*/
module Trust {
  const QUARANTINE_THRESHOLD: nat := 3
  const RATE_PER_SECOND: real := 8.0
  const BURST: real := 12.0
  const ZERO: real := 0.0

  datatype PeerRate = PeerRate(tokens: real, last: real)

  datatype TrustState = TrustState(
    invalid: map<string, nat>,
    quarantine: set<string>,
    rates: map<string, PeerRate>,
    rateLimited: nat,
    lastReason: string)

  const FRESH := TrustState(map[], {}, map[], 0, "")

  function Named(pid: string): string {
    if pid == "" then "unknown" else pid
  }

  function Short(pid: string): string {
    if |pid| <= 8 then pid else pid[..8]
  }

  function Count(invalid: map<string, nat>, pid: string): nat {
    if pid in invalid then invalid[pid] else 0
  }

  /** One more reject against `p`, and quarantine from the third on. */
  function Charged(s: TrustState, p: string, reason: string): TrustState {
    var n := Count(s.invalid, p) + 1;
    s.(invalid := s.invalid[p := n],
       quarantine := if n >= QUARANTINE_THRESHOLD then s.quarantine + {p} else s.quarantine,
       lastReason := Short(p) + ": " + reason)
  }

  function Rejected(s: TrustState, pid: string, reason: string): TrustState {
    Charged(s, Named(pid), if reason == "" then "invalid" else reason)
  }

  predicate IsQuarantined(s: TrustState, pid: string) {
    pid != "" && pid in s.quarantine
  }

  /** The bucket of one peer at `now`, before a token is taken. */
  function Refilled(rates: map<string, PeerRate>, p: string, now: real): PeerRate {
    if p !in rates || rates[p].last == ZERO then PeerRate(BURST, now)
    else
      var delta := now - rates[p].last;
      if delta > 0.0 then
        var grown := rates[p].tokens + delta * RATE_PER_SECOND;
        PeerRate(if grown > BURST then BURST else grown, now)
      else PeerRate(rates[p].tokens, now)
  }

  predicate Admits(rates: map<string, PeerRate>, pid: string, now: real) {
    Refilled(rates, Named(pid), now).tokens >= 1.0
  }

  function Spent(rates: map<string, PeerRate>, pid: string, now: real): map<string, PeerRate> {
    var p := Named(pid);
    var r := Refilled(rates, p, now);
    rates[p := if r.tokens < 1.0 then r else PeerRate(r.tokens - 1.0, r.last)]
  }

  function Rated(s: TrustState, pid: string, now: real): TrustState {
    var t := s.(rates := Spent(s.rates, pid, now));
    if Admits(s.rates, pid, now) then t
    else Charged(t, Named(pid), "rate_limited").(rateLimited := s.rateLimited + 1)
  }

  // ---- Quarantine

  /** A peer is quarantined exactly from its third reject on. */
  ghost predicate QuarantineInv(s: TrustState) {
    forall p :: p in s.quarantine <==> Count(s.invalid, p) >= 3
  }

  lemma ChargedKeepsQuarantine(s: TrustState, p: string, reason: string)
    requires QuarantineInv(s)
    ensures QuarantineInv(Charged(s, p, reason))
    ensures s.quarantine <= Charged(s, p, reason).quarantine
  {
  }

  /** What a reject means: one more for the peer named, quarantine on the third, and nothing else but the reason. */
  lemma RejectMeaning(s: TrustState, pid: string, reason: string)
    ensures var t, p := Rejected(s, pid, reason), if pid == "" then "unknown" else pid;
      && Count(t.invalid, p) == Count(s.invalid, p) + 1
        && (forall q :: q != p ==> Count(t.invalid, q) == Count(s.invalid, q))
      && (forall q :: q in t.quarantine <==> q in s.quarantine || (q == p && Count(t.invalid, q) >= 3))
      && t.rates == s.rates && t.rateLimited == s.rateLimited
      && t.lastReason == (if |p| <= 8 then p else p[..8]) + ": " + (if reason == "" then "invalid" else reason)
  {
  }

  /** What a call of the rate limiter means for the standing of its peer and of all others. */
  lemma RateMeaning(s: TrustState, pid: string, now: real)
    ensures var t, p := Rated(s, pid, now), if pid == "" then "unknown" else pid;
      && (forall q :: q != p ==> Count(t.invalid, q) == Count(s.invalid, q) && (q in t.rates <==> q in s.rates))
      && (forall q :: q != p && q in s.rates ==> t.rates[q] == s.rates[q])
      && (if Admits(s.rates, pid, now) then t == s.(rates := t.rates)
          else
            && t == Rejected(s, pid, "rate_limited").(rates := t.rates, rateLimited := s.rateLimited + 1)
            && Count(t.invalid, p) == Count(s.invalid, p) + 1)
  {
  }

  // ---- Totals

  /** The sum of all counts. */
  ghost function Total(invalid: map<string, nat>): nat
    decreases |invalid|
  {
    if invalid == map[] then 0
    else
      var p :| p in invalid;
      invalid[p] + Total(invalid - {p})
  }

  lemma {:induction false} TotalWithout(invalid: map<string, nat>, p: string)
    requires p in invalid
    ensures Total(invalid) == invalid[p] + Total(invalid - {p})
    decreases |invalid|
  {
    var q :| q in invalid && Total(invalid) == invalid[q] + Total(invalid - {q});
    if q != p {
      TotalWithout(invalid - {q}, p);
      TotalWithout(invalid - {p}, q);
      assert invalid - {q} - {p} == invalid - {p} - {q};
    }
  }

  lemma ChargedAddsOne(s: TrustState, p: string, reason: string)
    ensures Total(Charged(s, p, reason).invalid) == Total(s.invalid) + 1
  {
    var after := Charged(s, p, reason).invalid;
    TotalWithout(after, p);
    assert after - {p} == s.invalid - {p};
    if p in s.invalid {
      TotalWithout(s.invalid, p);
    } else {
      assert s.invalid - {p} == s.invalid;
    }
  }

  class TrustTracker {
    var invalid: map<string, nat>
    var quarantine: set<string>
    var rates: map<string, PeerRate>
    var rateLimited: nat
    var lastReason: string

    ghost function State(): TrustState
      reads this
    {
      TrustState(invalid, quarantine, rates, rateLimited, lastReason)
    }

    constructor ()
      ensures State() == FRESH
    {
      invalid, quarantine, rates, rateLimited, lastReason := map[], {}, map[], 0, "";
    }

    method RecordReject(pid: string, reason: string)
      modifies this
      ensures State() == Rejected(old(State()), pid, reason)
    {
      var p := if pid == "" then "unknown" else pid;
      var why := if reason == "" then "invalid" else reason;
      invalid := invalid[p := Count(invalid, p) + 1];
      if invalid[p] >= QUARANTINE_THRESHOLD {
        quarantine := quarantine + {p};
      }
      lastReason := Short(p) + ": " + why;
    }

    method AllowRate(pid: string, now: real, wall: real) returns (ok: bool)
      modifies this
      ensures var at := if now == ZERO then wall else now;
        State() == Rated(old(State()), pid, at) && ok == Admits(old(rates), pid, at)
    {
      var p := if pid == "" then "unknown" else pid;
      var at := if now == ZERO then wall else now;
      var state: PeerRate;
      if p !in rates || rates[p].last == ZERO {
        state := PeerRate(BURST, at);
      } else {
        state := rates[p];
        var delta := at - state.last;
        if delta > 0.0 {
          state := state.(tokens := state.tokens + delta * RATE_PER_SECOND);
          if state.tokens > BURST {
            state := state.(tokens := BURST);
          }
        }
        state := state.(last := at);
      }
      if state.tokens < 1.0 {
        invalid := invalid[p := Count(invalid, p) + 1];
        rateLimited := rateLimited + 1;
        if invalid[p] >= QUARANTINE_THRESHOLD {
          quarantine := quarantine + {p};
        }
        lastReason := Short(p) + ": " + "rate_limited";
        rates := rates[p := state];
        return false;
      }
      rates := rates[p := PeerRate(state.tokens - 1.0, state.last)];
      return true;
    }

    method TotalInvalid() returns (total: nat)
      ensures total == Total(invalid)
    {
      total := 0;
      var todo := invalid;
      while todo != map[]
        invariant total + Total(todo) == Total(invalid)
        decreases |todo|
      {
        var p :| p in todo;
        TotalWithout(todo, p);
        total := total + todo[p];
        todo := todo - {p};
      }
    }
  }
}
