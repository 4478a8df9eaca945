/** What the token bucket of internal/p2p/trust.go lets through, over any history of calls. */
module RateLimit {
  import opened Trust

  datatype RateCall = RateCall(pid: string, now: real)

  /** All buckets after a history of calls, in order. Rejects recorded in between do not touch them. */
  function Replay(calls: seq<RateCall>): map<string, PeerRate> {
    if calls == [] then map[]
    else
      var call := calls[|calls| - 1];
      Spent(Replay(calls[..|calls| - 1]), call.pid, call.now)
  }

  predicate AdmittedAt(calls: seq<RateCall>, k: nat)
    requires k < |calls|
  {
    Admits(Replay(calls[..k]), calls[k].pid, calls[k].now)
  }

  /** The call times of one peer. */
  function Times(calls: seq<RateCall>, p: string): seq<real> {
    if calls == [] then []
    else
      var front := Times(calls[..|calls| - 1], p);
      if Named(calls[|calls| - 1].pid) == p then front + [calls[|calls| - 1].now] else front
  }

  ghost predicate Nondecreasing(times: seq<real>) {
    && (forall i :: 0 <= i < |times| ==> times[i] > ZERO)
    && (forall i, j :: 0 <= i <= j < |times| ==> times[i] <= times[j])
  }

  // ---- One peer alone

  /** The tokens at hand when the last call of `times` comes. */
  function AtHand(times: seq<real>): real
    requires times != []
    decreases |times|, 0
  {
    if |times| == 1 then BURST
    else
      var n := |times| - 1;
      var grown := TokensAfter(times[..n]) + (times[n] - times[n - 1]) * RATE_PER_SECOND;
      if grown > BURST then BURST else grown
  }

  function TokensAfter(times: seq<real>): real
    requires times != []
    decreases |times|, 1
  {
    if AtHand(times) < 1.0 then AtHand(times) else AtHand(times) - 1.0
  }

  predicate LastAdmitted(times: seq<real>)
    requires times != []
  {
    AtHand(times) >= 1.0
  }

  /** How many calls from the `i`-th on were admitted. */
  function Taken(times: seq<real>, i: nat): (n: nat)
    ensures i <= |times| ==> n <= |times| - i
  {
    if i >= |times| then 0
    else Taken(times[..|times| - 1], i) + if LastAdmitted(times) then 1 else 0
  }

  /** The allowance of the stretch from call `i` to the last one, less what it has used. */
  function Headroom(times: seq<real>, i: nat): real
    requires i < |times|
  {
    BURST + RATE_PER_SECOND * (times[|times| - 1] - times[i]) - Taken(times, i) as real
  }

  lemma {:induction false} TokensInRange(times: seq<real>)
    requires times != [] && Nondecreasing(times)
    ensures 0.0 <= TokensAfter(times) <= BURST - 1.0
  {
    if |times| > 1 {
      TokensInRange(times[..|times| - 1]);
    }
  }

  lemma HeadroomGrows(times: seq<real>, i: nat)
    requires |times| > 1 && i < |times| - 1
    ensures var n := |times| - 1;
      Headroom(times, i) == Headroom(times[..n], i) + RATE_PER_SECOND * (times[n] - times[n - 1])
        - if LastAdmitted(times) then 1.0 else 0.0
  {
    var n := |times| - 1;
    assert Taken(times, i) == Taken(times[..n], i) + if LastAdmitted(times) then 1 else 0;
  }

  lemma HeadroomOfLast(times: seq<real>)
    requires times != []
    ensures Headroom(times, |times| - 1) == BURST - if LastAdmitted(times) then 1.0 else 0.0
  {
    var n := |times| - 1;
    assert Taken(times[..n], n) == 0;
  }

  /** The bucket holds the least headroom of all stretches that end now. */
  lemma {:induction false} TokensAreLeastHeadroom(times: seq<real>) returns (tight: nat)
    requires times != [] && Nondecreasing(times)
    ensures forall i :: 0 <= i < |times| ==> TokensAfter(times) <= Headroom(times, i)
    ensures tight < |times| && TokensAfter(times) == Headroom(times, tight)
  {
    var n := |times| - 1;
    HeadroomOfLast(times);
    tight := n;
    if n > 0 {
      var before := TokensAreLeastHeadroom(times[..n]);
      HeadroomGrows(times, before);
      if AtHand(times) < BURST {
        tight := before;
      }
      forall i | 0 <= i < n ensures TokensAfter(times) <= Headroom(times, i) {
        HeadroomGrows(times, i);
      }
    }
  }

  /** In any stretch of calls, admitted or not, at most 12 plus 8 a second get through. */
  lemma StretchBound(times: seq<real>, i: nat)
    requires i < |times| && Nondecreasing(times)
    ensures Taken(times, i) as real <= 12.0 + 8.0 * (times[|times| - 1] - times[i])
  {
    var tight := TokensAreLeastHeadroom(times);
    TokensInRange(times);
    assert TokensAfter(times) <= Headroom(times, i);
  }

  ghost predicate AllAdmitted(times: seq<real>) {
    forall m :: 0 < m <= |times| ==> LastAdmitted(times[..m])
  }

  /** Every contiguous run of calls fits its allowance. */
  ghost predicate Conforms(times: seq<real>) {
    forall i, j :: 0 <= i <= j < |times| ==> (j - i + 1) as real <= 12.0 + 8.0 * (times[j] - times[i])
  }

  lemma {:induction false} TakenWhenAllAdmitted(times: seq<real>, i: nat)
    requires i <= |times| && AllAdmitted(times)
    ensures Taken(times, i) == |times| - i
  {
    if i < |times| {
      var n := |times| - 1;
      forall m | 0 < m <= n ensures LastAdmitted(times[..n][..m]) {
        assert times[..n][..m] == times[..m];
      }
      TakenWhenAllAdmitted(times[..n], i);
      assert times[..|times|] == times;
    }
  }

  /** If every earlier call was admitted and every run up to the last call fits, the last call is admitted. */
  lemma LastOfConforming(times: seq<real>)
    requires times != [] && Nondecreasing(times) && AllAdmitted(times[..|times| - 1])
    requires forall i :: 0 <= i < |times| ==>
      (|times| - i) as real <= 12.0 + 8.0 * (times[|times| - 1] - times[i])
    ensures LastAdmitted(times)
  {
    var n := |times| - 1;
    var tight := TokensAreLeastHeadroom(times);
    TakenWhenAllAdmitted(times[..n], tight);
    assert Taken(times, tight) == n - tight + if LastAdmitted(times) then 1 else 0;
  }

  lemma {:induction false} ConformingIsAdmitted(times: seq<real>, m: nat)
    requires Nondecreasing(times) && Conforms(times) && m <= |times|
    ensures AllAdmitted(times[..m])
  {
    if m > 0 {
      var now, j := times[..m], m - 1;
      ConformingIsAdmitted(times, j);
      assert now[..j] == times[..j] && now[..m] == now;
      LastOfConforming(now);
      forall k | 0 < k <= m ensures LastAdmitted(now[..k]) {
        if k < m {
          assert now[..k] == times[..j][..k];
        }
      }
    }
  }

  /** A schedule is admitted in full exactly when it conforms. */
  lemma AllAdmittedIffConforms(times: seq<real>)
    requires Nondecreasing(times)
    ensures AllAdmitted(times) <==> Conforms(times)
  {
    if Conforms(times) {
      ConformingIsAdmitted(times, |times|);
      assert times[..|times|] == times;
    }
    if AllAdmitted(times) {
      forall i, j | 0 <= i <= j < |times|
        ensures (j - i + 1) as real <= 12.0 + 8.0 * (times[j] - times[i])
      {
        var upto := times[..j + 1];
        forall m | 0 < m <= |upto| ensures LastAdmitted(upto[..m]) {
          assert upto[..m] == times[..m];
        }
        TakenWhenAllAdmitted(upto, i);
        StretchBound(upto, i);
      }
    }
  }

  // ---- Among other peers

  /** The bucket that a peer's own calls leave behind. */
  ghost predicate BucketOf(rates: map<string, PeerRate>, p: string, times: seq<real>) {
    if times == [] then p !in rates
    else p in rates && rates[p] == PeerRate(TokensAfter(times), times[|times| - 1])
  }

  lemma RefillIsAtHand(rates: map<string, PeerRate>, p: string, times: seq<real>)
    requires times != [] && Nondecreasing(times) && BucketOf(rates, p, times[..|times| - 1])
    ensures Refilled(rates, p, times[|times| - 1]) == PeerRate(AtHand(times), times[|times| - 1])
  {
    var n := |times| - 1;
    if n > 0 {
      TokensInRange(times[..n]);
      assert times[..n][n - 1] == times[n - 1] <= times[n];
    }
  }

  lemma PrefixIsNondecreasing(times: seq<real>, n: nat)
    requires Nondecreasing(times) && n <= |times|
    ensures Nondecreasing(times[..n])
  {
  }

  /** A peer's bucket depends on its own calls only. */
  lemma {:induction false} BucketIsPrivate(calls: seq<RateCall>, p: string)
    requires Nondecreasing(Times(calls, p))
    ensures BucketOf(Replay(calls), p, Times(calls, p))
  {
    if calls != [] {
      var front, call := calls[..|calls| - 1], calls[|calls| - 1];
      var times, before := Times(calls, p), Times(front, p);
      assert before == times[..|before|];
      PrefixIsNondecreasing(times, |before|);
      BucketIsPrivate(front, p);
      if Named(call.pid) == p {
        RefillIsAtHand(Replay(front), p, times);
      }
    }
  }

  lemma {:induction false} TimesOfPrefix(calls: seq<RateCall>, p: string, k: nat)
    requires k <= |calls|
    ensures Times(calls[..k], p) <= Times(calls, p)
  {
    if k < |calls| {
      TimesOfPrefix(calls[..|calls| - 1], p, k);
      assert calls[..|calls| - 1][..k] == calls[..k];
    } else {
      assert calls[..k] == calls;
    }
  }

  lemma VerdictIsPrivate(calls: seq<RateCall>, p: string, k: nat)
    requires k < |calls| && Named(calls[k].pid) == p && Nondecreasing(Times(calls, p))
    ensures var times := Times(calls[..k + 1], p); times != [] && (AdmittedAt(calls, k) <==> LastAdmitted(times))
  {
    TimesOfPrefix(calls, p, k + 1);
    PrefixIsNondecreasing(Times(calls, p), |Times(calls[..k + 1], p)|);
    assert calls[..k + 1][..k] == calls[..k];
    LastVerdict(calls[..k], calls[k], p, Times(calls[..k + 1], p));
  }

  lemma LastVerdict(before: seq<RateCall>, call: RateCall, p: string, times: seq<real>)
    requires Named(call.pid) == p && times == Times(before, p) + [call.now] && Nondecreasing(times)
    ensures Admits(Replay(before), call.pid, call.now) <==> LastAdmitted(times)
  {
    var n := |times| - 1;
    assert times[..n] == Times(before, p);
    PrefixIsNondecreasing(times, n);
    BucketIsPrivate(before, p);
    RefillIsAtHand(Replay(before), p, times);
  }

  /** The call that made the `m`-th entry of a peer's times. */
  lemma {:induction false} CallOfTime(calls: seq<RateCall>, p: string, m: nat) returns (k: nat)
    requires 0 < m <= |Times(calls, p)|
    ensures k < |calls| && Named(calls[k].pid) == p && Times(calls[..k + 1], p) == Times(calls, p)[..m]
  {
    var front := calls[..|calls| - 1];
    if m <= |Times(front, p)| {
      k := CallOfTime(front, p, m);
      assert front[..k + 1] == calls[..k + 1] && front[k] == calls[k];
    } else {
      k := |calls| - 1;
      assert calls[..k + 1] == calls;
    }
  }

  /**
   Interleaved with any other peers' calls, a peer is never refused exactly when every
   contiguous run i..j of its calls satisfies j - i + 1 <= 12 + 8 (t_j - t_i).
  */
  lemma NeverRefusedIffConforms(calls: seq<RateCall>, p: string)
    requires Nondecreasing(Times(calls, p))
    ensures (forall k :: 0 <= k < |calls| && Named(calls[k].pid) == p ==> AdmittedAt(calls, k)) <==>
      Conforms(Times(calls, p))
  {
    var times := Times(calls, p);
    AllAdmittedIffConforms(times);
    if AllAdmitted(times) {
      forall k | 0 <= k < |calls| && Named(calls[k].pid) == p ensures AdmittedAt(calls, k) {
        VerdictIsPrivate(calls, p, k);
        TimesOfPrefix(calls, p, k + 1);
        var m := |Times(calls[..k + 1], p)|;
        assert times[..m] == Times(calls[..k + 1], p);
      }
    }
    if forall k :: 0 <= k < |calls| && Named(calls[k].pid) == p ==> AdmittedAt(calls, k) {
      forall m | 0 < m <= |times| ensures LastAdmitted(times[..m]) {
        var k := CallOfTime(calls, p, m);
        VerdictIsPrivate(calls, p, k);
      }
    }
  }
}
