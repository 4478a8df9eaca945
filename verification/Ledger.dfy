/**
 The replicated message log of one node (internal/chat/ledger.go): the class keeps the source's
 fields, `LedgerState` is its value, and `Offer` is what one call of AddWithReason may do.
*/
module Ledger {
  import opened Messages
  import opened MessageOrder
  import opened Orders
  import opened Sorting
  import opened VectorClocks
  import Strings

  const DEFAULT_MAX_MESSAGES: nat := 200

  datatype LedgerState = LedgerState(
    max: nat,
    ids: set<string>,
    messages: seq<Message>,
    senderClock: Clock,
    forks: map<string, string>,
    verified: nat,
    rejected: nat,
    repaired: nat,
    duplicate: nat,
    equivocation: nat,
    clockBack: nat,
    lastReject: string,
    syncStatus: string)

  datatype Verdict = Accepted | Invalid | Duplicate | ClockRegression | Fork

  function Reason(v: Verdict): string {
    match v
    case Accepted => ""
    case Invalid => "invalid_message"
    case Duplicate => "duplicate_message"
    case ClockRegression => "clock_regression"
    case Fork => "equivocation_fork"
  }

  function Fresh(max: nat): LedgerState {
    LedgerState(max, {}, [], map[], map[], 0, 0, 0, 0, 0, 0, "", "idle")
  }

  function Ids(s: seq<Message>): set<string> {
    set m | m in s :: m.id
  }

  /** The key under which the fork guard remembers a message. */
  function ForkKey(m: Message): string {
    m.senderId + "|" + m.prevHash
  }

  /** The guards of AddWithReason, in its order. */
  function Judge(s: LedgerState, m: Message): Verdict {
    if m.id == "" then Invalid
    else if m.id in s.ids then Duplicate
    else if OwnClock(m) > 0 && m.senderId in s.senderClock && OwnClock(m) <= s.senderClock[m.senderId] then
      ClockRegression
    else if m.prevHash != "" && ForkKey(m) in s.forks && s.forks[ForkKey(m)] != m.id then Fork
    else Accepted
  }

  /** How many messages at the front of the sorted list are evicted. */
  function Surplus(max: nat, pool: seq<Message>): (k: nat)
    ensures k <= |pool|
  {
    if |pool| > max then |pool| - max else 0
  }

  function Raised(senderClock: Clock, m: Message): Clock {
    if OwnClock(m) > At(senderClock, m.senderId) then senderClock[m.senderId := OwnClock(m)] else senderClock
  }

  function Remembered(forks: map<string, string>, m: Message): map<string, string> {
    if m.prevHash != "" then forks[ForkKey(m) := m.id] else forks
  }

  /** The ledger after accepting `m`, when sorting gave `pool`. */
  function Absorbed(s: LedgerState, m: Message, pool: seq<Message>): LedgerState {
    var k := Surplus(s.max, pool);
    s.(ids := s.ids + {m.id} - Ids(pool[..k]),
       messages := pool[k..],
       senderClock := Raised(s.senderClock, m),
       forks := Remembered(s.forks, m),
       verified := s.verified + 1)
  }

  /** One call of AddWithReason. The sort is the only freedom. */
  ghost predicate Offer(s: LedgerState, m: Message, t: LedgerState) {
    match Judge(s, m)
    case Invalid => t == s
    case Duplicate => t == s.(duplicate := s.duplicate + 1)
    case ClockRegression => t == s.(clockBack := s.clockBack + 1, lastReject := Reason(ClockRegression))
    case Fork => t == s.(equivocation := s.equivocation + 1, lastReject := Reason(Fork))
    case Accepted => exists pool :: SliceStable(Less, s.messages + [m], pool) && t == Absorbed(s, m, pool)
  }

  function Noted(s: LedgerState, reason: string): LedgerState {
    s.(rejected := s.rejected + 1, lastReject := if reason == "" then "rejected" else reason)
  }

  function Recent(s: LedgerState, limit: int): seq<Message> {
    if limit <= 0 || limit > |s.messages| then s.messages else s.messages[|s.messages| - limit..]
  }

  function Without(msgs: seq<Message>, known: set<string>): seq<Message> {
    if msgs == [] then []
    else
      var rest := Without(msgs[..|msgs| - 1], known);
      if msgs[|msgs| - 1].id in known then rest else rest + [msgs[|msgs| - 1]]
  }

  function Known(known: seq<string>): set<string> {
    set id | id in known
  }

  function MissingFrom(s: LedgerState, known: seq<string>, limit: int): seq<Message> {
    Without(Recent(s, limit), Known(known))
  }

  lemma {:induction false} WithoutMeaning(msgs: seq<Message>, known: set<string>)
    ensures forall m :: m in Without(msgs, known) <==> m in msgs && m.id !in known
    ensures known == {} ==> Without(msgs, known) == msgs
  {
    if msgs != [] {
      var n := |msgs| - 1;
      assert msgs == msgs[..n] + [msgs[n]];
      WithoutMeaning(msgs[..n], known);
    }
  }

  datatype Stats = Stats(
    messageCount: nat,
    verified: nat,
    rejected: nat,
    repaired: nat,
    duplicate: nat,
    equivocation: nat,
    clockBack: nat,
    syncStatus: string,
    lastReject: string,
    vectorClock: Clock)

  ghost predicate IsPeak(msgs: seq<Message>, peer: string, v: nat) {
    && (forall m :: m in msgs ==> At(m.clock, peer) <= v)
    && (v > 0 ==> exists m :: m in msgs && At(m.clock, peer) == v)
  }

  class Ledger {
    const max: nat
    var ids: set<string>
    var messages: seq<Message>
    var senderClock: Clock
    var prevHashBySender: map<string, string>
    var verified: nat
    var rejected: nat
    var repaired: nat
    var duplicate: nat
    var equivocation: nat
    var clockBack: nat
    var lastReject: string
    var syncStatus: string

    ghost function State(): LedgerState
      reads this
    {
      LedgerState(max, ids, messages, senderClock, prevHashBySender, verified, rejected, repaired, duplicate,
                  equivocation, clockBack, lastReject, syncStatus)
    }

    constructor (limit: int)
      ensures State() == Fresh(if limit <= 0 then DEFAULT_MAX_MESSAGES else limit)
      ensures max == (if limit <= 0 then 200 else limit) && ids == {} && messages == [] && senderClock == map[]
      ensures prevHashBySender == map[]
        && verified == rejected == repaired == duplicate == equivocation == clockBack == 0
      ensures lastReject == "" && syncStatus == "idle"
    {
      max := if limit <= 0 then DEFAULT_MAX_MESSAGES else limit;
      ids, messages, senderClock, prevHashBySender := {}, [], map[], map[];
      verified, rejected, repaired, duplicate, equivocation, clockBack := 0, 0, 0, 0, 0, 0;
      lastReject, syncStatus := "", "idle";
    }

    method AddWithReason(msg: Option<Message>) returns (ok: bool, reason: string)
      modifies this
      ensures msg.None? ==> State() == old(State()) && !ok && reason == Reason(Invalid)
      ensures msg.Some? ==> Offer(old(State()), msg.value, State())
      ensures msg.Some? ==>
        ok == Judge(old(State()), msg.value).Accepted? && reason == Reason(Judge(old(State()), msg.value))
      ensures msg.Some? && msg.value.id != "" && msg.value.id in old(ids) ==>
        !ok && reason == "duplicate_message" && State() == old(State()).(duplicate := old(duplicate) + 1)
      ensures !ok && reason != "duplicate_message" && reason != "invalid_message" ==> lastReject == reason
    {
      if msg.None? || msg.value.id == "" {
        return false, "invalid_message";
      }
      var m := msg.value;
      if m.id in ids {
        duplicate := duplicate + 1;
        return false, "duplicate_message";
      }
      var own := OwnClock(m);
      if own > 0 {
        if m.senderId in senderClock && own <= senderClock[m.senderId] {
          clockBack := clockBack + 1;
          lastReject := "clock_regression";
          return false, "clock_regression";
        }
      }
      if m.prevHash != "" {
        if ForkKey(m) in prevHashBySender && prevHashBySender[ForkKey(m)] != m.id {
          equivocation := equivocation + 1;
          lastReject := "equivocation_fork";
          return false, "equivocation_fork";
        }
      }
      ghost var pool := Append(m);
      return true, "";
    }

    /** The accepting half of AddWithReason. */
    method Append(m: Message) returns (ghost pool: seq<Message>)
      modifies this
      ensures SliceStable(Less, old(messages) + [m], pool)
      ensures State() == Absorbed(old(State()), m, pool)
    {
      Register(m);
      pool := InsertSorted(m);
      Evict();
      assert messages == pool[Surplus(max, pool)..] && ids == old(ids) + {m.id} - Ids(pool[..Surplus(max, pool)]);
    }

    method Register(m: Message)
      modifies this`ids, this`prevHashBySender, this`senderClock, this`verified
      ensures ids == old(ids) + {m.id} && verified == old(verified) + 1
      ensures senderClock == Raised(old(senderClock), m)
      ensures prevHashBySender == Remembered(old(prevHashBySender), m)
    {
      ids := ids + {m.id};
      RecordSender(m);
      verified := verified + 1;
    }

    method InsertSorted(m: Message) returns (ghost pool: seq<Message>)
      modifies this`messages
      ensures messages == pool && SliceStable(Less, old(messages) + [m], pool)
    {
      messages := SortSlice(Less, messages + [m]);
      pool := messages;
    }

    method RecordSender(m: Message)
      modifies this`prevHashBySender, this`senderClock
      ensures senderClock == Raised(old(senderClock), m)
      ensures prevHashBySender == Remembered(old(prevHashBySender), m)
    {
      if m.prevHash != "" {
        prevHashBySender := prevHashBySender[ForkKey(m) := m.id];
      }
      if OwnClock(m) > At(senderClock, m.senderId) {
        senderClock := senderClock[m.senderId := OwnClock(m)];
      }
    }

    /** Drops the front of an over-long list and the IDs of what was dropped. */
    method Evict()
      modifies this`ids, this`messages
      ensures messages == old(messages)[Surplus(max, old(messages))..]
      ensures ids == old(ids) - Ids(old(messages)[..Surplus(max, old(messages))])
    {
      if |messages| > max {
        var remove := messages[..|messages| - max];
        DeleteIds(remove);
        messages := messages[|messages| - max..];
      } else {
        assert messages[..0] == [];
      }
    }

    method DeleteIds(remove: seq<Message>)
      modifies this`ids
      ensures ids == old(ids) - Ids(remove)
    {
      for i := 0 to |remove|
        invariant ids == old(ids) - Ids(remove[..i])
      {
        assert remove[..i + 1] == remove[..i] + [remove[i]];
        ids := ids - {remove[i].id};
      }
      assert remove[..|remove|] == remove;
    }

    method Add(msg: Option<Message>) returns (ok: bool)
      modifies this
      ensures msg.None? ==> State() == old(State()) && !ok
      ensures msg.Some? ==> Offer(old(State()), msg.value, State()) && ok == Judge(old(State()), msg.value).Accepted?
    {
      var reason;
      ok, reason := AddWithReason(msg);
    }

    /** The IDs in dictionary order, each once. */
    method IDs() returns (out: seq<string>)
      ensures Elements(out) == ids
      ensures Increasing((s, t) => Strings.Compare(s, t) < 0, out)
    {
      var all: seq<string> := [];
      var todo := ids;
      while todo != {}
        invariant todo <= ids && Elements(all) == ids - todo && NoRepeats(all)
        decreases todo
      {
        var id :| id in todo;
        ElementsAppend(all, [id]);
        assert id !in all by { assert id !in Elements(all); }
        all := all + [id];
        todo := todo - {id};
      }
      var less := (s, t) => Strings.Compare(s, t) < 0;
      out := SortSlice(less, all);
      PermutationElements(all, out);
      forall x, y, z | less(x, y) && less(y, z) ensures less(x, z) {
        Strings.CompareTransitive(x, y, z);
      }
      forall x, y | x != y ensures less(x, y) || less(y, x) {
        Strings.CompareFlips(x, y);
      }
    }

    method GetRecent(limit: int) returns (out: seq<Message>)
      ensures out == Recent(State(), limit)
    {
      var n := if limit <= 0 || limit > |messages| then |messages| else limit;
      var start := |messages| - n;
      out := [];
      for i := start to |messages|
        invariant out == messages[start..i]
      {
        out := out + [messages[i]];
      }
    }

    method GetMissingFrom(known: seq<string>, limit: int) returns (out: seq<Message>)
      ensures out == MissingFrom(State(), known, limit)
    {
      var knownSet := Known(known);
      var recent := GetRecent(limit);
      out := [];
      for i := 0 to |recent|
        invariant out == Without(recent[..i], knownSet)
      {
        assert recent[..i + 1][..i] == recent[..i];
        if recent[i].id !in knownSet {
          out := out + [recent[i]];
        }
      }
      assert recent[..|recent|] == recent;
    }

    method MarkRejected()
      modifies this`rejected
      ensures State() == old(State()).(rejected := old(rejected) + 1)
    {
      rejected := rejected + 1;
    }

    method MarkRejectedReason(reason: string)
      modifies this`rejected, this`lastReject
      ensures State() == Noted(old(State()), reason)
      ensures rejected == old(rejected) + 1 && lastReject == if reason == "" then "rejected" else reason
    {
      rejected := rejected + 1;
      lastReject := if reason == "" then "rejected" else reason;
    }

    method AddRepaired(n: int)
      modifies this`repaired
      ensures State() == old(State()).(repaired := old(repaired) + if n <= 0 then 0 else n)
    {
      if n <= 0 {
        return;
      }
      repaired := repaired + n;
    }

    method SetSyncStatus(status: string)
      modifies this`syncStatus
      ensures State() == old(State()).(syncStatus := if status == "" then "idle" else status)
    {
      syncStatus := if status == "" then "idle" else status;
    }

    /** The counters as they are, and for every peer the greatest entry of any message held. */
    method GetStats() returns (stats: Stats)
      ensures forall peer :: IsPeak(messages, peer, At(stats.vectorClock, peer))
      ensures stats == Stats(|messages|, verified, rejected, repaired, duplicate, equivocation, clockBack, syncStatus,
                             lastReject, stats.vectorClock)
    {
      var vc := StatsClock();
      stats := Stats(|messages|, verified, rejected, repaired, duplicate, equivocation, clockBack, syncStatus,
                     lastReject, vc);
    }

    method StatsClock() returns (vc: Clock)
      ensures forall peer :: IsPeak(messages, peer, At(vc, peer))
    {
      vc := map[];
      for i := 0 to |messages|
        invariant forall peer :: IsPeak(messages[..i], peer, At(vc, peer))
      {
        var next := RaiseTo(vc, messages[i].clock);
        assert messages[..i + 1] == messages[..i] + [messages[i]];
        forall peer ensures IsPeak(messages[..i + 1], peer, At(next, peer)) {
          MergedIsLeastUpperBound(vc, messages[i].clock, map[]);
          assert IsPeak(messages[..i], peer, At(vc, peer));
          assert messages[i] in messages[..i + 1];
        }
        vc := next;
      }
      assert messages[..|messages|] == messages;
    }
  }

  method RaiseTo(vc: Clock, entries: Clock) returns (r: Clock)
    ensures r == Merged(vc, entries)
  {
    r := vc;
    var todo := entries.Keys;
    while todo != {}
      invariant todo <= entries.Keys
      invariant r == Merged(vc, entries - todo)
      decreases todo
    {
      var k :| k in todo;
      MergeRound(vc, entries, todo, k);
      if entries[k] > At(r, k) {
        r := r[k := entries[k]];
      }
      todo := todo - {k};
    }
    assert entries - todo == entries;
  }
}
