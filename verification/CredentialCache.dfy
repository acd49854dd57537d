/**
 The single-flight credential cache (internal/security/proxyauth.go).

 `Cache` holds the three lock-protected regions of `verify` as methods over the
 `entries` table. `System` is the protocol: any number of `verify` calls interleaved,
 where each lock-protected region, the derivation, the wait and the close are separate
 steps. The methods and the steps share the predicates `Evicted` and `Claimed`.
 */
module CredentialCache {
  import opened Wrappers

  type Key = Bytes

  /** `InFlight` is an entry whose `done` channel is set; channels are numbered. */
  datatype Entry = InFlight(done: nat) | Settled(ok: bool, expiresAt: int)

  type Table = map<Key, Entry>

  // ----- The table under its lock ---------------------------------------------------

  predicate Expired(e: Entry, now: int) {
    e.Settled? && e.expiresAt <= now
  }

  function WithoutExpired(t: Table, now: int): Table {
    map k | k in t && !Expired(t[k], now) :: t[k]
  }

  ghost predicate SubTable(a: Table, b: Table) {
    && a.Keys <= b.Keys
    && forall k | k in a :: a[k] == b[k]
  }

  ghost predicate AllInFlight(t: Table) {
    forall k | k in t :: t[k].InFlight?
  }

  ghost predicate KeepsInFlight(before: Table, after: Table) {
    forall k | k in before && before[k].InFlight? :: k in after && after[k] == before[k]
  }

  /**
   What one eviction may do. Which settled entries are displaced is left open, because
   the map is walked in an arbitrary order; how many are displaced is not.
   */
  ghost predicate Evicted(before: Table, now: int, cap: int, after: Table) {
    if |before| < cap then after == before
    else
      var live := WithoutExpired(before, now);
      && SubTable(after, live)
      && KeepsInFlight(before, after)
      && (|after| < cap || AllInFlight(after))
      && (if |live| < cap then after == live else cap - 1 <= |after|)
  }

  ghost predicate Claimed(before: Table, k: Key, now: int, cap: int, done: nat, mid: Table, after: Table) {
    && Evicted(before, now, cap, mid)
    && after == mid[k := InFlight(done)]
  }

  lemma ClaimedEntries(before: Table, k: Key, now: int, cap: int, done: nat, mid: Table, after: Table)
    requires Claimed(before, k, now, cap, done, mid, after)
    ensures k in after && after[k] == InFlight(done)
    ensures forall x | x in after && x != k :: x in before && after[x] == before[x]
    ensures forall x | x in before && before[x].InFlight? && x != k :: x in after
    ensures cap < |after| ==> AllInFlight(after)
  {
    assert after.Keys == mid.Keys + {k};
    assert |after| == |after.Keys| && |mid| == |mid.Keys|;
  }

  datatype Lookup = Wait(done: nat) | Hit(ok: bool) | Claim

  class Cache {
    const ttl: int
    const max: int
    var entries: Table

    constructor (ttl: int, max: int)
      ensures this.ttl == ttl && this.max == max && entries == map[]
    {
      this.ttl := ttl;
      this.max := max;
      entries := map[];
    }

    method EvictLocked(now: int)
      modifies this
      ensures Evicted(old(entries), now, max, entries)
    {
      if |entries| < max {
        return;
      }
      ghost var before := entries;
      var toVisit := entries.Keys;
      while toVisit != {}
        invariant toVisit <= before.Keys
        invariant SubTable(entries, before)
        invariant forall k | k in before :: k in entries <==> k in toVisit || !Expired(before[k], now)
        decreases toVisit
      {
        var k :| k in toVisit;
        toVisit := toVisit - {k};
        if Expired(entries[k], now) {
          entries := entries - {k};
        }
      }
      ghost var live := entries;
      assert live == WithoutExpired(before, now);
      toVisit := entries.Keys;
      while toVisit != {}
        invariant toVisit <= entries.Keys
        invariant SubTable(entries, live)
        invariant KeepsInFlight(live, entries)
        invariant forall k | k in entries :: k in toVisit || entries[k].InFlight?
        invariant |live| < max ==> entries == live
        invariant max <= |live| ==> max - 1 <= |entries|
        decreases toVisit
      {
        if |entries| < max {
          return;
        }
        var k :| k in toVisit;
        toVisit := toVisit - {k};
        if entries[k].Settled? {
          assert (entries - {k}).Keys == entries.Keys - {k};
          assert |entries - {k}| == |(entries - {k}).Keys|;
          entries := entries - {k};
        }
      }
    }

    /** The first locked region of `verify`: join a derivation, reuse a verdict, or claim the key. */
    method LookUp(k: Key, checkedAt: int, evictedAt: int, done: nat) returns (r: Lookup, ghost mid: Table)
      modifies this
      ensures k in old(entries) && old(entries)[k].InFlight? ==> r == Wait(old(entries)[k].done)
      ensures k in old(entries) && old(entries)[k].Settled? && checkedAt < old(entries)[k].expiresAt
              ==> r == Hit(old(entries)[k].ok)
      ensures !r.Claim? ==> entries == old(entries)
      ensures r.Claim? ==> Claimed(old(entries), k, evictedAt, max, done, mid, entries)
      ensures r.Claim? <==> k !in old(entries) || Expired(old(entries)[k], checkedAt)
    {
      mid := entries;
      if k in entries && entries[k].InFlight? {
        return Wait(entries[k].done), mid;
      }
      if k in entries && checkedAt < entries[k].expiresAt {
        return Hit(entries[k].ok), mid;
      }
      EvictLocked(evictedAt);
      mid := entries;
      entries := entries[k := InFlight(done)];
      r := Claim;
    }

    /** The second locked region: the verdict replaces the in-flight entry. */
    method Publish(k: Key, verdict: bool, now: int)
      modifies this
      ensures entries == old(entries)[k := Settled(verdict, now + ttl)]
    {
      entries := entries[k := Settled(verdict, now + ttl)];
    }
  }

  // ----- The cache key --------------------------------------------------------------

  function BigEndian(n: nat, width: nat): (r: Bytes)
    ensures |r| == width
  {
    if width == 0 then [] else BigEndian(n / 256, width - 1) + [(n % 256) as byte]
  }

  function Pow256(width: nat): nat {
    if width == 0 then 1 else 256 * Pow256(width - 1)
  }

  lemma {:induction false} BigEndianInjective(m: nat, n: nat, width: nat)
    requires m < Pow256(width) && n < Pow256(width)
    requires BigEndian(m, width) == BigEndian(n, width)
    ensures m == n
  {
    if width > 0 {
      var a, b := BigEndian(m, width), BigEndian(n, width);
      assert a[..width - 1] == BigEndian(m / 256, width - 1);
      assert b[..width - 1] == BigEndian(n / 256, width - 1);
      assert a[width - 1] == b[width - 1];
      BigEndianInjective(m / 256, n / 256, width - 1);
    }
  }

  function DigestInput(password: Bytes, hash: Bytes): Bytes {
    BigEndian(|password|, 8) + password + hash
  }

  /** The length prefix is what keeps distinct (password, hash) pairs apart. */
  lemma DigestInputInjective(p: Bytes, h: Bytes, q: Bytes, g: Bytes)
    requires |p| < Pow256(8) && |q| < Pow256(8)
    requires DigestInput(p, h) == DigestInput(q, g)
    ensures p == q && h == g
  {
    var a, b := DigestInput(p, h), DigestInput(q, g);
    assert a[..8] == BigEndian(|p|, 8) && b[..8] == BigEndian(|q|, 8);
    BigEndianInjective(|p|, |q|, 8);
    assert a[8..8 + |p|] == p && b[8..8 + |q|] == q;
    assert a[8 + |p|..] == h && b[8 + |q|..] == g;
  }

  // ----- The protocol ---------------------------------------------------------------

  /** `keyed` is false when no random key could be read; every call then derives directly. */
  datatype Config = Config(ttl: int, max: int, keyed: bool, mac: Bytes -> Key, derive: (Bytes, Bytes) -> bool)

  datatype Pc =
    | Start
    | Waiting(done: nat)
    | Deriving(done: nat)
    | Publishing(done: nat, verdict: bool)
    | Closing(done: nat, verdict: bool)
    | Returned(verdict: bool)

  datatype Call = Call(password: Bytes, hash: Bytes, pc: Pc)

  /** `makers[c]` is the call that created channel `c`; `closes[c]` counts its closings. */
  datatype System = System(
    entries: Table, calls: seq<Call>, makers: seq<nat>, closes: multiset<nat>, clock: int)

  datatype Action =
    | Arrive(password: Bytes, hash: Bytes)
    | Direct(t: nat)
    | Look(t: nat, checkedAt: int, evictedAt: int, mid: Table)
    | Wake(t: nat)
    | Derive(t: nat)
    | Store(t: nat, now: int)
    | Close(t: nat)

  ghost function KeyOf(cfg: Config, call: Call): Key {
    cfg.mac(DigestInput(call.password, call.hash))
  }

  ghost function Verdict(cfg: Config, call: Call): bool {
    cfg.derive(call.password, call.hash)
  }

  function Move(calls: seq<Call>, t: nat, pc: Pc): seq<Call>
    requires t < |calls|
  {
    calls[t := calls[t].(pc := pc)]
  }

  ghost predicate LookStep(cfg: Config, s: System, t: nat, checkedAt: int, evictedAt: int, mid: Table, next: System)
    requires t < |s.calls|
  {
    var k := KeyOf(cfg, s.calls[t]);
    var done := |s.makers|;
    && cfg.keyed
    && s.calls[t].pc.Start?
    && s.clock <= checkedAt <= evictedAt
    && if k in s.entries && s.entries[k].InFlight? then
         next == s.(calls := Move(s.calls, t, Waiting(s.entries[k].done)), clock := evictedAt)
       else if k in s.entries && checkedAt < s.entries[k].expiresAt then
         next == s.(calls := Move(s.calls, t, Returned(s.entries[k].ok)), clock := evictedAt)
       else
         && Claimed(s.entries, k, evictedAt, cfg.max, done, mid, next.entries)
         && next == s.(entries := next.entries, calls := Move(s.calls, t, Deriving(done)),
                     makers := s.makers + [t], clock := evictedAt)
  }

  ghost predicate Step(cfg: Config, s: System, a: Action, next: System) {
    match a
    case Arrive(password, hash) =>
      next == s.(calls := s.calls + [Call(password, hash, Start)])
    case Direct(t) =>
      && t < |s.calls| && s.calls[t].pc.Start? && !cfg.keyed
      && next == s.(calls := Move(s.calls, t, Returned(Verdict(cfg, s.calls[t]))))
    case Look(t, checkedAt, evictedAt, mid) =>
      t < |s.calls| && LookStep(cfg, s, t, checkedAt, evictedAt, mid, next)
    case Wake(t) =>
      && t < |s.calls| && s.calls[t].pc.Waiting? && s.closes[s.calls[t].pc.done] > 0
      && next == s.(calls := Move(s.calls, t, Start))
    case Derive(t) =>
      && t < |s.calls| && s.calls[t].pc.Deriving?
      && next == s.(calls := Move(s.calls, t, Publishing(s.calls[t].pc.done, Verdict(cfg, s.calls[t]))))
    case Store(t, now) =>
      && t < |s.calls| && s.calls[t].pc.Publishing? && s.clock <= now
      && var pc := s.calls[t].pc;
         next == s.(entries := s.entries[KeyOf(cfg, s.calls[t]) := Settled(pc.verdict, now + cfg.ttl)],
                  calls := Move(s.calls, t, Closing(pc.done, pc.verdict)), clock := now)
    case Close(t) =>
      && t < |s.calls| && s.calls[t].pc.Closing?
      && var pc := s.calls[t].pc;
         next == s.(calls := Move(s.calls, t, Returned(pc.verdict)), closes := s.closes + multiset{pc.done})
  }

  ghost predicate Initial(s: System) {
    s.entries == map[] && s.calls == [] && s.makers == [] && s.closes == multiset{}
  }

  ghost predicate IsRun(cfg: Config, run: seq<System>, actions: seq<Action>) {
    && |run| == |actions| + 1
    && Initial(run[0])
    && forall i | 0 <= i < |actions| :: Step(cfg, run[i], actions[i], run[i + 1])
  }

  // ----- Single flight --------------------------------------------------------------

  /** The call has a channel it must still close. */
  predicate Holds(call: Call) {
    call.pc.Deriving? || call.pc.Publishing? || call.pc.Closing?
  }

  predicate Owns(call: Call, c: nat) {
    Holds(call) && call.pc.done == c
  }

  /** The call is between claiming its key and publishing its verdict. */
  predicate Derives(call: Call) {
    call.pc.Deriving? || call.pc.Publishing?
  }

  ghost predicate ChannelsOwned(s: System) {
    && (forall c | 0 <= c < |s.makers| ::
          s.makers[c] < |s.calls| && s.closes[c] == if Owns(s.calls[s.makers[c]], c) then 0 else 1)
    && (forall t | 0 <= t < |s.calls| && Holds(s.calls[t]) ::
          s.calls[t].pc.done < |s.makers| && s.makers[s.calls[t].pc.done] == t)
    && (forall c | c in s.closes :: c < |s.makers|)
  }

  ghost predicate EntriesOwned(cfg: Config, s: System)
    requires ChannelsOwned(s)
  {
    && (forall t | 0 <= t < |s.calls| && Derives(s.calls[t]) ::
          var k := KeyOf(cfg, s.calls[t]); k in s.entries && s.entries[k] == InFlight(s.calls[t].pc.done))
    && (forall k | k in s.entries && s.entries[k].InFlight? ::
          && s.entries[k].done < |s.makers|
          && var maker := s.calls[s.makers[s.entries[k].done]];
             Derives(maker) && maker.pc.done == s.entries[k].done && KeyOf(cfg, maker) == k)
  }

  ghost predicate WaitersServed(cfg: Config, s: System)
    requires ChannelsOwned(s)
  {
    forall t | 0 <= t < |s.calls| && s.calls[t].pc.Waiting? ::
      && s.calls[t].pc.done < |s.makers|
      && KeyOf(cfg, s.calls[s.makers[s.calls[t].pc.done]]) == KeyOf(cfg, s.calls[t])
  }

  ghost predicate Flight(cfg: Config, s: System) {
    ChannelsOwned(s) && EntriesOwned(cfg, s) && WaitersServed(cfg, s)
  }

  lemma ClaimKeepsFlight(cfg: Config, s: System, t: nat, now: int, mid: Table, next: System)
    requires Flight(cfg, s) && t < |s.calls| && s.calls[t].pc.Start?
    requires Claimed(s.entries, KeyOf(cfg, s.calls[t]), now, cfg.max, |s.makers|, mid, next.entries)
    requires KeyOf(cfg, s.calls[t]) in s.entries ==> s.entries[KeyOf(cfg, s.calls[t])].Settled?
    requires next.calls == Move(s.calls, t, Deriving(|s.makers|)) && next.makers == s.makers + [t] && next.closes == s.closes
    ensures Flight(cfg, next)
  {
    var k, done := KeyOf(cfg, s.calls[t]), |s.makers|;
    assert s.closes[done] == 0;
    assert forall u | 0 <= u < |s.calls| && u != t :: next.calls[u] == s.calls[u];
    assert forall c | 0 <= c < |s.makers| :: next.makers[c] == s.makers[c];
    assert ChannelsOwned(next);
    assert EntriesOwned(cfg, next) by {
      forall x | x in next.entries && next.entries[x].InFlight? && x != k
        ensures x in s.entries && next.entries[x] == s.entries[x]
      {
      }
    }
    assert WaitersServed(cfg, next);
  }

  lemma JoinKeepsFlight(cfg: Config, s: System, t: nat, k: Key)
    requires Flight(cfg, s) && t < |s.calls| && s.calls[t].pc.Start? && KeyOf(cfg, s.calls[t]) == k
    requires k in s.entries && s.entries[k].InFlight?
    ensures Flight(cfg, s.(calls := Move(s.calls, t, Waiting(s.entries[k].done))))
  {
    var next := s.(calls := Move(s.calls, t, Waiting(s.entries[k].done)));
    assert forall u | 0 <= u < |s.calls| && u != t :: next.calls[u] == s.calls[u];
    assert ChannelsOwned(next);
  }

  /** `Flight` does not read the clock. */
  lemma ClockIrrelevant(cfg: Config, s: System, now: int)
    requires Flight(cfg, s)
    ensures Flight(cfg, s.(clock := now))
  {
  }

  lemma LookKeepsFlight(cfg: Config, s: System, t: nat, checkedAt: int, evictedAt: int, mid: Table, next: System)
    requires Flight(cfg, s) && t < |s.calls| && LookStep(cfg, s, t, checkedAt, evictedAt, mid, next)
    ensures Flight(cfg, next)
  {
    var k := KeyOf(cfg, s.calls[t]);
    if next.makers != s.makers {
      ClaimKeepsFlight(cfg, s, t, evictedAt, mid, next);
    } else {
      if next.calls[t].pc.Waiting? {
        JoinKeepsFlight(cfg, s, t, k);
      } else {
        LocalStepKeepsFlight(cfg, s, t, next.calls[t].pc);
      }
      ClockIrrelevant(cfg, s.(calls := next.calls), evictedAt);
    }
  }

  lemma PublishKeepsFlight(cfg: Config, s: System, t: nat, now: int, next: System)
    requires Flight(cfg, s) && Step(cfg, s, Store(t, now), next)
    ensures Flight(cfg, next)
  {
    var c := s.calls[t].pc.done;
    assert Owns(s.calls[t], c) && s.makers[c] == t;
    assert forall u | 0 <= u < |s.calls| && u != t :: next.calls[u] == s.calls[u];
    assert ChannelsOwned(next);
    forall u | 0 <= u < |s.calls| && u != t && Derives(s.calls[u])
      ensures KeyOf(cfg, s.calls[u]) != KeyOf(cfg, s.calls[t])
    {
      assert Holds(s.calls[u]);
    }
  }

  lemma CloseKeepsChannels(cfg: Config, s: System, t: nat, next: System)
    requires ChannelsOwned(s) && Step(cfg, s, Close(t), next)
    ensures ChannelsOwned(next)
  {
    var c := s.calls[t].pc.done;
    assert Owns(s.calls[t], c) && s.makers[c] == t;
    assert forall u | 0 <= u < |s.calls| && u != t :: next.calls[u] == s.calls[u];
  }

  lemma CloseKeepsFlight(cfg: Config, s: System, t: nat, next: System)
    requires Flight(cfg, s) && Step(cfg, s, Close(t), next)
    ensures Flight(cfg, next)
  {
    CloseKeepsChannels(cfg, s, t, next);
    assert forall u | 0 <= u < |s.calls| && u != t :: next.calls[u] == s.calls[u];
  }

  lemma ArriveKeepsFlight(cfg: Config, s: System, call: Call, next: System)
    requires Flight(cfg, s) && call.pc.Start? && next == s.(calls := s.calls + [call])
    ensures Flight(cfg, next)
  {
    assert forall u | 0 <= u < |s.calls| :: next.calls[u] == s.calls[u];
  }

  lemma LocalStepKeepsFlight(cfg: Config, s: System, t: nat, pc: Pc)
    requires Flight(cfg, s) && t < |s.calls|
    requires s.calls[t].pc.Deriving? ==> pc.Publishing? && pc.done == s.calls[t].pc.done
    requires !s.calls[t].pc.Deriving? ==> (pc.Start? || pc.Returned?)
    requires !s.calls[t].pc.Publishing? && !s.calls[t].pc.Closing?
    ensures Flight(cfg, s.(calls := Move(s.calls, t, pc)))
  {
    var next := s.(calls := Move(s.calls, t, pc));
    assert forall u | 0 <= u < |s.calls| && u != t :: next.calls[u] == s.calls[u];
    assert forall c | 0 <= c :: Owns(s.calls[t], c) <==> Owns(next.calls[t], c);
    assert ChannelsOwned(next);
  }

  lemma StepKeepsFlight(cfg: Config, s: System, a: Action, next: System)
    requires Flight(cfg, s) && Step(cfg, s, a, next)
    ensures Flight(cfg, next)
  {
    match a
    case Arrive(password, hash) => ArriveKeepsFlight(cfg, s, Call(password, hash, Start), next);
    case Direct(t) => LocalStepKeepsFlight(cfg, s, t, next.calls[t].pc);
    case Look(t, checkedAt, evictedAt, mid) => LookKeepsFlight(cfg, s, t, checkedAt, evictedAt, mid, next);
    case Wake(t) => LocalStepKeepsFlight(cfg, s, t, Start);
    case Derive(t) => LocalStepKeepsFlight(cfg, s, t, next.calls[t].pc);
    case Store(t, now) => PublishKeepsFlight(cfg, s, t, now, next);
    case Close(t) => CloseKeepsFlight(cfg, s, t, next);
  }

  lemma {:induction false} RunsKeepFlight(cfg: Config, run: seq<System>, actions: seq<Action>, i: nat)
    requires IsRun(cfg, run, actions) && i < |run|
    ensures Flight(cfg, run[i])
  {
    if i > 0 {
      RunsKeepFlight(cfg, run, actions, i - 1);
      StepKeepsFlight(cfg, run[i - 1], actions[i - 1], run[i]);
    }
  }

  /** At most one derivation per key is in flight, and it is the one its table entry names. */
  lemma OneDerivationPerKey(cfg: Config, run: seq<System>, actions: seq<Action>, i: nat, t: nat, u: nat)
    requires IsRun(cfg, run, actions) && i < |run|
    requires t < |run[i].calls| && u < |run[i].calls|
    requires Derives(run[i].calls[t]) && Derives(run[i].calls[u])
    requires KeyOf(cfg, run[i].calls[t]) == KeyOf(cfg, run[i].calls[u])
    ensures t == u
    ensures KeyOf(cfg, run[i].calls[t]) in run[i].entries
    ensures run[i].entries[KeyOf(cfg, run[i].calls[t])] == InFlight(run[i].calls[t].pc.done)
  {
    RunsKeepFlight(cfg, run, actions, i);
    assert Holds(run[i].calls[t]) && Holds(run[i].calls[u]);
  }

  /** An in-flight entry belongs to exactly one live deriver; it is never left behind. */
  lemma InFlightEntryHasOneDeriver(cfg: Config, run: seq<System>, actions: seq<Action>, i: nat, k: Key) returns (t: nat)
    requires IsRun(cfg, run, actions) && i < |run|
    requires k in run[i].entries && run[i].entries[k].InFlight?
    ensures t < |run[i].calls| && Derives(run[i].calls[t]) && KeyOf(cfg, run[i].calls[t]) == k
    ensures run[i].calls[t].pc.done == run[i].entries[k].done
    ensures forall u | 0 <= u < |run[i].calls| && u != t && Holds(run[i].calls[u]) ::
              run[i].calls[u].pc.done != run[i].entries[k].done
  {
    RunsKeepFlight(cfg, run, actions, i);
    t := run[i].makers[run[i].entries[k].done];
  }

  /** A closing call finds its channel open, so closing it cannot panic. */
  lemma CloseFindsItsChannelOpen(cfg: Config, run: seq<System>, actions: seq<Action>, i: nat)
    requires IsRun(cfg, run, actions) && i < |actions| && actions[i].Close?
    ensures actions[i].t < |run[i].calls| && run[i].calls[actions[i].t].pc.Closing?
    ensures run[i].closes[run[i].calls[actions[i].t].pc.done] == 0
  {
    RunsKeepFlight(cfg, run, actions, i);
    assert Step(cfg, run[i], actions[i], run[i + 1]);
    assert Holds(run[i].calls[actions[i].t]);
  }

  /** A channel has been closed at most once, and is still open exactly when some call is yet to close it. */
  lemma ChannelsCloseExactlyOnce(cfg: Config, run: seq<System>, actions: seq<Action>, i: nat, c: nat)
    requires IsRun(cfg, run, actions) && i < |run| && c < |run[i].makers|
    ensures run[i].closes[c] <= 1
    ensures run[i].closes[c] == 0 <==> exists t | 0 <= t < |run[i].calls| :: Owns(run[i].calls[t], c)
  {
    RunsKeepFlight(cfg, run, actions, i);
    if t: nat :| t < |run[i].calls| && Owns(run[i].calls[t], c) {
      assert Holds(run[i].calls[t]);
    }
  }

  /** A parked call either can wake now, or a call for the same key that is not itself parked will close its channel. */
  lemma NoStrandedWaiter(cfg: Config, run: seq<System>, actions: seq<Action>, i: nat, t: nat) returns (u: nat)
    requires IsRun(cfg, run, actions) && i < |run|
    requires t < |run[i].calls| && run[i].calls[t].pc.Waiting?
    ensures u < |run[i].calls| && KeyOf(cfg, run[i].calls[u]) == KeyOf(cfg, run[i].calls[t])
    ensures run[i].closes[run[i].calls[t].pc.done] > 0 || Owns(run[i].calls[u], run[i].calls[t].pc.done)
  {
    RunsKeepFlight(cfg, run, actions, i);
    u := run[i].makers[run[i].calls[t].pc.done];
  }

  // ----- Verdicts -------------------------------------------------------------------

  /** No two calls of the run collide under the keyed hash. */
  ghost predicate NoCollision(cfg: Config, calls: seq<Call>) {
    forall t, u | 0 <= t < |calls| && 0 <= u < |calls| && KeyOf(cfg, calls[t]) == KeyOf(cfg, calls[u]) ::
      DigestInput(calls[t].password, calls[t].hash) == DigestInput(calls[u].password, calls[u].hash)
  }

  ghost predicate Sized(calls: seq<Call>) {
    forall t | 0 <= t < |calls| :: |calls[t].password| < Pow256(8)
  }

  ghost predicate VerdictsRight(cfg: Config, s: System) {
    && (forall t | 0 <= t < |s.calls| ::
          var pc := s.calls[t].pc;
          pc.Publishing? || pc.Closing? || pc.Returned? ==> pc.verdict == Verdict(cfg, s.calls[t]))
    && (forall k, t | k in s.entries && s.entries[k].Settled? && 0 <= t < |s.calls| && KeyOf(cfg, s.calls[t]) == k ::
          s.entries[k].ok == Verdict(cfg, s.calls[t]))
    && (forall k | k in s.entries :: exists t | 0 <= t < |s.calls| :: KeyOf(cfg, s.calls[t]) == k)
  }

  lemma SameKeySameVerdict(cfg: Config, calls: seq<Call>, t: nat, u: nat)
    requires NoCollision(cfg, calls) && Sized(calls) && t < |calls| && u < |calls|
    requires KeyOf(cfg, calls[t]) == KeyOf(cfg, calls[u])
    ensures Verdict(cfg, calls[t]) == Verdict(cfg, calls[u])
  {
    DigestInputInjective(calls[t].password, calls[t].hash, calls[u].password, calls[u].hash);
  }

  ghost predicate SameCredentials(calls: seq<Call>, later: seq<Call>) {
    && |calls| <= |later|
    && forall t | 0 <= t < |calls| :: later[t].password == calls[t].password && later[t].hash == calls[t].hash
  }

  lemma StepKeepsCredentials(cfg: Config, s: System, a: Action, next: System)
    requires Step(cfg, s, a, next)
    ensures SameCredentials(s.calls, next.calls)
  {
  }

  /** A settled entry of the new table was there before, unless this step stored it. */
  lemma SettledEntriesPersist(cfg: Config, s: System, a: Action, next: System, k: Key)
    requires Step(cfg, s, a, next) && k in next.entries
    ensures (k in s.entries && next.entries[k] == s.entries[k])
            || (a.Look? && k == KeyOf(cfg, s.calls[a.t]) && next.entries[k].InFlight?)
            || (a.Store? && k == KeyOf(cfg, s.calls[a.t]) && next.entries[k] == Settled(s.calls[a.t].pc.verdict, a.now + cfg.ttl))
  {
    if a.Look? && next.makers != s.makers {
      ClaimedEntries(s.entries, KeyOf(cfg, s.calls[a.t]), a.evictedAt, cfg.max, |s.makers|, a.mid, next.entries);
    }
  }

  lemma HitTellsVerdict(cfg: Config, s: System, t: nat, checkedAt: int, evictedAt: int, mid: Table, next: System, u: nat)
    requires VerdictsRight(cfg, s) && t < |s.calls| && LookStep(cfg, s, t, checkedAt, evictedAt, mid, next)
    requires u < |s.calls| && next.calls[u] != s.calls[u] && next.calls[u].pc.Returned?
    ensures next.calls[u].pc.verdict == Verdict(cfg, next.calls[u])
  {
    assert u == t && next.calls[t].pc == Returned(s.entries[KeyOf(cfg, s.calls[t])].ok);
  }

  lemma StepKeepsCallVerdicts(cfg: Config, s: System, a: Action, next: System, t: nat)
    requires VerdictsRight(cfg, s) && Step(cfg, s, a, next) && t < |next.calls|
    requires next.calls[t].pc.Publishing? || next.calls[t].pc.Closing? || next.calls[t].pc.Returned?
    ensures next.calls[t].pc.verdict == Verdict(cfg, next.calls[t])
  {
    if t < |s.calls| {
      if next.calls[t] == s.calls[t] {
      } else if a.Look? {
        HitTellsVerdict(cfg, s, a.t, a.checkedAt, a.evictedAt, a.mid, next, t);
      }
    }
  }

  lemma StepKeepsVerdicts(cfg: Config, s: System, a: Action, next: System)
    requires VerdictsRight(cfg, s) && Step(cfg, s, a, next)
    requires NoCollision(cfg, next.calls) && Sized(next.calls)
    ensures VerdictsRight(cfg, next)
  {
    StepKeepsCredentials(cfg, s, a, next);
    forall t | 0 <= t < |next.calls| && (next.calls[t].pc.Publishing? || next.calls[t].pc.Closing? || next.calls[t].pc.Returned?)
      ensures next.calls[t].pc.verdict == Verdict(cfg, next.calls[t])
    {
      StepKeepsCallVerdicts(cfg, s, a, next, t);
    }
    forall k | k in next.entries
      ensures exists t | 0 <= t < |next.calls| :: KeyOf(cfg, next.calls[t]) == k
      ensures next.entries[k].Settled? ==>
                forall t | 0 <= t < |next.calls| && KeyOf(cfg, next.calls[t]) == k :: next.entries[k].ok == Verdict(cfg, next.calls[t])
    {
      SettledEntriesPersist(cfg, s, a, next, k);
      var u := if k in s.entries && next.entries[k] == s.entries[k]
               then var u :| 0 <= u < |s.calls| && KeyOf(cfg, s.calls[u]) == k; u
               else a.t;
      assert KeyOf(cfg, next.calls[u]) == k;
      if next.entries[k].Settled? {
        assert next.entries[k].ok == Verdict(cfg, s.calls[u]);
        forall t | 0 <= t < |next.calls| && KeyOf(cfg, next.calls[t]) == k
          ensures next.entries[k].ok == Verdict(cfg, next.calls[t])
        {
          SameKeySameVerdict(cfg, next.calls, t, u);
        }
      }
    }
  }

  lemma {:induction false} CallsOnlyGrow(cfg: Config, run: seq<System>, actions: seq<Action>, i: nat, j: nat)
    requires IsRun(cfg, run, actions) && i <= j < |run|
    ensures SameCredentials(run[i].calls, run[j].calls)
    decreases j - i
  {
    if i < j {
      CallsOnlyGrow(cfg, run, actions, i, j - 1);
      StepKeepsCredentials(cfg, run[j - 1], actions[j - 1], run[j]);
    }
  }

  lemma {:induction false} RunsKeepVerdicts(cfg: Config, run: seq<System>, actions: seq<Action>, i: nat)
    requires IsRun(cfg, run, actions) && i < |run|
    requires NoCollision(cfg, run[|run| - 1].calls) && Sized(run[|run| - 1].calls)
    ensures VerdictsRight(cfg, run[i])
  {
    if i > 0 {
      RunsKeepVerdicts(cfg, run, actions, i - 1);
      CallsOnlyGrow(cfg, run, actions, i, |run| - 1);
      StepKeepsVerdicts(cfg, run[i - 1], actions[i - 1], run[i]);
    }
  }

  /** Every verdict `verify` returns, derived, awaited or reused, is the derivation's own. */
  lemma EveryVerdictIsTheDerivation(cfg: Config, run: seq<System>, actions: seq<Action>, t: nat)
    requires IsRun(cfg, run, actions)
    requires NoCollision(cfg, run[|run| - 1].calls) && Sized(run[|run| - 1].calls)
    requires t < |run[|run| - 1].calls| && run[|run| - 1].calls[t].pc.Returned?
    ensures var call := run[|run| - 1].calls[t];
            call.pc.verdict == cfg.derive(call.password, call.hash)
  {
    RunsKeepVerdicts(cfg, run, actions, |run| - 1);
  }

  // ----- The table's size -----------------------------------------------------------

  ghost function Derivers(s: System): set<nat> {
    set t: nat | t < |s.calls| && Derives(s.calls[t])
  }

  lemma {:induction false} FewerKeysThanDerivers(cfg: Config, s: System, keys: set<Key>, derivers: set<nat>)
    requires Flight(cfg, s)
    requires forall k | k in keys :: k in s.entries && s.entries[k].InFlight? && s.makers[s.entries[k].done] in derivers
    ensures |keys| <= |derivers|
    decreases keys
  {
    if keys != {} {
      var k :| k in keys;
      var t := s.makers[s.entries[k].done];
      forall x | x in keys - {k}
        ensures s.makers[s.entries[x].done] in derivers - {t}
      {
        assert KeyOf(cfg, s.calls[s.makers[s.entries[x].done]]) == x;
      }
      FewerKeysThanDerivers(cfg, s, keys - {k}, derivers - {t});
    }
  }

  lemma InFlightEntriesBounded(cfg: Config, s: System)
    requires Flight(cfg, s) && AllInFlight(s.entries)
    ensures |s.entries| <= |Derivers(s)|
  {
    FewerKeysThanDerivers(cfg, s, s.entries.Keys, Derivers(s));
    assert |s.entries| == |s.entries.Keys|;
  }

  lemma PublishingKeyPresent(cfg: Config, s: System, t: nat)
    requires Flight(cfg, s) && t < |s.calls| && s.calls[t].pc.Publishing?
    ensures KeyOf(cfg, s.calls[t]) in s.entries
  {
    assert Derives(s.calls[t]);
  }

  lemma StoredKeyPresent(cfg: Config, run: seq<System>, actions: seq<Action>, i: nat)
    requires IsRun(cfg, run, actions) && i < |actions| && actions[i].Store?
    ensures Step(cfg, run[i], actions[i], run[i + 1])
    ensures KeyOf(cfg, run[i].calls[actions[i].t]) in run[i].entries
  {
    assert Step(cfg, run[i], actions[i], run[i + 1]);
    RunsKeepFlight(cfg, run, actions, i);
    PublishingKeyPresent(cfg, run[i], actions[i].t);
  }

  /** A step leaves the table no larger, or no larger than the cap, or holding derivations only. */
  lemma StepGrowsTable(cfg: Config, run: seq<System>, actions: seq<Action>, i: nat)
    requires IsRun(cfg, run, actions) && i < |actions|
    ensures |run[i + 1].entries| <= Max(cfg.max, |run[i].entries|) || AllInFlight(run[i + 1].entries)
  {
    var s, a, next := run[i], actions[i], run[i + 1];
    assert Step(cfg, s, a, next);
    if a.Look? && next.makers != s.makers {
      ClaimedEntries(s.entries, KeyOf(cfg, s.calls[a.t]), a.evictedAt, cfg.max, |s.makers|, a.mid, next.entries);
    } else if a.Store? {
      StoredKeyPresent(cfg, run, actions, i);
      assert next.entries.Keys == s.entries.Keys;
      assert |next.entries| == |next.entries.Keys| && |s.entries| == |s.entries.Keys|;
    }
  }

  /**
   The table never outgrows its cap, except to hold the derivations in flight, which are
   never evicted: its size is bounded by the larger of the cap and their greatest number.
   */
  lemma {:induction false} TableStaysBounded(cfg: Config, run: seq<System>, actions: seq<Action>, bound: nat, i: nat)
    requires IsRun(cfg, run, actions) && i < |run|
    requires forall j | 0 <= j <= i :: |Derivers(run[j])| <= bound
    ensures |run[i].entries| <= Max(cfg.max, bound)
  {
    if i > 0 {
      TableStaysBounded(cfg, run, actions, bound, i - 1);
      StepStaysBounded(cfg, run, actions, bound, i);
    }
  }

  lemma StepStaysBounded(cfg: Config, run: seq<System>, actions: seq<Action>, bound: nat, i: nat)
    requires IsRun(cfg, run, actions) && 0 < i < |run|
    requires |run[i - 1].entries| <= Max(cfg.max, bound) && |Derivers(run[i])| <= bound
    ensures |run[i].entries| <= Max(cfg.max, bound)
  {
    StepGrowsTable(cfg, run, actions, i - 1);
    if AllInFlight(run[i].entries) {
      DerivationsBound(cfg, run, actions, i);
    }
  }

  lemma DerivationsBound(cfg: Config, run: seq<System>, actions: seq<Action>, i: nat)
    requires IsRun(cfg, run, actions) && i < |run| && AllInFlight(run[i].entries)
    ensures |run[i].entries| <= |Derivers(run[i])|
  {
    RunsKeepFlight(cfg, run, actions, i);
    InFlightEntriesBounded(cfg, run[i]);
  }

  // ----- One derivation per credential ------------------------------------------------

  ghost function CallKeys(cfg: Config, calls: seq<Call>): set<Key> {
    set t | 0 <= t < |calls| :: KeyOf(cfg, calls[t])
  }

  /** Each key ever derived is still in the table, not expired before `deadline`, and was derived once. */
  ghost predicate DerivedOnce(cfg: Config, s: System, deadline: int) {
    && (forall c | 0 <= c < |s.makers| :: s.makers[c] < |s.calls|)
    && (forall c, d | 0 <= c < d < |s.makers| ::
          KeyOf(cfg, s.calls[s.makers[c]]) != KeyOf(cfg, s.calls[s.makers[d]]))
    && (forall c | 0 <= c < |s.makers| :: KeyOf(cfg, s.calls[s.makers[c]]) in s.entries)
    && (forall k | k in s.entries :: s.entries[k].InFlight? || deadline <= s.entries[k].expiresAt)
    && s.entries.Keys <= CallKeys(cfg, s.calls)
    && deadline - cfg.ttl <= s.clock
  }

  lemma SmallerSet<T>(a: set<T>, b: set<T>)
    requires a <= b
    ensures |a| <= |b|
  {
    if a != {} {
      var x :| x in a;
      SmallerSet(a - {x}, b - {x});
    }
  }

  lemma MoreCallsMoreKeys(cfg: Config, calls: seq<Call>, later: seq<Call>)
    requires SameCredentials(calls, later)
    ensures CallKeys(cfg, calls) <= CallKeys(cfg, later)
  {
    forall k | k in CallKeys(cfg, calls)
      ensures k in CallKeys(cfg, later)
    {
      var t :| 0 <= t < |calls| && KeyOf(cfg, calls[t]) == k;
      assert KeyOf(cfg, later[t]) == k;
    }
  }

  /** While every known key fits under the cap, a claim displaces nothing. */
  lemma RoomyClaimEvictsNothing(cfg: Config, s: System, t: nat, now: int, mid: Table, after: Table)
    requires t < |s.calls| && Claimed(s.entries, KeyOf(cfg, s.calls[t]), now, cfg.max, |s.makers|, mid, after)
    requires s.entries.Keys <= CallKeys(cfg, s.calls) && |CallKeys(cfg, s.calls)| <= cfg.max
    requires KeyOf(cfg, s.calls[t]) !in s.entries
    ensures after == s.entries[KeyOf(cfg, s.calls[t]) := InFlight(|s.makers|)]
  {
    var k := KeyOf(cfg, s.calls[t]);
    assert k in CallKeys(cfg, s.calls);
    SmallerSet(s.entries.Keys, CallKeys(cfg, s.calls) - {k});
    assert |s.entries.Keys| == |s.entries|;
  }

  lemma ClaimDerivesOnce(cfg: Config, s: System, a: Action, next: System, deadline: int)
    requires a.Look? && Step(cfg, s, a, next) && next.makers != s.makers
    requires DerivedOnce(cfg, s, deadline)
    requires a.checkedAt < deadline && |CallKeys(cfg, s.calls)| <= cfg.max
    ensures DerivedOnce(cfg, next, deadline)
  {
    StepKeepsCredentials(cfg, s, a, next);
    MoreCallsMoreKeys(cfg, s.calls, next.calls);
    RoomyClaimEvictsNothing(cfg, s, a.t, a.evictedAt, a.mid, next.entries);
    assert forall c | 0 <= c < |s.makers| ::
        next.makers[c] == s.makers[c] && KeyOf(cfg, next.calls[s.makers[c]]) == KeyOf(cfg, s.calls[s.makers[c]]);
    assert next.makers[|s.makers|] == a.t && KeyOf(cfg, next.calls[a.t]) == KeyOf(cfg, s.calls[a.t]);
  }

  /** A step that claims nothing changes entries only to settle them afresh. */
  lemma QuietStepKeepsKeys(cfg: Config, s: System, a: Action, next: System)
    requires Step(cfg, s, a, next) && next.makers == s.makers
    requires a.Store? ==> KeyOf(cfg, s.calls[a.t]) in s.entries
    ensures next.entries.Keys == s.entries.Keys
    ensures forall k | k in s.entries ::
              next.entries[k] == s.entries[k] || (next.entries[k].Settled? && s.clock + cfg.ttl <= next.entries[k].expiresAt)
  {
  }

  lemma QuietStepDerivesOnce(cfg: Config, s: System, a: Action, next: System, deadline: int)
    requires Step(cfg, s, a, next) && next.makers == s.makers && DerivedOnce(cfg, s, deadline)
    requires a.Store? ==> KeyOf(cfg, s.calls[a.t]) in s.entries
    requires s.clock <= next.clock
    ensures DerivedOnce(cfg, next, deadline)
  {
    StepKeepsCredentials(cfg, s, a, next);
    MoreCallsMoreKeys(cfg, s.calls, next.calls);
    assert forall c | 0 <= c < |s.makers| ::
        KeyOf(cfg, next.calls[s.makers[c]]) == KeyOf(cfg, s.calls[s.makers[c]]);
    QuietStepKeepsKeys(cfg, s, a, next);
    StillDerivedOnce(cfg, s, next, deadline);
  }

  lemma StillDerivedOnce(cfg: Config, s: System, next: System, deadline: int)
    requires DerivedOnce(cfg, s, deadline) && next.makers == s.makers && |s.calls| <= |next.calls| && s.clock <= next.clock
    requires forall c | 0 <= c < |s.makers| :: KeyOf(cfg, next.calls[s.makers[c]]) == KeyOf(cfg, s.calls[s.makers[c]])
    requires CallKeys(cfg, s.calls) <= CallKeys(cfg, next.calls) && next.entries.Keys == s.entries.Keys
    requires forall k | k in s.entries ::
               next.entries[k] == s.entries[k] || (next.entries[k].Settled? && s.clock + cfg.ttl <= next.entries[k].expiresAt)
    ensures DerivedOnce(cfg, next, deadline)
  {
  }

  lemma StepDerivesOnce(cfg: Config, run: seq<System>, actions: seq<Action>, i: nat, deadline: int)
    requires IsRun(cfg, run, actions) && i < |actions| && DerivedOnce(cfg, run[i], deadline)
    requires run[i + 1].clock < deadline && |CallKeys(cfg, run[i + 1].calls)| <= cfg.max
    ensures DerivedOnce(cfg, run[i + 1], deadline)
  {
    var s, a, next := run[i], actions[i], run[i + 1];
    assert Step(cfg, s, a, next);
    if next.makers != s.makers {
      StepKeepsCredentials(cfg, s, a, next);
      MoreCallsMoreKeys(cfg, s.calls, next.calls);
      SmallerSet(CallKeys(cfg, s.calls), CallKeys(cfg, next.calls));
      ClaimDerivesOnce(cfg, s, a, next, deadline);
    } else {
      if a.Store? {
        StoredKeyPresent(cfg, run, actions, i);
      }
      QuietStepDerivesOnce(cfg, s, a, next, deadline);
    }
  }

  lemma {:induction false} RunsDeriveOnce(cfg: Config, run: seq<System>, actions: seq<Action>, i: nat)
    requires IsRun(cfg, run, actions) && i < |run|
    requires run[|run| - 1].clock < run[0].clock + cfg.ttl
    requires |CallKeys(cfg, run[|run| - 1].calls)| <= cfg.max
    ensures DerivedOnce(cfg, run[i], run[0].clock + cfg.ttl)
  {
    if i > 0 {
      RunsDeriveOnce(cfg, run, actions, i - 1);
      CallsOnlyGrow(cfg, run, actions, i, |run| - 1);
      ClockOnlyGrows(cfg, run, actions, i, |run| - 1);
      MoreCallsMoreKeys(cfg, run[i].calls, run[|run| - 1].calls);
      SmallerSet(CallKeys(cfg, run[i].calls), CallKeys(cfg, run[|run| - 1].calls));
      StepDerivesOnce(cfg, run, actions, i - 1, run[0].clock + cfg.ttl);
    }
  }

  lemma {:induction false} ClockOnlyGrows(cfg: Config, run: seq<System>, actions: seq<Action>, i: nat, j: nat)
    requires IsRun(cfg, run, actions) && i <= j < |run|
    ensures run[i].clock <= run[j].clock
    decreases j - i
  {
    if i < j {
      ClockOnlyGrows(cfg, run, actions, i, j - 1);
      assert Step(cfg, run[j - 1], actions[j - 1], run[j]);
    }
  }

  /**
   A burst shorter than the time-to-live that carries no more credentials than the cap costs
   one derivation per credential, however many calls it makes and however they interleave.
   */
  lemma BurstDerivesOncePerCredential(cfg: Config, run: seq<System>, actions: seq<Action>, c: nat, d: nat)
    requires IsRun(cfg, run, actions)
    requires run[|run| - 1].clock < run[0].clock + cfg.ttl
    requires |CallKeys(cfg, run[|run| - 1].calls)| <= cfg.max
    requires c < d < |run[|run| - 1].makers|
    ensures var s := run[|run| - 1];
            && s.makers[c] < |s.calls| && s.makers[d] < |s.calls|
            && KeyOf(cfg, s.calls[s.makers[c]]) != KeyOf(cfg, s.calls[s.makers[d]])
  {
    RunsDeriveOnce(cfg, run, actions, |run| - 1);
  }

  // ----- What eviction does not promise -----------------------------------------------

  type Credential = (Bytes, Bytes)

  ghost function Keys(cfg: Config, creds: seq<Credential>): (keys: seq<Key>)
    ensures |keys| == |creds| && forall i | 0 <= i < |keys| :: keys[i] == cfg.mac(DigestInput(creds[i].0, creds[i].1))
  {
    seq(|creds|, i requires 0 <= i < |creds| => cfg.mac(DigestInput(creds[i].0, creds[i].1)))
  }

  /** One credential more than the cap, no two with the same key. */
  ghost predicate Crowd(cfg: Config, creds: seq<Credential>) {
    cfg.keyed && cfg.ttl > 0 && cfg.max >= 1 && |creds| == cfg.max + 1 && NoRepeats(Keys(cfg, creds))
  }

  /** Two calls with the first credential, then one with each of the others. */
  function Whose(t: nat): nat {
    if t == 0 then 0 else t - 1
  }

  ghost function Burst(creds: seq<Credential>, pc: nat -> Pc): (calls: seq<Call>)
    requires |creds| >= 1
    ensures |calls| == |creds| + 1
    ensures forall t | 0 <= t < |calls| :: calls[t] == Call(creds[Whose(t)].0, creds[Whose(t)].1, pc(t))
  {
    seq(|creds| + 1, t requires 0 <= t < |creds| + 1 => Call(creds[Whose(t)].0, creds[Whose(t)].1, pc(t)))
  }

  /** The first `n` keys, each in flight on the channel of its number. */
  ghost function Flying(keys: seq<Key>, n: nat): (t: Table)
    requires n <= |keys|
  {
    if n == 0 then map[] else Flying(keys, n - 1)[keys[n - 1] := InFlight(n - 1)]
  }

  lemma {:induction false} FlyingFacts(keys: seq<Key>, n: nat)
    requires n <= |keys| && NoRepeats(keys)
    ensures |Flying(keys, n)| == n && AllInFlight(Flying(keys, n))
    ensures forall i | 0 <= i < |keys| :: keys[i] in Flying(keys, n) <==> i < n
    ensures forall i | 0 <= i < n :: Flying(keys, n)[keys[i]] == InFlight(i)
  {
    if n > 0 {
      FlyingFacts(keys, n - 1);
      assert keys[n - 1] !in Flying(keys, n - 1);
    }
  }

  /** Where a call is once `n` channels exist and the first one's derivation is at `first`, its waiter at `second`. */
  ghost function Where(n: nat, first: Pc, second: Pc): nat -> Pc {
    (t: nat) => if t == 0 then first else if t == 1 then second else if t <= n then Deriving(t - 1) else Start
  }

  ghost function Makers(n: nat): (makers: seq<nat>)
    ensures |makers| == n && forall c | 0 <= c < n :: makers[c] == if c == 0 then 0 else c + 1
  {
    seq(n, c => if c == 0 then 0 else c + 1)
  }

  ghost function Stage(creds: seq<Credential>, entries: Table, n: nat, first: Pc, second: Pc, closes: multiset<nat>): System
    requires |creds| >= 1
  {
    System(entries, Burst(creds, Where(n, first, second)), Makers(n), closes, 0)
  }

  lemma RunExtends(cfg: Config, run: seq<System>, actions: seq<Action>, a: Action, s: System)
    requires IsRun(cfg, run, actions) && Step(cfg, run[|run| - 1], a, s)
    ensures IsRun(cfg, run + [s], actions + [a])
  {
    var longer, more := run + [s], actions + [a];
    forall i | 0 <= i < |more| ensures Step(cfg, longer[i], more[i], longer[i + 1]) {
      if i < |actions| {
        assert Step(cfg, run[i], actions[i], run[i + 1]);
      }
    }
  }

  lemma {:induction false} AllArrive(cfg: Config, calls: seq<Call>) returns (run: seq<System>, actions: seq<Action>)
    requires forall t | 0 <= t < |calls| :: calls[t].pc.Start?
    ensures IsRun(cfg, run, actions) && run[|run| - 1] == System(map[], calls, [], multiset{}, 0) && run[0].clock == 0
    decreases |calls|
  {
    if calls == [] {
      run, actions := [System(map[], [], [], multiset{}, 0)], [];
    } else {
      var front, last := calls[..|calls| - 1], calls[|calls| - 1];
      run, actions := AllArrive(cfg, front);
      assert calls == front + [last];
      var s := System(map[], calls, [], multiset{}, 0);
      RunExtends(cfg, run, actions, Arrive(last.password, last.hash), s);
      run, actions := run + [s], actions + [Arrive(last.password, last.hash)];
    }
  }

  /** The next credential's call claims its key, whatever the eviction before it takes. */
  lemma NextClaims(cfg: Config, creds: seq<Credential>, n: nat, t: Table, mid: Table, first: Pc)
    requires Crowd(cfg, creds) && 1 <= n <= cfg.max && Evicted(t, 0, cfg.max, mid) && Keys(cfg, creds)[n] !in t
    ensures Step(cfg, Stage(creds, t, n, first, Waiting(0), multiset{}), Look(n + 1, 0, 0, mid),
                 Stage(creds, mid[Keys(cfg, creds)[n] := InFlight(n)], n + 1, first, Waiting(0), multiset{}))
  {
    var keys := Keys(cfg, creds);
    var s := Stage(creds, t, n, first, Waiting(0), multiset{});
    var next := Stage(creds, mid[keys[n] := InFlight(n)], n + 1, first, Waiting(0), multiset{});
    assert KeyOf(cfg, s.calls[n + 1]) == keys[n];
    assert next.calls == Move(s.calls, n + 1, Deriving(n));
    assert next.makers == s.makers + [n + 1];
  }

  lemma ThenClaims(cfg: Config, creds: seq<Credential>, run: seq<System>, actions: seq<Action>, n: nat, t: Table, mid: Table, first: Pc)
    returns (longer: seq<System>, more: seq<Action>)
    requires Crowd(cfg, creds) && 1 <= n <= cfg.max && Evicted(t, 0, cfg.max, mid) && Keys(cfg, creds)[n] !in t
    requires IsRun(cfg, run, actions) && run[|run| - 1] == Stage(creds, t, n, first, Waiting(0), multiset{})
    ensures IsRun(cfg, longer, more) && run <= longer
    ensures longer[|longer| - 1] == Stage(creds, mid[Keys(cfg, creds)[n] := InFlight(n)], n + 1, first, Waiting(0), multiset{})
  {
    NextClaims(cfg, creds, n, t, mid, first);
    longer, more := Onward(cfg, run, actions, Look(n + 1, 0, 0, mid),
                             Stage(creds, mid[Keys(cfg, creds)[n] := InFlight(n)], n + 1, first, Waiting(0), multiset{}));
  }

  lemma FirstClaims(cfg: Config, creds: seq<Credential>)
    requires Crowd(cfg, creds)
    ensures Step(cfg, System(map[], Burst(creds, (t: nat) => Start), [], multiset{}, 0), Look(0, 0, 0, map[]),
                 Stage(creds, Flying(Keys(cfg, creds), 1), 1, Deriving(0), Start, multiset{}))
  {
    var s := System(map[], Burst(creds, (t: nat) => Start), [], multiset{}, 0);
    var next := Stage(creds, Flying(Keys(cfg, creds), 1), 1, Deriving(0), Start, multiset{});
    assert KeyOf(cfg, s.calls[0]) == Keys(cfg, creds)[0];
    assert next.calls == Move(s.calls, 0, Deriving(0));
    assert next.makers == s.makers + [0];
    assert Flying(Keys(cfg, creds), 1) == map[][Keys(cfg, creds)[0] := InFlight(0)];
  }

  lemma SecondWaits(cfg: Config, creds: seq<Credential>)
    requires Crowd(cfg, creds)
    ensures Step(cfg, Stage(creds, Flying(Keys(cfg, creds), 1), 1, Deriving(0), Start, multiset{}), Look(1, 0, 0, map[]),
                 Stage(creds, Flying(Keys(cfg, creds), 1), 1, Deriving(0), Waiting(0), multiset{}))
  {
    var keys := Keys(cfg, creds);
    var s := Stage(creds, Flying(keys, 1), 1, Deriving(0), Start, multiset{});
    var next := Stage(creds, Flying(keys, 1), 1, Deriving(0), Waiting(0), multiset{});
    FlyingFacts(keys, 1);
    assert KeyOf(cfg, s.calls[1]) == keys[0];
    assert next.calls == Move(s.calls, 1, Waiting(0));
  }

  lemma FirstTwoLook(cfg: Config, creds: seq<Credential>) returns (run: seq<System>, actions: seq<Action>)
    requires Crowd(cfg, creds)
    ensures IsRun(cfg, run, actions) && run[0].clock == 0
    ensures run[|run| - 1] == Stage(creds, Flying(Keys(cfg, creds), 1), 1, Deriving(0), Waiting(0), multiset{})
  {
    run, actions := AllArrive(cfg, Burst(creds, (t: nat) => Start));
    FirstClaims(cfg, creds);
    SecondWaits(cfg, creds);
    run, actions := Onward(cfg, run, actions, Look(0, 0, 0, map[]), Stage(creds, Flying(Keys(cfg, creds), 1), 1, Deriving(0), Start, multiset{}));
    run, actions := Onward(cfg, run, actions, Look(1, 0, 0, map[]), Stage(creds, Flying(Keys(cfg, creds), 1), 1, Deriving(0), Waiting(0), multiset{}));
  }

  lemma OneMoreFlies(cfg: Config, creds: seq<Credential>, run: seq<System>, actions: seq<Action>, n: nat, t: Table)
    returns (longer: seq<System>, more: seq<Action>)
    requires Crowd(cfg, creds) && 1 <= n < cfg.max && t == Flying(Keys(cfg, creds), n)
    requires IsRun(cfg, run, actions) && run[|run| - 1] == Stage(creds, t, n, Deriving(0), Waiting(0), multiset{})
    ensures IsRun(cfg, longer, more) && run <= longer
    ensures longer[|longer| - 1] == Stage(creds, Flying(Keys(cfg, creds), n + 1), n + 1, Deriving(0), Waiting(0), multiset{})
  {
    FlyingFacts(Keys(cfg, creds), n);
    longer, more := ThenClaims(cfg, creds, run, actions, n, t, t, Deriving(0));
  }

  /** As many keys in flight as the cap allows, the first of them with a waiter. */
  lemma {:induction false} TableFills(cfg: Config, creds: seq<Credential>, n: nat) returns (run: seq<System>, actions: seq<Action>)
    requires Crowd(cfg, creds) && 1 <= n <= cfg.max
    ensures IsRun(cfg, run, actions) && run[0].clock == 0
    ensures run[|run| - 1] == Stage(creds, Flying(Keys(cfg, creds), n), n, Deriving(0), Waiting(0), multiset{})
    decreases n
  {
    if n == 1 {
      run, actions := FirstTwoLook(cfg, creds);
    } else {
      run, actions := TableFills(cfg, creds, n - 1);
      run, actions := OneMoreFlies(cfg, creds, run, actions, n - 1, Flying(Keys(cfg, creds), n - 1));
    }
  }

  /** All but the first of the keys in flight. */
  ghost function Others(keys: seq<Key>, n: nat): Table
    requires 1 <= n <= |keys|
  {
    Flying(keys, n) - {keys[0]}
  }

  lemma OthersFacts(keys: seq<Key>, n: nat)
    requires 1 <= n <= |keys| && NoRepeats(keys)
    ensures |Others(keys, n)| == n - 1 && AllInFlight(Others(keys, n)) && keys[0] !in Others(keys, n)
    ensures forall i | n <= i < |keys| :: keys[i] !in Others(keys, n)
  {
    FlyingFacts(keys, n);
    assert Others(keys, n).Keys == Flying(keys, n).Keys - {keys[0]};
    assert |Others(keys, n)| == |Others(keys, n).Keys| && |Flying(keys, n)| == |Flying(keys, n).Keys|;
  }

  ghost function Landed(cfg: Config, keys: seq<Key>, n: nat, verdict: bool): Table
    requires 1 <= n <= |keys|
  {
    Flying(keys, n)[keys[0] := Settled(verdict, cfg.ttl)]
  }

  /** An eviction from a full table in which one entry is settled and live takes that one. */
  lemma OnlySettledGoes(t: Table, k: Key, now: int, cap: int)
    requires k in t && t[k].Settled? && now < t[k].expiresAt && |t| == cap >= 1
    requires forall x | x in t && x != k :: t[x].InFlight?
    ensures Evicted(t, now, cap, t - {k})
  {
    assert WithoutExpired(t, now) == t;
    assert (t - {k}).Keys == t.Keys - {k};
    assert |t - {k}| == |(t - {k}).Keys| && |t| == |t.Keys|;
  }

  lemma OthersGrow(keys: seq<Key>, n: nat)
    requires 1 <= n < |keys| && NoRepeats(keys)
    ensures Others(keys, n + 1) == Others(keys, n)[keys[n] := InFlight(n)]
  {
    assert keys[n] != keys[0];
  }

  lemma LandedGoes(t: Table, flying: Table, k: Key, verdict: bool, ttl: int, cap: int)
    requires ttl > 0 && cap >= 1 && k in flying && |flying| == cap && AllInFlight(flying) && t == flying[k := Settled(verdict, ttl)]
    ensures Evicted(t, 0, cap, flying - {k})
  {
    assert t.Keys == flying.Keys;
    assert |t| == |t.Keys| && |flying| == |flying.Keys|;
    OnlySettledGoes(t, k, 0, cap);
    assert t - {k} == flying - {k};
  }

  lemma LandedFacts(cfg: Config, keys: seq<Key>, verdict: bool)
    requires cfg.ttl > 0 && cfg.max >= 1 && |keys| == cfg.max + 1 && NoRepeats(keys)
    ensures var m := cfg.max; var t := Landed(cfg, keys, m, verdict);
            && Evicted(t, 0, m, Others(keys, m)) && keys[m] !in t
            && Others(keys, m + 1) == Others(keys, m)[keys[m] := InFlight(m)]
  {
    FlyingFacts(keys, cfg.max);
    LandedGoes(Landed(cfg, keys, cfg.max, verdict), Flying(keys, cfg.max), keys[0], verdict, cfg.ttl, cfg.max);
    OthersGrow(keys, cfg.max);
  }

  ghost function Last(cfg: Config, creds: seq<Credential>, verdict: bool): System
    requires Crowd(cfg, creds)
  {
    var m, keys := cfg.max, Keys(cfg, creds);
    System(Others(keys, m + 1)[keys[0] := InFlight(m + 1)], Burst(creds, Where(m + 1, Returned(verdict), Deriving(m + 1))),
           Makers(m + 1) + [1], multiset{0}, 0)
  }

  /** A table of derivations only gives nothing up. */
  lemma DerivationsStay(t: Table, cap: int)
    requires AllInFlight(t) && |t| >= cap
    ensures Evicted(t, 0, cap, t)
  {
    assert WithoutExpired(t, 0) == t;
  }

  lemma MissClaims(cfg: Config, s: System, t: nat, k: Key, mid: Table)
    requires cfg.keyed && t < |s.calls| && s.calls[t].pc.Start? && KeyOf(cfg, s.calls[t]) == k && k !in s.entries
    requires Evicted(s.entries, s.clock, cfg.max, mid)
    ensures Step(cfg, s, Look(t, s.clock, s.clock, mid),
                 System(mid[k := InFlight(|s.makers|)], Move(s.calls, t, Deriving(|s.makers|)), s.makers + [t], s.closes, s.clock))
  {
  }

  lemma WaiterIsBack(cfg: Config, creds: seq<Credential>, verdict: bool)
    requires Crowd(cfg, creds)
    ensures var back := Burst(creds, Where(cfg.max + 1, Returned(verdict), Start));
            && |back| > 1 && back[1].pc.Start? && KeyOf(cfg, back[1]) == Keys(cfg, creds)[0]
            && Move(back, 1, Deriving(cfg.max + 1)) == Burst(creds, Where(cfg.max + 1, Returned(verdict), Deriving(cfg.max + 1)))
  {
  }

  /** The woken waiter finds nothing, and claims its key again. */
  lemma WaiterClaims(cfg: Config, creds: seq<Credential>, t: Table, verdict: bool)
    requires Crowd(cfg, creds) && t == Others(Keys(cfg, creds), cfg.max + 1)
    ensures Step(cfg, Stage(creds, t, cfg.max + 1, Returned(verdict), Start, multiset{0}), Look(1, 0, 0, t), Last(cfg, creds, verdict))
  {
    OthersFacts(Keys(cfg, creds), cfg.max + 1);
    DerivationsStay(t, cfg.max);
    WaiterIsBack(cfg, creds, verdict);
    MissClaims(cfg, Stage(creds, t, cfg.max + 1, Returned(verdict), Start, multiset{0}), 1, Keys(cfg, creds)[0], t);
  }

  lemma DerivedAndStored(cfg: Config, creds: seq<Credential>, entries: Table, verdict: bool)
    requires Crowd(cfg, creds) && verdict == cfg.derive(creds[0].0, creds[0].1)
    ensures Step(cfg, Stage(creds, entries, cfg.max, Deriving(0), Waiting(0), multiset{}), Derive(0),
                 Stage(creds, entries, cfg.max, Publishing(0, verdict), Waiting(0), multiset{}))
    ensures Step(cfg, Stage(creds, entries, cfg.max, Publishing(0, verdict), Waiting(0), multiset{}), Store(0, 0),
                 Stage(creds, entries[Keys(cfg, creds)[0] := Settled(verdict, cfg.ttl)], cfg.max, Closing(0, verdict), Waiting(0), multiset{}))
  {
    var s0 := Stage(creds, entries, cfg.max, Deriving(0), Waiting(0), multiset{});
    var s1 := Stage(creds, entries, cfg.max, Publishing(0, verdict), Waiting(0), multiset{});
    var s2 := Stage(creds, entries[Keys(cfg, creds)[0] := Settled(verdict, cfg.ttl)], cfg.max, Closing(0, verdict), Waiting(0), multiset{});
    assert s1.calls == Move(s0.calls, 0, Publishing(0, verdict));
    assert s2.calls == Move(s1.calls, 0, Closing(0, verdict));
    assert KeyOf(cfg, s1.calls[0]) == Keys(cfg, creds)[0];
  }

  lemma ClosedAndWoken(cfg: Config, creds: seq<Credential>, entries: Table, verdict: bool)
    requires Crowd(cfg, creds)
    ensures Step(cfg, Stage(creds, entries, cfg.max + 1, Closing(0, verdict), Waiting(0), multiset{}), Close(0),
                 Stage(creds, entries, cfg.max + 1, Returned(verdict), Waiting(0), multiset{0}))
    ensures Step(cfg, Stage(creds, entries, cfg.max + 1, Returned(verdict), Waiting(0), multiset{0}), Wake(1),
                 Stage(creds, entries, cfg.max + 1, Returned(verdict), Start, multiset{0}))
  {
    var s0 := Stage(creds, entries, cfg.max + 1, Closing(0, verdict), Waiting(0), multiset{});
    var s1 := Stage(creds, entries, cfg.max + 1, Returned(verdict), Waiting(0), multiset{0});
    var s2 := Stage(creds, entries, cfg.max + 1, Returned(verdict), Start, multiset{0});
    assert s1.calls == Move(s0.calls, 0, Returned(verdict));
    assert s2.calls == Move(s1.calls, 1, Start);
  }

  /**
   Being in flight protects an entry only until its verdict lands. Whatever the cap, one credential more can
   displace it before the waiter looks again, and the waiter derives it anew.
   */
  lemma WokenWaiterMayFindNothing(cfg: Config, creds: seq<Credential>) returns (run: seq<System>, actions: seq<Action>)
    requires Crowd(cfg, creds)
    ensures IsRun(cfg, run, actions) && run[0].clock == run[|run| - 1].clock
    ensures exists i | 0 <= i < |run| ::
              |run[i].calls| > 1 && run[i].calls[1].pc == Waiting(0) && run[i].calls[0].pc == Deriving(0)
    ensures var s := run[|run| - 1];
            && s == Last(cfg, creds, cfg.derive(creds[0].0, creds[0].1))
            && s.calls[0].pc.Returned? && Derives(s.calls[1]) && KeyOf(cfg, s.calls[0]) == KeyOf(cfg, s.calls[1])
  {
    var verdict := cfg.derive(creds[0].0, creds[0].1);
    run, actions := TableFills(cfg, creds, cfg.max);
    var waiting := |run| - 1;
    assert run[waiting].calls[1].pc == Waiting(0) && run[waiting].calls[0].pc == Deriving(0);
    run, actions := VerdictIsDisplaced(cfg, creds, run, actions, verdict);
    run, actions := WaiterStartsOver(cfg, creds, run, actions, verdict);
  }

  lemma VerdictIsDisplaced(cfg: Config, creds: seq<Credential>, run: seq<System>, actions: seq<Action>, verdict: bool)
    returns (longer: seq<System>, more: seq<Action>)
    requires Crowd(cfg, creds) && verdict == cfg.derive(creds[0].0, creds[0].1) && IsRun(cfg, run, actions)
    requires run[|run| - 1] == Stage(creds, Flying(Keys(cfg, creds), cfg.max), cfg.max, Deriving(0), Waiting(0), multiset{})
    ensures IsRun(cfg, longer, more) && run <= longer
    ensures longer[|longer| - 1]
            == Stage(creds, Others(Keys(cfg, creds), cfg.max + 1), cfg.max + 1, Closing(0, verdict), Waiting(0), multiset{})
  {
    var m, keys := cfg.max, Keys(cfg, creds);
    longer, more := ThenStored(cfg, creds, run, actions, Flying(keys, m), verdict);
    longer, more := ThenDisplaced(cfg, creds, longer, more, verdict);
  }

  lemma ThenStored(cfg: Config, creds: seq<Credential>, run: seq<System>, actions: seq<Action>, entries: Table, verdict: bool)
    returns (longer: seq<System>, more: seq<Action>)
    requires Crowd(cfg, creds) && verdict == cfg.derive(creds[0].0, creds[0].1) && IsRun(cfg, run, actions)
    requires run[|run| - 1] == Stage(creds, entries, cfg.max, Deriving(0), Waiting(0), multiset{})
    ensures IsRun(cfg, longer, more) && run <= longer
    ensures longer[|longer| - 1]
            == Stage(creds, entries[Keys(cfg, creds)[0] := Settled(verdict, cfg.ttl)], cfg.max, Closing(0, verdict), Waiting(0), multiset{})
  {
    var s1 := Stage(creds, entries, cfg.max, Publishing(0, verdict), Waiting(0), multiset{});
    var s2 := Stage(creds, entries[Keys(cfg, creds)[0] := Settled(verdict, cfg.ttl)], cfg.max, Closing(0, verdict), Waiting(0), multiset{});
    DerivedAndStored(cfg, creds, entries, verdict);
    longer, more := TwoOnward(cfg, run, actions, Derive(0), s1, Store(0, 0), s2);
  }

  /** The only settled entry yields to the credential one too many. */
  lemma ThenDisplaced(cfg: Config, creds: seq<Credential>, run: seq<System>, actions: seq<Action>, verdict: bool)
    returns (longer: seq<System>, more: seq<Action>)
    requires Crowd(cfg, creds) && IsRun(cfg, run, actions)
    requires run[|run| - 1]
             == Stage(creds, Landed(cfg, Keys(cfg, creds), cfg.max, verdict), cfg.max, Closing(0, verdict), Waiting(0), multiset{})
    ensures IsRun(cfg, longer, more) && run <= longer
    ensures longer[|longer| - 1]
            == Stage(creds, Others(Keys(cfg, creds), cfg.max + 1), cfg.max + 1, Closing(0, verdict), Waiting(0), multiset{})
  {
    var m, keys := cfg.max, Keys(cfg, creds);
    LandedFacts(cfg, keys, verdict);
    longer, more := ThenClaims(cfg, creds, run, actions, m, Landed(cfg, keys, m, verdict), Others(keys, m), Closing(0, verdict));
  }

  lemma WaiterStartsOver(cfg: Config, creds: seq<Credential>, run: seq<System>, actions: seq<Action>, verdict: bool)
    returns (longer: seq<System>, more: seq<Action>)
    requires Crowd(cfg, creds) && IsRun(cfg, run, actions)
    requires run[|run| - 1]
             == Stage(creds, Others(Keys(cfg, creds), cfg.max + 1), cfg.max + 1, Closing(0, verdict), Waiting(0), multiset{})
    ensures IsRun(cfg, longer, more) && run <= longer && longer[|longer| - 1] == Last(cfg, creds, verdict)
  {
    var t := Others(Keys(cfg, creds), cfg.max + 1);
    longer, more := ThenWoken(cfg, creds, run, actions, t, verdict);
    WaiterClaims(cfg, creds, t, verdict);
    longer, more := Onward(cfg, longer, more, Look(1, 0, 0, t), Last(cfg, creds, verdict));
  }

  lemma ThenWoken(cfg: Config, creds: seq<Credential>, run: seq<System>, actions: seq<Action>, entries: Table, verdict: bool)
    returns (longer: seq<System>, more: seq<Action>)
    requires Crowd(cfg, creds) && IsRun(cfg, run, actions)
    requires run[|run| - 1] == Stage(creds, entries, cfg.max + 1, Closing(0, verdict), Waiting(0), multiset{})
    ensures IsRun(cfg, longer, more) && run <= longer
    ensures longer[|longer| - 1] == Stage(creds, entries, cfg.max + 1, Returned(verdict), Start, multiset{0})
  {
    var s1 := Stage(creds, entries, cfg.max + 1, Returned(verdict), Waiting(0), multiset{0});
    var s2 := Stage(creds, entries, cfg.max + 1, Returned(verdict), Start, multiset{0});
    ClosedAndWoken(cfg, creds, entries, verdict);
    longer, more := TwoOnward(cfg, run, actions, Close(0), s1, Wake(1), s2);
  }

  lemma TwoOnward(cfg: Config, run: seq<System>, actions: seq<Action>, a: Action, s: System, b: Action, t: System)
    returns (longer: seq<System>, more: seq<Action>)
    requires IsRun(cfg, run, actions) && Step(cfg, run[|run| - 1], a, s) && Step(cfg, s, b, t)
    ensures IsRun(cfg, longer, more) && longer == run + [s] + [t]
  {
    longer, more := Onward(cfg, run, actions, a, s);
    longer, more := Onward(cfg, longer, more, b, t);
  }

  lemma Onward(cfg: Config, run: seq<System>, actions: seq<Action>, a: Action, s: System)
    returns (longer: seq<System>, more: seq<Action>)
    requires IsRun(cfg, run, actions) && Step(cfg, run[|run| - 1], a, s)
    ensures IsRun(cfg, longer, more) && longer == run + [s]
  {
    RunExtends(cfg, run, actions, a, s);
    longer, more := run + [s], actions + [a];
  }

  // ----- When a burst costs one derivation per credential ------------------------------------

  /** No two channels were made for one key. */
  ghost predicate OncePerCredential(cfg: Config, s: System) {
    forall c, d | 0 <= c < d < |s.makers| && s.makers[c] < |s.calls| && s.makers[d] < |s.calls| ::
      KeyOf(cfg, s.calls[s.makers[c]]) != KeyOf(cfg, s.calls[s.makers[d]])
  }

  /** A run shorter than the time-to-live whose calls carry at most `n` credentials. */
  ghost predicate ShortBurst(cfg: Config, run: seq<System>, actions: seq<Action>, n: nat) {
    && IsRun(cfg, run, actions)
    && run[|run| - 1].clock < run[0].clock + cfg.ttl
    && |CallKeys(cfg, run[|run| - 1].calls)| <= n
  }

  ghost predicate BurstsCostOnce(cfg: Config, n: nat) {
    forall run, actions | ShortBurst(cfg, run, actions, n) :: OncePerCredential(cfg, run[|run| - 1])
  }

  lemma CrowdKeys(cfg: Config, creds: seq<Credential>, pc: nat -> Pc)
    requires Crowd(cfg, creds)
    ensures |CallKeys(cfg, Burst(creds, pc))| <= cfg.max + 1
  {
    var keys := Keys(cfg, creds);
    var calls := Burst(creds, pc);
    forall k | k in CallKeys(cfg, calls) ensures k in (set x | x in keys) {
      var t :| 0 <= t < |calls| && KeyOf(cfg, calls[t]) == k;
      assert keys[Whose(t)] == k;
    }
    SmallerSet(CallKeys(cfg, calls), set x | x in keys);
    DistinctElements(keys);
  }

  lemma {:induction false} DistinctElements(keys: seq<Key>)
    ensures |set x | x in keys| <= |keys|
  {
    if keys != [] {
      var front, last := keys[..|keys| - 1], keys[|keys| - 1];
      DistinctElements(front);
      assert (set x | x in keys) == (set x | x in front) + {last};
    }
  }

  /**
   Short bursts of at most `n` credentials cost one derivation per credential, waiters included, exactly when
   `n` is within the cap.
   */
  lemma BurstsCostOnceExactly(cfg: Config, creds: seq<Credential>, n: nat)
    requires Crowd(cfg, creds)
    ensures BurstsCostOnce(cfg, n) <==> n <= cfg.max
  {
    if n <= cfg.max {
      forall run, actions | ShortBurst(cfg, run, actions, n) ensures OncePerCredential(cfg, run[|run| - 1]) {
        RunsDeriveOnce(cfg, run, actions, |run| - 1);
      }
    } else {
      var run, actions := WokenWaiterMayFindNothing(cfg, creds);
      var verdict := cfg.derive(creds[0].0, creds[0].1);
      var s := run[|run| - 1];
      CrowdKeys(cfg, creds, Where(cfg.max + 1, Returned(verdict), Deriving(cfg.max + 1)));
      assert ShortBurst(cfg, run, actions, n);
      assert s.makers[0] == 0 && s.makers[cfg.max + 1] == 1;
      assert KeyOf(cfg, s.calls[0]) == KeyOf(cfg, s.calls[1]);
    }
  }
}
