/**
 The fixed-window limiter of login attempts (internal/security/attempts.go): a bounded table of windows,
 one per client. Clock readings are integers passed in with each attempt.
 */
module AttemptLimiter {
  import opened Wrappers

  type Key = string

  datatype Bucket = Bucket(count: int, windowStart: int)

  type Table = map<Key, Bucket>

  datatype Limits = Limits(limit: int, window: int, maxKeys: int)

  /** The windows that have not elapsed. */
  function Live(buckets: Table, window: int, now: int): Table {
    map k | k in buckets && now - buckets[k].windowStart < window :: buckets[k]
  }

  function Attempted(limits: Limits, buckets: Table, key: Key, now: int): (bool, Table) {
    if limits.limit <= 0 then (true, buckets)
    else if key in buckets then
      if now - buckets[key].windowStart >= limits.window then (true, buckets[key := Bucket(1, now)])
      else if buckets[key].count >= limits.limit then (false, buckets)
      else (true, buckets[key := Bucket(buckets[key].count + 1, buckets[key].windowStart)])
    else
      var table := if |buckets| >= limits.maxKeys then Live(buckets, limits.window, now) else buckets;
      if |table| >= limits.maxKeys then (false, table) else (true, table[key := Bucket(1, now)])
  }

  class Limiter {
    const limits: Limits
    var buckets: Table

    constructor (limits: Limits)
      ensures this.limits == limits && buckets == map[]
    {
      this.limits := limits;
      buckets := map[];
    }

    /** Whether the attempt may proceed, and the table it leaves. */
    method Allow(key: Key, now: int) returns (ok: bool)
      modifies this`buckets
      ensures (ok, buckets) == Attempted(limits, old(buckets), key, now)
    {
      if limits.limit <= 0 {
        return true;
      }
      if key in buckets {
        var b := buckets[key];
        if now - b.windowStart >= limits.window {
          buckets := buckets[key := Bucket(1, now)];
          return true;
        }
        if b.count >= limits.limit {
          return false;
        }
        buckets := buckets[key := b.(count := b.count + 1)];
        return true;
      }
      if |buckets| >= limits.maxKeys {
        PurgeLocked(now);
        if |buckets| >= limits.maxKeys {
          return false;
        }
      }
      buckets := buckets[key := Bucket(1, now)];
      return true;
    }

    method Reset(key: Key)
      modifies this`buckets
      ensures buckets == old(buckets) - {key}
    {
      buckets := buckets - {key};
    }

    method PurgeLocked(now: int)
      modifies this`buckets
      ensures buckets == Live(old(buckets), limits.window, now)
    {
      var todo := buckets.Keys;
      ghost var all := buckets;
      while todo != {}
        invariant todo <= all.Keys
        invariant buckets == map k | k in all && (k in todo || now - all[k].windowStart < limits.window) :: all[k]
        decreases |todo|
      {
        var k :| k in todo;
        if now - buckets[k].windowStart >= limits.window {
          buckets := buckets - {k};
        }
        todo := todo - {k};
      }
    }
  }

  // ----- Runs -----------------------------------------------------------------------

  datatype Event = Attempt(key: Key, now: int) | ResetKey(key: Key)

  function After(limits: Limits, buckets: Table, e: Event): Table {
    match e
    case Attempt(key, now) => Attempted(limits, buckets, key, now).1
    case ResetKey(key) => buckets - {key}
  }

  function Run(limits: Limits, buckets: Table, events: seq<Event>): Table
    decreases |events|
  {
    if events == [] then buckets else Run(limits, After(limits, buckets, events[0]), events[1..])
  }

  /** No reading is earlier than the one before it. */
  predicate Ordered(clock: int, events: seq<Event>)
    decreases |events|
  {
    events == [] ||
    match events[0]
    case Attempt(_, now) => clock <= now && Ordered(now, events[1..])
    case ResetKey(_) => Ordered(clock, events[1..])
  }

  function Clock(clock: int, events: seq<Event>): int
    decreases |events|
  {
    if events == [] then clock
    else Clock(if events[0].Attempt? then events[0].now else clock, events[1..])
  }

  /** A client's attempts admitted with a reading in [from, from + window). */
  function Admitted(limits: Limits, buckets: Table, events: seq<Event>, key: Key, from: int): nat
    decreases |events|
  {
    if events == [] then 0
    else
      (if events[0].Attempt? && events[0].key == key && from <= events[0].now < from + limits.window
          && Attempted(limits, buckets, key, events[0].now).0 then 1 else 0)
      + Admitted(limits, After(limits, buckets, events[0]), events[1..], key, from)
  }

  /** What every reachable table keeps, whatever the clock reads: bounded, and no window over its limit. */
  ghost predicate Sane(limits: Limits, buckets: Table) {
    && |buckets| <= Max(limits.maxKeys, 0)
    && forall k | k in buckets :: 1 <= buckets[k].count <= limits.limit
  }

  /** No window begins after `clock`. */
  ghost predicate Past(buckets: Table, clock: int) {
    forall k | k in buckets :: buckets[k].windowStart <= clock
  }

  lemma {:induction false} SubmapIsSmaller(a: Table, b: Table)
    requires a.Keys <= b.Keys
    ensures |a| <= |b|
  {
    assert |a| == |a.Keys| && |b| == |b.Keys|;
    assert b.Keys == a.Keys + (b.Keys - a.Keys);
  }

  lemma StepKeepsSane(limits: Limits, buckets: Table, e: Event)
    requires Sane(limits, buckets)
    ensures Sane(limits, After(limits, buckets, e))
  {
    SubmapIsSmaller(After(limits, buckets, e), buckets[e.key := Bucket(1, 0)]);
    if e.Attempt? {
      SubmapIsSmaller(Live(buckets, limits.window, e.now), buckets);
    } else {
      SubmapIsSmaller(buckets - {e.key}, buckets);
    }
  }

  /** The table never exceeds its bound and no window its limit, over any run. */
  lemma {:induction false} RunsStaySane(limits: Limits, buckets: Table, events: seq<Event>)
    requires Sane(limits, buckets)
    ensures Sane(limits, Run(limits, buckets, events))
    decreases |events|
  {
    if events != [] {
      StepKeepsSane(limits, buckets, events[0]);
      RunsStaySane(limits, After(limits, buckets, events[0]), events[1..]);
    }
  }

  /** No reading exceeds `clock`. */
  ghost predicate UpTo(clock: int, events: seq<Event>) {
    forall e | e in events && e.Attempt? :: e.now <= clock
  }

  lemma {:induction false} RunsStayPast(limits: Limits, buckets: Table, clock: int, events: seq<Event>)
    requires Past(buckets, clock) && UpTo(clock, events)
    ensures Past(Run(limits, buckets, events), clock)
    decreases |events|
  {
    if events != [] {
      assert events[0] in events && forall e | e in events[1..] :: e in events;
      RunsStayPast(limits, After(limits, buckets, events[0]), clock, events[1..]);
    }
  }

  lemma {:induction false} OrderedReadings(clock: int, events: seq<Event>)
    requires Ordered(clock, events)
    ensures clock <= Clock(clock, events) && UpTo(Clock(clock, events), events)
    decreases |events|
  {
    if events != [] {
      OrderedReadings(if events[0].Attempt? then events[0].now else clock, events[1..]);
      assert forall e | e in events :: e == events[0] || e in events[1..];
    }
  }

  // ----- The bound on a rate ----------------------------------------------------------

  /** No attempt read inside the interval meets a window of its client begun after it. */
  predicate NeverLate(limits: Limits, buckets: Table, events: seq<Event>, key: Key, from: int)
    decreases |events|
  {
    events == [] ||
    ((events[0].Attempt? && events[0].key == key && key in buckets && from <= events[0].now < from + limits.window
      ==> buckets[key].windowStart < from + limits.window)
     && NeverLate(limits, After(limits, buckets, events[0]), events[1..], key, from))
  }

  /** The end of the client's last window to have been purged. */
  function PurgedUntil(limits: Limits, buckets: Table, e: Event, key: Key, until: Option<int>): Option<int> {
    if key in buckets && key !in After(limits, buckets, e) then Some(buckets[key].windowStart + limits.window) else until
  }

  /** A client whose window was purged opens no window before the purged one's end, up to the interval's end. */
  predicate ReopensLater(limits: Limits, buckets: Table, events: seq<Event>, key: Key, from: int, until: Option<int>)
    decreases |events|
  {
    events == [] ||
    ((events[0].Attempt? && events[0].key == key && key !in buckets && until.Some? && events[0].now < from + limits.window
      ==> until.value <= events[0].now)
     && ReopensLater(limits, After(limits, buckets, events[0]), events[1..], key, from,
                     PurgedUntil(limits, buckets, events[0], key, until)))
  }

  /**
   What `admitted` attempts in [from, from + window) so far leave possible. A window begun before the
   interval has its first attempt outside it; one begun inside is the last that can start there.
   */
  ghost predicate Within(limits: Limits, bucket: Option<Bucket>, until: Option<int>, from: int, admitted: nat) {
    var spare, to := limits.limit - 1, from + limits.window;
    && (to <= from ==> admitted == 0)
    && match bucket
    case None =>
      (match until
       case None => admitted == 0
       case Some(end) => (end <= from ==> admitted == 0) && (end < to ==> admitted <= spare) && admitted <= spare + limits.limit)
    case Some(b) =>
      && 1 <= b.count <= limits.limit
      && (b.windowStart + limits.window <= from ==> admitted == 0)
      && (b.windowStart < from ==> admitted < b.count)
      && (b.windowStart < to ==> admitted <= spare + b.count)
      && admitted <= spare + limits.limit
  }

  function BucketOf(buckets: Table, key: Key): Option<Bucket> {
    if key in buckets then Some(buckets[key]) else None
  }

  /** What one more attempt by `who` adds to the count of `key`. */
  function More(limits: Limits, buckets: Table, who: Key, now: int, key: Key, from: int): nat {
    if who == key && from <= now < from + limits.window && Attempted(limits, buckets, who, now).0 then 1 else 0
  }

  lemma AttemptStaysWithin(limits: Limits, buckets: Table, key: Key, now: int, who: Key, until: Option<int>, from: int, admitted: nat)
    requires limits.limit > 0
    requires NeverLate(limits, buckets, [Attempt(who, now)], key, from)
    requires ReopensLater(limits, buckets, [Attempt(who, now)], key, from, until)
    requires Within(limits, BucketOf(buckets, key), until, from, admitted)
    ensures Within(limits, BucketOf(Attempted(limits, buckets, who, now).1, key),
                   PurgedUntil(limits, buckets, Attempt(who, now), key, until), from,
                   admitted + More(limits, buckets, who, now, key, from))
  {
  }

  lemma {:induction false} IntervalBound(limits: Limits, buckets: Table, events: seq<Event>, key: Key, until: Option<int>, from: int, admitted: nat)
    requires limits.limit > 0 && ResetKey(key) !in events
    requires NeverLate(limits, buckets, events, key, from) && ReopensLater(limits, buckets, events, key, from, until)
    requires Within(limits, BucketOf(buckets, key), until, from, admitted)
    ensures admitted + Admitted(limits, buckets, events, key, from) <= 2 * limits.limit - 1
    decreases |events|
  {
    if events != [] {
      var e := events[0];
      assert forall x | x in events[1..] :: x in events;
      var next := PurgedUntil(limits, buckets, e, key, until);
      match e
      case Attempt(who, now) =>
        AttemptStaysWithin(limits, buckets, key, now, who, until, from, admitted);
        IntervalBound(limits, After(limits, buckets, e), events[1..], key, next, from, admitted + More(limits, buckets, who, now, key, from));
      case ResetKey(other) =>
        assert e in events && other != key;
        IntervalBound(limits, After(limits, buckets, e), events[1..], key, next, from, admitted);
    }
  }

  /**
   After any run at all, an interval of one window's length holds at most 2 * limit - 1 admitted attempts
   of a client that is not reset meanwhile, if its attempts are never late and its purged windows are
   over before it opens another. Other clients' readings may come in any order.
   */
  lemma RateBound(limits: Limits, before: seq<Event>, during: seq<Event>, key: Key, from: int)
    requires limits.limit > 0 && ResetKey(key) !in during
    requires NeverLate(limits, Run(limits, map[], before), during, key, from)
    requires ReopensLater(limits, Run(limits, map[], before), during, key, from, None)
    ensures Admitted(limits, Run(limits, map[], before), during, key, from) <= 2 * limits.limit - 1
  {
    RunsStaySane(limits, map[], before);
    IntervalBound(limits, Run(limits, map[], before), during, key, None, from, 0);
  }

  /** Nothing the client or its purges leave behind lies ahead of the clock. */
  ghost predicate Elapsed(bucket: Option<Bucket>, until: Option<int>, clock: int) {
    && (bucket.Some? ==> bucket.value.windowStart <= clock)
    && (until.Some? ==> until.value <= clock)
  }

  lemma AttemptElapses(limits: Limits, buckets: Table, clock: int, e: Event, key: Key, until: Option<int>)
    requires Elapsed(BucketOf(buckets, key), until, clock) && (e.Attempt? ==> clock <= e.now) && e != ResetKey(key)
    ensures Elapsed(BucketOf(After(limits, buckets, e), key), PurgedUntil(limits, buckets, e, key, until), if e.Attempt? then e.now else clock)
  {
  }

  /** A clock that never goes back is enough for both. */
  lemma {:induction false} OrderIsEnough(limits: Limits, buckets: Table, clock: int, events: seq<Event>, key: Key, from: int, until: Option<int>)
    requires Ordered(clock, events) && Elapsed(BucketOf(buckets, key), until, clock) && ResetKey(key) !in events
    ensures NeverLate(limits, buckets, events, key, from) && ReopensLater(limits, buckets, events, key, from, until)
    decreases |events|
  {
    if events != [] {
      var e := events[0];
      var later := if e.Attempt? then e.now else clock;
      var next := PurgedUntil(limits, buckets, e, key, until);
      AttemptElapses(limits, buckets, clock, e, key, until);
      OrderIsEnough(limits, After(limits, buckets, e), later, events[1..], key, from, next);
    }
  }

  lemma OrderedRateBound(limits: Limits, clock: int, before: seq<Event>, during: seq<Event>, key: Key, from: int)
    requires limits.limit > 0 && Ordered(clock, before + during) && ResetKey(key) !in during
    ensures Admitted(limits, Run(limits, map[], before), during, key, from) <= 2 * limits.limit - 1
  {
    OrderedSplit(clock, before, during);
    OrderedReadings(clock, before);
    RunsStayPast(limits, map[], Clock(clock, before), before);
    OrderIsEnough(limits, Run(limits, map[], before), Clock(clock, before), during, key, from, None);
    RateBound(limits, before, during, key, from);
  }

  lemma {:induction false} OrderedSplit(clock: int, before: seq<Event>, during: seq<Event>)
    requires Ordered(clock, before + during)
    ensures Ordered(clock, before) && Ordered(Clock(clock, before), during)
    decreases |before|
  {
    if before == [] {
      assert before + during == during;
    } else {
      assert (before + during)[1..] == before[1..] + during;
      OrderedSplit(if before[0].Attempt? then before[0].now else clock, before[1..], during);
    }
  }

  // ----- The bound is reached --------------------------------------------------------

  function Burst(key: Key, now: int, n: nat): seq<Event> {
    if n == 0 then [] else [Attempt(key, now)] + Burst(key, now, n - 1)
  }

  /** A window admits every attempt up to its limit. */
  lemma {:induction false} WindowAdmits(limits: Limits, buckets: Table, key: Key, now: int, n: nat, from: int)
    requires key in buckets && now - buckets[key].windowStart < limits.window
    requires limits.limit > 0 && buckets[key].count + n <= limits.limit
    ensures Admitted(limits, buckets, Burst(key, now, n), key, from) == if from <= now < from + limits.window then n else 0
    ensures Run(limits, buckets, Burst(key, now, n)) == buckets[key := buckets[key].(count := buckets[key].count + n)]
    decreases n
  {
    if n > 0 {
      var next := After(limits, buckets, Attempt(key, now));
      assert Burst(key, now, n)[1..] == Burst(key, now, n - 1);
      WindowAdmits(limits, next, key, now, n - 1, from);
    } else {
      assert buckets[key := buckets[key]] == buckets;
    }
  }

  lemma {:induction false} AdmittedConcat(limits: Limits, buckets: Table, a: seq<Event>, b: seq<Event>, key: Key, from: int)
    ensures Admitted(limits, buckets, a + b, key, from)
            == Admitted(limits, buckets, a, key, from) + Admitted(limits, Run(limits, buckets, a), b, key, from)
    decreases |a|
  {
    if a == [] {
      assert a + b == b;
    } else {
      assert (a + b)[1..] == a[1..] + b;
      AdmittedConcat(limits, After(limits, buckets, a[0]), a[1..], b, key, from);
    }
  }

  /** One attempt, the rest of its window at the last moment, and a full window right after. */
  function Straddling(limits: Limits, key: Key): seq<Event>
    requires limits.limit > 0
  {
    [Attempt(key, 0)] + Burst(key, limits.window - 1, limits.limit - 1)
    + ([Attempt(key, limits.window)] + Burst(key, limits.window, limits.limit - 1))
  }

  lemma FirstWindowFills(limits: Limits, key: Key, full: Table)
    requires limits.limit > 0 && limits.window >= 2 && limits.maxKeys > 0 && full == map[key := Bucket(limits.limit, 0)]
    ensures var first := [Attempt(key, 0)] + Burst(key, limits.window - 1, limits.limit - 1);
            && Run(limits, map[], first) == full
            && Admitted(limits, map[], first, key, limits.window - 1) == limits.limit - 1
  {
    WindowFills(limits, map[], key, 0, limits.window - 1, limits.window - 1);
  }

  lemma BoundIsReached(limits: Limits, key: Key)
    requires limits.limit > 0 && limits.window >= 2 && limits.maxKeys > 0
    ensures Admitted(limits, map[], Straddling(limits, key), key, limits.window - 1) == 2 * limits.limit - 1
    ensures Run(limits, map[], Straddling(limits, key)) == map[key := Bucket(limits.limit, limits.window)]
  {
    var w, rest := limits.window, limits.limit - 1;
    var first, second := [Attempt(key, 0)] + Burst(key, w - 1, rest), [Attempt(key, w)] + Burst(key, w, rest);
    FirstWindowFills(limits, key, map[key := Bucket(limits.limit, 0)]);
    SecondWindowFills(limits, key, map[key := Bucket(limits.limit, 0)]);
    AdmittedConcat(limits, map[], first, second, key, w - 1);
    RunConcat(limits, map[], first, second);
  }

  lemma SecondWindowFills(limits: Limits, key: Key, full: Table)
    requires limits.limit > 0 && limits.window >= 2 && full == map[key := Bucket(limits.limit, 0)]
    ensures var second := [Attempt(key, limits.window)] + Burst(key, limits.window, limits.limit - 1);
            && Run(limits, full, second) == map[key := Bucket(limits.limit, limits.window)]
            && Admitted(limits, full, second, key, limits.window - 1) == limits.limit
  {
    WindowFills(limits, full, key, limits.window, limits.window, limits.window - 1);
  }

  /** An attempt that opens a window, and the rest of the limit later in it. */
  lemma WindowFills(limits: Limits, buckets: Table, key: Key, start: int, later: int, from: int)
    requires limits.limit > 0 && later - start < limits.window
    requires Attempted(limits, buckets, key, start) == (true, buckets[key := Bucket(1, start)])
    ensures var fill := [Attempt(key, start)] + Burst(key, later, limits.limit - 1);
            && Run(limits, buckets, fill) == buckets[key := Bucket(limits.limit, start)]
            && Admitted(limits, buckets, fill, key, from)
               == (if from <= start < from + limits.window then 1 else 0)
                  + (if from <= later < from + limits.window then limits.limit - 1 else 0)
  {
    var rest := limits.limit - 1;
    var fill := [Attempt(key, start)] + Burst(key, later, rest);
    assert fill[1..] == Burst(key, later, rest);
    WindowAdmits(limits, buckets[key := Bucket(1, start)], key, later, rest, from);
  }

  // ----- Refusals ---------------------------------------------------------------------

  /**
   A known client is refused exactly when its live window is used up, a new one exactly when the table
   is full of live windows.
   */
  lemma RefusedExactly(limits: Limits, buckets: Table, key: Key, now: int)
    requires limits.limit > 0 && Sane(limits, buckets)
    ensures !Attempted(limits, buckets, key, now).0 <==>
              if key in buckets
              then key in Live(buckets, limits.window, now) && buckets[key].count == limits.limit
              else |Live(buckets, limits.window, now)| == Max(limits.maxKeys, 0)
  {
    SubmapIsSmaller(Live(buckets, limits.window, now), buckets);
  }

  /** A full table clears itself: a window's length after the latest reading of any run, any client is admitted. */
  lemma ClearsItself(limits: Limits, clock: int, events: seq<Event>, key: Key, now: int)
    requires limits.limit > 0 && limits.maxKeys > 0 && UpTo(clock, events) && now >= clock + limits.window
    ensures Attempted(limits, Run(limits, map[], events), key, now).0
  {
    RunsStayPast(limits, map[], clock, events);
    assert Live(Run(limits, map[], events), limits.window, now) == map[];
  }

  /** A client is not held to what came before its reset: with room in the table it has its whole limit again. */
  lemma ResetRestoresTheLimit(limits: Limits, buckets: Table, key: Key, now: int, n: nat)
    requires limits.limit > 0 && limits.window > 0 && 0 < n <= limits.limit && |buckets - {key}| < limits.maxKeys
    ensures Admitted(limits, After(limits, buckets, ResetKey(key)), Burst(key, now, n), key, now) == n
  {
    var table := buckets - {key};
    var next := After(limits, table, Attempt(key, now));
    assert Burst(key, now, n)[1..] == Burst(key, now, n - 1);
    WindowAdmits(limits, next, key, now, n - 1, now);
  }

  // ----- Readings out of order -----------------------------------------------------------

  /** Attempts by one client alone never purge its window. */
  lemma {:induction false} AloneReopensLater(limits: Limits, buckets: Table, events: seq<Event>, key: Key, from: int)
    requires forall e | e in events :: e.Attempt? && e.key == key
    ensures ReopensLater(limits, buckets, events, key, from, None)
    decreases |events|
  {
    if events != [] {
      assert events[0] in events && forall e | e in events[1..] :: e in events;
      AloneReopensLater(limits, After(limits, buckets, events[0]), events[1..], key, from);
    }
  }

  lemma {:induction false} BurstIsOneClient(key: Key, now: int, n: nat)
    ensures forall e | e in Burst(key, now, n) :: e == Attempt(key, now)
    decreases n
  {
    if n > 0 {
      BurstIsOneClient(key, now, n - 1);
    }
  }

  /** A first attempt one window later still, and the rest of its limit late, inside the interval. */
  function Late(limits: Limits, key: Key): seq<Event>
    requires limits.limit > 0
  {
    [Attempt(key, 2 * limits.window)] + Burst(key, limits.window + 1, limits.limit - 1)
  }

  lemma LateRunIsOneClient(limits: Limits, key: Key)
    requires limits.limit > 0
    ensures forall e | e in Straddling(limits, key) + Late(limits, key) :: e.Attempt? && e.key == key
  {
    var w, rest := limits.window, limits.limit - 1;
    BurstIsOneClient(key, w - 1, rest);
    BurstIsOneClient(key, w, rest);
    BurstIsOneClient(key, w + 1, rest);
  }

  lemma LateAttemptsAreAdmitted(limits: Limits, key: Key, buckets: Table)
    requires limits.limit > 0 && limits.window >= 3 && buckets == map[key := Bucket(limits.limit, limits.window)]
    ensures Admitted(limits, buckets, Late(limits, key), key, limits.window - 1) == limits.limit - 1
  {
    WindowFills(limits, buckets, key, 2 * limits.window, limits.window + 1, limits.window - 1);
  }

  /**
   The reading is taken before the lock, so attempts can reach the table out of order, and the bound needs
   both its conditions. Without the first: attempts held up while a later one opens a window are admitted
   beyond it.
   */
  lemma LateReadingsExceedTheBound(limits: Limits, key: Key)
    requires limits.limit >= 2 && limits.window >= 3 && limits.maxKeys > 0
    ensures var run, from := Straddling(limits, key) + Late(limits, key), limits.window - 1;
            && ReopensLater(limits, map[], run, key, from, None)
            && Admitted(limits, map[], run, key, from) == 3 * limits.limit - 2 > 2 * limits.limit - 1
  {
    var straddling, late, from := Straddling(limits, key), Late(limits, key), limits.window - 1;
    BoundIsReached(limits, key);
    LateAttemptsAreAdmitted(limits, key, Run(limits, map[], straddling));
    AdmittedConcat(limits, map[], straddling, late, key, from);
    LateRunIsOneClient(limits, key);
    AloneReopensLater(limits, map[], straddling + late, key, from);
  }

  /** A client whose attempts are all read before the interval's end has no window begun after it. */
  lemma {:induction false} EarlyIsNeverLate(limits: Limits, buckets: Table, events: seq<Event>, key: Key, from: int)
    requires key in buckets ==> buckets[key].windowStart < from + limits.window
    requires forall e | e in events && e.Attempt? && e.key == key :: e.now < from + limits.window
    ensures NeverLate(limits, buckets, events, key, from)
    decreases |events|
  {
    if events != [] {
      assert events[0] in events && forall e | e in events[1..] :: e in events;
      EarlyIsNeverLate(limits, After(limits, buckets, events[0]), events[1..], key, from);
    }
  }

  /** One attempt by each of some clients. */
  function Each(clients: seq<Key>, now: int): (r: seq<Event>)
    ensures |r| == |clients| && forall i | 0 <= i < |r| :: r[i] == Attempt(clients[i], now)
  {
    seq(|clients|, i requires 0 <= i < |clients| => Attempt(clients[i], now))
  }

  predicate Distinct(clients: seq<Key>) {
    forall i, j | 0 <= i < j < |clients| :: clients[i] != clients[j]
  }

  lemma ClientFits(limits: Limits, buckets: Table, client: Key, now: int)
    requires limits.limit > 0 && |buckets| < limits.maxKeys && client !in buckets
    ensures var next := After(limits, buckets, Attempt(client, now));
            next == buckets[client := Bucket(1, now)] && |next| == |buckets| + 1
  {
    var next := buckets[client := Bucket(1, now)];
    assert next.Keys == buckets.Keys + {client} && |next| == |next.Keys|;
  }

  /** New clients fit in beside the windows there are. */
  lemma {:induction false} ClientsFit(limits: Limits, buckets: Table, clients: seq<Key>, now: int, key: Key, from: int)
    requires limits.limit > 0 && Distinct(clients) && |buckets| + |clients| <= limits.maxKeys
    requires key in buckets && forall c | c in clients :: c !in buckets
    ensures Admitted(limits, buckets, Each(clients, now), key, from) == 0
    ensures var full := Run(limits, buckets, Each(clients, now));
            && |full| == |buckets| + |clients| && key in full
            && forall k | k in full :: if k in buckets then full[k] == buckets[k] else k in clients && full[k] == Bucket(1, now)
    decreases |clients|
  {
    if clients != [] {
      var first, rest := clients[0], clients[1..];
      assert first in clients && forall c | c in rest :: c in clients;
      ClientFits(limits, buckets, first, now);
      var next := After(limits, buckets, Attempt(first, now));
      assert Each(clients, now)[1..] == Each(rest, now);
      RestIsDistinct(clients);
      ClientsFit(limits, next, rest, now, key, from);
    }
  }

  lemma RestIsDistinct(clients: seq<Key>)
    requires clients != [] && Distinct(clients)
    ensures Distinct(clients[1..]) && clients[0] !in clients[1..]
  {
    assert forall i | 0 <= i < |clients| - 1 :: clients[1..][i] == clients[i + 1];
  }

  /** A client uses up its limit, others fill the table, one more purges it, and the client begins again. */
  function Purging(limits: Limits, key: Key, others: seq<Key>, last: Key): seq<Event>
    requires limits.limit > 0
  {
    var fill := [Attempt(key, 0)] + Burst(key, 0, limits.limit - 1);
    var again := [Attempt(key, limits.window - 1)] + Burst(key, limits.window - 1, limits.limit - 1);
    fill + (Each(others, 0) + ([Attempt(last, limits.window)] + again))
  }

  lemma PurgedClientBeginsAgain(limits: Limits, full: Table, key: Key, last: Key, again: seq<Event>)
    requires limits.limit > 0 && limits.window > 0 && limits.maxKeys >= 2 && |full| == limits.maxKeys
    requires key != last && last !in full && forall k | k in full :: full[k].windowStart == 0
    requires again == [Attempt(key, limits.window - 1)] + Burst(key, limits.window - 1, limits.limit - 1)
    ensures Admitted(limits, full, [Attempt(last, limits.window)] + again, key, 0) == limits.limit
  {
    var w := limits.window;
    var purge := [Attempt(last, w)] + again;
    assert Live(full, w, w) == map[];
    var alone: Table := map[last := Bucket(1, w)];
    assert purge[1..] == again && After(limits, full, purge[0]) == alone;
    assert |alone| == 1;
    WindowFills(limits, alone, key, w - 1, w - 1, 0);
  }

  lemma AdmittedInThree(limits: Limits, buckets: Table, a: seq<Event>, b: seq<Event>, c: seq<Event>, key: Key, from: int)
    ensures Admitted(limits, buckets, a + (b + c), key, from)
            == Admitted(limits, buckets, a, key, from) + Admitted(limits, Run(limits, buckets, a), b, key, from)
               + Admitted(limits, Run(limits, Run(limits, buckets, a), b), c, key, from)
  {
    AdmittedConcat(limits, buckets, a, b + c, key, from);
    AdmittedConcat(limits, Run(limits, buckets, a), b, c, key, from);
  }

  lemma PurgedClientsCount(limits: Limits, key: Key, others: seq<Key>, last: Key, fill: seq<Event>, again: seq<Event>)
    requires limits.limit > 0 && limits.window > 0 && |others| + 1 == limits.maxKeys >= 2
    requires key != last && key !in others && last !in others && Distinct(others)
    requires Run(limits, map[], fill) == map[key := Bucket(limits.limit, 0)]
    requires Admitted(limits, map[], fill, key, 0) == limits.limit
    requires again == [Attempt(key, limits.window - 1)] + Burst(key, limits.window - 1, limits.limit - 1)
    ensures Admitted(limits, map[], fill + (Each(others, 0) + ([Attempt(last, limits.window)] + again)), key, 0) == 2 * limits.limit
  {
    var used: Table := map[key := Bucket(limits.limit, 0)];
    AdmittedInThree(limits, map[], fill, Each(others, 0), [Attempt(last, limits.window)] + again, key, 0);
    ClientsFit(limits, used, others, 0, key, 0);
    PurgedClientBeginsAgain(limits, Run(limits, used, Each(others, 0)), key, last, again);
  }

  lemma PurgingIsEarly(limits: Limits, key: Key, others: seq<Key>, last: Key)
    requires limits.limit > 0 && limits.window > 0 && key != last
    ensures forall e | e in Purging(limits, key, others, last) && e.Attempt? && e.key == key :: e.now < limits.window
  {
    BurstIsOneClient(key, 0, limits.limit - 1);
    BurstIsOneClient(key, limits.window - 1, limits.limit - 1);
  }

  /** Without the second: a client purged by another's later reading has its limit twice in one window. */
  lemma PurgedWindowsExceedTheBound(limits: Limits, key: Key, others: seq<Key>, last: Key)
    requires limits.limit > 0 && limits.window > 0 && |others| + 1 == limits.maxKeys >= 2
    requires Distinct([key, last] + others)
    ensures NeverLate(limits, map[], Purging(limits, key, others, last), key, 0)
    ensures Admitted(limits, map[], Purging(limits, key, others, last), key, 0) == 2 * limits.limit > 2 * limits.limit - 1
  {
    DistinctClients(key, last, others);
    WindowFills(limits, map[], key, 0, 0, 0);
    PurgedClientsCount(limits, key, others, last, [Attempt(key, 0)] + Burst(key, 0, limits.limit - 1),
                       [Attempt(key, limits.window - 1)] + Burst(key, limits.window - 1, limits.limit - 1));
    PurgingIsEarly(limits, key, others, last);
    EarlyIsNeverLate(limits, map[], Purging(limits, key, others, last), key, 0);
  }

  lemma DistinctClients(key: Key, last: Key, others: seq<Key>)
    requires Distinct([key, last] + others)
    ensures key != last && key !in others && last !in others && Distinct(others)
  {
    var all := [key, last] + others;
    assert all[0] == key && all[1] == last && forall i | 0 <= i < |others| :: others[i] == all[i + 2];
  }

  // ----- How late a reading may be ---------------------------------------------------------

  /** No attempt's reading is more than `d` below that of an attempt before it. */
  ghost predicate LagsAtMost(d: nat, events: seq<Event>) {
    forall i, j | 0 <= i < j < |events| && events[i].Attempt? && events[j].Attempt? :: events[i].now - d <= events[j].now
  }

  /** Every run with that lag, from an empty table, keeps the bound for every client and interval. */
  ghost predicate BoundHolds(limits: Limits, d: nat) {
    forall before, during, key, from ::
      LagsAtMost(d, before + during) && ResetKey(key) !in during ==>
        Admitted(limits, Run(limits, map[], before), during, key, from) <= 2 * limits.limit - 1
  }

  lemma {:induction false} NoLagIsOrder(clock: int, events: seq<Event>)
    requires LagsAtMost(0, events) && forall e | e in events && e.Attempt? :: clock <= e.now
    ensures Ordered(clock, events)
    decreases |events|
  {
    if events != [] {
      var e, rest := events[0], events[1..];
      assert forall j | 0 <= j < |rest| :: rest[j] == events[j + 1];
      assert e in events && forall x | x in rest :: x in events;
      NoLagIsOrder(if e.Attempt? then e.now else clock, rest);
    }
  }

  /** A reading no later than any of them. */
  function Earliest(events: seq<Event>): (clock: int)
    ensures forall e | e in events && e.Attempt? :: clock <= e.now
    decreases |events|
  {
    if events == [] then 0
    else
      var rest := Earliest(events[1..]);
      assert forall e | e in events :: e == events[0] || e in events[1..];
      if events[0].Attempt? then Min(events[0].now, rest) else rest
  }

  /** As many different clients as one likes. */
  function Clients(n: nat): (r: seq<Key>)
    ensures |r| == n && forall i | 0 <= i < n :: |r[i]| == i
  {
    if n == 0 then [] else Clients(n - 1) + [seq(n - 1, i => 'c')]
  }

  lemma ClientsAreDistinct(n: nat)
    ensures Distinct(Clients(n))
  {
    var all := Clients(n);
    assert forall i, j | 0 <= i < j < n :: |all[i]| != |all[j]|;
  }

  predicate ReadIn(events: seq<Event>, low: int, high: int) {
    forall e | e in events && e.Attempt? :: low <= e.now <= high
  }

  /** A purge at `w` between attempts read no later than `w` and no earlier than `w - 1` after it lags by one. */
  lemma LagsByOne(early: seq<Event>, late: seq<Event>, w: int)
    requires LagsAtMost(0, early) && ReadIn(early, 0, w) && ReadIn(late, w - 1, w - 1)
    ensures LagsAtMost(1, early + late)
  {
    var all := early + late;
    forall i, j | 0 <= i < j < |all| && all[i].Attempt? && all[j].Attempt? ensures all[i].now - 1 <= all[j].now {
      if j >= |early| {
        assert all[j] in late;
        assert i < |early| ==> all[i] in early;
        assert i >= |early| ==> all[i] in late;
      } else {
        assert all[i] == early[i] && all[j] == early[j];
      }
    }
  }

  lemma PurgingLagsByOne(limits: Limits, key: Key, others: seq<Key>, last: Key)
    requires limits.limit > 0 && limits.window > 0
    ensures LagsAtMost(1, Purging(limits, key, others, last))
  {
    var w, rest := limits.window, limits.limit - 1;
    var start := [Attempt(key, 0)] + Burst(key, 0, rest) + Each(others, 0);
    var again := [Attempt(key, w - 1)] + Burst(key, w - 1, rest);
    BurstIsOneClient(key, 0, rest);
    BurstIsOneClient(key, w - 1, rest);
    assert ReadIn(start, 0, 0);
    StartThenPurge(start, last, w);
    LagsByOne(start + [Attempt(last, w)], again, w);
    assert Purging(limits, key, others, last) == start + [Attempt(last, w)] + again;
  }

  lemma StartThenPurge(start: seq<Event>, last: Key, w: int)
    requires ReadIn(start, 0, 0) && w > 0
    ensures LagsAtMost(0, start + [Attempt(last, w)]) && ReadIn(start + [Attempt(last, w)], 0, w)
  {
    var all := start + [Attempt(last, w)];
    forall i, j | 0 <= i < j < |all| && all[i].Attempt? && all[j].Attempt? ensures all[i].now <= all[j].now {
      assert all[i] == start[i] && start[i] in start;
      assert j < |start| ==> all[j] == start[j] && start[j] in start;
    }
  }

  lemma MoreLag(c: nat, d: nat, events: seq<Event>)
    requires c <= d && LagsAtMost(c, events)
    ensures LagsAtMost(d, events)
  {
  }

  lemma AnyLagBreaksTheBound(limits: Limits, d: nat)
    requires limits.limit > 0 && limits.window > 0 && limits.maxKeys >= 2 && d > 0
    ensures !BoundHolds(limits, d)
  {
    var clients := Clients(limits.maxKeys + 1);
    ClientsAreDistinct(limits.maxKeys + 1);
    var key, last, others := clients[0], clients[1], clients[2..];
    assert [key, last] + others == clients;
    var during := Purging(limits, key, others, last);
    DistinctClients(key, last, others);
    PurgedWindowsExceedTheBound(limits, key, others, last);
    PurgingLagsByOne(limits, key, others, last);
    MoreLag(1, d, during);
    PurgingResetsNobody(limits, key, others, last);
    var before: seq<Event> := [];
    assert before + during == during && Run(limits, map[], before) == map[];
    assert LagsAtMost(d, before + during) && Admitted(limits, Run(limits, map[], before), during, key, 0) == 2 * limits.limit;
  }

  lemma PurgingResetsNobody(limits: Limits, key: Key, others: seq<Key>, last: Key)
    requires limits.limit > 0
    ensures forall e | e in Purging(limits, key, others, last) :: e.Attempt?
  {
    BurstIsOneClient(key, 0, limits.limit - 1);
    BurstIsOneClient(key, limits.window - 1, limits.limit - 1);
  }

  /**
   With room for two clients, the bound is one for clocks that never go back and for no others: however
   little readings may lag, some run that lags no more admits beyond it.
   */
  lemma BoundNeedsOrderExactly(limits: Limits, d: nat)
    requires limits.limit > 0 && limits.window > 0 && limits.maxKeys >= 2
    ensures BoundHolds(limits, d) <==> d == 0
  {
    if d == 0 {
      forall before, during, key, from | LagsAtMost(d, before + during) && ResetKey(key) !in during
        ensures Admitted(limits, Run(limits, map[], before), during, key, from) <= 2 * limits.limit - 1
      {
        NoLagIsOrder(Earliest(before + during), before + during);
        OrderedRateBound(limits, Earliest(before + during), before, during, key, from);
      }
    } else {
      AnyLagBreaksTheBound(limits, d);
    }
  }

  lemma {:induction false} RunConcat(limits: Limits, buckets: Table, a: seq<Event>, b: seq<Event>)
    ensures Run(limits, buckets, a + b) == Run(limits, Run(limits, buckets, a), b)
    decreases |a|
  {
    if a == [] {
      assert a + b == b;
    } else {
      assert (a + b)[1..] == a[1..] + b;
      RunConcat(limits, After(limits, buckets, a[0]), a[1..], b);
    }
  }
}
