/**
 The node table's life cycle (internal/store/repo_ext.go, with the upsert of
 internal/store/gen/nodes.sql.go and the sweep of internal/services/liveness.go).

 `Db` is the state of the tables involved; each SQL statement is one transition on it.
 `NodeRepository` is the class whose methods run those statements; each is proved against
 the function of the same name on `Db`. `Log` records what was observed about a node since
 it was inserted, independently of the counters and stamps the table keeps.
 */
module NodeStore {
  import opened Wrappers
  import opened ByteOrder
  import opened Timestamps

  type Id = string

  datatype Status = Discovered | Probing | Ready | Unavailable | Cooldown

  datatype Transport = Tcp | Udp | UnknownTransport

  datatype Row = Row(
    provider: string, identity: string, transport: Transport, sourcePresent: bool, lastSeen: Option<string>,
    status: Status, latency: int, lastProbed: Option<string>, lastSuccess: Option<string>,
    consecutiveFailures: nat, successCount: nat, failureCount: nat,
    livenessFailures: nat, lastAlive: Option<string>, cooldownUntil: Option<string>)

  type Table = map<Id, Row>

  /** `blacklist` maps a node to the text of its expiry; `fixed` is the pinned node, if any. */
  datatype Db = Db(nodes: Table, aliases: map<Id, Id>, blacklist: map<Id, string>, favorites: set<Id>, fixed: Option<Id>)

  const EMPTY := Db(map[], map[], map[], {}, None)

  // ----- Statements -----------------------------------------------------------------

  /** UPDATE proxy_nodes SET ... WHERE ... */
  function UpdateWhere(nodes: Table, where: (Id, Row) -> bool, change: Row -> Row): (r: Table)
    ensures r.Keys == nodes.Keys
  {
    map id | id in nodes :: if where(id, nodes[id]) then change(nodes[id]) else nodes[id]
  }

  function UpdateOne(nodes: Table, target: Id, change: Row -> Row): (r: Table)
    ensures r.Keys == nodes.Keys
  {
    if target in nodes then nodes[target := change(nodes[target])] else nodes
  }

  function Resolve(db: Db, id: Id): Id {
    if id in db.aliases then db.aliases[id] else id
  }

  /** The evidence a ready row rests on: its last probe is also its last success, as texts go. */
  predicate ProvedByProbe(row: Row) {
    row.lastProbed.Some? && row.lastSuccess.Some? && AtMost(row.lastProbed.value, row.lastSuccess.value)
  }

  /** The CASE expression restoreStatusFromProbe. */
  function RestoredStatus(row: Row): Status {
    if row.lastProbed.None? then Discovered
    else if ProvedByProbe(row) then Ready
    else Unavailable
  }

  function Restored(row: Row): Row {
    row.(status := RestoredStatus(row), cooldownUntil := None)
  }

  function Probed(row: Row, ok: bool, latency: int, stamp: string): Row {
    if ok then
      row.(status := Ready, latency := latency, lastProbed := Some(stamp), lastSuccess := Some(stamp),
           consecutiveFailures := 0, successCount := row.successCount + 1)
    else
      row.(status := Unavailable, latency := latency, lastProbed := Some(stamp),
           consecutiveFailures := row.consecutiveFailures + 1, failureCount := row.failureCount + 1)
  }

  function Marked(row: Row): Row {
    row.(status := Unavailable, consecutiveFailures := row.consecutiveFailures + 1, failureCount := row.failureCount + 1)
  }

  // ----- Discovery ------------------------------------------------------------------

  datatype Found = Found(id: Id, provider: string, identity: string, ip: string, transport: Transport, fetchedAt: Instant)

  function IdentityOf(f: Found): string {
    if f.identity == "" then f.provider + ":" + f.ip else f.identity
  }

  predicate Holds(row: Row, f: Found) {
    row.provider == f.provider && row.identity == IdentityOf(f)
  }

  ghost function Holder(nodes: Table, f: Found): Option<Id> {
    if id :| id in nodes && Holds(nodes[id], f) then Some(id) else None
  }

  function Inserted(f: Found): Row {
    Row(f.provider, IdentityOf(f), f.transport, true, Some(Tstr(f.fetchedAt)), Discovered, 0, None, None, 0, 0, 0, 0, None, None)
  }

  function Rediscovered(row: Row, f: Found): Row {
    row.(transport := f.transport, sourcePresent := true, lastSeen := Some(Tstr(f.fetchedAt)))
  }

  /** One iteration of UpsertDiscovered; it fails when the new id is taken by another identity. */
  ghost function DiscoverOne(db: Db, f: Found): (Db, bool) {
    match Holder(db.nodes, f)
    case Some(id) =>
      var aliases := if id != f.id && f.id !in db.aliases then db.aliases[f.id := id] else db.aliases;
      (db.(nodes := db.nodes[id := Rediscovered(db.nodes[id], f)], aliases := aliases), true)
    case None =>
      if f.id in db.nodes then (db, false) else (db.(nodes := db.nodes[f.id := Inserted(f)]), true)
  }

  ghost function DiscoverAll(db: Db, batch: seq<Found>): (Db, bool)
    decreases |batch|
  {
    if batch == [] then (db, true)
    else
      var (next, ok) := DiscoverOne(db, batch[0]);
      if ok then DiscoverAll(next, batch[1..]) else (next, false)
  }

  function Snapshot(db: Db, provider: string, identities: seq<string>): Db {
    db.(nodes := UpdateWhere(db.nodes, (id, row: Row) => row.provider == provider && row.identity !in identities,
                             (row: Row) => row.(sourcePresent := false)))
  }

  // ----- Cooldowns ------------------------------------------------------------------

  function Expired(db: Db, now: string): set<Id> {
    set id | id in db.blacklist && AtMost(db.blacklist[id], now)
  }

  function ClearExpired(db: Db, now: string): Db {
    var expired := Expired(db, now);
    db.(nodes := UpdateWhere(db.nodes, (id, row) => id in expired, Restored), blacklist := db.blacklist - expired)
  }

  function Blacklisted(db: Db, id: Id, expires: string): Db {
    var target := Resolve(db, id);
    db.(blacklist := db.blacklist[target := expires],
        nodes := UpdateOne(db.nodes, target, (row: Row) => row.(status := Cooldown, cooldownUntil := Some(expires))))
  }

  // ----- Deletions ------------------------------------------------------------------

  predicate Protected(db: Db, id: Id) {
    id in db.favorites || id in db.blacklist || db.fixed == Some(id)
  }

  predicate Stale(db: Db, id: Id, row: Row, cutoff: Instant) {
    !row.sourcePresent && UnseenSince(row, cutoff) && !Protected(db, id)
  }

  function StaleIds(db: Db, cutoff: Instant): set<Id> {
    set id | id in db.nodes && Stale(db, id, db.nodes[id], cutoff)
  }

  function Purged(db: Db, cutoff: Instant): Db {
    db.(nodes := db.nodes - StaleIds(db, cutoff))
  }

  /** When a node is gone for good; `keep` carries the traffic. */
  datatype DeadNodeRule = DeadNodeRule(tcpFailures: nat, tcpUnseen: Instant, udpFailures: nat, udpUnseen: Instant, keep: Id)

  predicate UnseenSince(row: Row, cutoff: Instant) {
    row.lastSeen.Some? && Less(row.lastSeen.value, Tstr(cutoff))
  }

  predicate Dead(db: Db, id: Id, row: Row, rule: DeadNodeRule) {
    && (if row.transport.Tcp?
        then rule.tcpFailures <= row.livenessFailures && UnseenSince(row, rule.tcpUnseen)
        else rule.udpFailures <= row.consecutiveFailures && UnseenSince(row, rule.udpUnseen))
    && id != rule.keep
    && !Protected(db, id)
  }

  function DeadIds(db: Db, rule: DeadNodeRule): set<Id> {
    set id | id in db.nodes && Dead(db, id, db.nodes[id], rule)
  }

  function WithoutDead(db: Db, rule: DeadNodeRule): Db {
    db.(nodes := db.nodes - DeadIds(db, rule))
  }

  // ----- Sweeps ---------------------------------------------------------------------

  const CHUNK := 400

  /** UPDATE proxy_nodes SET ... WHERE id IN (...) AND ... */
  function UpdateIn(nodes: Table, ids: seq<Id>, where: (Id, Row) -> bool, change: Row -> Row): (r: Table)
    ensures r.Keys == nodes.Keys
  {
    map id | id in nodes :: if id in ids && where(id, nodes[id]) then change(nodes[id]) else nodes[id]
  }

  /** One statement per batch of at most 400 ids. */
  function InChunks(nodes: Table, where: (Id, Row) -> bool, change: Row -> Row, ids: seq<Id>): (r: Table)
    ensures r.Keys == nodes.Keys
    decreases |ids|
  {
    if ids == [] then nodes
    else
      var n := Min(CHUNK, |ids|);
      InChunks(UpdateIn(nodes, ids[..n], where, change), where, change, ids[n..])
  }

  /** How many batches that takes. */
  function Batches(n: nat): nat {
    (n + CHUNK - 1) / CHUNK
  }

  /** The statements of one recorded sweep: two updates of each list. */
  function Statements(alive: seq<Id>, dead: seq<Id>): nat {
    2 * Batches(|alive|) + 2 * Batches(|dead|)
  }

  function Answered(row: Row, now: string): Row {
    row.(livenessFailures := 0, lastAlive := Some(now))
  }

  function Refused(row: Row): Row {
    row.(livenessFailures := row.livenessFailures + 1)
  }

  predicate Everywhere(id: Id, row: Row) { true }

  predicate Recovering(id: Id, row: Row) {
    row.status.Unavailable? && ProvedByProbe(row)
  }

  function Promote(row: Row): Row { row.(status := Ready) }

  function Demote(row: Row): Row { row.(status := Unavailable) }

  /** The four chunked updates of RecordLiveness, in order. */
  function SweepTables(nodes: Table, alive: seq<Id>, dead: seq<Id>, keep: Id, now: string): seq<Table> {
    var answered := InChunks(nodes, Everywhere, (row: Row) => Answered(row, now), alive);
    var promoted := InChunks(answered, Recovering, Promote, alive);
    var refused := InChunks(promoted, Everywhere, Refused, dead);
    [answered, promoted, refused,
     InChunks(refused, (id: Id, row: Row) => row.status.Ready? && id != keep, Demote, dead)]
  }

  function Swept(db: Db, alive: seq<Id>, dead: seq<Id>, keep: Id, now: string): Db {
    db.(nodes := SweepTables(db.nodes, alive, dead, keep, now)[3])
  }

  /** What one sweep does to one row. */
  function SweptRow(id: Id, row: Row, alive: bool, dead: bool, keep: Id, now: string): Row {
    var answered := if alive then Answered(row, now) else row;
    var promoted := if alive && Recovering(id, answered) then Promote(answered) else answered;
    var refused := if dead then Refused(promoted) else promoted;
    if dead && refused.status.Ready? && id != keep then Demote(refused) else refused
  }

  lemma {:induction false} ChunksTouchOnce(nodes: Table, where: (Id, Row) -> bool, change: Row -> Row, ids: seq<Id>, id: Id)
    requires NoRepeats(ids) && id in nodes
    ensures InChunks(nodes, where, change, ids)[id]
            == if id in ids && where(id, nodes[id]) then change(nodes[id]) else nodes[id]
    decreases |ids|
  {
    if ids != [] {
      var n := Min(CHUNK, |ids|);
      var batch := ids[..n];
      var next := UpdateIn(nodes, batch, where, change);
      assert ids == batch + ids[n..];
      ChunksTouchOnce(next, where, change, ids[n..], id);
      if id in batch {
        var i :| 0 <= i < n && ids[i] == id;
        assert forall j | n <= j < |ids| :: ids[j] != id;
      }
    }
  }

  lemma SweepIsRowByRow(db: Db, alive: seq<Id>, dead: seq<Id>, keep: Id, now: string, id: Id)
    requires NoRepeats(alive) && NoRepeats(dead) && id in db.nodes
    ensures Swept(db, alive, dead, keep, now).nodes.Keys == db.nodes.Keys
    ensures Swept(db, alive, dead, keep, now).nodes[id] == SweptRow(id, db.nodes[id], id in alive, id in dead, keep, now)
  {
    var t := SweepTables(db.nodes, alive, dead, keep, now);
    ChunksTouchOnce(db.nodes, Everywhere, (row: Row) => Answered(row, now), alive, id);
    ChunksTouchOnce(t[0], Recovering, Promote, alive, id);
    ChunksTouchOnce(t[1], Everywhere, Refused, dead, id);
    ChunksTouchOnce(t[2], (x: Id, row: Row) => row.status.Ready? && x != keep, Demote, dead, id);
  }

  /**
   What a sweep makes of a row. An answer resets the counter and brings back what a probe had proved; a
   refusal advances it and takes a ready node down, but never the one carrying the traffic.
   */
  ghost predicate SweptTo(row: Row, next: Row, alive: bool, dead: bool, kept: bool, now: string) {
    var proved := row.lastProbed.Some? && row.lastSuccess.Some? && !Less(row.lastSuccess.value, row.lastProbed.value);
    var up := row.status == Ready || (alive && row.status == Unavailable && proved);
    && (next.status == Ready <==> up && (dead ==> kept))
    && (next.status != Ready ==> next.status == if up then Unavailable else row.status)
    && next == row.(
         status := next.status,
         livenessFailures := (if alive then 0 else row.livenessFailures) + (if dead then 1 else 0),
         lastAlive := if alive then Some(now) else row.lastAlive)
  }

  lemma SweptRowExact(id: Id, row: Row, alive: bool, dead: bool, keep: Id, now: string)
    ensures SweptTo(row, SweptRow(id, row, alive, dead, keep, now), alive, dead, id == keep, now)
  {
  }

  /** Each swept id is counted once, whichever batch carries it, and nothing but the swept rows changes. */
  lemma SweepTouchesOnce(db: Db, alive: seq<Id>, dead: seq<Id>, keep: Id, now: string, id: Id)
    requires NoRepeats(alive) && NoRepeats(dead) && id in db.nodes
    ensures Swept(db, alive, dead, keep, now) == db.(nodes := Swept(db, alive, dead, keep, now).nodes)
    ensures Swept(db, alive, dead, keep, now).nodes.Keys == db.nodes.Keys
    ensures SweptTo(db.nodes[id], Swept(db, alive, dead, keep, now).nodes[id], id in alive, id in dead, id == keep, now)
  {
    SweepIsRowByRow(db, alive, dead, keep, now, id);
    SweptRowExact(id, db.nodes[id], id in alive, id in dead, keep, now);
  }

  /** The ids must be distinct: a repeated id that falls into two batches is counted twice. */
  lemma RepeatedIdIsCountedTwice(id: Id, row: Row)
    ensures InChunks(map[id := row], Everywhere, Refused, seq(CHUNK + 1, i => id))[id].livenessFailures
            == row.livenessFailures + 2
  {
    var ids := seq(CHUNK + 1, i => id);
    var nodes: Table := map[id := row];
    var next := UpdateIn(nodes, ids[..CHUNK], Everywhere, Refused);
    assert ids[..CHUNK][0] == id;
    assert ids[CHUNK..] == [id];
    assert [id][..1] == [id] && [id][1..] == [];
    assert InChunks(next, Everywhere, Refused, [id]) == UpdateIn(next, [id], Everywhere, Refused);
  }

  // ----- Runs -----------------------------------------------------------------------

  datatype Op =
    | Discover(found: Found)
    | TakeSnapshot(provider: string, identities: seq<string>)
    | ExpireCooldowns(now: Instant)
    | Cool(id: Id, expires: Instant)
    | Probe(id: Id, ok: bool, latency: int, at: Instant)
    | MarkProbing(id: Id)
    | MarkUnavailable(id: Id)
    | RecordLiveness(alive: seq<Id>, dead: seq<Id>, keep: Id, now: Instant)
    | DeleteDead(rule: DeadNodeRule)
    | PurgeStale(cutoff: Instant)
    | SetFavorites(favorites: set<Id>)
    | SetFixed(fixed: Option<Id>)

  ghost function Apply(db: Db, op: Op): Db {
    match op
    case Discover(found) => DiscoverOne(db, found).0
    case TakeSnapshot(provider, identities) => Snapshot(db, provider, identities)
    case ExpireCooldowns(now) => ClearExpired(db, Tstr(now))
    case Cool(id, expires) => Blacklisted(db, id, Tstr(expires))
    case Probe(id, ok, latency, at) =>
      db.(nodes := UpdateOne(db.nodes, Resolve(db, id), (row: Row) => Probed(row, ok, latency, Tstr(at))))
    case MarkProbing(id) =>
      db.(nodes := UpdateOne(db.nodes, Resolve(db, id), (row: Row) => row.(status := Probing)))
    case MarkUnavailable(id) => db.(nodes := UpdateOne(db.nodes, Resolve(db, id), Marked))
    case RecordLiveness(alive, dead, keep, now) => Swept(db, alive, dead, keep, Tstr(now))
    case DeleteDead(rule) => WithoutDead(db, rule)
    case PurgeStale(cutoff) => Purged(db, cutoff)
    case SetFavorites(favorites) => db.(favorites := favorites)
    case SetFixed(fixed) => db.(fixed := fixed)
  }

  /** A sweep records each node it dialled once. */
  predicate ValidOp(op: Op) {
    op.RecordLiveness? ==> NoRepeats(op.alive) && NoRepeats(op.dead)
  }

  datatype Verdict = Handshake(at: Instant, ok: bool) | MarkedDown

  /** What was observed of a node since it was inserted: when it was last listed, its probes, its dials. */
  datatype Log = Log(seen: Instant, verdicts: seq<Verdict>, dials: seq<bool>)

  datatype Traced = Traced(db: Db, logs: map<Id, Log>)

  ghost function FirstLog(op: Op): Log {
    Log(if op.Discover? then op.found.fetchedAt else Civil(1970, 1, 1, 0, 0, 0, 0), [], [])
  }

  ghost function LogAfter(db: Db, id: Id, log: Log, op: Op): Log {
    match op
    case Discover(found) => if Holder(db.nodes, found) == Some(id) then log.(seen := found.fetchedAt) else log
    case Probe(target, ok, _, at) =>
      if Resolve(db, target) == id then log.(verdicts := log.verdicts + [Handshake(at, ok)]) else log
    case MarkUnavailable(target) =>
      if Resolve(db, target) == id then log.(verdicts := log.verdicts + [MarkedDown]) else log
    case RecordLiveness(alive, dead, _, _) =>
      log.(dials := log.dials + (if id in alive then [true] else []) + (if id in dead then [false] else []))
    case _ => log
  }

  ghost function Step(t: Traced, op: Op): Traced {
    var next := Apply(t.db, op);
    Traced(next, map id | id in next.nodes ::
                   if id in t.db.nodes && id in t.logs then LogAfter(t.db, id, t.logs[id], op) else FirstLog(op))
  }

  ghost function Run(ops: seq<Op>): Traced {
    if ops == [] then Traced(EMPTY, map[]) else Step(Run(ops[..|ops| - 1]), ops[|ops| - 1])
  }

  // ----- The table tells the log's story ----------------------------------------------

  function TrailingRefusals(dials: seq<bool>): nat {
    if dials == [] || dials[|dials| - 1] then 0 else 1 + TrailingRefusals(dials[..|dials| - 1])
  }

  predicate Good(v: Verdict) { v.Handshake? && v.ok }

  function TrailingFailures(verdicts: seq<Verdict>): nat {
    if verdicts == [] || Good(verdicts[|verdicts| - 1]) then 0 else 1 + TrailingFailures(verdicts[..|verdicts| - 1])
  }

  /** The position of the latest handshake, or -1. */
  function LastHandshake(verdicts: seq<Verdict>): (i: int)
    ensures -1 <= i < |verdicts| && (i >= 0 ==> verdicts[i].Handshake?)
    ensures forall j | i < j < |verdicts| :: verdicts[j].MarkedDown?
  {
    if verdicts == [] then -1
    else if verdicts[|verdicts| - 1].Handshake? then |verdicts| - 1
    else LastHandshake(verdicts[..|verdicts| - 1])
  }

  /** The position of the latest successful handshake, or -1. */
  function LastGood(verdicts: seq<Verdict>): (i: int)
    ensures -1 <= i < |verdicts| && (i >= 0 ==> Good(verdicts[i]))
    ensures forall j | i < j < |verdicts| :: !Good(verdicts[j])
  {
    if verdicts == [] then -1
    else if Good(verdicts[|verdicts| - 1]) then |verdicts| - 1
    else LastGood(verdicts[..|verdicts| - 1])
  }

  function StampAt(verdicts: seq<Verdict>, i: int): Option<string>
    requires -1 <= i < |verdicts| && (i >= 0 ==> verdicts[i].Handshake?)
  {
    if i < 0 then None else Some(Tstr(verdicts[i].at))
  }

  ghost predicate Faithful(row: Row, log: Log) {
    && row.lastSeen == Some(Tstr(log.seen))
    && row.livenessFailures == TrailingRefusals(log.dials)
    && row.consecutiveFailures == TrailingFailures(log.verdicts)
    && row.lastProbed == StampAt(log.verdicts, LastHandshake(log.verdicts))
    && row.lastSuccess == StampAt(log.verdicts, LastGood(log.verdicts))
    && (row.status.Ready? ==> ProvedByProbe(row))
  }

  ghost predicate AllFaithful(t: Traced) {
    && t.logs.Keys == t.db.nodes.Keys
    && forall id | id in t.db.nodes :: Faithful(t.db.nodes[id], t.logs[id])
  }

  lemma VerdictAppended(verdicts: seq<Verdict>, v: Verdict)
    ensures var next := verdicts + [v];
            && TrailingFailures(next) == (if Good(v) then 0 else TrailingFailures(verdicts) + 1)
            && StampAt(next, LastHandshake(next)) == (if v.Handshake? then Some(Tstr(v.at)) else StampAt(verdicts, LastHandshake(verdicts)))
            && StampAt(next, LastGood(next)) == (if Good(v) then Some(Tstr(v.at)) else StampAt(verdicts, LastGood(verdicts)))
  {
    assert (verdicts + [v])[..|verdicts|] == verdicts;
  }

  lemma DialAppended(dials: seq<bool>, answered: bool)
    ensures TrailingRefusals(dials + [answered]) == if answered then 0 else TrailingRefusals(dials) + 1
  {
    assert (dials + [answered])[..|dials|] == dials;
  }

  lemma LessIsStrict(a: string)
    ensures AtMost(a, a)
  {
    LessIrreflexive(a);
  }

  lemma ProbeKeepsFaith(row: Row, log: Log, ok: bool, latency: int, at: Instant)
    requires Faithful(row, log)
    ensures Faithful(Probed(row, ok, latency, Tstr(at)), log.(verdicts := log.verdicts + [Handshake(at, ok)]))
  {
    VerdictAppended(log.verdicts, Handshake(at, ok));
    LessIsStrict(Tstr(at));
  }

  lemma MarkKeepsFaith(row: Row, log: Log)
    requires Faithful(row, log)
    ensures Faithful(Marked(row), log.(verdicts := log.verdicts + [MarkedDown]))
  {
    VerdictAppended(log.verdicts, MarkedDown);
  }

  /** A change of status alone keeps the row faithful, as long as ready is only claimed with proof. */
  lemma StatusKeepsFaith(row: Row, next: Row, log: Log)
    requires Faithful(row, log)
    requires next.(status := row.status, cooldownUntil := row.cooldownUntil, transport := row.transport,
                   sourcePresent := row.sourcePresent) == row
    requires next.status.Ready? ==> ProvedByProbe(row)
    ensures Faithful(next, log)
  {
  }

  lemma AnswerKeepsFaith(id: Id, row: Row, log: Log, now: string)
    requires Faithful(row, log)
    ensures var answered := Answered(row, now);
            Faithful(if Recovering(id, answered) then Promote(answered) else answered, log.(dials := log.dials + [true]))
  {
    DialAppended(log.dials, true);
  }

  lemma RefusalKeepsFaith(id: Id, row: Row, log: Log, keep: Id)
    requires Faithful(row, log)
    ensures var refused := Refused(row);
            Faithful(if refused.status.Ready? && id != keep then Demote(refused) else refused,
                     log.(dials := log.dials + [false]))
  {
    DialAppended(log.dials, false);
  }

  lemma SweepKeepsFaith(id: Id, row: Row, log: Log, alive: bool, dead: bool, keep: Id, now: string)
    requires Faithful(row, log)
    ensures Faithful(SweptRow(id, row, alive, dead, keep, now),
                     log.(dials := log.dials + (if alive then [true] else []) + (if dead then [false] else [])))
  {
    var answered := if alive then Answered(row, now) else row;
    var promoted := if alive && Recovering(id, answered) then Promote(answered) else answered;
    var first := log.(dials := log.dials + if alive then [true] else []);
    if alive {
      AnswerKeepsFaith(id, row, log, now);
    } else {
      assert first == log;
    }
    if dead {
      RefusalKeepsFaith(id, promoted, first, keep);
    } else {
      assert first.dials + [] == first.dials;
    }
  }

  lemma RediscoveryKeepsFaith(db: Db, id: Id, log: Log, found: Found)
    requires id in db.nodes && Faithful(db.nodes[id], log)
    ensures id in DiscoverOne(db, found).0.nodes
    ensures Faithful(DiscoverOne(db, found).0.nodes[id], LogAfter(db, id, log, Discover(found)))
  {
    var row, next := db.nodes[id], DiscoverOne(db, found).0.nodes[id];
    assert next == if Holder(db.nodes, found) == Some(id) then Rediscovered(row, found) else row;
  }

  lemma ExpiryKeepsFaith(db: Db, id: Id, log: Log, now: string)
    requires id in db.nodes && Faithful(db.nodes[id], log)
    ensures Faithful(ClearExpired(db, now).nodes[id], log)
  {
    var row, next := db.nodes[id], ClearExpired(db, now).nodes[id];
    assert next == row || next == Restored(row);
    StatusKeepsFaith(row, next, log);
  }

  lemma SnapshotKeepsFaith(db: Db, id: Id, log: Log, provider: string, identities: seq<string>)
    requires id in db.nodes && Faithful(db.nodes[id], log)
    ensures Faithful(Snapshot(db, provider, identities).nodes[id], log)
  {
    var row, next := db.nodes[id], Snapshot(db, provider, identities).nodes[id];
    assert next == row || next == row.(sourcePresent := false);
    StatusKeepsFaith(row, next, log);
  }

  lemma CoolingKeepsFaith(db: Db, id: Id, log: Log, target: Id, expires: string)
    requires id in db.nodes && Faithful(db.nodes[id], log)
    ensures id in Blacklisted(db, target, expires).nodes && Faithful(Blacklisted(db, target, expires).nodes[id], log)
  {
    var row, next := db.nodes[id], Blacklisted(db, target, expires).nodes[id];
    assert next == row || next == row.(status := Cooldown, cooldownUntil := Some(expires));
    StatusKeepsFaith(row, next, log);
  }

  lemma ProbingKeepsFaith(db: Db, id: Id, log: Log, target: Id)
    requires id in db.nodes && Faithful(db.nodes[id], log)
    ensures id in Apply(db, MarkProbing(target)).nodes && Faithful(Apply(db, MarkProbing(target)).nodes[id], log)
  {
    var row, next := db.nodes[id], Apply(db, MarkProbing(target)).nodes[id];
    assert next == row || next == row.(status := Probing);
    StatusKeepsFaith(row, next, log);
  }

  lemma CooldownsKeepFaith(db: Db, id: Id, log: Log, op: Op)
    requires id in db.nodes && Faithful(db.nodes[id], log)
    requires op.ExpireCooldowns? || op.Cool? || op.TakeSnapshot? || op.MarkProbing?
    ensures id in Apply(db, op).nodes && Faithful(Apply(db, op).nodes[id], log)
  {
    match op
    case ExpireCooldowns(now) => ExpiryKeepsFaith(db, id, log, Tstr(now));
    case TakeSnapshot(provider, identities) => SnapshotKeepsFaith(db, id, log, provider, identities);
    case Cool(target, expires) => CoolingKeepsFaith(db, id, log, target, Tstr(expires));
    case MarkProbing(target) => ProbingKeepsFaith(db, id, log, target);
  }

  lemma ProbedRowKeepsFaith(db: Db, id: Id, log: Log, op: Op)
    requires op.Probe? && id in db.nodes && Faithful(db.nodes[id], log)
    ensures id in Apply(db, op).nodes && Faithful(Apply(db, op).nodes[id], LogAfter(db, id, log, op))
  {
    ProbeKeepsFaith(db.nodes[id], log, op.ok, op.latency, op.at);
  }

  lemma MarkedRowKeepsFaith(db: Db, id: Id, log: Log, op: Op)
    requires op.MarkUnavailable? && id in db.nodes && Faithful(db.nodes[id], log)
    ensures id in Apply(db, op).nodes && Faithful(Apply(db, op).nodes[id], LogAfter(db, id, log, op))
  {
    MarkKeepsFaith(db.nodes[id], log);
  }

  lemma RecordedRow(db: Db, id: Id, log: Log, op: Op)
    requires op.RecordLiveness? && ValidOp(op) && id in db.nodes
    ensures id in Apply(db, op).nodes
    ensures Apply(db, op).nodes[id] == SweptRow(id, db.nodes[id], id in op.alive, id in op.dead, op.keep, Tstr(op.now))
    ensures LogAfter(db, id, log, op)
            == log.(dials := log.dials + (if id in op.alive then [true] else []) + (if id in op.dead then [false] else []))
  {
    SweepIsRowByRow(db, op.alive, op.dead, op.keep, Tstr(op.now), id);
  }

  lemma RecordKeepsFaith(db: Db, id: Id, log: Log, op: Op)
    requires op.RecordLiveness? && ValidOp(op) && id in db.nodes && Faithful(db.nodes[id], log)
    ensures id in Apply(db, op).nodes && Faithful(Apply(db, op).nodes[id], LogAfter(db, id, log, op))
  {
    RecordedRow(db, id, log, op);
    SweepKeepsFaith(id, db.nodes[id], log, id in op.alive, id in op.dead, op.keep, Tstr(op.now));
  }

  lemma DeletionsKeepFaith(db: Db, id: Id, log: Log, op: Op)
    requires op.DeleteDead? || op.PurgeStale? || op.SetFavorites? || op.SetFixed?
    requires id in db.nodes && id in Apply(db, op).nodes
    ensures Apply(db, op).nodes[id] == db.nodes[id] && LogAfter(db, id, log, op) == log
  {
  }

  lemma StepKeepsFaith(db: Db, id: Id, log: Log, op: Op)
    requires ValidOp(op) && id in db.nodes && Faithful(db.nodes[id], log)
    requires id in Apply(db, op).nodes
    ensures Faithful(Apply(db, op).nodes[id], LogAfter(db, id, log, op))
  {
    if op.Discover? {
      RediscoveryKeepsFaith(db, id, log, op.found);
    } else if op.Probe? {
      ProbedRowKeepsFaith(db, id, log, op);
    } else if op.MarkUnavailable? {
      MarkedRowKeepsFaith(db, id, log, op);
    } else if op.RecordLiveness? {
      RecordKeepsFaith(db, id, log, op);
    } else if op.DeleteDead? || op.PurgeStale? || op.SetFavorites? || op.SetFixed? {
      DeletionsKeepFaith(db, id, log, op);
    } else {
      CooldownsKeepFaith(db, id, log, op);
    }
  }

  /** Only a discovery adds a row, and a new row has nothing to its name. */
  lemma NewRowIsFaithful(db: Db, id: Id, op: Op)
    requires id !in db.nodes && id in Apply(db, op).nodes
    ensures Faithful(Apply(db, op).nodes[id], FirstLog(op))
  {
    assert op.Discover? && Apply(db, op).nodes[id] == Inserted(op.found);
  }

  lemma {:induction false} RunsKeepFaith(ops: seq<Op>)
    requires forall op | op in ops :: ValidOp(op)
    ensures AllFaithful(Run(ops))
  {
    if ops != [] {
      var before, op := ops[..|ops| - 1], ops[|ops| - 1];
      RunsKeepFaith(before);
      var t := Run(before);
      forall id | id in Apply(t.db, op).nodes
        ensures Faithful(Run(ops).db.nodes[id], Run(ops).logs[id])
      {
        if id in t.db.nodes {
          StepKeepsFaith(t.db, id, t.logs[id], op);
        } else {
          NewRowIsFaithful(t.db, id, op);
        }
      }
    }
  }

  /** In every reachable state a ready row has been probed, and succeeded no earlier than it was last probed. */
  lemma ReadyRestsOnAProbe(ops: seq<Op>, id: Id)
    requires forall op | op in ops :: ValidOp(op)
    requires id in Run(ops).db.nodes && Run(ops).db.nodes[id].status.Ready?
    ensures ProvedByProbe(Run(ops).db.nodes[id])
  {
    RunsKeepFaith(ops);
  }

  /** `n` is how many of the last elements, without a gap, lack the property. */
  ghost predicate TrailingWithout<T>(s: seq<T>, p: T -> bool, n: nat) {
    && n <= |s|
    && (forall i | |s| - n <= i < |s| :: !p(s[i]))
    && (n < |s| ==> p(s[|s| - n - 1]))
  }

  lemma {:induction false} TrailingRefusalsExact(dials: seq<bool>)
    ensures TrailingWithout(dials, answered => answered, TrailingRefusals(dials))
  {
    if dials != [] && !dials[|dials| - 1] {
      TrailingRefusalsExact(dials[..|dials| - 1]);
    }
  }

  lemma {:induction false} TrailingFailuresExact(verdicts: seq<Verdict>)
    ensures TrailingWithout(verdicts, (v: Verdict) => v.Handshake? && v.ok, TrailingFailures(verdicts))
  {
    if verdicts != [] && !Good(verdicts[|verdicts| - 1]) {
      TrailingFailuresExact(verdicts[..|verdicts| - 1]);
    }
  }

  /**
   The liveness counter is the number of refused dials since the last answer or the insertion, and the failure
   counter that of failed probes and marks since the last success.
   */
  lemma CounterCountsRefusals(ops: seq<Op>, id: Id)
    requires forall op | op in ops :: ValidOp(op)
    requires id in Run(ops).db.nodes
    ensures id in Run(ops).logs
    ensures TrailingWithout(Run(ops).logs[id].dials, answered => answered, Run(ops).db.nodes[id].livenessFailures)
    ensures TrailingWithout(Run(ops).logs[id].verdicts, (v: Verdict) => v.Handshake? && v.ok, Run(ops).db.nodes[id].consecutiveFailures)
  {
    RunsKeepFaith(ops);
    TrailingRefusalsExact(Run(ops).logs[id].dials);
    TrailingFailuresExact(Run(ops).logs[id].verdicts);
  }

  // ----- What a ready row says about its latest probe ---------------------------------

  ghost predicate InOrder(verdicts: seq<Verdict>) {
    forall i, j | 0 <= i < j < |verdicts| && verdicts[i].Handshake? && verdicts[j].Handshake? ::
      Before(verdicts[i].at, verdicts[j].at)
  }

  /** A success the texts place no earlier than a later failure: both in one second, the fraction a prefix. */
  predicate Outlives(success: Instant, failure: Instant) {
    SameSecond(success, failure) && Fraction(success.nano) <= Fraction(failure.nano)
  }

  /**
   For probes recorded in order, a row's stamps prove it ready exactly when its latest probe
   succeeded, or failed within the very second of its latest success on an inverted text.
   */
  lemma ProofExact(row: Row, log: Log)
    requires Faithful(row, log) && InOrder(log.verdicts)
    ensures var last, good := LastHandshake(log.verdicts), LastGood(log.verdicts);
            ProvedByProbe(row) <==>
              good >= 0 && (good == last || Outlives(log.verdicts[good].at, log.verdicts[last].at))
  {
    var last, good := LastHandshake(log.verdicts), LastGood(log.verdicts);
    if good >= 0 {
      var success, latest := log.verdicts[good].at, log.verdicts[last].at;
      if good == last {
        LessIsStrict(Tstr(success));
      } else {
        assert good < last;
        if SameSecond(success, latest) {
          OrderWithinSecond(success, latest);
        } else {
          OrderAcrossSeconds(success, latest);
        }
      }
    }
  }

  ghost predicate SecondsApart(verdicts: seq<Verdict>) {
    && InOrder(verdicts)
    && forall i, j | 0 <= i < j < |verdicts| && verdicts[i].Handshake? && verdicts[j].Handshake? ::
         !SameSecond(verdicts[i].at, verdicts[j].at)
  }

  lemma ProofIsLatestVerdict(row: Row, log: Log)
    requires Faithful(row, log) && SecondsApart(log.verdicts)
    ensures ProvedByProbe(row) <==>
              LastHandshake(log.verdicts) >= 0 && log.verdicts[LastHandshake(log.verdicts)].ok
  {
    ProofExact(row, log);
  }

  /** A ready node's latest recorded probe succeeded, if its probes are in order and never share a second. */
  lemma ReadyMeansLatestProbeSucceeded(ops: seq<Op>, id: Id)
    requires forall op | op in ops :: ValidOp(op)
    requires id in Run(ops).db.nodes && Run(ops).db.nodes[id].status.Ready?
    requires id in Run(ops).logs && SecondsApart(Run(ops).logs[id].verdicts)
    ensures var vs := Run(ops).logs[id].verdicts;
            LastHandshake(vs) >= 0 && vs[LastHandshake(vs)].ok
  {
    var t := Run(ops);
    RunsKeepFaith(ops);
    ProofIsLatestVerdict(t.db.nodes[id], t.logs[id]);
  }

  const DEMO := Found("n", "p", "i", "", Tcp, Civil(2024, 1, 1, 0, 0, 0, 0))
  const SUCCESS_AT: Instant := Civil(2024, 1, 1, 12, 0, 5, 0)
  const FAILURE_AT: Instant := Civil(2024, 1, 1, 12, 0, 5, 500000000)
  const LATER: Instant := Civil(2024, 1, 1, 13, 0, 0, 0)

  function DemoOps(): seq<Op> {
    [Discover(DEMO), Probe("n", true, 20, SUCCESS_AT), Probe("n", false, 0, FAILURE_AT), Cool("n", LATER), ExpireCooldowns(LATER)]
  }

  lemma RunExtends(ops: seq<Op>, op: Op)
    ensures Run(ops + [op]) == Step(Run(ops), op)
  {
    assert (ops + [op])[..|ops|] == ops;
  }

  lemma DemoDiscovered() returns (t: Traced)
    ensures t == Run([Discover(DEMO)])
    ensures t == Traced(EMPTY.(nodes := map["n" := Inserted(DEMO)]), map["n" := FirstLog(Discover(DEMO))])
  {
    RunExtends([], Discover(DEMO));
    t := Run([Discover(DEMO)]);
    assert [] + [Discover(DEMO)] == [Discover(DEMO)];
    assert Holder(map[], DEMO) == None;
    assert map[]["n" := Inserted(DEMO)] == map["n" := Inserted(DEMO)];
  }

  function DemoRow(): Row {
    Probed(Probed(Inserted(DEMO), true, 20, Tstr(SUCCESS_AT)), false, 0, Tstr(FAILURE_AT))
  }

  lemma DemoProbeStep(t: Traced, ok: bool, latency: int, at: Instant) returns (next: Traced)
    requires t.db.nodes.Keys == {"n"} && t.logs.Keys == {"n"} && t.db.aliases == map[]
    ensures next == Step(t, Probe("n", ok, latency, at))
    ensures next.db == t.db.(nodes := map["n" := Probed(t.db.nodes["n"], ok, latency, Tstr(at))])
    ensures next.logs.Keys == {"n"} && next.logs["n"].verdicts == t.logs["n"].verdicts + [Handshake(at, ok)]
  {
    next := Step(t, Probe("n", ok, latency, at));
    assert next.db.nodes == map["n" := Probed(t.db.nodes["n"], ok, latency, Tstr(at))];
  }

  lemma DemoProbed() returns (t: Traced)
    ensures t == Run(DemoOps()[..3])
    ensures t.db == EMPTY.(nodes := map["n" := DemoRow()])
    ensures t.logs.Keys == {"n"} && t.logs["n"].verdicts == [Handshake(SUCCESS_AT, true), Handshake(FAILURE_AT, false)]
  {
    var good, bad := Probe("n", true, 20, SUCCESS_AT), Probe("n", false, 0, FAILURE_AT);
    RunExtends([Discover(DEMO)], good);
    RunExtends([Discover(DEMO)] + [good], bad);
    assert DemoOps()[..3] == [Discover(DEMO)] + [good] + [bad];
    var t1 := DemoDiscovered();
    var t2 := DemoProbeStep(t1, true, 20, SUCCESS_AT);
    t := DemoProbeStep(t2, false, 0, FAILURE_AT);
  }

  lemma DemoRowIsProved()
    ensures ProvedByProbe(DemoRow())
  {
    ZeroFraction();
    OrderWithinSecond(SUCCESS_AT, FAILURE_AT);
  }

  lemma DemoCooled(t: Traced) returns (next: Traced)
    requires t.db.nodes.Keys == {"n"} && t.logs.Keys == {"n"}
    ensures next == Step(t, Cool("n", LATER))
    ensures next.db == Blacklisted(t.db, "n", Tstr(LATER)) && next.logs == t.logs
  {
    next := Step(t, Cool("n", LATER));
  }

  lemma DemoExpired(t: Traced) returns (next: Traced)
    requires t.db.nodes.Keys == {"n"} && t.logs.Keys == {"n"}
    ensures next == Step(t, ExpireCooldowns(LATER))
    ensures next.db == ClearExpired(t.db, Tstr(LATER)) && next.logs == t.logs
  {
    next := Step(t, ExpireCooldowns(LATER));
  }

  lemma DemoRestored(t: Traced) returns (next: Traced)
    requires t.db == EMPTY.(nodes := map["n" := DemoRow()]) && t.logs.Keys == {"n"}
    ensures next == Step(Step(t, Cool("n", LATER)), ExpireCooldowns(LATER))
    ensures "n" in next.db.nodes && next.db.nodes["n"].status.Ready?
    ensures "n" in next.logs && next.logs["n"] == t.logs["n"]
  {
    DemoRowIsProved();
    LessIsStrict(Tstr(LATER));
    CooldownRestoresVerdict(t.db, "n", LATER, LATER);
    var cooled := DemoCooled(t);
    next := DemoExpired(cooled);
  }

  /** Half a second is not enough: the failed probe's text sorts below the success, and the cooldown restores ready. */
  lemma FailureCanRestoreReady() returns (t: Traced)
    ensures t == Run(DemoOps())
    ensures "n" in t.db.nodes && t.db.nodes["n"].status.Ready?
    ensures "n" in t.logs && t.logs["n"].verdicts == [Handshake(SUCCESS_AT, true), Handshake(FAILURE_AT, false)]
  {
    var t3 := DemoProbed();
    t := DemoRestored(t3);
    DemoTail();
  }

  lemma DemoTail()
    ensures Run(DemoOps()) == Step(Step(Run(DemoOps()[..3]), Cool("n", LATER)), ExpireCooldowns(LATER))
  {
    var ops3 := DemoOps()[..3];
    RunExtends(ops3, Cool("n", LATER));
    RunExtends(ops3 + [Cool("n", LATER)], ExpireCooldowns(LATER));
    assert DemoOps() == ops3 + [Cool("n", LATER)] + [ExpireCooldowns(LATER)];
  }

  // ----- Cooldowns and sweeps as round trips --------------------------------------------

  /** The status a row's stamps call for when its cooldown is over. */
  ghost predicate StampsSay(row: Row, status: Status) {
    && (row.lastProbed == None ==> status == Discovered)
    && (row.lastProbed.Some? ==> status == Ready || status == Unavailable)
    && (row.lastProbed.Some? ==>
          (status == Ready <==> row.lastSuccess.Some? && !Less(row.lastSuccess.value, row.lastProbed.value)))
  }

  /** Expiry takes away the cooldowns that are over and gives their nodes the status their stamps call for. */
  lemma ExpiryExact(db: Db, now: string)
    ensures var next := ClearExpired(db, now);
            && next == db.(nodes := next.nodes, blacklist := next.blacklist) && next.nodes.Keys == db.nodes.Keys
            && (forall id :: id in next.blacklist <==> id in db.blacklist && Less(now, db.blacklist[id]))
            && (forall id | id in next.blacklist :: next.blacklist[id] == db.blacklist[id])
            && (forall id | id in db.nodes && (id in db.blacklist ==> Less(now, db.blacklist[id])) :: next.nodes[id] == db.nodes[id])
            && (forall id | id in db.nodes && id in db.blacklist && !Less(now, db.blacklist[id]) ::
                  && next.nodes[id] == db.nodes[id].(status := next.nodes[id].status, cooldownUntil := None)
                  && StampsSay(db.nodes[id], next.nodes[id].status))
  {
    var expired, next := Expired(db, now), ClearExpired(db, now);
    forall id | id in db.nodes && id in db.blacklist && !Less(now, db.blacklist[id])
      ensures next.nodes[id] == Restored(db.nodes[id])
    {
      assert id in expired;
    }
  }

  /** A cooldown is a timeout: once it expires the node has the verdict its last probe left, whatever it was before. */
  lemma CooldownRestoresVerdict(db: Db, id: Id, expires: Instant, now: Instant)
    requires Resolve(db, id) in db.nodes && AtMost(Tstr(expires), Tstr(now))
    ensures var target := Resolve(db, id);
            var after := ClearExpired(Blacklisted(db, id, Tstr(expires)), Tstr(now));
            && target in after.nodes && target !in after.blacklist
            && after.nodes[target] == db.nodes[target].(status := after.nodes[target].status, cooldownUntil := None)
            && StampsSay(db.nodes[target], after.nodes[target].status)
  {
    ExpiryExact(Blacklisted(db, id, Tstr(expires)), Tstr(now));
  }

  lemma NoHandshakeNoStamp(verdicts: seq<Verdict>)
    ensures LastHandshake(verdicts) < 0 <==> forall v | v in verdicts :: !v.Handshake?
  {
    if LastHandshake(verdicts) >= 0 {
      assert verdicts[LastHandshake(verdicts)] in verdicts;
    }
  }

  /**
   In every run a cooldown that is over leaves the node discovered exactly when no handshake with it has been
   recorded; ready exactly when its latest success is its latest handshake or, for handshakes recorded in
   order, shares that one's second on an inverted text; and unavailable otherwise. Nothing else about it changes.
   */
  lemma ExpiryFollowsTheLog(ops: seq<Op>, now: Instant, id: Id) returns (t: Traced, after: Traced)
    requires forall op | op in ops :: ValidOp(op)
    requires id in Run(ops).db.nodes && id in Run(ops).db.blacklist && !Less(Tstr(now), Run(ops).db.blacklist[id])
    ensures t == Run(ops) && after == Run(ops + [ExpireCooldowns(now)])
    ensures id in t.db.nodes && id in t.logs && id in after.db.nodes && id in after.logs && after.logs[id] == t.logs[id]
    ensures id !in after.db.blacklist
    ensures after.db.nodes[id] == t.db.nodes[id].(status := after.db.nodes[id].status, cooldownUntil := None)
    ensures var (vs, status) := (t.logs[id].verdicts, after.db.nodes[id].status);
            var (last, good) := (LastHandshake(vs), LastGood(vs));
            && good <= last
            && (status == Discovered <==> forall v | v in vs :: !v.Handshake?)
            && (status == Ready <==> good >= 0 && !Less(Tstr(vs[good].at), Tstr(vs[last].at)))
            && (InOrder(vs) ==> (status == Ready <==> good >= 0 && (good == last || Outlives(vs[good].at, vs[last].at))))
            && (status == Discovered || status == Ready || status == Unavailable)
  {
    t := RowIsFaithful(ops, id);
    after := Run(ops + [ExpireCooldowns(now)]);
    RunExtends(ops, ExpireCooldowns(now));
    ExpiryExact(t.db, Tstr(now));
    StampsSayTheLog(t.db.nodes[id], t.logs[id], after.db.nodes[id].status);
  }

  lemma StampsSayTheLog(row: Row, log: Log, status: Status)
    requires Faithful(row, log) && StampsSay(row, status)
    ensures var vs := log.verdicts;
            var (last, good) := (LastHandshake(vs), LastGood(vs));
            && good <= last
            && (status == Discovered <==> forall v | v in vs :: !v.Handshake?)
            && (status == Ready <==> good >= 0 && !Less(Tstr(vs[good].at), Tstr(vs[last].at)))
            && (InOrder(vs) ==> (status == Ready <==> good >= 0 && (good == last || Outlives(vs[good].at, vs[last].at))))
            && (status == Discovered || status == Ready || status == Unavailable)
  {
    NoHandshakeNoStamp(log.verdicts);
    LastGoodIsProbe(log.verdicts);
    if InOrder(log.verdicts) {
      ProofExact(row, log);
    }
  }

  lemma LastGoodIsProbe(verdicts: seq<Verdict>)
    ensures LastGood(verdicts) <= LastHandshake(verdicts)
  {
  }

  /** While a cooldown lasts, expiry leaves the node alone. */
  lemma CooldownHolds(db: Db, id: Id, expires: Instant, now: Instant)
    requires Resolve(db, id) in db.nodes && Before(now, expires) && !SameSecond(now, expires)
    ensures var target := Resolve(db, id);
            var after := ClearExpired(Blacklisted(db, id, Tstr(expires)), Tstr(now));
            && target in after.nodes && target in after.blacklist
            && after.nodes[target].status.Cooldown?
  {
    OrderAcrossSeconds(now, expires);
  }

  lemma SweptBack(id: Id, row: Row, keep: Id, first: string, second: string)
    requires id != keep
    ensures var demoted := SweptRow(id, row, false, true, keep, first);
            var back := SweptRow(id, demoted, true, false, keep, second);
            && (row.status.Ready? ==> demoted.status.Unavailable?)
            && demoted.livenessFailures == row.livenessFailures + 1 && back.livenessFailures == 0
            && (row.status.Ready? && ProvedByProbe(row) ==> back.status.Ready?)
            && (row.status.Unavailable? && !ProvedByProbe(row) ==> back.status.Unavailable?)
            && (!row.status.Ready? && !row.status.Unavailable? ==> back.status == row.status)
  {
  }

  /** A sweep undoes its own demotion when the host answers again, and only that: a probe's rejection stands. */
  lemma SweepUndoesItsDemotion(db: Db, id: Id, keep: Id, first: string, second: string)
    requires id in db.nodes && id != keep
    ensures var once := Swept(db, [], [id], keep, first);
            var back := Swept(once, [id], [], keep, second);
            && once.nodes[id] == SweptRow(id, db.nodes[id], false, true, keep, first)
            && back.nodes[id] == SweptRow(id, once.nodes[id], true, false, keep, second)
            && back.nodes[id].livenessFailures == 0
            && (db.nodes[id].status.Ready? && ProvedByProbe(db.nodes[id]) ==> back.nodes[id].status.Ready?)
            && (db.nodes[id].status.Unavailable? && !ProvedByProbe(db.nodes[id]) ==> back.nodes[id].status.Unavailable?)
  {
    SweepIsRowByRow(db, [], [id], keep, first, id);
    SweepIsRowByRow(Swept(db, [], [id], keep, first), [id], [], keep, second, id);
    SweptBack(id, db.nodes[id], keep, first, second);
  }

  // ----- Deletion ---------------------------------------------------------------------

  /** The last `n` elements, if there are as many, all lack the property. */
  ghost predicate LastLack<T>(s: seq<T>, p: T -> bool, n: nat) {
    n <= |s| && forall i | |s| - n <= i < |s| :: !p(s[i])
  }

  lemma LastLackExact<T>(s: seq<T>, p: T -> bool, trailing: nat, n: nat)
    requires TrailingWithout(s, p, trailing)
    ensures LastLack(s, p, n) <==> n <= trailing
  {
    if LastLack(s, p, n) && trailing < |s| {
      assert p(s[|s| - trailing - 1]);
    }
  }

  /** Neither a favourite, nor cooling down, nor the node the user fixed. */
  ghost predicate Unprotected(db: Db, id: Id) {
    id !in db.favorites && id !in db.blacklist && db.fixed != Some(id)
  }

  /** Gone by what was observed: as many failures in a row as the rule asks, and last listed before the cutoff. */
  ghost predicate GoneByLog(transport: Transport, log: Log, rule: DeadNodeRule) {
    && (transport == Tcp ==>
          LastLack(log.dials, answered => answered, rule.tcpFailures) && Less(Tstr(log.seen), Tstr(rule.tcpUnseen)))
    && (transport != Tcp ==>
          && LastLack(log.verdicts, (v: Verdict) => v.Handshake? && v.ok, rule.udpFailures)
          && Less(Tstr(log.seen), Tstr(rule.udpUnseen)))
  }

  lemma DeletionFollowsTheLog(db: Db, id: Id, log: Log, rule: DeadNodeRule)
    requires id in db.nodes && Faithful(db.nodes[id], log)
    ensures id !in WithoutDead(db, rule).nodes <==>
              && GoneByLog(db.nodes[id].transport, log, rule)
              && Unprotected(db, id) && id != rule.keep
  {
    TrailingRefusalsExact(log.dials);
    TrailingFailuresExact(log.verdicts);
    LastLackExact(log.dials, answered => answered, TrailingRefusals(log.dials), rule.tcpFailures);
    LastLackExact(log.verdicts, (v: Verdict) => v.Handshake? && v.ok, TrailingFailures(log.verdicts), rule.udpFailures);
  }

  lemma RowIsFaithful(ops: seq<Op>, id: Id) returns (t: Traced)
    requires forall op | op in ops :: ValidOp(op)
    requires id in Run(ops).db.nodes
    ensures t == Run(ops) && id in t.db.nodes && id in t.logs && Faithful(t.db.nodes[id], t.logs[id])
  {
    RunsKeepFaith(ops);
    t := Run(ops);
  }

  /**
   In every run a node is deleted exactly when its last dials (for a TCP node) or verdicts, as
   many as the rule asks, all failed, it was last listed before the cutoff, and nothing protects it.
   */
  lemma DeletionExact(ops: seq<Op>, rule: DeadNodeRule, id: Id) returns (t: Traced)
    requires forall op | op in ops :: ValidOp(op)
    requires id in Run(ops).db.nodes
    ensures t == Run(ops) && id in t.db.nodes && id in t.logs
    ensures id !in WithoutDead(t.db, rule).nodes <==>
              && GoneByLog(t.db.nodes[id].transport, t.logs[id], rule)
              && Unprotected(t.db, id) && id != rule.keep
  {
    t := RowIsFaithful(ops, id);
    DeletionFollowsTheLog(t.db, id, t.logs[id], rule);
  }

  // ----- The repository ---------------------------------------------------------------

  /** The schema's UNIQUE (provider, provider_identity). */
  predicate OneRowPerIdentity(nodes: Table) {
    forall x, y | x in nodes && y in nodes && nodes[x].provider == nodes[y].provider && nodes[x].identity == nodes[y].identity ::
      x == y
  }

  ghost predicate IdentitiesKept(nodes: Table, next: Table) {
    forall id | id in next ::
      id in nodes && next[id].provider == nodes[id].provider && next[id].identity == nodes[id].identity
  }

  lemma DiscoveryKeepsIdentities(db: Db, found: Found)
    requires OneRowPerIdentity(db.nodes)
    ensures OneRowPerIdentity(DiscoverOne(db, found).0.nodes)
  {
    var h := Holder(db.nodes, found);
    var next := DiscoverOne(db, found).0.nodes;
    if h == None {
      assert forall id | id in db.nodes :: !Holds(db.nodes[id], found);
    } else {
      assert IdentitiesKept(db.nodes, next);
    }
  }

  /** The identity a listing claims: its own, or else its provider's name and its address. */
  ghost predicate Claims(f: Found, provider: string, identity: string) {
    provider == f.provider && identity == if f.identity != "" then f.identity else f.provider + ":" + f.ip
  }

  /**
   A listing of an identity some row holds refreshes that row, whatever id the listing came with: where and when
   it was listed, and nothing of what probes and sweeps left. The listing's own id becomes an alias unless it is one.
   */
  lemma RediscoveryExact(db: Db, f: Found, holder: Id)
    requires OneRowPerIdentity(db.nodes)
    requires holder in db.nodes && Claims(f, db.nodes[holder].provider, db.nodes[holder].identity)
    ensures var (next, ok) := DiscoverOne(db, f);
            && ok && next == db.(nodes := next.nodes, aliases := next.aliases)
            && next.nodes == db.nodes[holder := db.nodes[holder].(transport := f.transport, sourcePresent := true, lastSeen := Some(Tstr(f.fetchedAt)))]
            && next.aliases == if f.id == holder || f.id in db.aliases then db.aliases else db.aliases[f.id := holder]
  {
    assert Holds(db.nodes[holder], f);
    assert Holder(db.nodes, f) == Some(holder);
  }

  /** A listing of a new identity is a new row, unless its id is taken: that insert fails and nothing changes. */
  lemma NewDiscoveryExact(db: Db, f: Found)
    requires forall id | id in db.nodes :: !Claims(f, db.nodes[id].provider, db.nodes[id].identity)
    ensures var (next, ok) := DiscoverOne(db, f);
            && (ok <==> f.id !in db.nodes)
            && (!ok ==> next == db)
            && (ok ==> next.nodes.Keys == db.nodes.Keys + {f.id} && next == db.(nodes := db.nodes[f.id := next.nodes[f.id]]))
            && (ok ==>
                  var row := next.nodes[f.id];
                  && Claims(f, row.provider, row.identity) && row.transport == f.transport
                  && row.sourcePresent && row.lastSeen == Some(Tstr(f.fetchedAt)) && row.status == Discovered
                  && row.lastProbed == row.lastSuccess == row.lastAlive == row.cooldownUntil == None && row.latency == 0
                  && row.consecutiveFailures == row.livenessFailures == row.successCount == row.failureCount == 0)
  {
    forall id | id in db.nodes
      ensures !Holds(db.nodes[id], f)
    {
      assert !Claims(f, db.nodes[id].provider, db.nodes[id].identity);
    }
    assert Holder(db.nodes, f) == None;
  }

  lemma KeptIdentitiesStayUnique(nodes: Table, next: Table)
    requires OneRowPerIdentity(nodes) && IdentitiesKept(nodes, next)
    ensures OneRowPerIdentity(next)
  {
  }

  lemma VerdictsKeepIdentities(db: Db, op: Op)
    requires op.Probe? || op.MarkProbing? || op.MarkUnavailable?
    ensures IdentitiesKept(db.nodes, Apply(db, op).nodes)
  {
  }

  lemma CooldownsKeepIdentities(db: Db, op: Op)
    requires op.TakeSnapshot? || op.ExpireCooldowns? || op.Cool?
    ensures IdentitiesKept(db.nodes, Apply(db, op).nodes)
  {
  }

  lemma DeletionsKeepIdentities(db: Db, op: Op)
    requires op.DeleteDead? || op.PurgeStale? || op.SetFavorites? || op.SetFixed?
    ensures IdentitiesKept(db.nodes, Apply(db, op).nodes)
  {
  }

  /** Every transition keeps it; discovery does because it looks the identity up first. */
  lemma StepKeepsIdentities(db: Db, op: Op)
    requires OneRowPerIdentity(db.nodes)
    ensures OneRowPerIdentity(Apply(db, op).nodes)
  {
    if op.Discover? {
      DiscoveryKeepsIdentities(db, op.found);
    } else if op.RecordLiveness? {
      SweepKeepsIdentities(db, op.alive, op.dead, op.keep, Tstr(op.now));
    } else {
      if op.TakeSnapshot? || op.ExpireCooldowns? || op.Cool? {
        CooldownsKeepIdentities(db, op);
      } else if op.Probe? || op.MarkProbing? || op.MarkUnavailable? {
        VerdictsKeepIdentities(db, op);
      } else {
        DeletionsKeepIdentities(db, op);
      }
      KeptIdentitiesStayUnique(db.nodes, Apply(db, op).nodes);
    }
  }

  lemma {:induction false} ChunksKeepIdentities(nodes: Table, where: (Id, Row) -> bool, change: Row -> Row, ids: seq<Id>, id: Id)
    requires id in nodes && forall row :: change(row).provider == row.provider && change(row).identity == row.identity
    ensures InChunks(nodes, where, change, ids)[id].provider == nodes[id].provider
    ensures InChunks(nodes, where, change, ids)[id].identity == nodes[id].identity
    decreases |ids|
  {
    if ids != [] {
      var n := Min(CHUNK, |ids|);
      ChunksKeepIdentities(UpdateIn(nodes, ids[..n], where, change), where, change, ids[n..], id);
    }
  }

  lemma SweepKeepsIdentities(db: Db, alive: seq<Id>, dead: seq<Id>, keep: Id, now: string)
    requires OneRowPerIdentity(db.nodes)
    ensures OneRowPerIdentity(Swept(db, alive, dead, keep, now).nodes)
  {
    var t: seq<Table> := SweepTables(db.nodes, alive, dead, keep, now);
    forall id: Id | id in db.nodes
      ensures t[3][id].provider == db.nodes[id].provider && t[3][id].identity == db.nodes[id].identity
    {
      ChunksKeepIdentities(db.nodes, Everywhere, (row: Row) => Answered(row, now), alive, id);
      ChunksKeepIdentities(t[0], Recovering, Promote, alive, id);
      ChunksKeepIdentities(t[1], Everywhere, Refused, dead, id);
      ChunksKeepIdentities(t[2], (x: Id, row: Row) => row.status.Ready? && x != keep, Demote, dead, id);
    }
  }

  /** Every row but one is as it was, and so is every table that no statement on nodes touches. */
  ghost predicate OnlyChanges(was: Db, db: Db, target: Id) {
    && db.nodes.Keys == was.nodes.Keys && db == was.(nodes := db.nodes, blacklist := db.blacklist)
    && forall id | id in was.nodes && id != target :: db.nodes[id] == was.nodes[id]
  }

  /** Rows are deleted, as many as are counted, and nothing else changes. */
  ghost predicate Removes(was: Db, db: Db, removed: nat) {
    && db.nodes.Keys <= was.nodes.Keys && removed == |was.nodes.Keys - db.nodes.Keys|
    && db == was.(nodes := db.nodes)
    && forall id | id in db.nodes :: db.nodes[id] == was.nodes[id]
  }

  lemma NothingSwept(db: Db, keep: Id, now: string)
    ensures Swept(db, [], [], keep, now) == db
  {
  }

  lemma RowsRemoved(nodes: Table, gone: set<Id>)
    requires gone <= nodes.Keys
    ensures nodes.Keys - (nodes - gone).Keys == gone
  {
  }

  lemma PurgedExactly(db: Db, cutoff: Instant)
    ensures Removes(db, Purged(db, cutoff), |StaleIds(db, cutoff)|)
    ensures forall id, row | id in db.nodes && row == db.nodes[id] ::
              id !in Purged(db, cutoff).nodes <==>
                && !row.sourcePresent && row.lastSeen.Some? && Less(row.lastSeen.value, Tstr(cutoff))
                && Unprotected(db, id)
  {
    RowsRemoved(db.nodes, StaleIds(db, cutoff));
  }

  /** What the store knows of a node says it is gone: failures in a row and a last listing before the cutoff. */
  ghost predicate GoneByRow(row: Row, rule: DeadNodeRule) {
    && row.lastSeen.Some?
    && (row.transport == Tcp ==>
          rule.tcpFailures <= row.livenessFailures && Less(row.lastSeen.value, Tstr(rule.tcpUnseen)))
    && (row.transport != Tcp ==>
          rule.udpFailures <= row.consecutiveFailures && Less(row.lastSeen.value, Tstr(rule.udpUnseen)))
  }

  lemma DeadExactly(db: Db, id: Id, row: Row, rule: DeadNodeRule)
    ensures Dead(db, id, row, rule) <==> GoneByRow(row, rule) && Unprotected(db, id) && id != rule.keep
  {
  }

  /** The rows removed are those that are gone and that nothing protects. */
  ghost predicate RemovesGone(was: Db, db: Db, rule: DeadNodeRule) {
    forall id | id in was.nodes :: id !in db.nodes <==> GoneByRow(was.nodes[id], rule) && Unprotected(was, id) && id != rule.keep
  }

  lemma WithoutDeadExactly(db: Db, rule: DeadNodeRule)
    ensures Removes(db, WithoutDead(db, rule), |DeadIds(db, rule)|)
    ensures RemovesGone(db, WithoutDead(db, rule), rule)
  {
    RowsRemoved(db.nodes, DeadIds(db, rule));
    forall id | id in db.nodes
      ensures id !in WithoutDead(db, rule).nodes <==> GoneByRow(db.nodes[id], rule) && Unprotected(db, id) && id != rule.keep
    {
      DeadExactly(db, id, db.nodes[id], rule);
    }
  }

  class NodeRepository {
    var db: Db

    ghost predicate Valid()
      reads this
    {
      OneRowPerIdentity(db.nodes)
    }

    constructor ()
      ensures Valid() && db == EMPTY
    {
      db := EMPTY;
    }

    /** Stops at the first failing insert, keeping what came before it. */
    method UpsertDiscovered(batch: seq<Found>) returns (ok: bool)
      requires Valid()
      modifies this
      ensures Valid() && (db, ok) == DiscoverAll(old(db), batch)
    {
      for i := 0 to |batch|
        invariant Valid() && DiscoverAll(old(db), batch) == DiscoverAll(db, batch[i..])
      {
        var found := batch[i];
        assert batch[i..][0] == found && batch[i..][1..] == batch[i + 1..];
        StepKeepsIdentities(db, Discover(found));
        if id: Id :| id in db.nodes && Holds(db.nodes[id], found) {
          assert Holder(db.nodes, found) == Some(id);
          var aliases := db.aliases;
          if id != found.id && found.id !in aliases {
            aliases := aliases[found.id := id];
          }
          db := db.(nodes := db.nodes[id := Rediscovered(db.nodes[id], found)], aliases := aliases);
        } else {
          assert Holder(db.nodes, found) == None;
          if found.id in db.nodes {
            return false;
          }
          db := db.(nodes := db.nodes[found.id := Inserted(found)]);
        }
      }
      assert batch[|batch|..] == [];
      ok := true;
    }

    method MarkProviderSnapshot(provider: string, identities: seq<string>)
      requires Valid()
      modifies this
      ensures Valid() && db == Apply(old(db), TakeSnapshot(provider, identities))
      ensures db.nodes.Keys == old(db).nodes.Keys && db == old(db).(nodes := db.nodes)
      ensures forall id, row | id in db.nodes && row == old(db).nodes[id] ::
                db.nodes[id] == row.(sourcePresent := row.sourcePresent && (row.provider == provider ==> row.identity in identities))
    {
      StepKeepsIdentities(db, TakeSnapshot(provider, identities));
      db := Snapshot(db, provider, identities);
    }

    method ClearExpiredBlacklist(now: Instant)
      requires Valid()
      modifies this
      ensures Valid() && db == Apply(old(db), ExpireCooldowns(now))
      ensures db == old(db).(nodes := db.nodes, blacklist := db.blacklist) && db.nodes.Keys == old(db).nodes.Keys
      ensures forall id :: id in db.blacklist <==> id in old(db).blacklist && Less(Tstr(now), old(db).blacklist[id])
      ensures forall id | id in db.blacklist :: db.blacklist[id] == old(db).blacklist[id]
      ensures forall id | id in db.nodes && (id in old(db).blacklist ==> id in db.blacklist) :: db.nodes[id] == old(db).nodes[id]
      ensures forall id | id in db.nodes && id in old(db).blacklist && id !in db.blacklist ::
                && db.nodes[id] == old(db).nodes[id].(status := db.nodes[id].status, cooldownUntil := None)
                && StampsSay(old(db).nodes[id], db.nodes[id].status)
    {
      StepKeepsIdentities(db, ExpireCooldowns(now));
      ExpiryExact(db, Tstr(now));
      var expired := Expired(db, Tstr(now));
      if expired != {} {
        db := db.(nodes := UpdateWhere(db.nodes, (id, row) => id in expired, Restored));
        db := db.(blacklist := db.blacklist - expired);
      } else {
        assert db.nodes == UpdateWhere(db.nodes, (id, row) => id in expired, Restored);
        assert db.blacklist == db.blacklist - {};
      }
    }

    /** Also clears what has expired; what is left is exactly what is active. */
    method ActiveBlacklistIDs(now: Instant) returns (active: set<Id>)
      requires Valid()
      modifies this
      ensures Valid() && db == Apply(old(db), ExpireCooldowns(now))
      ensures active == db.blacklist.Keys
      ensures forall id :: id in active <==> id in old(db).blacklist && Less(Tstr(now), old(db).blacklist[id])
    {
      ClearExpiredBlacklist(now);
      active := set id | id in db.blacklist && Less(Tstr(now), db.blacklist[id]);
    }

    method PurgeStaleNodes(cutoff: Instant) returns (removed: nat)
      requires Valid()
      modifies this
      ensures Valid() && db == Apply(old(db), PurgeStale(cutoff))
      ensures Removes(old(db), db, removed)
      ensures forall id, row | id in old(db).nodes && row == old(db).nodes[id] ::
                id !in db.nodes <==>
                  && !row.sourcePresent && row.lastSeen.Some? && Less(row.lastSeen.value, Tstr(cutoff))
                  && Unprotected(old(db), id)
    {
      StepKeepsIdentities(db, PurgeStale(cutoff));
      PurgedExactly(db, cutoff);
      var stale := StaleIds(db, cutoff);
      removed := |stale|;
      db := db.(nodes := db.nodes - stale);
    }

    /**
     Runs one statement per batch on the transaction's tables. `fails(n)` says whether the transaction's
     n-th call does: the call stops at the first that fails, and only there.
     */
    method ExecInChunks(tx: Table, where: (Id, Row) -> bool, change: Row -> Row, ids: seq<Id>, fails: nat -> bool, ran: nat)
      returns (next: Table, ok: bool, count: nat)
      ensures ok ==> next == InChunks(tx, where, change, ids) && count == ran + Batches(|ids|)
      ensures ran <= count <= ran + Batches(|ids|) && forall n | ran <= n < count :: !fails(n)
      ensures !ok ==> count < ran + Batches(|ids|) && fails(count)
    {
      next, count := tx, ran;
      var start := 0;
      while start < |ids|
        invariant 0 <= start <= |ids|
        invariant InChunks(tx, where, change, ids) == InChunks(next, where, change, ids[start..])
        invariant ran <= count && count + Batches(|ids| - start) == ran + Batches(|ids|)
        invariant forall n | ran <= n < count :: !fails(n)
      {
        var end := start + CHUNK;
        if end > |ids| {
          end := |ids|;
        }
        if fails(count) {
          return next, false, count;
        }
        assert ids[start..][..end - start] == ids[start..end] && ids[start..][end - start..] == ids[end..];
        next := UpdateIn(next, ids[start..end], where, change);
        count := count + 1;
        start := end;
      }
      assert ids[|ids|..] == [];
      ok := true;
    }

    /** The transaction's four updates, after the call that begins it. */
    method SweepStatements(nodes: Table, alive: seq<Id>, dead: seq<Id>, keep: Id, stamp: string, fails: nat -> bool)
      returns (tx: Table, ok: bool, n: nat)
      requires !fails(0)
      ensures ok ==> tx == SweepTables(nodes, alive, dead, keep, stamp)[3] && n == 1 + Statements(alive, dead)
      ensures ok <==> forall k | 0 <= k <= Statements(alive, dead) :: !fails(k)
    {
      tx, n := nodes, 1;
      tx, ok, n := ExecInChunks(tx, Everywhere, (row: Row) => Answered(row, stamp), alive, fails, n);
      if !ok {
        return;
      }
      tx, ok, n := ExecInChunks(tx, Recovering, Promote, alive, fails, n);
      if !ok {
        return;
      }
      tx, ok, n := ExecInChunks(tx, Everywhere, Refused, dead, fails, n);
      if !ok {
        return;
      }
      tx, ok, n := ExecInChunks(tx, (id: Id, row: Row) => row.status.Ready? && id != keep, Demote, dead, fails, n);
    }

    /**
     All four updates are committed, or none is. Call 0 begins the transaction and the last commits it:
     the sweep is recorded exactly when there is nothing to record or none of the calls fails.
     */
    method RecordLiveness(alive: seq<Id>, dead: seq<Id>, keep: Id, now: Instant, fails: nat -> bool) returns (ok: bool)
      requires Valid()
      modifies this
      ensures Valid()
      ensures ok <==> (alive == [] && dead == []) || forall n | 0 <= n <= 1 + Statements(alive, dead) :: !fails(n)
      ensures ok ==> db == Swept(old(db), alive, dead, keep, Tstr(now))
      ensures !ok ==> db == old(db)
    {
      if alive == [] && dead == [] {
        NothingSwept(db, keep, Tstr(now));
        return true;
      }
      if fails(0) {
        return false;
      }
      var tx, n;
      tx, ok, n := SweepStatements(db.nodes, alive, dead, keep, Tstr(now), fails);
      if !ok || fails(n) {
        return false;
      }
      SweepKeepsIdentities(db, alive, dead, keep, Tstr(now));
      db := db.(nodes := tx);
    }

    method DeleteDeadNodes(rule: DeadNodeRule) returns (removed: nat)
      requires Valid()
      modifies this
      ensures Valid() && db == WithoutDead(old(db), rule)
      ensures Removes(old(db), db, removed)
      ensures RemovesGone(old(db), db, rule)
    {
      StepKeepsIdentities(db, DeleteDead(rule));
      WithoutDeadExactly(db, rule);
      var dead := DeadIds(db, rule);
      removed := |dead|;
      db := db.(nodes := db.nodes - dead);
    }

    method Blacklist(id: Id, expires: Instant)
      requires Valid()
      modifies this
      ensures Valid() && db == Apply(old(db), Cool(id, expires))
      ensures OnlyChanges(old(db), db, if id in old(db).aliases then old(db).aliases[id] else id)
      ensures var target := if id in old(db).aliases then old(db).aliases[id] else id;
              db.blacklist == old(db).blacklist[target := Tstr(expires)]
      ensures var target := if id in old(db).aliases then old(db).aliases[id] else id;
              forall row | target in old(db).nodes && row == old(db).nodes[target] ::
                db.nodes[target] == row.(status := Cooldown, cooldownUntil := Some(Tstr(expires)))
    {
      StepKeepsIdentities(db, Cool(id, expires));
      db := Blacklisted(db, id, Tstr(expires));
    }

    method SetProbing(id: Id)
      requires Valid()
      modifies this
      ensures Valid() && db == Apply(old(db), MarkProbing(id))
      ensures OnlyChanges(old(db), db, if id in old(db).aliases then old(db).aliases[id] else id) && db.blacklist == old(db).blacklist
      ensures var target := if id in old(db).aliases then old(db).aliases[id] else id;
              forall row | target in old(db).nodes && row == old(db).nodes[target] ::
                db.nodes[target] == row.(status := Probing)
    {
      StepKeepsIdentities(db, MarkProbing(id));
      db := db.(nodes := UpdateOne(db.nodes, Resolve(db, id), (row: Row) => row.(status := Probing)));
    }

    method SetUnavailable(id: Id)
      requires Valid()
      modifies this
      ensures Valid() && db == Apply(old(db), MarkUnavailable(id))
      ensures OnlyChanges(old(db), db, if id in old(db).aliases then old(db).aliases[id] else id) && db.blacklist == old(db).blacklist
      ensures var target := if id in old(db).aliases then old(db).aliases[id] else id;
              forall row | target in old(db).nodes && row == old(db).nodes[target] ::
                var next := db.nodes[target];
                && next.status.Unavailable? && next.consecutiveFailures == row.consecutiveFailures + 1
                && next == row.(status := next.status, consecutiveFailures := next.consecutiveFailures, failureCount := row.failureCount + 1)
    {
      StepKeepsIdentities(db, MarkUnavailable(id));
      db := db.(nodes := UpdateOne(db.nodes, Resolve(db, id), Marked));
    }

    method UpdateProbeResult(id: Id, available: bool, latency: int, probedAt: Instant)
      requires Valid()
      modifies this
      ensures Valid() && db == Apply(old(db), Probe(id, available, latency, probedAt))
      ensures OnlyChanges(old(db), db, if id in old(db).aliases then old(db).aliases[id] else id) && db.blacklist == old(db).blacklist
      ensures var target := if id in old(db).aliases then old(db).aliases[id] else id;
              forall row | target in old(db).nodes && row == old(db).nodes[target] ::
                var next := db.nodes[target];
                && next.latency == latency && next.lastProbed == Some(Tstr(probedAt))
                && (next.status.Ready? <==> available) && (next.status.Unavailable? <==> !available)
                && (available ==> next == row.(status := Ready, latency := latency, lastProbed := next.lastProbed,
                      lastSuccess := next.lastProbed, consecutiveFailures := 0, successCount := row.successCount + 1))
                && (!available ==> next == row.(status := Unavailable, latency := latency, lastProbed := next.lastProbed,
                      consecutiveFailures := row.consecutiveFailures + 1, failureCount := row.failureCount + 1))
    {
      StepKeepsIdentities(db, Probe(id, available, latency, probedAt));
      var stamp := Tstr(probedAt);
      db := db.(nodes := UpdateOne(db.nodes, Resolve(db, id), (row: Row) => Probed(row, available, latency, stamp)));
    }
  }
}
