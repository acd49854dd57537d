/**
 The liveness sweep (internal/services/liveness.go): every TCP node is dialled, the answers are
 recorded, and the nodes that the counters and the listing agree are gone are deleted. What the network
 answers, the clock and the failures of the store are parameters.
 */
module Liveness {
  import opened Wrappers
  import opened ByteOrder
  import opened Timestamps
  import opened NodeStore

  const DELETE_AFTER_FAILURES: nat := 3
  const DELETE_AFTER_UNSEEN_DAYS: nat := 1
  const UDP_DELETE_AFTER_FAILURES: nat := 5
  const UDP_DELETE_AFTER_UNSEEN_DAYS: nat := 3

  /** A reading of the clock. */
  predicate Reading(t: Instant) {
    Real(t) && t.year >= 1970
  }

  /** The thresholds as of `now`; the active node is kept. */
  function Rule(now: Instant, active: Option<Id>): DeadNodeRule
    requires Reading(now)
  {
    DeadNodeRule(DELETE_AFTER_FAILURES, DaysAgo(now, DELETE_AFTER_UNSEEN_DAYS),
                 UDP_DELETE_AFTER_FAILURES, DaysAgo(now, UDP_DELETE_AFTER_UNSEEN_DAYS),
                 if active.Some? then active.value else "")
  }

  // ----- Dialling -------------------------------------------------------------------

  lemma SplitIsDistinct(targets: seq<Id>, alive: seq<Id>, dead: seq<Id>)
    requires NoRepeats(targets) && multiset(alive) + multiset(dead) == multiset(targets)
    ensures NoRepeats(alive) && NoRepeats(dead)
    ensures forall id :: id in targets <==> id in alive || id in dead
  {
    NoRepeatsIffOnce(targets);
    assert forall id :: multiset(alive)[id] + multiset(dead)[id] == multiset(targets)[id];
    NoRepeatsIffOnce(alive);
    NoRepeatsIffOnce(dead);
    forall id
      ensures id in targets <==> id in alive || id in dead
    {
      assert id in targets <==> id in multiset(targets);
      assert id in alive <==> id in multiset(alive);
      assert id in dead <==> id in multiset(dead);
    }
  }

  /**
   Every target is dialled once and put on one list by its answer. The dials run at once and take the
   mutex in any order, so a pending one is picked arbitrarily each time.
   */
  method DialAll(targets: seq<Id>, answers: Id -> bool) returns (alive: seq<Id>, dead: seq<Id>)
    ensures multiset(alive) + multiset(dead) == multiset(targets)
    ensures (forall id | id in alive :: answers(id)) && (forall id | id in dead :: !answers(id))
    ensures forall id :: id in alive <==> id in targets && answers(id)
    ensures forall id :: id in dead <==> id in targets && !answers(id)
    ensures NoRepeats(targets) ==> NoRepeats(alive) && NoRepeats(dead)
  {
    alive, dead := [], [];
    var pending := multiset(targets);
    while |pending| > 0
      invariant multiset(alive) + multiset(dead) + pending == multiset(targets)
      invariant (forall id | id in alive :: answers(id)) && (forall id | id in dead :: !answers(id))
      decreases |pending|
    {
      var id :| id in pending;
      pending := pending - multiset{id};
      if answers(id) {
        alive := alive + [id];
      } else {
        dead := dead + [id];
      }
    }
    if NoRepeats(targets) {
      SplitIsDistinct(targets, alive, dead);
    }
    forall id
      ensures id in targets <==> id in alive || id in dead
    {
      assert id in targets <==> id in multiset(targets);
      assert multiset(alive)[id] + multiset(dead)[id] == multiset(targets)[id];
      assert id in alive <==> id in multiset(alive);
      assert id in dead <==> id in multiset(dead);
    }
  }

  // ----- The sweep ------------------------------------------------------------------

  /** The TCP nodes with an endpoint to dial. */
  predicate Dialled(db: Db, endpoints: set<Id>, id: Id) {
    id in db.nodes && db.nodes[id].transport.Tcp? && id in endpoints
  }

  /** The nodes dialled with that answer. */
  function Heard(db: Db, endpoints: set<Id>, answers: Id -> bool, answer: bool): set<Id> {
    set id | id in db.nodes && Dialled(db, endpoints, id) && answers(id) == answer
  }

  /** What the answers make of each row, however they were listed and batched. */
  function Judged(db: Db, endpoints: set<Id>, answers: Id -> bool, keep: Id, now: string): (r: Db)
    ensures r.nodes.Keys == db.nodes.Keys
  {
    db.(nodes := map id | id in db.nodes ::
          SweptRow(id, db.nodes[id], id in Heard(db, endpoints, answers, true), id in Heard(db, endpoints, answers, false), keep, now))
  }

  lemma RecordedIsJudged(db: Db, endpoints: set<Id>, answers: Id -> bool, alive: seq<Id>, dead: seq<Id>, keep: Id, now: string)
    requires NoRepeats(alive) && NoRepeats(dead)
    requires forall id :: id in alive <==> id in Heard(db, endpoints, answers, true)
    requires forall id :: id in dead <==> id in Heard(db, endpoints, answers, false)
    ensures Swept(db, alive, dead, keep, now) == Judged(db, endpoints, answers, keep, now)
  {
    forall id | id in db.nodes
      ensures Swept(db, alive, dead, keep, now).nodes[id] == Judged(db, endpoints, answers, keep, now).nodes[id]
    {
      SweepIsRowByRow(db, alive, dead, keep, now, id);
    }
    SweepKeepsKeys(db, alive, dead, keep, now);
  }

  /** Each TCP row with an endpoint is judged by its own answer; every other row stays as it was. */
  lemma JudgedExactly(db: Db, endpoints: set<Id>, answers: Id -> bool, keep: Id, now: string, id: Id)
    requires id in db.nodes
    ensures var (row, next) := (db.nodes[id], Judged(db, endpoints, answers, keep, now));
            && next == db.(nodes := next.nodes)
            && (row.transport == Tcp && id in endpoints ==> SweptTo(row, next.nodes[id], answers(id), !answers(id), id == keep, now))
            && (row.transport != Tcp || id !in endpoints ==> next.nodes[id] == row)
  {
    SweptRowExact(id, db.nodes[id], id in Heard(db, endpoints, answers, true), id in Heard(db, endpoints, answers, false), keep, now);
  }

  lemma SweepKeepsKeys(db: Db, alive: seq<Id>, dead: seq<Id>, keep: Id, now: string)
    ensures Swept(db, alive, dead, keep, now).nodes.Keys == db.nodes.Keys
  {
  }

  lemma {:induction false} CountDistinct(ids: seq<Id>, all: set<Id>)
    requires NoRepeats(ids) && forall id :: id in ids <==> id in all
    ensures |ids| == |all|
    decreases |ids|
  {
    if ids == [] {
      assert all == {};
    } else {
      var front, last := ids[..|ids| - 1], ids[|ids| - 1];
      assert ids == front + [last];
      CountDistinct(front, all - {last});
    }
  }

  datatype LivenessResult = LivenessResult(checked: nat, alive: nat, dead: nat, deleted: nat)

  /** What fails on the way: the listing, the context, a call of the recording transaction, the deletion. */
  datatype Trouble = Trouble(listing: bool, cancelled: bool, record: nat -> bool, deletion: bool)

  class LivenessService {
    const nodes: NodeRepository

    constructor (nodes: NodeRepository)
      ensures this.nodes == nodes
    {
      this.nodes := nodes;
    }

    /** The listing has no order the sweep keeps: it is shuffled. */
    method Targets(endpoints: set<Id>) returns (targets: seq<Id>)
      ensures NoRepeats(targets) && forall id :: id in targets <==> Dialled(nodes.db, endpoints, id)
    {
      targets := [];
      var pending := set id | id in nodes.db.nodes && Dialled(nodes.db, endpoints, id);
      while pending != {}
        invariant NoRepeats(targets)
        invariant forall id :: id in targets || id in pending <==> Dialled(nodes.db, endpoints, id)
        invariant forall id :: !(id in targets && id in pending)
        decreases |pending|
      {
        var id :| id in pending;
        pending := pending - {id};
        targets := targets + [id];
      }
    }

    /**
     A sweep deletes, of the rows as its answers leave them, exactly those its rule calls dead; cut short it
     leaves the table alone, except that answers recorded stay when the deletion fails.
     */
    method Sweep(endpoints: set<Id>, answers: Id -> bool, active: Option<Id>, ruledAt: Instant, recordedAt: Instant, trouble: Trouble)
      returns (r: Option<LivenessResult>)
      requires nodes.Valid() && Reading(ruledAt)
      modifies nodes
      ensures nodes.Valid()
      ensures trouble.listing || trouble.cancelled ==> r.None? && nodes.db == old(nodes.db)
      ensures !trouble.listing && !trouble.cancelled && !trouble.deletion && (forall n :: !trouble.record(n)) ==> r.Some?
      ensures r.None? ==>
                || nodes.db == old(nodes.db)
                || (trouble.deletion
                    && nodes.db == Judged(old(nodes.db), endpoints, answers, Rule(ruledAt, active).keep, Tstr(recordedAt)))
      ensures r.Some? ==>
                && !trouble.deletion
                && nodes.db == WithoutDead(Judged(old(nodes.db), endpoints, answers, Rule(ruledAt, active).keep, Tstr(recordedAt)),
                                           Rule(ruledAt, active))
                && RemovesGone(Judged(old(nodes.db), endpoints, answers, Rule(ruledAt, active).keep, Tstr(recordedAt)), nodes.db,
                               DeadNodeRule(3, DaysAgo(ruledAt, 1), 5, DaysAgo(ruledAt, 3), if active.Some? then active.value else ""))
                && r.value.checked == r.value.alive + r.value.dead
                && r.value.alive == |Heard(old(nodes.db), endpoints, answers, true)|
                && r.value.dead == |Heard(old(nodes.db), endpoints, answers, false)|
                && r.value.deleted == |old(nodes.db).nodes.Keys - nodes.db.nodes.Keys|
    {
      if trouble.listing {
        return None;
      }
      var rule := Rule(ruledAt, active);
      var ok, alive, dead := Record(endpoints, answers, rule.keep, recordedAt, trouble);
      if !ok || trouble.deletion {
        return None;
      }
      var deleted := Delete(rule);
      r := Some(LivenessResult(alive + dead, alive, dead, deleted));
    }

    method Delete(rule: DeadNodeRule) returns (deleted: nat)
      requires nodes.Valid()
      modifies nodes
      ensures nodes.Valid() && nodes.db == WithoutDead(old(nodes.db), rule) && RemovesGone(old(nodes.db), nodes.db, rule)
      ensures deleted == |old(nodes.db).nodes.Keys - nodes.db.nodes.Keys|
    {
      deleted := nodes.DeleteDeadNodes(rule);
    }

    method Dial(endpoints: set<Id>, answers: Id -> bool) returns (alive: seq<Id>, dead: seq<Id>)
      ensures NoRepeats(alive) && NoRepeats(dead)
      ensures forall id :: id in alive <==> id in Heard(nodes.db, endpoints, answers, true)
      ensures forall id :: id in dead <==> id in Heard(nodes.db, endpoints, answers, false)
      ensures |alive| == |Heard(nodes.db, endpoints, answers, true)| && |dead| == |Heard(nodes.db, endpoints, answers, false)|
    {
      var targets := Targets(endpoints);
      alive, dead := DialAll(targets, answers);
      CountDistinct(alive, Heard(nodes.db, endpoints, answers, true));
      CountDistinct(dead, Heard(nodes.db, endpoints, answers, false));
    }

    /** The half of a sweep that dials and records. */
    method Record(endpoints: set<Id>, answers: Id -> bool, keep: Id, now: Instant, trouble: Trouble) returns (ok: bool, answered: nat, refused: nat)
      requires nodes.Valid()
      modifies nodes
      ensures nodes.Valid()
      ensures trouble.cancelled ==> !ok
      ensures !trouble.cancelled && (forall n :: !trouble.record(n)) ==> ok
      ensures !ok ==> nodes.db == old(nodes.db)
      ensures ok ==> nodes.db == Judged(old(nodes.db), endpoints, answers, keep, Tstr(now))
      ensures answered == |Heard(old(nodes.db), endpoints, answers, true)| && refused == |Heard(old(nodes.db), endpoints, answers, false)|
    {
      var alive, dead := Dial(endpoints, answers);
      answered, refused := |alive|, |dead|;
      if trouble.cancelled {
        return false, answered, refused;
      }
      RecordedIsJudged(nodes.db, endpoints, answers, alive, dead, keep, Tstr(now));
      ok := Write(alive, dead, keep, now, trouble.record);
    }

    method Write(alive: seq<Id>, dead: seq<Id>, keep: Id, now: Instant, fails: nat -> bool) returns (ok: bool)
      requires nodes.Valid()
      modifies nodes
      ensures nodes.Valid()
      ensures (forall n :: !fails(n)) ==> ok
      ensures nodes.db == if ok then Swept(old(nodes.db), alive, dead, keep, Tstr(now)) else old(nodes.db)
    {
      ok := nodes.RecordLiveness(alive, dead, keep, now, fails);
    }
  }

  // ----- Who is deleted ---------------------------------------------------------------

  /**
   A TCP node has refused its last three dials, those of this sweep included, and was last listed 24 hours
   ago; any other has failed its last five probes and was last listed 72 hours ago.
   */
  ghost predicate GoneForGood(transport: Transport, log: Log, alive: bool, dead: bool, now: Instant)
    requires Reading(now)
  {
    && (transport == Tcp ==>
          && LastLack(log.dials + (if alive then [true] else []) + (if dead then [false] else []), answered => answered, 3)
          && Less(Tstr(log.seen), Tstr(DaysAgo(now, 1))))
    && (transport != Tcp ==>
          LastLack(log.verdicts, (v: Verdict) => v.Handshake? && v.ok, 5) && Less(Tstr(log.seen), Tstr(DaysAgo(now, 3))))
  }

  lemma StepAt(s: Traced, op: Op, id: Id)
    requires id in s.db.nodes && id in s.logs && id in Apply(s.db, op).nodes
    ensures var t := Step(s, op);
            t.db == Apply(s.db, op) && id in t.logs && t.logs[id] == LogAfter(s.db, id, s.logs[id], op)
  {
  }

  lemma SweepKeepsTransport(db: Db, alive: seq<Id>, dead: seq<Id>, keep: Id, now: string, id: Id)
    requires NoRepeats(alive) && NoRepeats(dead) && id in db.nodes
    ensures var next := Swept(db, alive, dead, keep, now);
            id in next.nodes && next == db.(nodes := next.nodes) && next.nodes[id].transport == db.nodes[id].transport
  {
    SweepTouchesOnce(db, alive, dead, keep, now, id);
  }

  /** A recorded sweep leaves a row in agreement with its log, its transport and all protections as they were. */
  lemma RecordStep(s: Traced, record: Op, id: Id)
    requires record.RecordLiveness? && ValidOp(record) && id in s.db.nodes && id in s.logs && Faithful(s.db.nodes[id], s.logs[id])
    ensures var t := Step(s, record);
            && id in t.db.nodes && id in t.logs && Faithful(t.db.nodes[id], t.logs[id])
            && t.db == s.db.(nodes := t.db.nodes) && t.db.nodes[id].transport == s.db.nodes[id].transport
            && t.logs[id] == s.logs[id].(dials := s.logs[id].dials + (if id in record.alive then [true] else [])
                                                  + (if id in record.dead then [false] else []))
  {
    SweepKeepsTransport(s.db, record.alive, record.dead, record.keep, Tstr(record.now), id);
    RecordKeepsFaith(s.db, id, s.logs[id], record);
    StepAt(s, record, id);
  }

  lemma DeletionStep(s: Db, t: Db, id: Id, log: Log, after: Log, alive: bool, dead: bool, active: Option<Id>, now: Instant)
    requires Reading(now) && id in s.nodes && id in t.nodes && Faithful(t.nodes[id], after)
    requires t == s.(nodes := t.nodes) && t.nodes[id].transport == s.nodes[id].transport
    requires after == log.(dials := log.dials + (if alive then [true] else []) + (if dead then [false] else []))
    ensures id !in WithoutDead(t, Rule(now, active)).nodes <==>
              && (id != if active.Some? then active.value else "") && Unprotected(s, id)
              && GoneForGood(s.nodes[id].transport, log, alive, dead, now)
  {
    DeletionFollowsTheLog(t, id, after, Rule(now, active));
  }

  lemma StepDeletes(t: Traced, rule: DeadNodeRule)
    ensures Step(t, DeleteDead(rule)).db == WithoutDead(t.db, rule)
  {
  }

  lemma SweptRun(ops: seq<Op>, record: Op, rule: DeadNodeRule)
    ensures Run(ops + [record] + [DeleteDead(rule)]).db == WithoutDead(Step(Run(ops), record).db, rule)
  {
    RunExtends(ops, record);
    RunExtends(ops + [record], DeleteDead(rule));
    StepDeletes(Run(ops + [record]), rule);
  }

  /**
   After any run, a sweep deletes a node exactly when nothing protects it and: a TCP node has refused its
   last three dials, this sweep's included, and has not been listed for 24 hours; any other has failed its
   last five probes and has not been listed for 72 hours.
   */
  lemma SweepDeletesExactly(ops: seq<Op>, alive: seq<Id>, dead: seq<Id>, active: Option<Id>, recordedAt: Instant, ruledAt: Instant, id: Id)
    requires (forall op | op in ops :: ValidOp(op)) && NoRepeats(alive) && NoRepeats(dead) && Reading(ruledAt)
    requires id in Run(ops).db.nodes
    ensures var s, rule := Run(ops), Rule(ruledAt, active);
            && id in s.logs
            && (id !in Run(ops + [RecordLiveness(alive, dead, rule.keep, recordedAt)] + [DeleteDead(rule)]).db.nodes <==>
                 && (id != if active.Some? then active.value else "") && Unprotected(s.db, id)
                 && GoneForGood(s.db.nodes[id].transport, s.logs[id], id in alive, id in dead, ruledAt))
  {
    var s, rule := Run(ops), Rule(ruledAt, active);
    var record := RecordLiveness(alive, dead, rule.keep, recordedAt);
    RunsKeepFaith(ops);
    RecordStep(s, record, id);
    var t := Step(s, record);
    DeletionStep(s.db, t.db, id, s.logs[id], t.logs[id], id in alive, id in dead, active, ruledAt);
    SweptRun(ops, record, rule);
  }

  /** A host that answers is not deleted by the sweep that hears it. */
  lemma AnAnswerSavesTheNode(ops: seq<Op>, alive: seq<Id>, dead: seq<Id>, active: Option<Id>, recordedAt: Instant, ruledAt: Instant, id: Id)
    requires (forall op | op in ops :: ValidOp(op)) && NoRepeats(alive) && NoRepeats(dead) && Reading(ruledAt)
    requires id in Run(ops).db.nodes && Run(ops).db.nodes[id].transport.Tcp? && id in alive && id !in dead
    ensures id in Run(ops + [RecordLiveness(alive, dead, Rule(ruledAt, active).keep, recordedAt)] + [DeleteDead(Rule(ruledAt, active))]).db.nodes
  {
    SweepDeletesExactly(ops, alive, dead, active, recordedAt, ruledAt, id);
    AnAnswerEndsTheRefusals(Run(ops).logs[id], ruledAt);
  }

  lemma AnAnswerEndsTheRefusals(log: Log, now: Instant)
    requires Reading(now)
    ensures !GoneForGood(Tcp, log, true, false, now)
  {
    var dials := log.dials + [true] + [];
    assert dials[|dials| - 1];
  }

  /**
   Whenever the rule is applied, what it deletes is gone by its log: refusals or
   failures in a row, and long unlisted, to the second.
   */
  lemma SweepDeletesOnlyTheGone(ops: seq<Op>, active: Option<Id>, now: Instant, id: Id) returns (t: Traced)
    requires (forall op | op in ops :: ValidOp(op)) && Reading(now)
    requires id in Run(ops).db.nodes && id !in WithoutDead(Run(ops).db, Rule(now, active)).nodes
    ensures t == Run(ops) && id in t.db.nodes && id in t.logs
    ensures t.db.nodes[id].transport == Tcp ==> LastLack(t.logs[id].dials, answered => answered, 3)
    ensures t.db.nodes[id].transport != Tcp ==> LastLack(t.logs[id].verdicts, (v: Verdict) => v.Handshake? && v.ok, 5)
    ensures var cutoff := DaysAgo(now, if t.db.nodes[id].transport == Tcp then 1 else 3);
            Before(t.logs[id].seen, cutoff) || SameSecond(t.logs[id].seen, cutoff)
    ensures (id != if active.Some? then active.value else "") && Unprotected(t.db, id)
  {
    t := DeletionExact(ops, Rule(now, active), id);
    CutoffExactToTheSecond(t.logs[id].seen, DaysAgo(now, if t.db.nodes[id].transport == Tcp then 1 else 3));
  }
}
