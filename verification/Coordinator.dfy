/**
 The operation coordinator (internal/services/operations.go): a one-slot semaphore, the name of the
 operation that holds it, and a context token that lets trusted nested calls through. Any number of
 callers interleave; each channel operation and each region under the mutex is one step.
 */
module Coordinator {
  import opened Wrappers

  type Id = nat

  /** An acquisition's life: taken after waiting, taken, recorded, its name cleared, its slot given back. */
  datatype Phase = Waited | Taken | Recorded | Cleared | Returned

  /** `bodies` counts the functions running under the acquisition's context, nested calls included. */
  datatype Acquisition = Acquisition(op: string, phase: Phase, bodies: nat)

  /** What a refused caller was told is in its way. */
  datatype Told = Told(op: string, name: string)

  /** `refused` are the callers that found the slot taken and have yet to read the name. */
  datatype System = System(slot: bool, current: string, waiting: int, parked: multiset<string>,
                           acquisitions: seq<Acquisition>, freed: seq<Id>,
                           refused: multiset<string>, told: seq<Told>)

  const INITIAL := System(false, "", 0, multiset{}, [], [], multiset{}, [])

  datatype Action =
    | Park(op: string) | TakeAfterWait(op: string) | Uncount(id: Id)
    | TryTake(op: string) | Conflict(op: string) | Tell(op: string)
    | Record(id: Id) | NestedBegin(id: Id) | BodyEnd(id: Id)
    | Clear(id: Id) | Free(id: Id) | ReleaseAgain(id: Id)

  /**
   Whether a step can happen. `contained` says that contexts are used only inside Run: a nested call is
   made by a function that is running, and the release is deferred until those functions returned.
   */
  ghost predicate Enabled(contained: bool, s: System, a: Action) {
    (match a
     case Park(_) => true
     case TakeAfterWait(op) => op in s.parked && !s.slot
     case TryTake(_) => !s.slot
     case Conflict(_) => s.slot
     case Tell(op) => op in s.refused
     case _ => a.id < |s.acquisitions|)
    && match a
       case Uncount(id) => s.acquisitions[id].phase == Waited
       case Record(id) => s.acquisitions[id].phase == Taken
       case NestedBegin(id) => contained ==> s.acquisitions[id].bodies > 0
       case BodyEnd(id) => s.acquisitions[id].bodies > 0
       case Clear(id) => s.acquisitions[id].phase == Recorded && (contained ==> s.acquisitions[id].bodies == 0)
       case Free(id) => s.acquisitions[id].phase == Cleared && s.slot
       case ReleaseAgain(id) => s.acquisitions[id].phase in {Cleared, Returned}
       case _ => true
  }

  ghost function Enter(s: System, id: Id, phase: Phase): System
    requires id < |s.acquisitions|
  {
    s.(acquisitions := s.acquisitions[id := s.acquisitions[id].(phase := phase)])
  }

  ghost function Bodies(s: System, id: Id, bodies: nat): System
    requires id < |s.acquisitions|
  {
    s.(acquisitions := s.acquisitions[id := s.acquisitions[id].(bodies := bodies)])
  }

  ghost function Apply(s: System, a: Action): System
    requires Enabled(false, s, a)
  {
    match a
    case Park(op) => s.(waiting := s.waiting + 1, parked := s.parked + multiset{op})
    case TakeAfterWait(op) =>
      s.(slot := true, parked := s.parked - multiset{op}, acquisitions := s.acquisitions + [Acquisition(op, Waited, 0)])
    case Uncount(id) => Enter(s, id, Taken).(waiting := s.waiting - 1)
    case TryTake(op) => s.(slot := true, acquisitions := s.acquisitions + [Acquisition(op, Taken, 0)])
    case Conflict(op) => s.(refused := s.refused + multiset{op})
    case Tell(op) => s.(refused := s.refused - multiset{op}, told := s.told + [Told(op, s.current)])
    case Record(id) => Bodies(Enter(s, id, Recorded), id, s.acquisitions[id].bodies + 1).(current := s.acquisitions[id].op)
    case NestedBegin(id) => Bodies(s, id, s.acquisitions[id].bodies + 1)
    case BodyEnd(id) => Bodies(s, id, s.acquisitions[id].bodies - 1)
    case Clear(id) => Enter(s, id, Cleared).(current := "")
    case Free(id) => Enter(s, id, Returned).(slot := false, freed := s.freed + [id])
    case ReleaseAgain(_) => s
  }

  ghost predicate IsRun(contained: bool, s: System, actions: seq<Action>)
    decreases |actions|
  {
    actions == [] || (Enabled(contained, s, actions[0]) && IsRun(contained, Apply(s, actions[0]), actions[1..]))
  }

  ghost function After(s: System, actions: seq<Action>): System
    requires IsRun(false, s, actions)
    decreases |actions|
  {
    if actions == [] then s else After(Apply(s, actions[0]), actions[1..])
  }

  // ----- The invariant --------------------------------------------------------------

  ghost predicate Held(s: System) {
    s.acquisitions != [] && s.acquisitions[|s.acquisitions| - 1].phase != Returned
  }

  ghost function Holder(s: System): Acquisition
    requires Held(s)
  {
    s.acquisitions[|s.acquisitions| - 1]
  }

  /** The name shown: the holder's once it is recorded and until it is cleared, and none otherwise. */
  ghost function Shown(s: System): string {
    if Held(s) && Holder(s).phase == Recorded then Holder(s).op else ""
  }

  /** Only the latest acquisition can be outstanding, and the shared fields say exactly what it is up to. */
  ghost predicate Consistent(s: System) {
    && (forall i | 0 <= i < |s.acquisitions| - 1 :: s.acquisitions[i].phase == Returned)
    && (forall a | a in s.acquisitions && a.bodies > 0 :: a.phase == Recorded)
    && (s.slot <==> Held(s))
    && s.current == Shown(s)
    && s.waiting == |s.parked| + (if Held(s) && Holder(s).phase == Waited then 1 else 0)
    && NoRepeats(s.freed)
    && (forall i :: i in s.freed <==> 0 <= i < |s.acquisitions| && s.acquisitions[i].phase == Returned)
  }

  lemma TakingKeepsConsistent(s: System, a: Action)
    requires Consistent(s) && Enabled(true, s, a) && (a.TakeAfterWait? || a.TryTake?)
    ensures Consistent(Apply(s, a))
  {
    assert s.acquisitions != [] ==> !Held(s);
    assert forall i | 0 <= i < |s.acquisitions| :: s.acquisitions[i].phase == Returned;
  }

  lemma FreeingKeepsConsistent(s: System, id: Id)
    requires Consistent(s) && Enabled(true, s, Free(id))
    ensures Consistent(Apply(s, Free(id)))
  {
    var t := Apply(s, Free(id));
    assert id == |s.acquisitions| - 1;
    forall i ensures i in t.freed <==> 0 <= i < |t.acquisitions| && t.acquisitions[i].phase == Returned {
      assert i in t.freed <==> i in s.freed || i == id;
    }
  }

  lemma StepKeepsConsistent(s: System, a: Action)
    requires Consistent(s) && Enabled(true, s, a)
    ensures Enabled(false, s, a) && Consistent(Apply(s, a))
  {
    match a
    case TakeAfterWait(op) => TakingKeepsConsistent(s, a);
    case TryTake(op) => TakingKeepsConsistent(s, a);
    case Free(id) => FreeingKeepsConsistent(s, id);
    case _ =>
  }

  lemma {:induction false} RunsStayConsistent(s: System, actions: seq<Action>)
    requires Consistent(s) && IsRun(true, s, actions)
    ensures IsRun(false, s, actions) && Consistent(After(s, actions))
    decreases |actions|
  {
    if actions != [] {
      StepKeepsConsistent(s, actions[0]);
      RunsStayConsistent(Apply(s, actions[0]), actions[1..]);
    }
  }

  // ----- What every run keeps ---------------------------------------------------------

  /** At most one acquisition is outstanding, and operations under different acquisitions never overlap. */
  lemma OneHolderAtATime(actions: seq<Action>, i: Id, j: Id)
    requires IsRun(true, INITIAL, actions)
    ensures IsRun(false, INITIAL, actions)
    ensures var s := After(INITIAL, actions);
            i < |s.acquisitions| && j < |s.acquisitions| ==>
              && (s.acquisitions[i].phase != Returned && s.acquisitions[j].phase != Returned ==> i == j)
              && (s.acquisitions[i].bodies > 0 && s.acquisitions[j].bodies > 0 ==> i == j)
              && (s.acquisitions[i].bodies > 0 ==> s.slot && s.current == s.acquisitions[i].op)
  {
    RunsStayConsistent(INITIAL, actions);
    var s := After(INITIAL, actions);
    if i < |s.acquisitions| && j < |s.acquisitions| {
      assert s.acquisitions[i] in s.acquisitions && s.acquisitions[j] in s.acquisitions;
    }
  }

  /** Each acquisition is given back exactly once, however often its release is called, and giving back never blocks. */
  lemma ReturnedExactlyOnce(actions: seq<Action>, i: Id)
    requires IsRun(true, INITIAL, actions)
    ensures IsRun(false, INITIAL, actions)
    ensures var s := After(INITIAL, actions);
            && multiset(s.freed)[i] == (if i < |s.acquisitions| && s.acquisitions[i].phase == Returned then 1 else 0)
            && (i < |s.acquisitions| && s.acquisitions[i].phase == Cleared ==> Enabled(true, s, Free(i)))
  {
    RunsStayConsistent(INITIAL, actions);
    var s := After(INITIAL, actions);
    NoRepeatsOccurOnce(s.freed);
    assert i in s.freed <==> i < |s.acquisitions| && s.acquisitions[i].phase == Returned;
    assert i in multiset(s.freed) <==> i in s.freed;
  }

  /** A name shown is the present holder's, and waiting counts the callers that wait. */
  lemma CurrentNamesTheHolder(actions: seq<Action>)
    requires IsRun(true, INITIAL, actions)
    ensures IsRun(false, INITIAL, actions)
    ensures var s := After(INITIAL, actions);
            && (s.slot <==> Held(s))
            && (s.current != "" ==> s.slot && Holder(s).phase == Recorded && Holder(s).op == s.current)
            && (s.current == "" <==> !s.slot || Holder(s).phase != Recorded || Holder(s).op == "")
            && s.waiting == |s.parked| + (if s.slot && Holder(s).phase == Waited then 1 else 0)
  {
    RunsStayConsistent(INITIAL, actions);
  }

  /**
   A refused caller reads the name after it was refused, so it is told whose operation is recorded then:
   nobody's exactly when the slot is free by now, taken but not recorded, or cleared but not given back.
   */
  lemma RefusedIsToldWhatIsShown(actions: seq<Action>, op: string)
    requires IsRun(true, INITIAL, actions)
    ensures IsRun(false, INITIAL, actions)
    ensures var s := After(INITIAL, actions);
            op in s.refused ==>
              && Enabled(true, s, Tell(op))
              && (s.slot <==> Held(s))
              && Apply(s, Tell(op)).told == s.told + [Told(op, Shown(s))]
              && (Shown(s) == "" <==> !s.slot || Holder(s).phase != Recorded || Holder(s).op == "")
  {
    RunsStayConsistent(INITIAL, actions);
  }

  // ----- States a run leads to ----------------------------------------------------------

  ghost predicate Reachable(contained: bool, s: System) {
    exists actions :: IsRun(contained, INITIAL, actions) && IsRun(false, INITIAL, actions) && After(INITIAL, actions) == s
  }

  lemma {:induction false} RunExtends(contained: bool, s: System, actions: seq<Action>, a: Action)
    requires IsRun(contained, s, actions) && IsRun(false, s, actions) && Enabled(contained, After(s, actions), a)
    ensures IsRun(contained, s, actions + [a]) && IsRun(false, s, actions + [a])
    ensures After(s, actions + [a]) == Apply(After(s, actions), a)
    decreases |actions|
  {
    if actions == [] {
      assert (actions + [a])[1..] == [];
    } else {
      assert (actions + [a])[1..] == actions[1..] + [a];
      RunExtends(contained, Apply(s, actions[0]), actions[1..], a);
    }
  }

  /** A property of states that holds at the start and that every step keeps. */
  ghost predicate Closed(contained: bool, reach: System -> bool) {
    reach(INITIAL) && forall s, a | reach(s) && Enabled(contained, s, a) :: reach(Apply(s, a))
  }

  lemma ReachableIsClosed(contained: bool)
    ensures Closed(contained, s => Reachable(contained, s))
  {
    var none: seq<Action> := [];
    assert IsRun(contained, INITIAL, none) && IsRun(false, INITIAL, none) && After(INITIAL, none) == INITIAL;
    forall s, a | Reachable(contained, s) && Enabled(contained, s, a) ensures Reachable(contained, Apply(s, a)) {
      var actions :| IsRun(contained, INITIAL, actions) && IsRun(false, INITIAL, actions) && After(INITIAL, actions) == s;
      RunExtends(contained, INITIAL, actions, a);
    }
  }

  lemma ReachMore(contained: bool, reach: System -> bool, s: System, a: Action)
    requires Closed(contained, reach) && reach(s) && Enabled(contained, s, a)
    ensures Enabled(false, s, a) && reach(Apply(s, a))
  {
  }

  /** A state in which nobody waits and nobody is yet to be told. */
  ghost function Settled(slot: bool, current: string, acquisitions: seq<Acquisition>, freed: seq<Id>, told: seq<Told>): System {
    System(slot, current, 0, multiset{}, acquisitions, freed, multiset{}, told)
  }

  /** An operation that is over, and one that runs. */
  ghost function OneAfterAnother(op: string, next: string, bodies: nat): System {
    Settled(true, next, [Acquisition(op, Returned, bodies), Acquisition(next, Recorded, 1)], [0], [])
  }

  /** The slot taken for `op` and its function running. */
  lemma OperationStarts(contained: bool, reach: System -> bool, s: System, op: string)
    requires Closed(contained, reach) && reach(s) && !s.slot
    ensures reach(s.(slot := true, acquisitions := s.acquisitions + [Acquisition(op, Taken, 0)]))
    ensures reach(s.(slot := true, current := op, acquisitions := s.acquisitions + [Acquisition(op, Recorded, 1)]))
  {
    ReachMore(contained, reach, s, TryTake(op));
    var taken := Apply(s, TryTake(op));
    ReachMore(contained, reach, taken, Record(|s.acquisitions|));
    assert Apply(taken, Record(|s.acquisitions|)).acquisitions == s.acquisitions + [Acquisition(op, Recorded, 1)];
  }

  /** The latest operation's name cleared, its function having returned. */
  lemma OperationClears(reach: System -> bool, s: System, before: seq<Acquisition>, op: string)
    requires Closed(true, reach) && reach(s) && s.acquisitions == before + [Acquisition(op, Recorded, 1)]
    ensures reach(s.(current := "", acquisitions := before + [Acquisition(op, Cleared, 0)]))
  {
    var id: Id := |before|;
    ReachMore(true, reach, s, BodyEnd(id));
    var ended := Apply(s, BodyEnd(id));
    ReachMore(true, reach, ended, Clear(id));
    assert Apply(ended, Clear(id)).acquisitions == before + [Acquisition(op, Cleared, 0)];
  }

  lemma OperationFrees(contained: bool, reach: System -> bool, s: System, before: seq<Acquisition>, op: string, bodies: nat)
    requires Closed(contained, reach) && reach(s) && s.slot && s.acquisitions == before + [Acquisition(op, Cleared, bodies)]
    requires s.freed == []
    ensures reach(s.(slot := false, acquisitions := before + [Acquisition(op, Returned, bodies)], freed := [|before|]))
  {
    ReachMore(contained, reach, s, Free(|before|));
    assert Apply(s, Free(|before|)).acquisitions == before + [Acquisition(op, Returned, bodies)];
    assert Apply(s, Free(|before|)).freed == [|before|];
  }

  lemma CallerIsRefused(reach: System -> bool, s: System, op: string)
    requires Closed(true, reach) && reach(s) && s.slot && s.refused == multiset{}
    ensures reach(s.(refused := multiset{op}))
  {
    ReachMore(true, reach, s, Conflict(op));
    assert Apply(s, Conflict(op)) == s.(refused := multiset{op});
  }

  lemma CallerIsTold(reach: System -> bool, s: System, op: string)
    requires Closed(true, reach) && reach(s) && s.refused == multiset{op} && s.told == []
    ensures reach(s.(refused := multiset{}, told := [Told(op, s.current)]))
  {
    ReachMore(true, reach, s, Tell(op));
    assert Apply(s, Tell(op)) == s.(refused := multiset{}, told := [Told(op, s.current)]);
  }

  lemma OneOperation(reach: System -> bool, op: string, refused: multiset<string>)
    requires Closed(true, reach) && reach(Settled(true, op, [Acquisition(op, Recorded, 1)], [], []).(refused := refused))
    ensures reach(Settled(true, "", [Acquisition(op, Cleared, 0)], [], []).(refused := refused))
    ensures reach(Settled(false, "", [Acquisition(op, Returned, 0)], [0], []).(refused := refused))
  {
    var none: seq<Acquisition> := [];
    assert none + [Acquisition(op, Recorded, 1)] == [Acquisition(op, Recorded, 1)];
    assert none + [Acquisition(op, Cleared, 0)] == [Acquisition(op, Cleared, 0)];
    assert none + [Acquisition(op, Returned, 0)] == [Acquisition(op, Returned, 0)];
    OperationClears(reach, Settled(true, op, [Acquisition(op, Recorded, 1)], [], []).(refused := refused), none, op);
    OperationFrees(true, reach, Settled(true, "", [Acquisition(op, Cleared, 0)], [], []).(refused := refused), none, op, 0);
  }

  lemma FirstOperationStarts(contained: bool, reach: System -> bool, op: string)
    requires Closed(contained, reach)
    ensures reach(Settled(true, "", [Acquisition(op, Taken, 0)], [], []))
    ensures reach(Settled(true, op, [Acquisition(op, Recorded, 1)], [], []))
  {
    var none: seq<Acquisition> := [];
    assert none + [Acquisition(op, Recorded, 1)] == [Acquisition(op, Recorded, 1)];
    assert none + [Acquisition(op, Taken, 0)] == [Acquisition(op, Taken, 0)];
    OperationStarts(contained, reach, INITIAL, op);
  }

  lemma ToldBeforeRecording(reach: System -> bool, op: string, caller: string)
    requires Closed(true, reach)
    ensures reach(Settled(true, "", [Acquisition(op, Taken, 0)], [], [Told(caller, "")]))
  {
    FirstOperationStarts(true, reach, op);
    var taken := Settled(true, "", [Acquisition(op, Taken, 0)], [], []);
    CallerIsRefused(reach, taken, caller);
    CallerIsTold(reach, taken.(refused := multiset{caller}), caller);
  }

  lemma ToldAfterClearing(reach: System -> bool, op: string, caller: string)
    requires Closed(true, reach)
    ensures reach(Settled(true, "", [Acquisition(op, Cleared, 0)], [], [Told(caller, "")]))
  {
    FirstOperationStarts(true, reach, op);
    OneOperation(reach, op, multiset{});
    var cleared := Settled(true, "", [Acquisition(op, Cleared, 0)], [], []);
    CallerIsRefused(reach, cleared, caller);
    CallerIsTold(reach, cleared.(refused := multiset{caller}), caller);
  }

  lemma RefusedAndFreed(reach: System -> bool, op: string, caller: string)
    requires Closed(true, reach)
    ensures reach(Settled(false, "", [Acquisition(op, Returned, 0)], [0], []).(refused := multiset{caller}))
  {
    FirstOperationStarts(true, reach, op);
    CallerIsRefused(reach, Settled(true, op, [Acquisition(op, Recorded, 1)], [], []), caller);
    OneOperation(reach, op, multiset{caller});
  }

  /**
   Each of the three ways to be told that nobody is in the way happens, whatever the operations are
   called: refused before the name is recorded, refused after it is cleared, and refused by an operation
   that was over when the name was read.
   */
  lemma RefusedMayBeToldNobody(op: string, caller: string)
    ensures Reachable(true, Settled(true, "", [Acquisition(op, Taken, 0)], [], [Told(caller, "")]))
    ensures Reachable(true, Settled(true, "", [Acquisition(op, Cleared, 0)], [], [Told(caller, "")]))
    ensures Reachable(true, Settled(false, "", [Acquisition(op, Returned, 0)], [0], [Told(caller, "")]))
  {
    ReachableIsClosed(true);
    var reach := s => Reachable(true, s);
    ToldBeforeRecording(reach, op, caller);
    ToldAfterClearing(reach, op, caller);
    RefusedAndFreed(reach, op, caller);
    CallerIsTold(reach, Settled(false, "", [Acquisition(op, Returned, 0)], [0], []).(refused := multiset{caller}), caller);
  }

  /** The next operation, begun when the first is over. */
  lemma NextOperationStarts(contained: bool, reach: System -> bool, op: string, next: string, bodies: nat, refused: multiset<string>)
    requires Closed(contained, reach)
    requires reach(Settled(false, "", [Acquisition(op, Returned, bodies)], [0], []).(refused := refused))
    ensures reach(OneAfterAnother(op, next, bodies).(refused := refused))
  {
    OperationStarts(contained, reach, Settled(false, "", [Acquisition(op, Returned, bodies)], [0], []).(refused := refused), next);
    assert [Acquisition(op, Returned, bodies)] + [Acquisition(next, Recorded, 1)]
        == [Acquisition(op, Returned, bodies), Acquisition(next, Recorded, 1)];
  }

  /** And a caller may be told of an operation that was not in its way, begun since it was refused. */
  lemma RefusedMayBeToldAnother(op: string, next: string, caller: string)
    ensures Reachable(true, OneAfterAnother(op, next, 0).(told := [Told(caller, next)]))
  {
    ReachableIsClosed(true);
    var reach := s => Reachable(true, s);
    RefusedAndFreed(reach, op, caller);
    NextOperationStarts(true, reach, op, next, 0, multiset{caller});
    CallerIsTold(reach, OneAfterAnother(op, next, 0).(refused := multiset{caller}), caller);
  }

  // ----- The slot always comes back ---------------------------------------------------

  /** How many steps the holder has before it. */
  ghost function Work(s: System): nat {
    if !Held(s) then 0
    else if Holder(s).phase == Waited then 5
    else if Holder(s).phase == Taken then 4
    else if Holder(s).phase == Recorded then 2 + Holder(s).bodies
    else 1
  }

  ghost function HolderStep(s: System): Action
    requires Held(s)
  {
    var id: Id := |s.acquisitions| - 1;
    if Holder(s).phase == Waited then Uncount(id)
    else if Holder(s).phase == Taken then Record(id)
    else if Holder(s).phase == Recorded then (if Holder(s).bodies > 0 then BodyEnd(id) else Clear(id))
    else Free(id)
  }

  lemma HolderStepHelps(s: System)
    requires Consistent(s) && Held(s)
    ensures Enabled(true, s, HolderStep(s)) && Enabled(false, s, HolderStep(s))
    ensures var t := Apply(s, HolderStep(s)); Consistent(t) && Work(t) + 1 == Work(s) && t.parked == s.parked
  {
    assert Holder(s) in s.acquisitions;
    StepKeepsConsistent(s, HolderStep(s));
  }

  /** What the holder still has to do, nobody else taking a step. */
  ghost function Finish(s: System): seq<Action>
    requires Consistent(s)
    decreases Work(s)
  {
    if !Held(s) then [] else HolderStepHelps(s); [HolderStep(s)] + Finish(Apply(s, HolderStep(s)))
  }

  /** From every reachable state the holder alone can finish, in a bounded number of steps that nobody can block,
   and then whoever waits can take the slot. */
  lemma {:induction false} HolderCanFinish(s: System)
    requires Consistent(s)
    ensures IsRun(true, s, Finish(s)) && IsRun(false, s, Finish(s))
    ensures |Finish(s)| == Work(s)
    ensures var t := After(s, Finish(s)); !t.slot && t.parked == s.parked && forall op | op in t.parked :: Enabled(true, t, TakeAfterWait(op))
    decreases Work(s)
  {
    if Held(s) {
      HolderStepHelps(s);
      assert Finish(s)[1..] == Finish(Apply(s, HolderStep(s)));
      HolderCanFinish(Apply(s, HolderStep(s)));
    }
  }

  // ----- A context used outside Run -----------------------------------------------------

  lemma OneOperationThenAnother(reach: System -> bool, op: string, next: string)
    requires Closed(true, reach)
    ensures reach(OneAfterAnother(op, next, 0))
  {
    FirstOperationStarts(true, reach, op);
    OneOperation(reach, op, multiset{});
    NextOperationStarts(true, reach, op, next, 0, multiset{});
  }

  lemma EarlyReleaseLetsAnotherIn(reach: System -> bool, op: string, next: string)
    requires Closed(false, reach) && reach(Settled(true, op, [Acquisition(op, Recorded, 1)], [], []))
    ensures reach(OneAfterAnother(op, next, 1))
  {
    var running, cleared := Settled(true, op, [Acquisition(op, Recorded, 1)], [], []), Settled(true, "", [Acquisition(op, Cleared, 1)], [], []);
    ReachMore(false, reach, running, Clear(0));
    assert Apply(running, Clear(0)).acquisitions == cleared.acquisitions;
    var none: seq<Acquisition> := [];
    assert none + [Acquisition(op, Cleared, 1)] == [Acquisition(op, Cleared, 1)];
    assert none + [Acquisition(op, Returned, 1)] == [Acquisition(op, Returned, 1)];
    OperationFrees(false, reach, cleared, none, op, 1);
    NextOperationStarts(false, reach, op, next, 1, multiset{});
  }

  lemma KeptContextRuns(reach: System -> bool, op: string, next: string)
    requires Closed(false, reach) && reach(OneAfterAnother(op, next, 0))
    ensures Apply(OneAfterAnother(op, next, 0), NestedBegin(0)) == OneAfterAnother(op, next, 1)
    ensures reach(OneAfterAnother(op, next, 1))
  {
    var s := OneAfterAnother(op, next, 0);
    ReachMore(false, reach, s, NestedBegin(0));
    assert Apply(s, NestedBegin(0)).acquisitions == OneAfterAnother(op, next, 1).acquisitions;
  }

  /**
   The token stays in a context kept after its operation ended: used then, its call runs beside the
   present operation. Up to that call the run keeps to Run, which makes the call only inside a function.
   */
  lemma KeptContextBreaksExclusion(op: string, next: string)
    ensures var s := OneAfterAnother(op, next, 0);
            && Reachable(true, s) && !Enabled(true, s, NestedBegin(0)) && Enabled(false, s, NestedBegin(0))
            && Apply(s, NestedBegin(0)) == OneAfterAnother(op, next, 1)
    ensures Reachable(false, OneAfterAnother(op, next, 1)) && !Reachable(true, OneAfterAnother(op, next, 1))
  {
    ReachableIsClosed(true);
    ReachableIsClosed(false);
    OneOperationThenAnother(s => Reachable(true, s), op, next);
    ContainedRunsReachLess(OneAfterAnother(op, next, 0));
    KeptContextRuns(s => Reachable(false, s), op, next);
    OverlapIsNotContained(OneAfterAnother(op, next, 1));
  }

  /**
   A release called while the operation's function still runs lets the next one in beside it. Run defers
   the release until its function has returned.
   */
  lemma EarlyReleaseBreaksExclusion(op: string, next: string)
    ensures var s := Settled(true, op, [Acquisition(op, Recorded, 1)], [], []);
            Reachable(true, s) && !Enabled(true, s, Clear(0)) && Enabled(false, s, Clear(0))
    ensures Reachable(false, OneAfterAnother(op, next, 1)) && !Reachable(true, OneAfterAnother(op, next, 1))
  {
    ReachableIsClosed(true);
    ReachableIsClosed(false);
    FirstOperationStarts(true, s => Reachable(true, s), op);
    FirstOperationStarts(false, s => Reachable(false, s), op);
    EarlyReleaseLetsAnotherIn(s => Reachable(false, s), op, next);
    OverlapIsNotContained(OneAfterAnother(op, next, 1));
  }

  lemma ContainedRunsReachLess(s: System)
    requires Reachable(true, s)
    ensures Reachable(false, s)
  {
  }

  lemma OverlapIsNotContained(s: System)
    requires |s.acquisitions| >= 2 && s.acquisitions[0].bodies > 0 && s.acquisitions[1].bodies > 0
    ensures !Reachable(true, s)
  {
    if Reachable(true, s) {
      var actions :| IsRun(true, INITIAL, actions) && IsRun(false, INITIAL, actions) && After(INITIAL, actions) == s;
      OneHolderAtATime(actions, 0, 1);
    }
  }

  // ----- The code, one caller at a time ----------------------------------------------------

  /** An operation and the calls to Run it makes with the context it is given. */
  datatype Operation = Operation(name: string, wait: bool, nested: seq<Operation>)

  /** The fields of the coordinator, each statement in step with the system above. */
  class Coordinator {
    var sem: bool
    var current: string
    var waiting: int
    ghost var system: System

    constructor ()
      ensures Valid() && system == INITIAL
    {
      sem, current, waiting := false, "", 0;
      system := INITIAL;
    }

    ghost predicate Valid()
      reads this
    {
      Consistent(system) && sem == system.slot && current == system.current && waiting == system.waiting
    }

    ghost method Do(a: Action)
      requires Consistent(system) && Enabled(true, system, a)
      modifies this`system
      ensures Enabled(false, old(system), a) && system == Apply(old(system), a) && Consistent(system)
    {
      StepKeepsConsistent(system, a);
      system := Apply(system, a);
    }

    /** Counted while it waits: nobody else is about, so the slot is free when it comes to it. */
    method Queue(op: string)
      requires Valid() && !sem
      modifies this
      ensures Valid()
      ensures system == old(system).(slot := true, waiting := old(system).waiting + 1,
                                     acquisitions := old(system).acquisitions + [Acquisition(op, Waited, 0)])
    {
      ghost var was := system;
      waiting := waiting + 1;
      Do(Park(op));
      sem := true;
      Do(TakeAfterWait(op));
      assert system.parked == was.parked;
    }

    method Wait(op: string)
      requires Valid() && !sem
      modifies this
      ensures Valid()
      ensures system == old(system).(slot := true, acquisitions := old(system).acquisitions + [Acquisition(op, Taken, 0)])
    {
      ghost var before := system.acquisitions;
      Queue(op);
      waiting := waiting - 1;
      Do(Uncount(|before|));
      assert system.acquisitions == before + [Acquisition(op, Taken, 0)];
    }

    /** What a refused caller is told. */
    method Refuse(op: string) returns (name: string)
      requires Valid() && sem
      modifies this`system
      ensures Valid() && name == current && system == old(system).(told := old(system).told + [Told(op, name)])
    {
      ghost var was := system;
      Do(Conflict(op));
      name := current;
      Do(Tell(op));
      assert system.refused == was.refused;
    }

    /** Nobody else is about, so a caller that waits finds the slot free. */
    method Take(op: string, wait: bool) returns (conflict: Option<string>)
      requires Valid() && (wait ==> !sem)
      modifies this
      ensures Valid() && conflict == if old(sem) then Some(old(current)) else None
      ensures system == if conflict.Some? then old(system).(told := old(system).told + [Told(op, conflict.value)])
                        else old(system).(slot := true, acquisitions := old(system).acquisitions + [Acquisition(op, Taken, 0)])
    {
      if wait {
        Wait(op);
      } else {
        if sem {
          var name := Refuse(op);
          return Some(name);
        }
        sem := true;
        Do(TryTake(op));
      }
      conflict := None;
    }

    method Begin(op: string, wait: bool) returns (conflict: Option<string>, ghost id: Id)
      requires Valid() && (wait ==> !sem)
      modifies this
      ensures Valid() && id == |old(system).acquisitions|
      ensures conflict == if old(sem) then Some(old(current)) else None
      ensures conflict.Some? ==> system == old(system).(told := old(system).told + [Told(op, conflict.value)])
      ensures conflict.None? ==> system == old(system).(slot := true, current := op,
                                                        acquisitions := old(system).acquisitions + [Acquisition(op, Recorded, 1)])
    {
      id := |system.acquisitions|;
      ghost var was := system.acquisitions;
      conflict := Take(op, wait);
      if conflict.None? {
        current := op;
        Do(Record(id));
        assert system.acquisitions == was + [Acquisition(op, Recorded, 1)];
      }
    }

    /** The name goes first, the slot after it. */
    method Release(ghost id: Id)
      requires Valid() && id < |system.acquisitions|
      requires system.acquisitions[id].phase == Recorded && system.acquisitions[id].bodies == 0
      modifies this
      ensures Valid()
      ensures system == old(system).(slot := false, current := "", freed := old(system).freed + [id],
                                     acquisitions := old(system).acquisitions[id := old(system).acquisitions[id].(phase := Returned)])
    {
      current := "";
      Do(Clear(id));
      assert system.slot;
      sem := false;
      Do(Free(id));
    }

    /**
     A whole operation, its nested ones included. Under a token it neither blocks nor touches the slot,
     even asked to wait while the slot is held; without one it leaves the slot free and no name shown.
     */
    method Run(token: bool, ghost holder: Id, o: Operation) returns (conflict: Option<string>)
      requires Valid() && (token ==> holder < |system.acquisitions| && system.acquisitions[holder].bodies > 0)
      requires !token && o.wait ==> !sem
      modifies this
      ensures Valid() && conflict == if !token && old(sem) then Some(old(current)) else None
      ensures token ==> system == old(system)
      ensures conflict.Some? ==> system == old(system).(told := old(system).told + [Told(o.name, conflict.value)])
      ensures !token && conflict.None? ==>
                system == old(system).(acquisitions := old(system).acquisitions + [Acquisition(o.name, Returned, 0)],
                                       freed := old(system).freed + [|old(system).acquisitions|])
      decreases o, 1
    {
      ghost var was := system;
      if token {
        RunNested(holder, o.nested);
        return None;
      }
      ghost var id;
      conflict, id := Begin(o.name, o.wait);
      if conflict.Some? {
        return;
      }
      RunAll(id, o.nested);
      Do(BodyEnd(id));
      Release(id);
      assert system.acquisitions == was.acquisitions + [Acquisition(o.name, Returned, 0)];
    }

    method RunNested(ghost holder: Id, operations: seq<Operation>)
      requires Valid() && holder < |system.acquisitions| && system.acquisitions[holder].bodies > 0
      modifies this
      ensures Valid() && system == old(system)
      decreases operations, 1
    {
      ghost var was := system;
      Do(NestedBegin(holder));
      RunAll(holder, operations);
      Do(BodyEnd(holder));
      assert system.acquisitions == was.acquisitions;
    }

    method RunAll(ghost holder: Id, operations: seq<Operation>)
      requires Valid() && holder < |system.acquisitions| && system.acquisitions[holder].bodies > 0
      modifies this
      ensures Valid() && system == old(system)
      decreases operations, 0
    {
      for i := 0 to |operations|
        invariant Valid() && system == old(system)
      {
        var _ := Run(true, holder, operations[i]);
      }
    }
  }
}
