/**
 Picking a replacement exit (internal/services/autoswitch.go): the bounded retry loop, what it
 blames on a node and what it does not, and the backoff between unexpected exits.
 */
module AutoSwitch {
  import opened Wrappers
  import opened Ranking
  import opened StableSort

  const MAX_ATTEMPTS: nat := 3
  const SELECTION_LIMIT: nat := 1000

  /** How an activation ends: success, the node refusing, an error of our own, or the operation lock being held. */
  datatype Activation = Connected | Refused | Failed | Conflict

  datatype Attempt = Attempt(id: Id, outcome: Activation)

  /**
   What the selections read. The pool may change between attempts, so the k-th selection has its
   own `rows(k)` (the ready rows, in the store's order) and `settings(k)`; None is a failed read.
   */
  datatype World = World(
    rows: nat -> Option<seq<Node>>, settings: nat -> Option<Settings>, sameCountry: (string, string, string) -> bool)

  /** Rows come from a table with a primary key. */
  ghost predicate Keyed(w: World) {
    forall k: nat :: w.rows(k).Some? ==> NoRepeats(NodeIds(w.rows(k).value))
  }

  function Without(nodes: seq<Node>, excluded: set<Id>): (r: seq<Node>)
    ensures forall n :: n in r <==> n in nodes && n.id !in excluded
  {
    if nodes == [] then []
    else
      var n, before := nodes[|nodes| - 1], Without(nodes[..|nodes| - 1], excluded);
      assert nodes == nodes[..|nodes| - 1] + [n];
      if n.id in excluded then before else before + [n]
  }

  lemma DistinctFront(nodes: seq<Node>)
    requires nodes != [] && NoRepeats(NodeIds(nodes))
    ensures NoRepeats(NodeIds(nodes[..|nodes| - 1]))
    ensures forall n | n in nodes[..|nodes| - 1] :: n.id != nodes[|nodes| - 1].id
  {
    var front := nodes[..|nodes| - 1];
    assert NodeIds(front) == NodeIds(nodes)[..|nodes| - 1];
    forall n | n in front
      ensures n.id != nodes[|nodes| - 1].id
    {
      var i :| 0 <= i < |front| && front[i] == n;
      assert NodeIds(nodes)[i] != NodeIds(nodes)[|nodes| - 1];
    }
  }

  lemma DistinctAppend(nodes: seq<Node>, n: Node)
    requires NoRepeats(NodeIds(nodes)) && forall m | m in nodes :: m.id != n.id
    ensures NoRepeats(NodeIds(nodes + [n]))
  {
    assert NodeIds(nodes + [n]) == NodeIds(nodes) + [n.id];
    forall i | 0 <= i < |nodes|
      ensures NodeIds(nodes)[i] != n.id
    {
      assert nodes[i] in nodes;
    }
  }

  lemma {:induction false} WithoutDistinct(nodes: seq<Node>, excluded: set<Id>)
    requires NoRepeats(NodeIds(nodes))
    ensures NoRepeats(NodeIds(Without(nodes, excluded)))
  {
    if nodes != [] {
      DistinctFront(nodes);
      WithoutDistinct(nodes[..|nodes| - 1], excluded);
      DistinctAppend(Without(nodes[..|nodes| - 1], excluded), nodes[|nodes| - 1]);
    }
  }

  lemma {:induction false} AdmittedDistinct(nodes: seq<Node>, s: Settings, sameCountry: (string, string, string) -> bool)
    requires NoRepeats(NodeIds(nodes))
    ensures NoRepeats(NodeIds(Admitted(nodes, s, false, sameCountry)))
  {
    if nodes != [] {
      DistinctFront(nodes);
      AdmittedDistinct(nodes[..|nodes| - 1], s, sameCountry);
      DistinctAppend(Admitted(nodes[..|nodes| - 1], s, false, sameCountry), nodes[|nodes| - 1]);
    }
  }

  predicate Readable(w: World, k: nat) {
    w.rows(k).Some? && w.settings(k).Some?
  }

  /** Among whom the k-th selection chooses. */
  function Candidates(w: World, k: nat, excluded: set<Id>): seq<Node>
    requires Readable(w, k)
  {
    var rows := w.rows(k).value;
    Without(Admitted(rows[..Min(SELECTION_LIMIT, |rows|)], w.settings(k).value, false, w.sameCountry), excluded)
  }

  function Choice(w: World, k: nat, excluded: set<Id>): (r: Option<Node>)
    requires Readable(w, k)
  {
    var ranked := Ranked(Candidates(w, k, excluded), w.settings(k).value.mode);
    if ranked == [] then None else Some(ranked[0])
  }

  /** The rows the k-th selection reads that the settings allow and that are not excluded. */
  ghost predicate Qualifies(w: World, k: nat, excluded: set<Id>, n: Node)
    requires Readable(w, k)
  {
    && n in w.rows(k).value[..Min(SELECTION_LIMIT, |w.rows(k).value|)]
    && Meets(w.settings(k).value, n, false, w.sameCountry)
    && n.id !in excluded
  }

  lemma CandidatesQualify(w: World, k: nat, excluded: set<Id>, n: Node)
    requires Readable(w, k)
    ensures n in Candidates(w, k, excluded) <==> Qualifies(w, k, excluded, n)
  {
    MeetsExactly(w.settings(k).value, n, false, w.sameCountry);
  }

  /** There is a choice as soon as somebody qualifies, and nobody who does beats it by what the mode goes by. */
  lemma ChoiceIsBest(w: World, k: nat, excluded: set<Id>, n: Node)
    requires Readable(w, k) && Qualifies(w, k, excluded, n)
    ensures Choice(w, k, excluded).Some?
    ensures w.settings(k).value.mode == SpeedFirst ==> SpeedLeads(Choice(w, k, excluded).value, n)
    ensures w.settings(k).value.mode == ResidentialFirst ==> ResidenceLeads(Choice(w, k, excluded).value, n)
    ensures w.settings(k).value.mode !in {SpeedFirst, ResidentialFirst, Smart} ==> LatencyLeads(Choice(w, k, excluded).value, n)
  {
    CandidatesQualify(w, k, excluded, n);
    FirstLeads(Candidates(w, k, excluded), w.settings(k).value.mode, n);
  }

  /** In the smart mode nobody who qualifies has a higher total. */
  lemma SmartChoiceIsBest(w: World, k: nat, excluded: set<Id>, n: Node, latency: (int, int), speed: (int, int), sessions: (int, int))
    requires Readable(w, k) && Qualifies(w, k, excluded, n) && w.settings(k).value.mode == Smart
    requires Span(Candidates(w, k, excluded), m => Latency(m, false), latency)
    requires Span(Candidates(w, k, excluded), Speed, speed) && Span(Candidates(w, k, excluded), (m: Node) => m.sessions, sessions)
    ensures Choice(w, k, excluded).Some?
    ensures Total(n, false, latency, speed, sessions) <= Total(Choice(w, k, excluded).value, false, latency, speed, sessions)
  {
    CandidatesQualify(w, k, excluded, n);
    FirstHasHighestTotal(Candidates(w, k, excluded), latency, speed, sessions, n);
  }

  lemma ChoiceQualifies(w: World, k: nat, excluded: set<Id>)
    requires Readable(w, k) && Choice(w, k, excluded).Some?
    ensures Qualifies(w, k, excluded, Choice(w, k, excluded).value)
  {
    var nodes := Candidates(w, k, excluded);
    SameElements(nodes, Ranked(nodes, w.settings(k).value.mode));
    CandidatesQualify(w, k, excluded, Choice(w, k, excluded).value);
  }

  type Selector = (nat, set<Id>) -> Option<Id>

  /** The selections as a function of the turn and of what is excluded by then. */
  function Selections(w: World): Selector {
    (k: nat, excluded: set<Id>) =>
      if Readable(w, k) && Choice(w, k, excluded).Some? then Some(Choice(w, k, excluded).value.id) else None
  }

  method Drop(nodes: seq<Node>, excluded: set<Id>) returns (filtered: seq<Node>)
    ensures filtered == Without(nodes, excluded)
  {
    filtered := [];
    for i := 0 to |nodes|
      invariant filtered == Without(nodes[..i], excluded)
    {
      assert nodes[..i + 1][..i] == nodes[..i];
      if nodes[i].id !in excluded {
        filtered := filtered + [nodes[i]];
      }
    }
    assert nodes[..|nodes|] == nodes;
  }

  lemma NobodyBeatsTheChoice(w: World, k: nat, excluded: set<Id>)
    requires Readable(w, k)
    ensures Choice(w, k, excluded) == None <==> forall n :: !Qualifies(w, k, excluded, n)
    ensures Choice(w, k, excluded).Some? ==> Qualifies(w, k, excluded, Choice(w, k, excluded).value)
    ensures Choice(w, k, excluded).Some? && w.settings(k).value.mode != Smart ==>
              forall n | Qualifies(w, k, excluded, n) :: Leads(Choice(w, k, excluded).value, n, w.settings(k).value.mode)
  {
    forall n | Qualifies(w, k, excluded, n)
      ensures Choice(w, k, excluded).Some?
      ensures w.settings(k).value.mode != Smart ==> Leads(Choice(w, k, excluded).value, n, w.settings(k).value.mode)
    {
      ChoiceIsBest(w, k, excluded, n);
    }
    if Choice(w, k, excluded).Some? {
      ChoiceQualifies(w, k, excluded);
    }
  }

  /**
   A selection fails only with its reads; it chooses a node that qualifies and
   that none other beats, or nobody when nobody does.
   */
  method SelectExcluding(w: World, k: nat, excluded: set<Id>) returns (choice: Option<Node>, failed: bool)
    requires Keyed(w)
    ensures failed <==> w.rows(k) == None || w.settings(k) == None
    ensures failed ==> choice == None
    ensures !failed ==> choice == Choice(w, k, excluded)
    ensures !failed ==> (choice == None <==> forall n :: !Qualifies(w, k, excluded, n))
    ensures choice.Some? ==> Qualifies(w, k, excluded, choice.value)
    ensures choice.Some? && w.settings(k).value.mode != Smart ==>
              forall n | Qualifies(w, k, excluded, n) :: Leads(choice.value, n, w.settings(k).value.mode)
    ensures (if choice.Some? then Some(choice.value.id) else None) == Selections(w)(k, excluded)
  {
    var rows, settings := w.rows(k), w.settings(k);
    if rows == None || settings == None {
      return None, true;
    }
    var page := rows.value[..Min(SELECTION_LIMIT, |rows.value|)];
    assert NodeIds(page) == NodeIds(rows.value)[..|page|];
    var candidates := ApplyFilters(page, settings.value, false, w.sameCountry);
    AdmittedDistinct(page, settings.value, w.sameCountry);
    WithoutDistinct(candidates, excluded);
    var filtered := Drop(candidates, excluded);
    var ranked := SortCandidates(filtered, settings.value);
    choice := if ranked == [] then None else Some(ranked[0]);
    failed := false;
    NobodyBeatsTheChoice(w, k, excluded);
  }

  // ----- The loop -------------------------------------------------------------------

  function Tried(trace: seq<Attempt>): set<Id> {
    if trace == [] then {} else Tried(trace[..|trace| - 1]) + {trace[|trace| - 1].id}
  }

  lemma {:induction false} TriedContains(trace: seq<Attempt>, i: nat)
    requires i < |trace|
    ensures trace[i].id in Tried(trace)
  {
    if i < |trace| - 1 {
      TriedContains(trace[..|trace| - 1], i);
    }
  }

  function Base(active: Option<Id>, skip: set<Id>): set<Id> {
    skip + if active.Some? then {active.value} else {}
  }

  /** Nodes the k-th selection must not return: the base set, and what was tried before. */
  function ExcludedAt(base: set<Id>, trace: seq<Attempt>, k: nat): set<Id>
    requires k <= |trace|
  {
    base + Tried(trace[..k])
  }

  predicate Continues(outcome: Activation) {
    outcome.Refused? || outcome.Failed?
  }

  /** Every attempt was the selection at its turn, and only failures that are not conflicts lead to another. */
  ghost predicate Follows(select: Selector, activate: (nat, Id) -> Activation, base: set<Id>, trace: seq<Attempt>) {
    && (forall k | 0 <= k < |trace| ::
          && select(k, ExcludedAt(base, trace, k)) == Some(trace[k].id)
          && trace[k].outcome == activate(k, trace[k].id))
    && (forall k | 0 <= k < |trace| - 1 :: Continues(trace[k].outcome))
  }

  /** The nodes that refused, in order: the only ones that are blamed. */
  function Blamed(trace: seq<Attempt>): seq<Id> {
    if trace == [] then []
    else
      var last := trace[|trace| - 1];
      Blamed(trace[..|trace| - 1]) + if last.outcome.Refused? then [last.id] else []
  }

  datatype Ending = Disabled | NoFixedNode | ReadError | Success | NobodyLeft | ConflictReturned | GaveUp | FixedResult(outcome: Activation)

  ghost predicate GoesOn(trace: seq<Attempt>) {
    forall k | 0 <= k < |trace| :: Continues(trace[k].outcome)
  }

  /** How the loop can end after these attempts; it goes on when no ending fits. */
  ghost predicate EndsWith(select: Selector, readable: nat -> bool, base: set<Id>, trace: seq<Attempt>, ending: Ending) {
    match ending
    case Success => trace != [] && trace[|trace| - 1].outcome.Connected?
    case ConflictReturned => trace != [] && trace[|trace| - 1].outcome.Conflict?
    case GaveUp => GoesOn(trace) && |trace| == MAX_ATTEMPTS
    case ReadError => GoesOn(trace) && |trace| < MAX_ATTEMPTS && !readable(|trace|)
    case NobodyLeft =>
      GoesOn(trace) && |trace| < MAX_ATTEMPTS && readable(|trace|) && select(|trace|, ExcludedAt(base, trace, |trace|)) == None
    case _ => false
  }

  /** No attempt repeats a node, or tries one that was to be skipped or was active. */
  lemma AttemptsAreDistinct(w: World, activate: (nat, Id) -> Activation, active: Option<Id>, skip: set<Id>, trace: seq<Attempt>)
    requires Follows(Selections(w), activate, Base(active, skip), trace)
    ensures forall i, j | 0 <= i < j < |trace| :: trace[i].id != trace[j].id
    ensures forall k | 0 <= k < |trace| :: trace[k].id !in skip && Some(trace[k].id) != active
  {
    var base := Base(active, skip);
    forall k | 0 <= k < |trace|
      ensures trace[k].id !in ExcludedAt(base, trace, k)
    {
      SelectionIsNew(w, k, ExcludedAt(base, trace, k));
    }
    forall i, j | 0 <= i < j < |trace|
      ensures trace[i].id != trace[j].id
    {
      TriedContains(trace[..j], i);
    }
  }

  /** Every attempt of a switch is on a node that qualifies at its turn, and that nobody who does beats. */
  lemma AttemptsAreBest(w: World, activate: (nat, Id) -> Activation, active: Option<Id>, skip: set<Id>, trace: seq<Attempt>, k: nat)
    returns (n: Node)
    requires Follows(Selections(w), activate, Base(active, skip), trace) && k < |trace|
    ensures Readable(w, k) && n.id == trace[k].id
    ensures var excluded := ExcludedAt(Base(active, skip), trace, k);
            && Qualifies(w, k, excluded, n)
            && (w.settings(k).value.mode != Smart ==>
                  forall m | Qualifies(w, k, excluded, m) :: Leads(n, m, w.settings(k).value.mode))
            && (w.settings(k).value.mode == Smart ==>
                  forall m, latency, speed, sessions |
                    && Qualifies(w, k, excluded, m)
                    && Span(Candidates(w, k, excluded), m => Latency(m, false), latency)
                    && Span(Candidates(w, k, excluded), Speed, speed)
                    && Span(Candidates(w, k, excluded), (m: Node) => m.sessions, sessions) ::
                    Total(m, false, latency, speed, sessions) <= Total(n, false, latency, speed, sessions))
  {
    var excluded := ExcludedAt(Base(active, skip), trace, k);
    assert Selections(w)(k, excluded) == Some(trace[k].id);
    n := Choice(w, k, excluded).value;
    NobodyBeatsTheChoice(w, k, excluded);
    if w.settings(k).value.mode == Smart {
      forall m, latency, speed, sessions |
        && Qualifies(w, k, excluded, m)
        && Span(Candidates(w, k, excluded), m => Latency(m, false), latency)
        && Span(Candidates(w, k, excluded), Speed, speed)
        && Span(Candidates(w, k, excluded), (m: Node) => m.sessions, sessions)
        ensures Total(m, false, latency, speed, sessions) <= Total(n, false, latency, speed, sessions)
      {
        SmartChoiceIsBest(w, k, excluded, m, latency, speed, sessions);
      }
    }
  }

  lemma SelectionIsNew(w: World, k: nat, excluded: set<Id>)
    ensures Selections(w)(k, excluded).Some? ==> Selections(w)(k, excluded).value !in excluded
  {
    if Readable(w, k) && Choice(w, k, excluded).Some? {
      ChoiceQualifies(w, k, excluded);
    }
  }

  lemma FollowsExtends(select: Selector, activate: (nat, Id) -> Activation, base: set<Id>, trace: seq<Attempt>, next: Attempt)
    requires Follows(select, activate, base, trace)
    requires select(|trace|, ExcludedAt(base, trace, |trace|)) == Some(next.id)
    requires next.outcome == activate(|trace|, next.id)
    requires forall k | 0 <= k < |trace| :: Continues(trace[k].outcome)
    ensures Follows(select, activate, base, trace + [next])
    ensures Blamed(trace + [next]) == Blamed(trace) + if next.outcome.Refused? then [next.id] else []
    ensures ExcludedAt(base, trace + [next], |trace| + 1) == ExcludedAt(base, trace, |trace|) + {next.id}
  {
    var longer := trace + [next];
    assert longer[..|trace|] == trace && trace[..|trace|] == trace && longer[..|trace| + 1] == longer;
    forall k | 0 <= k <= |trace|
      ensures longer[..k] == trace[..k]
    {
    }
  }

  lemma NextAgrees(select: Selector, activate: (nat, Id) -> Activation, base: set<Id>, a: seq<Attempt>, b: seq<Attempt>, k: nat)
    requires Follows(select, activate, base, a) && Follows(select, activate, base, b) && k < |a| && k < |b|
    requires a[..k] == b[..k]
    ensures a[k] == b[k]
  {
    assert select(k, ExcludedAt(base, a, k)) == Some(a[k].id) == Some(b[k].id);
  }

  lemma PrefixesAgree<T>(a: seq<T>, b: seq<T>, n: nat)
    requires n < |a| && n < |b| && a[..n] == b[..n] && a[n] == b[n]
    ensures a[..n + 1] == b[..n + 1]
  {
    assert a[..n + 1] == a[..n] + [a[n]] && b[..n + 1] == b[..n] + [b[n]];
  }

  lemma {:induction false} TracesAgree(select: Selector, activate: (nat, Id) -> Activation, base: set<Id>, a: seq<Attempt>, b: seq<Attempt>, n: nat)
    requires Follows(select, activate, base, a) && Follows(select, activate, base, b) && n <= |a| && n <= |b|
    ensures a[..n] == b[..n] && (n > 0 ==> a[n - 1] == b[n - 1])
    ensures ExcludedAt(base, a, n) == ExcludedAt(base, b, n)
  {
    if n > 0 {
      TracesAgree(select, activate, base, a, b, n - 1);
      NextAgrees(select, activate, base, a, b, n - 1);
      PrefixesAgree(a, b, n - 1);
    }
  }

  lemma EndedIsNoPrefix(select: Selector, readable: nat -> bool, activate: (nat, Id) -> Activation, base: set<Id>,
                        a: seq<Attempt>, ending: Ending, b: seq<Attempt>)
    requires forall k: nat, excluded :: !readable(k) ==> select(k, excluded) == None
    requires Follows(select, activate, base, a) && EndsWith(select, readable, base, a, ending)
    requires Follows(select, activate, base, b) && |b| <= MAX_ATTEMPTS
    ensures |b| <= |a|
  {
    TracesAgree(select, activate, base, a, b, Min(|a|, |b|));
  }

  /** What is attempted, and how it ends, is determined by what the selections and activations answer. */
  lemma LoopIsDetermined(select: Selector, readable: nat -> bool, activate: (nat, Id) -> Activation, base: set<Id>,
                         a: seq<Attempt>, endA: Ending, b: seq<Attempt>, endB: Ending)
    requires forall k: nat, excluded :: !readable(k) ==> select(k, excluded) == None
    requires Follows(select, activate, base, a) && EndsWith(select, readable, base, a, endA) && |a| <= MAX_ATTEMPTS
    requires Follows(select, activate, base, b) && EndsWith(select, readable, base, b, endB) && |b| <= MAX_ATTEMPTS
    ensures a == b && endA == endB
  {
    EndedIsNoPrefix(select, readable, activate, base, a, endA, b);
    EndedIsNoPrefix(select, readable, activate, base, b, endB, a);
    TracesAgree(select, activate, base, a, b, |a|);
    assert a[..|a|] == a && b[..|b|] == b;
    EndingIsDetermined(select, readable, base, a, endA, endB);
  }

  lemma EndingIsDetermined(select: Selector, readable: nat -> bool, base: set<Id>, trace: seq<Attempt>, endA: Ending, endB: Ending)
    requires |trace| <= MAX_ATTEMPTS
    requires EndsWith(select, readable, base, trace, endA) && EndsWith(select, readable, base, trace, endB)
    ensures endA == endB
  {
    if trace != [] {
      assert Continues(trace[|trace| - 1].outcome) <==>
             !trace[|trace| - 1].outcome.Connected? && !trace[|trace| - 1].outcome.Conflict?;
    }
  }

  /** The loop: at most three candidates, each selected anew; `readable(k)` says whether the k-th selection's reads succeed. */
  method TryInTurn(select: Selector, readable: nat -> bool, activate: (nat, Id) -> Activation, base: set<Id>)
    returns (ending: Ending, trace: seq<Attempt>, blacklisted: seq<Id>)
    requires forall k: nat, excluded :: !readable(k) ==> select(k, excluded) == None
    ensures Follows(select, activate, base, trace)
    ensures |trace| <= MAX_ATTEMPTS && blacklisted == Blamed(trace)
    ensures EndsWith(select, readable, base, trace, ending)
  {
    trace, blacklisted := [], [];
    var excluded := base;
    for i := 0 to MAX_ATTEMPTS
      invariant |trace| == i && Follows(select, activate, base, trace) && blacklisted == Blamed(trace)
      invariant excluded == ExcludedAt(base, trace, i)
      invariant GoesOn(trace)
    {
      if !readable(i) {
        return ReadError, trace, blacklisted;
      }
      var candidate := select(i, excluded);
      if candidate == None {
        return NobodyLeft, trace, blacklisted;
      }
      var id := candidate.value;
      var attempt := Attempt(id, activate(i, id));
      FollowsExtends(select, activate, base, trace, attempt);
      trace := trace + [attempt];
      if attempt.outcome.Connected? {
        return Success, trace, blacklisted;
      }
      if attempt.outcome.Conflict? {
        return ConflictReturned, trace, blacklisted;
      }
      excluded := excluded + {id};
      if attempt.outcome.Failed? {
        continue;
      }
      blacklisted := blacklisted + [id];
    }
    ending := GaveUp;
  }

  /**
   The trace is what was activated, in order; `blacklisted` what was put into cooldown;
   `disconnected` whether the tunnel was taken down for want of a candidate.
   */
  method SwitchExcluding(atEntry: Option<Settings>, active: Option<Id>, skip: set<Id>,
                         select: Selector, readable: nat -> bool, activate: (nat, Id) -> Activation)
    returns (ending: Ending, trace: seq<Attempt>, blacklisted: seq<Id>, disconnected: bool)
    requires forall k: nat, excluded :: !readable(k) ==> select(k, excluded) == None
    ensures atEntry.None? ==> ending.ReadError? && trace == []
    ensures atEntry.Some? && !atEntry.value.enabled ==> ending.Disabled? && trace == []
    ensures atEntry.Some? && atEntry.value.enabled && atEntry.value.mode.Fixed? ==>
              match atEntry.value.fixed {
                case None => ending.NoFixedNode? && trace == []
                case Some(id) => if id == "" then ending.NoFixedNode? && trace == []
                                 else ending == FixedResult(activate(0, id)) && trace == [Attempt(id, activate(0, id))]
              }
    ensures atEntry.Some? && atEntry.value.enabled && !atEntry.value.mode.Fixed? ==>
              && Follows(select, activate, Base(active, skip), trace) && |trace| <= MAX_ATTEMPTS
              && EndsWith(select, readable, Base(active, skip), trace, ending)
    ensures blacklisted == if ending.FixedResult? then [] else Blamed(trace)
    ensures disconnected <==> ending.NobodyLeft?
  {
    trace, blacklisted, disconnected := [], [], false;
    if atEntry == None {
      ending := ReadError;
    } else if !atEntry.value.enabled {
      ending := Disabled;
    } else if atEntry.value.mode.Fixed? {
      var fixed := atEntry.value.fixed;
      if fixed == None || fixed.value == "" {
        ending := NoFixedNode;
      } else {
        var outcome := activate(0, fixed.value);
        ending, trace := FixedResult(outcome), [Attempt(fixed.value, outcome)];
      }
    } else {
      var excluded := skip;
      if active.Some? {
        excluded := excluded + {active.value};
      }
      ending, trace, blacklisted := TryInTurn(select, readable, activate, excluded);
      disconnected := ending.NobodyLeft?;
    }
  }

  lemma {:induction false} BlamedExactly(trace: seq<Attempt>, id: Id)
    ensures id in Blamed(trace) <==> exists k | 0 <= k < |trace| :: trace[k] == Attempt(id, Refused)
  {
    if trace != [] {
      var front, last := trace[..|trace| - 1], trace[|trace| - 1];
      BlamedExactly(front, id);
      if k :| 0 <= k < |trace| && trace[k] == Attempt(id, Refused) {
        assert k == |front| || front[k] == Attempt(id, Refused);
      }
      if k :| 0 <= k < |front| && front[k] == Attempt(id, Refused) {
        assert trace[k] == Attempt(id, Refused);
      }
      assert last == trace[|front|];
    }
  }

  // ----- Backing off ----------------------------------------------------------------

  /** In seconds. */
  const FIRST_BACKOFF := 5
  const MAX_BACKOFF := 300
  const STREAK_WINDOW := 600

  function Pow2(n: nat): (p: nat)
    ensures p > 0
  {
    if n == 0 then 1 else 2 * Pow2(n - 1)
  }

  lemma {:induction false} Pow2Grows(m: nat, n: nat)
    requires m <= n
    ensures Pow2(m) <= Pow2(n)
  {
    if m < n {
      Pow2Grows(m, n - 1);
    }
  }

  function Backoff(streak: int): int {
    if streak <= 1 then 0 else Min(FIRST_BACKOFF * Pow2(streak - 2), MAX_BACKOFF)
  }

  /** The wait never shrinks while the streak grows, doubles until it is capped, and stays at the cap. */
  lemma BackoffGrows(streak: int, later: int)
    requires streak <= later
    ensures Backoff(streak) <= Backoff(later) <= 300
    ensures streak >= 2 ==> Backoff(streak + 1) == Min(2 * Backoff(streak), 300)
    ensures (streak <= 1 ==> Backoff(streak) == 0) && Backoff(2) == 5
  {
    if streak >= 2 {
      Pow2Grows(streak - 2, later - 2);
    }
  }

  /** The first reconnect is immediate; the wait then doubles from five seconds up to five minutes. */
  method ReconnectBackoff(streak: int) returns (d: int)
    ensures d == Backoff(streak)
  {
    if streak <= 1 {
      return 0;
    }
    d := FIRST_BACKOFF;
    for i := 2 to streak
      invariant d == FIRST_BACKOFF * Pow2(i - 2) && d < MAX_BACKOFF
    {
      d := d * 2;
      if d >= MAX_BACKOFF {
        Pow2Grows(i - 1, streak - 2);
        return MAX_BACKOFF;
      }
    }
  }

  /** How many exits, up to and including the last, each followed the one before within ten minutes. */
  function Streak(exits: seq<int>): nat {
    if exits == [] then 0
    else if |exits| == 1 || exits[|exits| - 1] - exits[|exits| - 2] > STREAK_WINDOW then 1
    else 1 + Streak(exits[..|exits| - 1])
  }

  /** The streak is the longest run of exits up to the last in which no two neighbours are more than ten minutes apart. */
  lemma {:induction false} StreakIsLongest(exits: seq<int>)
    ensures Streak(exits) <= |exits| && (exits != [] ==> Streak(exits) > 0)
    ensures forall i | |exits| - Streak(exits) < i < |exits| :: exits[i] - exits[i - 1] <= 600
    ensures 0 < Streak(exits) < |exits| ==> exits[|exits| - Streak(exits)] - exits[|exits| - Streak(exits) - 1] > 600
  {
    if |exits| >= 2 && exits[|exits| - 1] - exits[|exits| - 2] <= STREAK_WINDOW {
      StreakIsLongest(exits[..|exits| - 1]);
    }
  }

  class ExitMonitor {
    var lastExitAt: Option<int>
    var exitStreak: nat
    ghost var exits: seq<int>

    ghost predicate Valid()
      reads this
    {
      && exitStreak == Streak(exits)
      && lastExitAt == if exits == [] then None else Some(exits[|exits| - 1])
    }

    constructor ()
      ensures Valid() && exits == []
    {
      lastExitAt, exitStreak, exits := None, 0, [];
    }

    /** The wait depends on the whole history of exits only through the current streak. */
    method NoteUnexpectedExit(now: int) returns (delay: int)
      requires Valid()
      modifies this
      ensures Valid() && exits == old(exits) + [now]
      ensures delay == Backoff(Streak(exits))
    {
      if lastExitAt == None || now - lastExitAt.value > STREAK_WINDOW {
        exitStreak := 0;
      }
      exitStreak := exitStreak + 1;
      lastExitAt := Some(now);
      assert (exits + [now])[..|exits|] == exits;
      exits := exits + [now];
      delay := ReconnectBackoff(exitStreak);
    }
  }
}
