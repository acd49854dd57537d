/**
 Which nodes a maintenance cycle probes (internal/services/maintenance.go), and how the choice
 rotates over cycles. `ProbeMany` (internal/services/probe.go) stamps every node it is handed.
 */
module ProbeRotation {
  import opened Wrappers
  import opened StableSort

  type Id = string

  const PROBE_BUDGET := 200

  /** How many rows one read of the candidates returns. */
  const FETCH_LIMIT := 5000

  /** Maintenance runs every three hours. */
  const CYCLES_PER_DAY := 8

  /** Probe times are compared as instants here; None is a node that was never probed. */
  datatype Candidate = Candidate(id: Id, lastProbed: Option<int>)

  predicate StampLess(a: Option<int>, b: Option<int>) {
    if a.None? != b.None? then a.None? else a.Some? && a.value < b.value
  }

  predicate LongerAgo(a: Candidate, b: Candidate) {
    StampLess(a.lastProbed, b.lastProbed)
  }

  lemma LongerAgoIsStrictWeak()
    ensures StrictWeak(LongerAgo)
  {
  }

  function Ids(nodes: seq<Candidate>): (ids: seq<Id>)
    ensures |ids| == |nodes| && forall i | 0 <= i < |ids| :: ids[i] == nodes[i].id
  {
    seq(|nodes|, i requires 0 <= i < |nodes| => nodes[i].id)
  }

  function Picked(nodes: seq<Candidate>): seq<Id> {
    Ids(StableSorted(nodes, LongerAgo)[..Min(PROBE_BUDGET, |nodes|)])
  }

  method ProbeSlice(candidates: seq<Candidate>) returns (out: seq<Id>)
    ensures out == Picked(candidates)
  {
    var nodes := StableSorted(candidates, LongerAgo);
    if |nodes| > PROBE_BUDGET {
      nodes := nodes[..PROBE_BUDGET];
    }
    assert nodes == StableSorted(candidates, LongerAgo)[..Min(PROBE_BUDGET, |candidates|)];
    out := [];
    for i := 0 to |nodes|
      invariant out == Ids(nodes[..i])
    {
      assert nodes[..i + 1] == nodes[..i] + [nodes[i]];
      out := out + [nodes[i].id];
    }
    assert nodes[..|nodes|] == nodes;
  }

  // ----- Before and after the choice -----------------------------------------------------

  /** The candidates neither tried earlier in the cycle nor carrying traffic. */
  function Eligible(all: seq<Candidate>, tested: set<Id>, active: Id): (r: seq<Candidate>)
    ensures forall n :: n in r <==> n in all && n.id !in tested && n.id != active
  {
    if all == [] then []
    else
      var front, last := Eligible(all[..|all| - 1], tested, active), all[|all| - 1];
      assert forall n :: n in all <==> n in all[..|all| - 1] || n == last;
      if last.id !in tested && last.id != active then front + [last] else front
  }

  method ChooseEligible(all: seq<Candidate>, tested: set<Id>, active: Id) returns (eligible: seq<Candidate>)
    ensures eligible == Eligible(all, tested, active)
  {
    eligible := [];
    for i := 0 to |all|
      invariant eligible == Eligible(all[..i], tested, active)
    {
      assert all[..i + 1][..i] == all[..i];
      if all[i].id !in tested && all[i].id != active {
        eligible := eligible + [all[i]];
      }
    }
    assert all[..|all|] == all;
  }

  /** Each id once, where it first occurs. */
  function FirstOccurrences(ids: seq<Id>): (r: seq<Id>)
    ensures NoRepeats(r) && forall id :: id in r <==> id in ids
  {
    if ids == [] then []
    else
      var front, last := FirstOccurrences(ids[..|ids| - 1]), ids[|ids| - 1];
      assert forall id :: id in ids <==> id in ids[..|ids| - 1] || id == last;
      if last in front then front else front + [last]
  }

  /** The ids that get a probe, and a stamp, of their own. */
  method Unique(nodeIDs: seq<Id>) returns (unique: seq<Id>)
    ensures unique == FirstOccurrences(nodeIDs)
  {
    var seen: set<Id> := {};
    unique := [];
    for i := 0 to |nodeIDs|
      invariant unique == FirstOccurrences(nodeIDs[..i])
      invariant seen == set id | id in unique
    {
      assert nodeIDs[..i + 1][..i] == nodeIDs[..i];
      var id := nodeIDs[i];
      if id !in seen {
        seen := seen + {id};
        unique := unique + [id];
      }
    }
    assert nodeIDs[..|nodeIDs|] == nodeIDs;
  }

  lemma {:induction false} DistinctIdsAllOccur(ids: seq<Id>)
    requires NoRepeats(ids)
    ensures FirstOccurrences(ids) == ids
  {
    if ids != [] {
      DistinctIdsAllOccur(ids[..|ids| - 1]);
      assert ids == ids[..|ids| - 1] + [ids[|ids| - 1]];
    }
  }

  /** A cycle probes exactly what it picks: nothing is dropped as a repetition. */
  lemma PicksAreAllProbed(stamps: Stamps, nodes: seq<Candidate>)
    requires Lists(nodes, stamps)
    ensures FirstOccurrences(Picked(nodes)) == Picked(nodes)
  {
    var sorted := StableSorted(nodes, LongerAgo);
    PermutationIsAListing(stamps, nodes, sorted);
    IdsPrefix(sorted, Min(PROBE_BUDGET, |nodes|));
    DistinctIdsAllOccur(Picked(nodes));
  }

  // ----- One cycle ------------------------------------------------------------------

  /** The eligible pool and when each of its nodes was last probed. */
  type Stamps = map<Id, Option<int>>

  /** `nodes` lists the pool, each node once, in whatever order the store returns it. */
  ghost predicate Lists(nodes: seq<Candidate>, stamps: Stamps) {
    && NoRepeats(Ids(nodes))
    && (forall i | 0 <= i < |nodes| :: nodes[i].id in stamps && nodes[i].lastProbed == stamps[nodes[i].id])
    && (forall id | id in stamps :: id in Ids(nodes))
  }

  /** What a cycle sees of the rows, in the store's order of the day. */
  function Page(rows: seq<Candidate>): seq<Candidate> {
    rows[..Min(FETCH_LIMIT, |rows|)]
  }

  /** A cycle stamps what it picks from its page, later than any stamp there was, and nothing else. */
  ghost predicate Cycle(stamps: Stamps, rows: seq<Candidate>, next: Stamps) {
    && Lists(rows, stamps)
    && next.Keys == stamps.Keys
    && (forall id | id in stamps && id !in Picked(Page(rows)) :: next[id] == stamps[id])
    && (forall id | id in stamps && id in Picked(Page(rows)) ::
          next[id].Some? && forall other | other in stamps && stamps[other].Some? :: stamps[other].value < next[id].value)
  }

  ghost predicate Rotation(pool: seq<Stamps>, listings: seq<seq<Candidate>>) {
    && |pool| == |listings| + 1
    && forall c | 0 <= c < |listings| :: Cycle(pool[c], listings[c], pool[c + 1])
  }

  function IdSet(ids: seq<Id>): set<Id> {
    set id | id in ids
  }

  lemma {:induction false} DistinctCount(ids: seq<Id>)
    requires NoRepeats(ids)
    ensures |IdSet(ids)| == |ids|
  {
    if ids != [] {
      var front, last := ids[..|ids| - 1], ids[|ids| - 1];
      DistinctCount(front);
      assert IdSet(ids) == IdSet(front) + {last};
    }
  }

  lemma {:induction false} AtMostLength(ids: seq<Id>)
    ensures |IdSet(ids)| <= |ids|
  {
    if ids != [] {
      var front, last := ids[..|ids| - 1], ids[|ids| - 1];
      AtMostLength(front);
      assert IdSet(ids) == IdSet(front) + {last};
    }
  }

  lemma PermutationIsAListing(stamps: Stamps, a: seq<Candidate>, b: seq<Candidate>)
    requires Lists(a, stamps) && multiset(a) == multiset(b)
    ensures Lists(b, stamps)
  {
    SameElements(a, b);
    var ids, ids' := Ids(a), Ids(b);
    assert NoRepeats(a) by {
      assert forall i, j | 0 <= i < j < |a| :: ids[i] != ids[j];
    }
    NoRepeatsIffOnce(a);
    NoRepeatsIffOnce(b);
    forall i, j | 0 <= i < j < |b|
      ensures ids'[i] != ids'[j]
    {
      assert b[i] in a && b[j] in a;
      var k :| 0 <= k < |a| && a[k] == b[i];
      var l :| 0 <= l < |a| && a[l] == b[j];
      assert ids[k] != ids[l];
    }
    forall i | 0 <= i < |b|
      ensures b[i].id in stamps && b[i].lastProbed == stamps[b[i].id]
    {
      assert b[i] in a;
    }
    forall id | id in stamps
      ensures id in ids'
    {
      var k :| 0 <= k < |ids| && ids[k] == id;
      assert a[k] in b;
      var l :| 0 <= l < |b| && b[l] == a[k];
      assert ids'[l] == id;
    }
  }

  lemma ListingCounts(stamps: Stamps, nodes: seq<Candidate>)
    requires Lists(nodes, stamps)
    ensures IdSet(Ids(nodes)) == stamps.Keys && |stamps| == |nodes|
  {
    DistinctCount(Ids(nodes));
    assert |stamps.Keys| == |stamps|;
  }

  lemma IdsPrefix(nodes: seq<Candidate>, n: nat)
    requires n <= |nodes| && NoRepeats(Ids(nodes))
    ensures Ids(nodes[..n]) == Ids(nodes)[..n] && NoRepeats(Ids(nodes[..n]))
  {
  }

  /** What a cycle picks: 200 distinct nodes of the pool, or all of it. */
  lemma PicksFillTheBudget(stamps: Stamps, nodes: seq<Candidate>)
    requires Lists(nodes, stamps)
    ensures IdSet(Picked(nodes)) <= stamps.Keys
    ensures |IdSet(Picked(nodes))| == Min(PROBE_BUDGET, |stamps|)
    ensures |stamps| <= PROBE_BUDGET ==> IdSet(Picked(nodes)) == stamps.Keys
  {
    var sorted := StableSorted(nodes, LongerAgo);
    var n := Min(PROBE_BUDGET, |nodes|);
    PermutationIsAListing(stamps, nodes, sorted);
    ListingCounts(stamps, sorted);
    IdsPrefix(sorted, n);
    DistinctCount(Picked(nodes));
    assert n == |sorted| ==> sorted[..n] == sorted;
    forall id | id in Picked(nodes)
      ensures id in stamps
    {
      assert id in Ids(sorted);
    }
  }

  /** Nothing left out was probed longer ago than something picked; what was never probed comes first. */
  lemma PicksLeastRecent(stamps: Stamps, nodes: seq<Candidate>, x: Id, y: Id)
    requires Lists(nodes, stamps)
    requires x in stamps && x !in Picked(nodes) && y in Picked(nodes)
    ensures y in stamps && (stamps[y].Some? ==> stamps[x].Some? && stamps[y].value <= stamps[x].value)
  {
    var sorted := StableSorted(nodes, LongerAgo);
    var n := Min(PROBE_BUDGET, |nodes|);
    PermutationIsAListing(stamps, nodes, sorted);
    IdsPrefix(sorted, n);
    var i := PositionOf(stamps, sorted, x);
    var j :| 0 <= j < n && Ids(sorted)[j] == y;
    assert i >= n;
    SortedStamps(nodes, j, i);
  }

  lemma PositionOf(stamps: Stamps, nodes: seq<Candidate>, id: Id) returns (i: nat)
    requires Lists(nodes, stamps) && id in Ids(nodes)
    ensures i < |nodes| && Ids(nodes)[i] == id && nodes[i].lastProbed == stamps[id]
  {
    i :| 0 <= i < |nodes| && Ids(nodes)[i] == id;
  }

  lemma SortedStamps(nodes: seq<Candidate>, j: nat, i: nat)
    requires j < i < |nodes|
    ensures var (a, b) := (StableSorted(nodes, LongerAgo)[j].lastProbed, StableSorted(nodes, LongerAgo)[i].lastProbed);
            a.Some? ==> b.Some? && a.value <= b.value
  {
    LongerAgoIsStrictWeak();
    SortOrdered(nodes, LongerAgo);
    assert !LongerAgo(StableSorted(nodes, LongerAgo)[i], StableSorted(nodes, LongerAgo)[j]);
  }

  // ----- Fairness -------------------------------------------------------------------

  function UnionOf(parts: seq<set<Id>>, n: nat): set<Id>
    requires n <= |parts|
  {
    if n == 0 then {} else UnionOf(parts, n - 1) + parts[n - 1]
  }

  /** What each cycle picks. */
  function Picks(listings: seq<seq<Candidate>>): (parts: seq<set<Id>>)
    ensures |parts| == |listings| && forall c | 0 <= c < |listings| :: parts[c] == IdSet(Picked(Page(listings[c])))
  {
    seq(|listings|, c requires 0 <= c < |listings| => IdSet(Picked(Page(listings[c]))))
  }

  /** The nodes picked in the first `c` cycles. */
  function PickedBy(listings: seq<seq<Candidate>>, c: nat): set<Id>
    requires c <= |listings|
  {
    UnionOf(Picks(listings), c)
  }

  lemma WholeOnOnePage(stamps: Stamps, rows: seq<Candidate>)
    requires Lists(rows, stamps) && |stamps| <= FETCH_LIMIT
    ensures Page(rows) == rows
  {
    ListingCounts(stamps, rows);
  }

  /**
   While `x` waits in a pool that fits on a page, each cycle spends its whole budget on nodes not picked
   since the wait began.
   */
  lemma {:induction false} WaitingCosts(pool: seq<Stamps>, listings: seq<seq<Candidate>>, x: Id, c: nat)
    requires Rotation(pool, listings) && c <= |listings| && |pool[0]| <= FETCH_LIMIT
    requires x in pool[0] && x !in PickedBy(listings, c)
    ensures pool[c].Keys == pool[0].Keys && pool[c][x] == pool[0][x]
    ensures PickedBy(listings, c) <= pool[0].Keys
    ensures |PickedBy(listings, c)| == c * PROBE_BUDGET
    ensures forall y | y in PickedBy(listings, c) :: StampLess(pool[c][x], pool[c][y])
  {
    if c > 0 {
      WaitingCosts(pool, listings, x, c - 1);
      assert |pool[c - 1].Keys| == |pool[c - 1]| && |pool[0].Keys| == |pool[0]|;
      WaitingCycle(pool[c - 1], listings[c - 1], pool[c], x, PickedBy(listings, c - 1));
    }
  }

  lemma WaitingCycle(stamps: Stamps, rows: seq<Candidate>, next: Stamps, x: Id, earlier: set<Id>)
    requires Cycle(stamps, rows, next) && |stamps| <= FETCH_LIMIT
    requires x in stamps && x !in Picked(Page(rows)) && earlier <= stamps.Keys
    requires forall y | y in earlier :: StampLess(stamps[x], stamps[y])
    ensures next[x] == stamps[x]
    ensures |earlier + IdSet(Picked(Page(rows)))| == |earlier| + PROBE_BUDGET
    ensures earlier + IdSet(Picked(Page(rows))) <= stamps.Keys
    ensures forall y | y in earlier + IdSet(Picked(Page(rows))) :: StampLess(next[x], next[y])
  {
    WholeOnOnePage(stamps, rows);
    PicksFillTheBudget(stamps, rows);
    assert x !in IdSet(Picked(rows));
    forall y | y in earlier
      ensures y !in Picked(rows)
    {
      if y in Picked(rows) {
        PicksLeastRecent(stamps, rows, x, y);
      }
    }
    assert earlier !! IdSet(Picked(rows));
  }

  /**
   Every node of a fixed pool that fits on a page is probed within any K consecutive cycles with K * 200 at
   least the pool's size.
   */
  lemma NoNodeIsStarved(pool: seq<Stamps>, listings: seq<seq<Candidate>>, x: Id)
    requires Rotation(pool, listings) && |pool[0]| <= FETCH_LIMIT
    requires x in pool[0] && |pool[0]| <= |listings| * PROBE_BUDGET
    ensures x in PickedBy(listings, |listings|)
  {
    if x !in PickedBy(listings, |listings|) {
      WaitingLeavesRoom(pool, listings, x);
      assert false;
    }
  }

  lemma WaitingLeavesRoom(pool: seq<Stamps>, listings: seq<seq<Candidate>>, x: Id)
    requires Rotation(pool, listings) && |pool[0]| <= FETCH_LIMIT
    requires x in pool[0] && x !in PickedBy(listings, |listings|)
    ensures |listings| * PROBE_BUDGET < |pool[0]|
  {
    WaitingCosts(pool, listings, x, |listings|);
    SmallerPart(PickedBy(listings, |listings|), pool[0].Keys, x);
    assert |pool[0].Keys| == |pool[0]|;
  }

  lemma SmallerPart<T>(part: set<T>, whole: set<T>, x: T)
    requires part <= whole && x in whole && x !in part
    ensures |part| < |whole|
  {
    assert whole == part + (whole - part);
    assert x in whole - part;
  }

  lemma {:induction false} UnionCounts(parts: seq<set<Id>>, n: nat, most: nat)
    requires n <= |parts| && forall c | 0 <= c < n :: |parts[c]| <= most
    ensures |UnionOf(parts, n)| <= n * most
  {
    if n > 0 {
      UnionCounts(parts, n - 1, most);
      var before, last := UnionOf(parts, n - 1), parts[n - 1];
      assert |before + last| <= |before| + |last|;
      assert n * most == (n - 1) * most + most;
    }
  }

  lemma CyclesPickAtMost(listings: seq<seq<Candidate>>)
    ensures |PickedBy(listings, |listings|)| <= |listings| * PROBE_BUDGET
  {
    forall c | 0 <= c < |listings|
      ensures |Picks(listings)[c]| <= PROBE_BUDGET
    {
      AtMostLength(Picked(Page(listings[c])));
    }
    UnionCounts(Picks(listings), |listings|, PROBE_BUDGET);
  }

  // ----- Past the page ----------------------------------------------------------------

  lemma PicksAreListed(nodes: seq<Candidate>)
    ensures forall id | id in Picked(nodes) :: id in Ids(nodes)
  {
    var sorted := StableSorted(nodes, LongerAgo);
    SameElements(nodes, sorted);
    forall id | id in Picked(nodes)
      ensures id in Ids(nodes)
    {
      var i :| 0 <= i < |Picked(nodes)| && Picked(nodes)[i] == id;
      assert sorted[i] in nodes;
      var j :| 0 <= j < |nodes| && nodes[j] == sorted[i];
      assert Ids(nodes)[j] == id;
    }
  }

  lemma {:induction false} InSomePart(parts: seq<set<Id>>, n: nat, x: Id) returns (c: nat)
    requires n <= |parts| && x in UnionOf(parts, n)
    ensures c < n && x in parts[c]
  {
    if x in parts[n - 1] {
      c := n - 1;
    } else {
      c := InSomePart(parts, n - 1, x);
    }
  }

  /** A node picked was on the page of some cycle. */
  lemma PickedFromAPage(listings: seq<seq<Candidate>>, x: Id) returns (c: nat)
    requires x in PickedBy(listings, |listings|)
    ensures c < |listings| && x in Ids(Page(listings[c]))
  {
    c := InSomePart(Picks(listings), |listings|, x);
    PicksAreListed(Page(listings[c]));
  }

  function ListingOf(order: seq<Id>, stamps: Stamps): (nodes: seq<Candidate>)
    requires forall id | id in order :: id in stamps
    ensures |nodes| == |order| && forall i | 0 <= i < |order| :: nodes[i] == Candidate(order[i], stamps[order[i]])
  {
    seq(|order|, i requires 0 <= i < |order| => Candidate(order[i], stamps[order[i]]))
  }

  lemma ListingLists(order: seq<Id>, stamps: Stamps)
    requires NoRepeats(order) && forall id :: id in order <==> id in stamps
    ensures Lists(ListingOf(order, stamps), stamps) && Ids(ListingOf(order, stamps)) == order
  {
    assert Ids(ListingOf(order, stamps)) == order;
  }

  function Later(order: seq<Id>, stamps: Stamps): (t: int)
    requires forall id | id in order :: id in stamps
    ensures forall id | id in order && stamps[id].Some? :: stamps[id].value < t
  {
    if order == [] then 0
    else
      var front, last := order[..|order| - 1], order[|order| - 1];
      assert order == front + [last];
      var t := Later(front, stamps);
      if stamps[last].Some? && stamps[last].value >= t then stamps[last].value + 1 else t
  }

  lemma Restamped(order: seq<Id>, stamps: Stamps) returns (next: Stamps)
    requires NoRepeats(order) && forall id :: id in order <==> id in stamps
    ensures Cycle(stamps, ListingOf(order, stamps), next) && next.Keys == stamps.Keys
  {
    var picked, now := Picked(Page(ListingOf(order, stamps))), Later(order, stamps);
    ListingLists(order, stamps);
    next := map id | id in stamps :: if id in picked then Some(now) else stamps[id];
    forall id, other | id in stamps && id in picked && other in stamps
      ensures StampLess(stamps[other], next[id])
    {
      assert other in order;
    }
  }

  /** Whatever the store's order, the pool can rotate in it for any number of cycles. */
  lemma {:induction false} SteadyRotation(order: seq<Id>, first: Stamps, k: nat) returns (pool: seq<Stamps>, listings: seq<seq<Candidate>>)
    requires NoRepeats(order) && forall id :: id in order <==> id in first
    ensures Rotation(pool, listings) && |listings| == k && pool[0] == first
    ensures pool[k].Keys == first.Keys
    ensures forall c | 0 <= c < k :: Ids(listings[c]) == order
  {
    if k == 0 {
      pool, listings := [first], [];
    } else {
      pool, listings := SteadyRotation(order, first, k - 1);
      var stamps := pool[k - 1];
      var next := Restamped(order, stamps);
      ListingLists(order, stamps);
      pool, listings := pool + [next], listings + [ListingOf(order, stamps)];
    }
  }

  lemma {:induction false} Enumerate(ids: set<Id>) returns (order: seq<Id>)
    ensures NoRepeats(order) && |order| == |ids| && forall id :: id in order <==> id in ids
    decreases |ids|
  {
    if ids == {} {
      order := [];
    } else {
      var id :| id in ids;
      order := Enumerate(ids - {id});
      order := order + [id];
    }
  }

  lemma SameOrderLeavesTheTail(order: seq<Id>, listings: seq<seq<Candidate>>)
    requires NoRepeats(order) && |order| > FETCH_LIMIT
    requires forall c | 0 <= c < |listings| :: Ids(listings[c]) == order
    ensures order[FETCH_LIMIT] !in PickedBy(listings, |listings|)
  {
    if order[FETCH_LIMIT] in PickedBy(listings, |listings|) {
      var k := PickedFromAPage(listings, order[FETCH_LIMIT]);
      PageOrder(listings[k], order);
    }
  }

  lemma PageOrder(rows: seq<Candidate>, order: seq<Id>)
    requires Ids(rows) == order && NoRepeats(order) && |order| > FETCH_LIMIT
    ensures order[FETCH_LIMIT] !in Ids(Page(rows))
  {
    assert Ids(Page(rows)) == order[..FETCH_LIMIT];
  }

  // ----- Coverage -------------------------------------------------------------------

  ghost predicate Covers(first: Stamps, k: nat, pool: seq<Stamps>, listings: seq<seq<Candidate>>) {
    Rotation(pool, listings) && |listings| == k && pool[0] == first ==> first.Keys <= PickedBy(listings, |listings|)
  }

  /** However the store orders its rows, `k` cycles probe every node of the pool. */
  ghost predicate AlwaysCovered(first: Stamps, k: nat) {
    forall pool, listings :: Covers(first, k, pool, listings)
  }

  lemma PartIsNoLarger<T>(part: set<T>, whole: set<T>)
    requires part <= whole
    ensures |part| <= |whole|
  {
    assert whole == part + (whole - part);
  }

  lemma TooLargeIsNotCovered(first: Stamps, k: nat)
    requires |first| > k * PROBE_BUDGET || |first| > FETCH_LIMIT
    ensures !AlwaysCovered(first, k)
  {
    var order := Enumerate(first.Keys);
    assert |first.Keys| == |first|;
    var pool, listings := SteadyRotation(order, first, k);
    if |first| > FETCH_LIMIT {
      SameOrderLeavesTheTail(order, listings);
      assert order[FETCH_LIMIT] in first;
    } else {
      CyclesPickAtMost(listings);
      if first.Keys <= PickedBy(listings, k) {
        PartIsNoLarger(first.Keys, PickedBy(listings, k));
      }
    }
    assert !Covers(first, k, pool, listings);
  }

  /**
   Covering a fixed pool takes exactly as many cycles as its size asks for, as long as it fits on a page;
   a larger pool may never be covered.
   */
  lemma CoverageExact(first: Stamps, k: nat)
    ensures AlwaysCovered(first, k) <==> |first| <= k * PROBE_BUDGET && |first| <= FETCH_LIMIT
  {
    if |first| <= k * PROBE_BUDGET && |first| <= FETCH_LIMIT {
      forall pool, listings
        ensures Covers(first, k, pool, listings)
      {
        if Rotation(pool, listings) && |listings| == k && pool[0] == first {
          forall x | x in first.Keys
            ensures x in PickedBy(listings, |listings|)
          {
            NoNodeIsStarved(pool, listings, x);
          }
        }
      }
    } else {
      TooLargeIsNotCovered(first, k);
    }
  }

  /** A day's cycles walk the whole pool exactly when it has at most 1600 nodes. */
  lemma WholePoolWithinADay(first: Stamps)
    ensures AlwaysCovered(first, CYCLES_PER_DAY) <==> |first| <= 1600
  {
    CoverageExact(first, CYCLES_PER_DAY);
  }
}
