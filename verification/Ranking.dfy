/**
 Filtering and ranking of candidate nodes (internal/services/pool.go, and the probe order of
 internal/services/maintenance.go). Scores are real numbers here.
 */
module Ranking {
  import opened Wrappers
  import opened ByteOrder
  import opened StableSort

  type Id = string

  datatype IpType = Residential | Mobile | Hosting | UnknownIp

  datatype Node = Node(
    id: Id, country: string, countryCode: string, ipType: IpType,
    latency: int, sourcePing: int, speed: int, score: int, sessions: int)

  datatype Mode = Auto | SpeedFirst | Smart | ResidentialFirst | Country | Fixed | Favorites

  datatype IpPolicy = AnyIp | ResidentialOnly | HostingOnly

  datatype Settings = Settings(
    mode: Mode, forceCountry: string, ipPolicy: IpPolicy, enabled: bool, fixed: Option<Id>, favorites: seq<Id>)

  // ----- Filters --------------------------------------------------------------------

  predicate AdmitsIp(policy: IpPolicy, ip: IpType, includeUnknown: bool) {
    match policy
    case AnyIp => true
    case ResidentialOnly => ip.Residential? || ip.Mobile? || (includeUnknown && ip.UnknownIp?)
    case HostingOnly => ip.Hosting? || (includeUnknown && ip.UnknownIp?)
  }

  predicate AdmitsMode(settings: Settings, n: Node, sameCountry: (string, string, string) -> bool) {
    match settings.mode
    case Fixed => n.id == if settings.fixed.Some? then settings.fixed.value else ""
    case Country => sameCountry(n.country, n.countryCode, settings.forceCountry)
    case Favorites => n.id in settings.favorites
    case _ => true
  }

  predicate Admits(settings: Settings, n: Node, includeUnknown: bool, sameCountry: (string, string, string) -> bool) {
    AdmitsMode(settings, n, sameCountry) && AdmitsIp(settings.ipPolicy, n.ipType, includeUnknown)
  }

  /** The nodes the settings admit, in order. */
  function Admitted(nodes: seq<Node>, settings: Settings, includeUnknown: bool, sameCountry: (string, string, string) -> bool)
    : (r: seq<Node>)
    ensures forall n :: n in r <==> n in nodes && Admits(settings, n, includeUnknown, sameCountry)
  {
    if nodes == [] then []
    else
      var n, before := nodes[|nodes| - 1], Admitted(nodes[..|nodes| - 1], settings, includeUnknown, sameCountry);
      assert nodes == nodes[..|nodes| - 1] + [n];
      if Admits(settings, n, includeUnknown, sameCountry) then before + [n] else before
  }

  /** What each setting asks of a node, taken on its own. */
  ghost predicate Meets(settings: Settings, n: Node, includeUnknown: bool, sameCountry: (string, string, string) -> bool) {
    && (settings.mode == Fixed ==> settings.fixed == Some(n.id) || (settings.fixed == None && n.id == ""))
    && (settings.mode == Country ==> sameCountry(n.country, n.countryCode, settings.forceCountry))
    && (settings.mode == Favorites ==> n.id in settings.favorites)
    && (n.ipType == Hosting ==> settings.ipPolicy != ResidentialOnly)
    && (n.ipType in {Residential, Mobile} ==> settings.ipPolicy != HostingOnly)
    && (n.ipType == UnknownIp ==> settings.ipPolicy == AnyIp || includeUnknown)
  }

  /** The elements with a property, in order. */
  function Sublist<T>(s: seq<T>, p: T -> bool): seq<T> {
    if s == [] then [] else (if p(s[0]) then [s[0]] else []) + Sublist(s[1..], p)
  }

  lemma {:induction false} SublistConcat<T>(a: seq<T>, b: seq<T>, p: T -> bool)
    ensures Sublist(a + b, p) == Sublist(a, p) + Sublist(b, p)
  {
    if a == [] {
      assert a + b == b;
    } else {
      SublistConcat(a[1..], b, p);
      assert (a + b)[0] == a[0] && (a + b)[1..] == a[1..] + b;
    }
  }

  lemma SublistEndsWith<T>(front: seq<T>, last: T, p: T -> bool)
    ensures Sublist(front + [last], p) == if p(last) then Sublist(front, p) + [last] else Sublist(front, p)
  {
    SublistConcat(front, [last], p);
    assert [last][1..] == [];
  }

  lemma MeetsExactly(settings: Settings, n: Node, includeUnknown: bool, sameCountry: (string, string, string) -> bool)
    ensures Meets(settings, n, includeUnknown, sameCountry) <==> Admits(settings, n, includeUnknown, sameCountry)
  {
  }

  lemma {:induction false} AdmittedIsSublist(nodes: seq<Node>, settings: Settings, includeUnknown: bool,
                                             sameCountry: (string, string, string) -> bool, p: Node -> bool)
    requires forall n :: p(n) <==> Admits(settings, n, includeUnknown, sameCountry)
    ensures Admitted(nodes, settings, includeUnknown, sameCountry) == Sublist(nodes, p)
  {
    if nodes != [] {
      var front, last := nodes[..|nodes| - 1], nodes[|nodes| - 1];
      AdmittedIsSublist(front, settings, includeUnknown, sameCountry, p);
      assert nodes == front + [last];
      SublistEndsWith(front, last, p);
      assert p(last) <==> Admits(settings, last, includeUnknown, sameCountry);
    }
  }

  lemma AdmittedExactly(nodes: seq<Node>, settings: Settings, includeUnknown: bool, sameCountry: (string, string, string) -> bool)
    ensures Admitted(nodes, settings, includeUnknown, sameCountry) == Sublist(nodes, n => Meets(settings, n, includeUnknown, sameCountry))
  {
    forall n
      ensures Meets(settings, n, includeUnknown, sameCountry) <==> Admits(settings, n, includeUnknown, sameCountry)
    {
      MeetsExactly(settings, n, includeUnknown, sameCountry);
    }
    AdmittedIsSublist(nodes, settings, includeUnknown, sameCountry, n => Meets(settings, n, includeUnknown, sameCountry));
  }

  method ApplyFilters(nodes: seq<Node>, settings: Settings, includeUnknown: bool, sameCountry: (string, string, string) -> bool)
    returns (out: seq<Node>)
    ensures out == Admitted(nodes, settings, includeUnknown, sameCountry)
    ensures out == Sublist(nodes, n => Meets(settings, n, includeUnknown, sameCountry))
  {
    out := [];
    var fixedId := "";
    if settings.fixed.Some? {
      fixedId := settings.fixed.value;
    }
    var favorites := set id | id in settings.favorites;
    for i := 0 to |nodes|
      invariant out == Admitted(nodes[..i], settings, includeUnknown, sameCountry)
    {
      var n := nodes[i];
      assert nodes[..i + 1][..i] == nodes[..i];
      var pass := match settings.mode
        case Fixed => n.id == fixedId
        case Country => sameCountry(n.country, n.countryCode, settings.forceCountry)
        case Favorites => n.id in favorites
        case _ => true;
      assert pass == AdmitsMode(settings, n, sameCountry);
      if pass && AdmitsIp(settings.ipPolicy, n.ipType, includeUnknown) {
        out := out + [n];
      }
    }
    assert nodes[..|nodes|] == nodes;
    AdmittedExactly(nodes, settings, includeUnknown, sameCountry);
  }

  // ----- Orders by field ------------------------------------------------------------

  function EffLatency(n: Node): int { if n.latency > 0 then n.latency else 999999 }

  function EffSpeed(n: Node): int { if n.speed > 0 then n.speed else -1 }

  function ResidentialRank(n: Node): int { if n.ipType.Residential? || n.ipType.Mobile? then 0 else 1 }

  predicate LessFor(a: Node, b: Node, mode: Mode) {
    if mode.SpeedFirst? then
      if EffSpeed(a) != EffSpeed(b) then EffSpeed(a) > EffSpeed(b)
      else if EffLatency(a) != EffLatency(b) then EffLatency(a) < EffLatency(b)
      else if a.score != b.score then a.score > b.score
      else ResidentialRank(a) < ResidentialRank(b)
    else if mode.ResidentialFirst? then
      if ResidentialRank(a) != ResidentialRank(b) then ResidentialRank(a) < ResidentialRank(b)
      else if EffLatency(a) != EffLatency(b) then EffLatency(a) < EffLatency(b)
      else if a.score != b.score then a.score > b.score
      else a.speed > b.speed
    else
      if EffLatency(a) != EffLatency(b) then EffLatency(a) < EffLatency(b)
      else if a.score != b.score then a.score > b.score
      else if a.speed != b.speed then a.speed > b.speed
      else ResidentialRank(a) < ResidentialRank(b)
  }

  function ModeOrder(mode: Mode): Order<Node> {
    (a, b) => LessFor(a, b, mode)
  }

  function ProbePing(n: Node): int { if n.sourcePing == 0 then 999999 else n.sourcePing }

  predicate ProbeLess(a: Node, b: Node, mode: Mode) {
    if mode.SpeedFirst? && a.speed != b.speed then a.speed > b.speed
    else if ProbePing(a) != ProbePing(b) then ProbePing(a) < ProbePing(b)
    else if a.score != b.score then a.score > b.score
    else if a.speed != b.speed then a.speed > b.speed
    else a.sessions < b.sessions
  }

  function ProbeOrder(mode: Mode): Order<Node> {
    (a, b) => ProbeLess(a, b, mode)
  }

  /** Every mode's order is a strict weak order, as a sort needs. */
  lemma LessForIsStrictWeak(mode: Mode)
    ensures StrictWeak(ModeOrder(mode))
  {
  }

  lemma ProbeLessIsStrictWeak(mode: Mode)
    ensures StrictWeak(ProbeOrder(mode))
  {
  }

  // ----- The smart score ------------------------------------------------------------

  function SmartLatency(n: Node, sourceLatency: bool): int {
    if n.latency > 0 then n.latency
    else if sourceLatency && n.sourcePing > 0 then n.sourcePing
    else 999999
  }

  /** What the score reads of a node. */
  datatype Metrics = Metrics(id: Id, latency: real, speed: real, sessions: real)

  function MetricsOf(n: Node, sourceLatency: bool): Metrics {
    Metrics(n.id, SmartLatency(n, sourceLatency) as real, EffSpeed(n) as real, n.sessions as real)
  }

  function MinOf(values: seq<real>): (m: real)
    requires |values| > 0
    ensures m in values && forall v | v in values :: m <= v
  {
    if |values| == 1 then values[0]
    else
      var m, last := MinOf(values[..|values| - 1]), values[|values| - 1];
      assert values == values[..|values| - 1] + [last];
      if last < m then last else m
  }

  function MaxOf(values: seq<real>): (m: real)
    requires |values| > 0
    ensures m in values && forall v | v in values :: v <= m
  {
    if |values| == 1 then values[0]
    else
      var m, last := MaxOf(values[..|values| - 1]), values[|values| - 1];
      assert values == values[..|values| - 1] + [last];
      if last > m then last else m
  }

  function Normalize(v: real, min: real, max: real): real {
    if max == min then 0.5 else (v - min) / (max - min)
  }

  function Latencies(all: seq<Metrics>): (r: seq<real>)
    ensures |r| == |all| && forall i | 0 <= i < |all| :: r[i] == all[i].latency
  {
    if all == [] then [] else Latencies(all[..|all| - 1]) + [all[|all| - 1].latency]
  }

  function Speeds(all: seq<Metrics>): (r: seq<real>)
    ensures |r| == |all| && forall i | 0 <= i < |all| :: r[i] == all[i].speed
  {
    if all == [] then [] else Speeds(all[..|all| - 1]) + [all[|all| - 1].speed]
  }

  function SessionCounts(all: seq<Metrics>): (r: seq<real>)
    ensures |r| == |all| && forall i | 0 <= i < |all| :: r[i] == all[i].sessions
  {
    if all == [] then [] else SessionCounts(all[..|all| - 1]) + [all[|all| - 1].sessions]
  }

  function Scaled(v: real, values: seq<real>): real
    requires |values| > 0
  {
    Normalize(v, MinOf(values), MaxOf(values))
  }

  function Score(m: Metrics, all: seq<Metrics>): real
    requires |all| > 0
  {
    ScoreOver(m, Latencies(all), Speeds(all), SessionCounts(all))
  }

  function ScoreOver(m: Metrics, latencies: seq<real>, speeds: seq<real>, sessions: seq<real>): real
    requires |latencies| > 0 && |speeds| > 0 && |sessions| > 0
  {
    Weighted(1.0 - Scaled(m.latency, latencies), Scaled(m.speed, speeds), 1.0 - Scaled(m.sessions, sessions))
  }

  function Weighted(latencyScore: real, speedScore: real, sessionScore: real): real {
    0.4 * latencyScore + 0.4 * speedScore + 0.2 * sessionScore
  }

  /** Higher scores first, ids to break ties. */
  predicate SmartLess(a: Metrics, b: Metrics, all: seq<Metrics>)
    requires |all| > 0
  {
    RankLess(Score(a, all), a.id, Score(b, all), b.id)
  }

  predicate RankLess(sa: real, ia: Id, sb: real, ib: Id) {
    if sa != sb then sa > sb else Less(ia, ib)
  }

  function SmartOrder(all: seq<Metrics>): Order<Metrics>
    requires |all| > 0
  {
    (a, b) => SmartLess(a, b, all)
  }

  function SmartSorted(all: seq<Metrics>): (r: seq<Metrics>)
    ensures multiset(r) == multiset(all)
  {
    if |all| < 2 then all else StableSorted(all, SmartOrder(all))
  }

  lemma SmartOrderIsStrictWeak(all: seq<Metrics>)
    requires |all| > 0
    ensures StrictWeak(SmartOrder(all))
  {
    forall x, y
      ensures SmartOrder(all)(x, y) ==> !SmartOrder(all)(y, x)
    {
      RankLessWeak(Score(x, all), x.id, Score(y, all), y.id, Score(y, all), y.id);
    }
    forall x, y, z
      ensures !SmartOrder(all)(x, y) && !SmartOrder(all)(y, z) ==> !SmartOrder(all)(x, z)
    {
      RankLessWeak(Score(x, all), x.id, Score(y, all), y.id, Score(z, all), z.id);
    }
  }

  lemma RankLessWeak(sx: real, ix: Id, sy: real, iy: Id, sz: real, iz: Id)
    ensures RankLess(sx, ix, sy, iy) ==> !RankLess(sy, iy, sx, ix)
    ensures !RankLess(sx, ix, sy, iy) && !RankLess(sy, iy, sz, iz) ==> !RankLess(sx, ix, sz, iz)
  {
    LessAsymmetric(ix, iy);
    if !Less(ix, iy) && !Less(iy, iz) {
      NotLessTransitive(ix, iy, iz);
    }
  }

  lemma NotLessTransitive(a: string, b: string, c: string)
    requires !Less(a, b) && !Less(b, c)
    ensures !Less(a, c)
  {
    LessTotal(a, b);
    LessTotal(b, c);
    LessAsymmetric(a, c);
    if a != b && b != c {
      LessTransitive(c, b, a);
    }
  }

  lemma ScaledInUnit(v: real, values: seq<real>)
    requires v in values
    ensures 0.0 <= Scaled(v, values) <= 1.0
  {
    var min, max := MinOf(values), MaxOf(values);
    if min < max {
      RatioBounds(v - min, max - min);
    }
  }

  lemma RatioBounds(a: real, b: real)
    requires 0.0 <= a <= b && b > 0.0
    ensures 0.0 <= a / b <= 1.0
  {
  }

  lemma MetricListed(m: Metrics, all: seq<Metrics>)
    requires m in all
    ensures m.latency in Latencies(all) && m.speed in Speeds(all) && m.sessions in SessionCounts(all)
  {
    var i :| 0 <= i < |all| && all[i] == m;
    assert Latencies(all)[i] == m.latency && Speeds(all)[i] == m.speed && SessionCounts(all)[i] == m.sessions;
  }

  /** Every score lies in the unit interval. */
  lemma ScoreInUnit(m: Metrics, all: seq<Metrics>)
    requires m in all
    ensures 0.0 <= Score(m, all) <= 1.0
  {
    MetricListed(m, all);
    ScaledInUnit(m.latency, Latencies(all));
    ScaledInUnit(m.speed, Speeds(all));
    ScaledInUnit(m.sessions, SessionCounts(all));
  }

  lemma ScaledMonotone(v: real, w: real, values: seq<real>)
    requires v in values && w in values && v <= w
    ensures Scaled(v, values) <= Scaled(w, values)
    ensures v < w ==> Scaled(v, values) < Scaled(w, values)
  {
    var min, max := MinOf(values), MaxOf(values);
    if min < max {
      RatioMonotone(v - min, w - min, max - min);
    }
  }

  lemma RatioMonotone(a: real, b: real, d: real)
    requires a <= b && d > 0.0
    ensures a / d <= b / d
    ensures a < b ==> a / d < b / d
  {
  }

  /** No worse on any metric and better on one. */
  predicate Dominates(a: Metrics, b: Metrics) {
    && a.latency <= b.latency && a.speed >= b.speed && a.sessions <= b.sessions
    && (a.latency < b.latency || a.speed > b.speed || a.sessions < b.sessions)
  }

  lemma DominanceScoresHigher(a: Metrics, b: Metrics, all: seq<Metrics>)
    requires a in all && b in all && Dominates(a, b)
    ensures Score(a, all) > Score(b, all)
  {
    MetricListed(a, all);
    MetricListed(b, all);
    ScaledMonotone(a.latency, b.latency, Latencies(all));
    ScaledMonotone(b.speed, a.speed, Speeds(all));
    ScaledMonotone(a.sessions, b.sessions, SessionCounts(all));
  }

  /** A node that dominates another ranks ahead of it. */
  lemma DominantRanksAhead(all: seq<Metrics>, i: nat, j: nat)
    requires i < |all| && j < |all|
    requires Dominates(SmartSorted(all)[i], SmartSorted(all)[j])
    ensures i < j
  {
    var sorted := SmartSorted(all);
    SameElements(all, sorted);
    assert sorted[i] in all && sorted[j] in all;
    DominanceScoresHigher(sorted[i], sorted[j], all);
    if |all| >= 2 {
      SmartOrderIsStrictWeak(all);
      SortOrdered(all, SmartOrder(all));
      assert SmartOrder(all)(sorted[i], sorted[j]);
    }
  }

  // ----- The input's order does not matter --------------------------------------------

  ghost predicate SameMembers<T(!new)>(a: seq<T>, b: seq<T>) {
    forall x :: x in a <==> x in b
  }

  /** Only which nodes are candidates matters for a metric's range. */
  lemma ColumnsPermuted(a: seq<Metrics>, b: seq<Metrics>)
    requires SameMembers(a, b)
    ensures SameMembers(Latencies(a), Latencies(b))
    ensures SameMembers(Speeds(a), Speeds(b))
    ensures SameMembers(SessionCounts(a), SessionCounts(b))
  {
    ColumnsWithin(a, b);
    ColumnsWithin(b, a);
  }

  lemma ColumnsWithin(a: seq<Metrics>, b: seq<Metrics>)
    requires forall m | m in a :: m in b
    ensures forall v | v in Latencies(a) :: v in Latencies(b)
    ensures forall v | v in Speeds(a) :: v in Speeds(b)
    ensures forall v | v in SessionCounts(a) :: v in SessionCounts(b)
  {
    forall i | 0 <= i < |a|
      ensures a[i].latency in Latencies(b) && a[i].speed in Speeds(b) && a[i].sessions in SessionCounts(b)
    {
      assert a[i] in b;
      MetricListed(a[i], b);
    }
  }

  lemma ScaledPermutation(v: real, a: seq<real>, b: seq<real>)
    requires |a| > 0 && |b| > 0 && SameMembers(a, b)
    ensures Scaled(v, a) == Scaled(v, b)
  {
    assert MinOf(a) in b && MinOf(b) in a && MaxOf(a) in b && MaxOf(b) in a;
  }

  lemma ScorePermutation(m: Metrics, a: seq<Metrics>, b: seq<Metrics>)
    requires |a| > 0 && |b| > 0 && SameMembers(a, b)
    ensures Score(m, a) == Score(m, b)
  {
    ColumnsPermuted(a, b);
    ScaledPermutation(m.latency, Latencies(a), Latencies(b));
    ScaledPermutation(m.speed, Speeds(a), Speeds(b));
    ScaledPermutation(m.sessions, SessionCounts(a), SessionCounts(b));
  }

  ghost predicate UniqueIds(all: seq<Metrics>) {
    forall a, b | a in all && b in all && a.id == b.id :: a == b
  }

  lemma SmartOrderIsTotal(all: seq<Metrics>, a: Metrics, b: Metrics)
    requires UniqueIds(all) && a in all && b in all && a != b
    ensures SmartLess(a, b, all) || SmartLess(b, a, all)
  {
    LessTotal(a.id, b.id);
  }

  lemma SmartSortedOrdered(all: seq<Metrics>)
    requires |all| > 0
    ensures Ordered(SmartSorted(all), SmartOrder(all))
  {
    if |all| >= 2 {
      SmartOrderIsStrictWeak(all);
      SortOrdered(all, SmartOrder(all));
    }
  }

  /** The ranking is a function of the set of candidates, not of the order they were listed in. */
  lemma RankingIgnoresInputOrder(a: seq<Metrics>, b: seq<Metrics>)
    requires multiset(a) == multiset(b) && UniqueIds(a)
    ensures SmartSorted(a) == SmartSorted(b)
  {
    SameElements(a, b);
    if |a| > 0 {
      var sa, sb := SmartSorted(a), SmartSorted(b);
      SmartOrderIsStrictWeak(a);
      SmartSortedOrdered(a);
      SmartSortedOrdered(b);
      forall i, j | 0 <= i < j < |sb|
        ensures !SmartOrder(a)(sb[j], sb[i])
      {
        assert !SmartOrder(b)(sb[j], sb[i]);
        ScorePermutation(sb[i], a, b);
        ScorePermutation(sb[j], a, b);
      }
      SameElements(a, sa);
      forall x, y | x in sa && y in sa && x != y
        ensures SmartOrder(a)(x, y) || SmartOrder(a)(y, x)
      {
        SmartOrderIsTotal(a, x, y);
      }
      TotalSortUnique(sa, sb, SmartOrder(a));
    }
  }

  // ----- Units do not matter ----------------------------------------------------------

  function Affine(v: real, k: real, c: real): real {
    k * v + c
  }

  lemma AffineOrder(v: real, w: real, k: real, c: real)
    requires k > 0.0
    ensures Affine(v, k, c) < Affine(w, k, c) <==> v < w
  {
    assert k * w - k * v == k * (w - v);
  }

  function AffineAll(values: seq<real>, k: real, c: real): (r: seq<real>)
    ensures |r| == |values|
  {
    if values == [] then [] else AffineAll(values[..|values| - 1], k, c) + [Affine(values[|values| - 1], k, c)]
  }

  lemma {:induction false} MinMaxRescaled(values: seq<real>, k: real, c: real)
    requires |values| > 0 && k > 0.0
    ensures MinOf(AffineAll(values, k, c)) == Affine(MinOf(values), k, c)
    ensures MaxOf(AffineAll(values, k, c)) == Affine(MaxOf(values), k, c)
  {
    var scaled := AffineAll(values, k, c);
    if |values| > 1 {
      var front, last := values[..|values| - 1], values[|values| - 1];
      MinMaxRescaled(front, k, c);
      assert scaled[..|values| - 1] == AffineAll(front, k, c) && scaled[|values| - 1] == Affine(last, k, c);
      AffineOrder(last, MinOf(front), k, c);
      AffineOrder(MaxOf(front), last, k, c);
    }
  }

  lemma NormalizeRescaled(v: real, min: real, max: real, k: real, c: real)
    requires k > 0.0
    ensures Normalize(Affine(v, k, c), Affine(min, k, c), Affine(max, k, c)) == Normalize(v, min, max)
  {
    AffineOrder(max, min, k, c);
    AffineOrder(min, max, k, c);
    if max != min {
      var n, d := v - min, max - min;
      assert Affine(v, k, c) - Affine(min, k, c) == k * n;
      assert Affine(max, k, c) - Affine(min, k, c) == k * d;
      assert (k * n) / (k * d) == n / d;
    }
  }

  /** A change of unit and zero for one metric. */
  datatype Units = Units(k: real, c: real)

  function Rescaled(l: Units, s: Units, n: Units): Metrics -> Metrics {
    (m: Metrics) => m.(latency := Affine(m.latency, l.k, l.c), speed := Affine(m.speed, s.k, s.c),
                       sessions := Affine(m.sessions, n.k, n.c))
  }

  lemma {:induction false} ColumnsRescaled(all: seq<Metrics>, l: Units, s: Units, n: Units)
    ensures Latencies(Mapped(all, Rescaled(l, s, n))) == AffineAll(Latencies(all), l.k, l.c)
    ensures Speeds(Mapped(all, Rescaled(l, s, n))) == AffineAll(Speeds(all), s.k, s.c)
    ensures SessionCounts(Mapped(all, Rescaled(l, s, n))) == AffineAll(SessionCounts(all), n.k, n.c)
  {
    if all != [] {
      var front := all[..|all| - 1];
      ColumnsRescaled(front, l, s, n);
      assert Mapped(all, Rescaled(l, s, n))[..|front|] == Mapped(front, Rescaled(l, s, n));
      assert Latencies(all)[..|front|] == Latencies(front);
      assert Speeds(all)[..|front|] == Speeds(front) && SessionCounts(all)[..|front|] == SessionCounts(front);
    }
  }

  lemma ScaledRescaled(v: real, values: seq<real>, u: Units)
    requires |values| > 0 && u.k > 0.0
    ensures Scaled(Affine(v, u.k, u.c), AffineAll(values, u.k, u.c)) == Scaled(v, values)
  {
    MinMaxRescaled(values, u.k, u.c);
    NormalizeRescaled(v, MinOf(values), MaxOf(values), u.k, u.c);
  }

  lemma ScoreRescaled(m: Metrics, all: seq<Metrics>, l: Units, s: Units, n: Units)
    requires |all| > 0 && l.k > 0.0 && s.k > 0.0 && n.k > 0.0
    ensures Score(Rescaled(l, s, n)(m), Mapped(all, Rescaled(l, s, n))) == Score(m, all)
  {
    ColumnsRescaled(all, l, s, n);
    ScaledRescaled(m.latency, Latencies(all), l);
    ScaledRescaled(m.speed, Speeds(all), s);
    ScaledRescaled(m.sessions, SessionCounts(all), n);
  }

  /** Measuring any metric in another unit, or from another zero, leaves the ranking as it is. */
  lemma RankingIgnoresUnits(all: seq<Metrics>, l: Units, s: Units, n: Units)
    requires l.k > 0.0 && s.k > 0.0 && n.k > 0.0
    ensures SmartSorted(Mapped(all, Rescaled(l, s, n))) == Mapped(SmartSorted(all), Rescaled(l, s, n))
  {
    var f := Rescaled(l, s, n);
    var all' := Mapped(all, f);
    if |all| >= 2 {
      forall x, y | x in all && y in all
        ensures SmartOrder(all')(f(x), f(y)) == SmartOrder(all)(x, y)
      {
        ScoreRescaled(x, all, l, s, n);
        ScoreRescaled(y, all, l, s, n);
      }
      SortRelabelled(all, SmartOrder(all), f, SmartOrder(all'));
    }
  }

  // ----- Sorting nodes ----------------------------------------------------------------

  function MetricsFn(sourceLatency: bool): Node -> Metrics {
    (n: Node) => MetricsOf(n, sourceLatency)
  }

  function MetricsAll(nodes: seq<Node>, sourceLatency: bool): (r: seq<Metrics>)
    ensures |r| == |nodes|
  {
    Mapped(nodes, MetricsFn(sourceLatency))
  }

  function SmartNodeOrder(all: seq<Metrics>, sourceLatency: bool): Order<Node>
    requires |all| > 0
  {
    (a, b) => SmartLess(MetricsOf(a, sourceLatency), MetricsOf(b, sourceLatency), all)
  }

  function SmartSortedNodes(nodes: seq<Node>, sourceLatency: bool): (r: seq<Node>)
    ensures multiset(r) == multiset(nodes)
  {
    if |nodes| < 2 then nodes
    else StableSorted(nodes, SmartNodeOrder(MetricsAll(nodes, sourceLatency), sourceLatency))
  }

  /** Nodes are ranked as their metrics are. */
  lemma NodesRankAsTheirMetrics(nodes: seq<Node>, sourceLatency: bool)
    ensures MetricsAll(SmartSortedNodes(nodes, sourceLatency), sourceLatency) == SmartSorted(MetricsAll(nodes, sourceLatency))
  {
    if |nodes| >= 2 {
      var all := MetricsAll(nodes, sourceLatency);
      SortRelabelled(nodes, SmartNodeOrder(all, sourceLatency), MetricsFn(sourceLatency), SmartOrder(all));
    }
  }

  lemma {:induction false} MappedSelf<T>(s: seq<T>, f: T -> T)
    requires forall x :: f(x) == x
    ensures Mapped(s, f) == s
  {
    if s != [] {
      MappedSelf(s[..|s| - 1], f);
    }
  }

  /** Orders that agree on the elements sort them alike. */
  lemma SortAgrees<T(!new)>(s: seq<T>, less: Order<T>, less': Order<T>)
    requires forall x, y | x in s && y in s :: less(x, y) == less'(x, y)
    ensures StableSorted(s, less) == StableSorted(s, less')
  {
    var id := (x: T) => x;
    MappedSelf(s, id);
    MappedSelf(StableSorted(s, less), id);
    SortRelabelled(s, less, id, less');
  }

  method MinMax(values: seq<real>) returns (min: real, max: real)
    requires |values| > 0
    ensures (min, max) == Range(values)
  {
    min, max := values[0], values[0];
    for i := 1 to |values|
      invariant min == MinOf(values[..i]) && max == MaxOf(values[..i])
    {
      assert values[..i + 1][..i] == values[..i];
      if values[i] < min {
        min := values[i];
      }
      if values[i] > max {
        max := values[i];
      }
    }
    assert values[..|values|] == values;
  }

  function NodeIds(nodes: seq<Node>): (ids: seq<Id>)
    ensures |ids| == |nodes| && forall i | 0 <= i < |ids| :: ids[i] == nodes[i].id
  {
    seq(|nodes|, i requires 0 <= i < |nodes| => nodes[i].id)
  }

  function ByScores(scores: map<Id, real>): Order<Node> {
    (a: Node, b: Node) => a.id in scores && b.id in scores && RankLess(scores[a.id], a.id, scores[b.id], b.id)
  }

  /** The three metric columns, filled in one pass. */
  method FillMetrics(nodes: seq<Node>, sourceLatency: bool) returns (latencies: seq<real>, speeds: seq<real>, sessions: seq<real>)
    ensures var all := MetricsAll(nodes, sourceLatency);
            latencies == Latencies(all) && speeds == Speeds(all) && sessions == SessionCounts(all)
  {
    latencies, speeds, sessions := [], [], [];
    for i := 0 to |nodes|
      invariant var all := MetricsAll(nodes[..i], sourceLatency);
                latencies == Latencies(all) && speeds == Speeds(all) && sessions == SessionCounts(all)
    {
      var n := nodes[i];
      assert nodes[..i + 1][..i] == nodes[..i];
      assert MetricsAll(nodes[..i + 1], sourceLatency)[..i] == MetricsAll(nodes[..i], sourceLatency);
      latencies := latencies + [SmartLatency(n, sourceLatency) as real];
      speeds := speeds + [EffSpeed(n) as real];
      sessions := sessions + [n.sessions as real];
    }
    assert nodes[..|nodes|] == nodes;
  }

  /** The weights over the ranges the columns span. */
  function ScoreIn(sourceLatency: bool, lat: (real, real), speed: (real, real), sessions: (real, real)): Node -> real {
    (n: Node) =>
      var m := MetricsOf(n, sourceLatency);
      Weighted(1.0 - Normalize(m.latency, lat.0, lat.1), Normalize(m.speed, speed.0, speed.1),
               1.0 - Normalize(m.sessions, sessions.0, sessions.1))
  }

  ghost predicate Scored(scores: map<Id, real>, nodes: seq<Node>, score: Node -> real) {
    forall n | n in nodes :: n.id in scores && scores[n.id] == score(n)
  }

  method FillScores(nodes: seq<Node>, score: Node -> real) returns (scores: map<Id, real>)
    requires NoRepeats(NodeIds(nodes))
    ensures Scored(scores, nodes, score)
  {
    scores := map[];
    for i := 0 to |nodes|
      invariant Scored(scores, nodes[..i], score)
    {
      NewId(nodes, i);
      scores := scores[nodes[i].id := score(nodes[i])];
    }
    assert nodes[..|nodes|] == nodes;
  }

  lemma NewId(nodes: seq<Node>, i: nat)
    requires i < |nodes| && NoRepeats(NodeIds(nodes))
    ensures forall n | n in nodes[..i] :: n.id != nodes[i].id
    ensures forall n | n in nodes[..i + 1] :: n in nodes[..i] || n == nodes[i]
  {
    forall n | n in nodes[..i]
      ensures n.id != nodes[i].id
    {
      var k :| 0 <= k < i && nodes[k] == n;
      assert NodeIds(nodes)[k] != NodeIds(nodes)[i];
    }
  }

  function Range(values: seq<real>): (real, real)
    requires |values| > 0
  {
    (MinOf(values), MaxOf(values))
  }

  function ScoreAmong(all: seq<Metrics>, sourceLatency: bool): Node -> real
    requires |all| > 0
  {
    ScoreIn(sourceLatency, Range(Latencies(all)), Range(Speeds(all)), Range(SessionCounts(all)))
  }

  lemma ScoreAmongIsScore(all: seq<Metrics>, sourceLatency: bool, n: Node)
    requires |all| > 0
    ensures ScoreAmong(all, sourceLatency)(n) == Score(MetricsOf(n, sourceLatency), all)
  {
    ScoreInIsScoreOver(sourceLatency, Latencies(all), Speeds(all), SessionCounts(all), n);
  }

  lemma ScoreInIsScoreOver(sourceLatency: bool, latencies: seq<real>, speeds: seq<real>, sessions: seq<real>, n: Node)
    requires |latencies| > 0 && |speeds| > 0 && |sessions| > 0
    ensures ScoreIn(sourceLatency, Range(latencies), Range(speeds), Range(sessions))(n)
            == ScoreOver(MetricsOf(n, sourceLatency), latencies, speeds, sessions)
  {
  }

  lemma ScoresRank(scores: map<Id, real>, nodes: seq<Node>, all: seq<Metrics>, sourceLatency: bool)
    requires |all| > 0 && Scored(scores, nodes, ScoreAmong(all, sourceLatency))
    ensures StableSorted(nodes, ByScores(scores)) == StableSorted(nodes, SmartNodeOrder(all, sourceLatency))
  {
    forall x, y | x in nodes && y in nodes
      ensures ByScores(scores)(x, y) == SmartNodeOrder(all, sourceLatency)(x, y)
    {
      ScoreAmongIsScore(all, sourceLatency, x);
      ScoreAmongIsScore(all, sourceLatency, y);
    }
    SortAgrees(nodes, ByScores(scores), SmartNodeOrder(all, sourceLatency));
  }

  method SortSmartCandidates(nodes: seq<Node>, sourceLatency: bool) returns (out: seq<Node>)
    requires NoRepeats(NodeIds(nodes))
    ensures out == SmartSortedNodes(nodes, sourceLatency)
  {
    if |nodes| < 2 {
      return nodes;
    }
    var latencies, speeds, sessions := FillMetrics(nodes, sourceLatency);
    var latMin, latMax := MinMax(latencies);
    var speedMin, speedMax := MinMax(speeds);
    var sessionsMin, sessionsMax := MinMax(sessions);
    var score := ScoreIn(sourceLatency, (latMin, latMax), (speedMin, speedMax), (sessionsMin, sessionsMax));
    var scores := FillScores(nodes, score);
    out := StableSorted(nodes, ByScores(scores));
    ScoresRank(scores, nodes, MetricsAll(nodes, sourceLatency), sourceLatency);
  }

  function Ranked(nodes: seq<Node>, mode: Mode): (r: seq<Node>)
    ensures multiset(r) == multiset(nodes)
  {
    if mode.Smart? then SmartSortedNodes(nodes, false) else StableSorted(nodes, ModeOrder(mode))
  }

  /** `a` is strictly preferred to `b` among `nodes`. */
  ghost predicate Preferred(a: Node, b: Node, nodes: seq<Node>, mode: Mode) {
    if mode.Smart? then |nodes| > 0 && SmartLess(MetricsOf(a, false), MetricsOf(b, false), MetricsAll(nodes, false))
    else LessFor(a, b, mode)
  }

  lemma SmartNodeOrderIsStrictWeak(all: seq<Metrics>, sourceLatency: bool)
    requires |all| > 0
    ensures StrictWeak(SmartNodeOrder(all, sourceLatency))
  {
    SmartOrderIsStrictWeak(all);
    var less, less' := SmartNodeOrder(all, sourceLatency), SmartOrder(all);
    assert forall x, y :: less(x, y) == less'(MetricsOf(x, sourceLatency), MetricsOf(y, sourceLatency));
  }

  /** Nothing is preferred to the first of the ranking. */
  lemma FirstIsBest(nodes: seq<Node>, mode: Mode, n: Node)
    requires n in nodes
    ensures |Ranked(nodes, mode)| > 0 && Ranked(nodes, mode)[0] in nodes
    ensures !Preferred(n, Ranked(nodes, mode)[0], nodes, mode)
  {
    var ranked := Ranked(nodes, mode);
    SameElements(nodes, ranked);
    assert ranked[0] in ranked && n in ranked;
    var i :| 0 <= i < |ranked| && ranked[i] == n;
    if mode.Smart? {
      SmartNodeOrderIsStrictWeak(MetricsAll(nodes, false), false);
      if |nodes| >= 2 {
        SortOrdered(nodes, SmartNodeOrder(MetricsAll(nodes, false), false));
      }
      assert !SmartNodeOrder(MetricsAll(nodes, false), false)(n, ranked[0]);
    } else {
      LessForIsStrictWeak(mode);
      SortOrdered(nodes, ModeOrder(mode));
      assert !ModeOrder(mode)(n, ranked[0]);
    }
  }

  // ----- What each mode's ranking means -------------------------------------------------

  /**
   The default modes: the lower latency first, an unmeasured one counting as 999999 ms; then the
   source's score, its speed, and who is on a residential or mobile network.
   */
  ghost predicate LatencyLeads(a: Node, b: Node) {
    var (la, lb) := (if a.latency > 0 then a.latency else 999999, if b.latency > 0 then b.latency else 999999);
    && la <= lb
    && (la == lb ==> a.score >= b.score)
    && (la == lb && a.score == b.score ==> a.speed >= b.speed)
    && (la == lb && a.score == b.score && a.speed == b.speed && b.ipType in {Residential, Mobile} ==> a.ipType in {Residential, Mobile})
  }

  /** Speed first: the higher speed first, one that is not positive counting for -1; then latency, score and network. */
  ghost predicate SpeedLeads(a: Node, b: Node) {
    var (la, lb) := (if a.latency > 0 then a.latency else 999999, if b.latency > 0 then b.latency else 999999);
    var (sa, sb) := (if a.speed > 0 then a.speed else -1, if b.speed > 0 then b.speed else -1);
    && sa >= sb
    && (sa == sb ==> la <= lb)
    && (sa == sb && la == lb ==> a.score >= b.score)
    && (sa == sb && la == lb && a.score == b.score && b.ipType in {Residential, Mobile} ==> a.ipType in {Residential, Mobile})
  }

  /** Residential first: residential and mobile networks first; then latency, score and speed. */
  ghost predicate ResidenceLeads(a: Node, b: Node) {
    var (la, lb) := (if a.latency > 0 then a.latency else 999999, if b.latency > 0 then b.latency else 999999);
    && (b.ipType in {Residential, Mobile} ==> a.ipType in {Residential, Mobile})
    && ((a.ipType in {Residential, Mobile} <==> b.ipType in {Residential, Mobile}) ==>
          && la <= lb
          && (la == lb ==> a.score >= b.score)
          && (la == lb && a.score == b.score ==> a.speed >= b.speed))
  }

  /**
   First probes: outside speed first, the lower ping the source reports, none
   counting as 999999 ms; then score, speed and fewer sessions.
   */
  ghost predicate ProbeLeads(a: Node, b: Node, mode: Mode) {
    var (pa, pb) := (if a.sourcePing != 0 then a.sourcePing else 999999, if b.sourcePing != 0 then b.sourcePing else 999999);
    var further :=
      && pa <= pb
      && (pa == pb ==> a.score >= b.score)
      && (pa == pb && a.score == b.score ==> a.speed >= b.speed)
      && (pa == pb && a.score == b.score && a.speed == b.speed ==> a.sessions <= b.sessions);
    if mode == SpeedFirst then a.speed > b.speed || (a.speed == b.speed && further) else further
  }

  /** `a` may stand ahead of `b`, whatever the mode but the smart one. */
  ghost predicate Leads(a: Node, b: Node, mode: Mode) {
    match mode
    case SpeedFirst => SpeedLeads(a, b)
    case ResidentialFirst => ResidenceLeads(a, b)
    case _ => LatencyLeads(a, b)
  }

  lemma LeadsExactly(a: Node, b: Node, mode: Mode)
    ensures Leads(a, b, mode) <==> !LessFor(b, a, mode)
  {
  }

  lemma ProbeLeadsExactly(a: Node, b: Node, mode: Mode)
    ensures ProbeLeads(a, b, mode) <==> !ProbeLess(b, a, mode)
  {
  }

  /** Whoever stands further down the ranking does not beat whoever stands further up, by what the mode goes by. */
  lemma RankedByMode(nodes: seq<Node>, mode: Mode, i: nat, j: nat)
    requires i < j < |Ranked(nodes, mode)|
    ensures mode == SpeedFirst ==> SpeedLeads(Ranked(nodes, mode)[i], Ranked(nodes, mode)[j])
    ensures mode == ResidentialFirst ==> ResidenceLeads(Ranked(nodes, mode)[i], Ranked(nodes, mode)[j])
    ensures mode !in {SpeedFirst, ResidentialFirst, Smart} ==> LatencyLeads(Ranked(nodes, mode)[i], Ranked(nodes, mode)[j])
  {
    if mode != Smart {
      LessForIsStrictWeak(mode);
      SortOrdered(nodes, ModeOrder(mode));
      assert !ModeOrder(mode)(Ranked(nodes, mode)[j], Ranked(nodes, mode)[i]);
      LeadsExactly(Ranked(nodes, mode)[i], Ranked(nodes, mode)[j], mode);
    }
  }

  /** The first of the ranking beats or equals every candidate, by what the mode goes by. */
  lemma FirstLeads(nodes: seq<Node>, mode: Mode, n: Node)
    requires n in nodes
    ensures |Ranked(nodes, mode)| > 0
    ensures mode == SpeedFirst ==> SpeedLeads(Ranked(nodes, mode)[0], n)
    ensures mode == ResidentialFirst ==> ResidenceLeads(Ranked(nodes, mode)[0], n)
    ensures mode !in {SpeedFirst, ResidentialFirst, Smart} ==> LatencyLeads(Ranked(nodes, mode)[0], n)
  {
    FirstIsBest(nodes, mode, n);
    if mode != Smart {
      LeadsExactly(Ranked(nodes, mode)[0], n, mode);
    }
  }

  lemma {:induction false} TiedIsSublist<T(!new)>(s: seq<T>, less: Order<T>, x: T, p: T -> bool)
    requires forall y :: p(y) <==> Tied(less, x, y)
    ensures TiedWith(s, less, x) == Sublist(s, p)
  {
    if s != [] {
      TiedIsSublist(s[1..], less, x, p);
    }
  }

  /** Nodes of which neither beats the other keep the order they were listed in. */
  lemma TiesKeepTheirOrder(nodes: seq<Node>, mode: Mode, x: Node)
    requires mode != Smart
    ensures Sublist(Ranked(nodes, mode), y => Leads(x, y, mode) && Leads(y, x, mode))
            == Sublist(nodes, y => Leads(x, y, mode) && Leads(y, x, mode))
  {
    var p := y => Leads(x, y, mode) && Leads(y, x, mode);
    forall y
      ensures p(y) <==> Tied(ModeOrder(mode), x, y)
    {
      LeadsExactly(x, y, mode);
      LeadsExactly(y, x, mode);
    }
    TiedIsSublist(nodes, ModeOrder(mode), x, p);
    TiedIsSublist(Ranked(nodes, mode), ModeOrder(mode), x, p);
    LessForIsStrictWeak(mode);
    SortStable(nodes, ModeOrder(mode), x);
  }

  /** The first probes go out by ping, or by speed in the speed-first mode. */
  lemma FirstProbesByMode(nodes: seq<Node>, mode: Mode, i: nat, j: nat)
    requires i < j < |nodes|
    ensures ProbeLeads(StableSorted(nodes, ProbeOrder(mode))[i], StableSorted(nodes, ProbeOrder(mode))[j], mode)
  {
    ProbeLessIsStrictWeak(mode);
    SortOrdered(nodes, ProbeOrder(mode));
    var sorted := StableSorted(nodes, ProbeOrder(mode));
    assert !ProbeOrder(mode)(sorted[j], sorted[i]);
    ProbeLeadsExactly(sorted[i], sorted[j], mode);
  }

  // ----- What the smart ranking means ---------------------------------------------------

  /** What a latency, a speed or a number of sessions is worth, from 0 at the low end of the candidates to 1 at the high end. */
  ghost function Part(v: int, lo: int, hi: int): real {
    if lo == hi then 0.5 else (v - lo) as real / (hi - lo) as real
  }

  ghost function Latency(n: Node, sourceLatency: bool): int {
    if n.latency > 0 then n.latency
    else if n.sourcePing > 0 && sourceLatency then n.sourcePing
    else 999999
  }

  ghost function Speed(n: Node): int {
    if n.speed > 0 then n.speed else -1
  }

  /** The ends are those of the candidates' values. */
  ghost predicate Span(nodes: seq<Node>, value: Node -> int, ends: (int, int)) {
    && (forall n | n in nodes :: ends.0 <= value(n) <= ends.1)
    && (exists n | n in nodes :: value(n) == ends.0)
    && (exists n | n in nodes :: value(n) == ends.1)
  }

  /** Latency and speed count for two fifths each, sessions for one; low latency and few sessions are good. */
  ghost function Total(n: Node, sourceLatency: bool, latency: (int, int), speed: (int, int), sessions: (int, int)): real {
    (2.0 * (1.0 - Part(Latency(n, sourceLatency), latency.0, latency.1))
     + 2.0 * Part(Speed(n), speed.0, speed.1)
     + (1.0 - Part(n.sessions, sessions.0, sessions.1))) / 5.0
  }

  lemma RangeFound(values: seq<real>, lo: real, hi: real)
    requires lo in values && hi in values && forall v | v in values :: lo <= v <= hi
    ensures MinOf(values) == lo && MaxOf(values) == hi
  {
  }

  lemma NormalizeIsPart(v: int, lo: int, hi: int)
    ensures Normalize(v as real, lo as real, hi as real) == Part(v, lo, hi)
  {
    assert (v - lo) as real == v as real - lo as real && (hi - lo) as real == hi as real - lo as real;
  }

  lemma ScaledIsPart(nodes: seq<Node>, value: Node -> int, ends: (int, int), n: Node, column: seq<real>)
    requires Span(nodes, value, ends) && n in nodes && |column| == |nodes|
    requires forall i | 0 <= i < |nodes| :: column[i] == value(nodes[i]) as real
    ensures Scaled(value(n) as real, column) == Part(value(n), ends.0, ends.1)
  {
    var lo :| lo in nodes && value(lo) == ends.0;
    var hi :| hi in nodes && value(hi) == ends.1;
    var l :| 0 <= l < |nodes| && nodes[l] == lo;
    var h :| 0 <= h < |nodes| && nodes[h] == hi;
    assert column[l] == ends.0 as real && column[h] == ends.1 as real;
    forall v | v in column
      ensures ends.0 as real <= v <= ends.1 as real
    {
      var i :| 0 <= i < |column| && column[i] == v;
      assert nodes[i] in nodes;
    }
    RangeFound(column, ends.0 as real, ends.1 as real);
    NormalizeIsPart(value(n), ends.0, ends.1);
  }

  lemma WeightedInFifths(latency: real, speed: real, sessions: real)
    ensures Weighted(1.0 - latency, speed, 1.0 - sessions) == (2.0 * (1.0 - latency) + 2.0 * speed + (1.0 - sessions)) / 5.0
  {
  }

  lemma ColumnsOf(nodes: seq<Node>, sourceLatency: bool)
    ensures var all := MetricsAll(nodes, sourceLatency);
            forall i | 0 <= i < |nodes| ::
              && Latencies(all)[i] == Latency(nodes[i], sourceLatency) as real
              && Speeds(all)[i] == Speed(nodes[i]) as real
              && SessionCounts(all)[i] == nodes[i].sessions as real
  {
    var all := MetricsAll(nodes, sourceLatency);
    forall i | 0 <= i < |nodes|
      ensures all[i] == MetricsOf(nodes[i], sourceLatency)
    {
      MappedAt(nodes, MetricsFn(sourceLatency), i);
    }
  }

  lemma ScoreIsTotal(nodes: seq<Node>, sourceLatency: bool, latency: (int, int), speed: (int, int), sessions: (int, int), n: Node)
    requires n in nodes
    requires Span(nodes, m => Latency(m, sourceLatency), latency)
    requires Span(nodes, Speed, speed) && Span(nodes, (m: Node) => m.sessions, sessions)
    ensures Score(MetricsOf(n, sourceLatency), MetricsAll(nodes, sourceLatency)) == Total(n, sourceLatency, latency, speed, sessions)
  {
    var all := MetricsAll(nodes, sourceLatency);
    ColumnsOf(nodes, sourceLatency);
    ScaledIsPart(nodes, m => Latency(m, sourceLatency), latency, n, Latencies(all));
    ScaledIsPart(nodes, Speed, speed, n, Speeds(all));
    ScaledIsPart(nodes, (m: Node) => m.sessions, sessions, n, SessionCounts(all));
    ScoreOverIsTotal(n, sourceLatency, latency, speed, sessions, Latencies(all), Speeds(all), SessionCounts(all));
  }

  lemma ScoreOverIsTotal(n: Node, sourceLatency: bool, latency: (int, int), speed: (int, int), sessions: (int, int),
                         latencies: seq<real>, speeds: seq<real>, counts: seq<real>)
    requires |latencies| > 0 && |speeds| > 0 && |counts| > 0
    requires Scaled(Latency(n, sourceLatency) as real, latencies) == Part(Latency(n, sourceLatency), latency.0, latency.1)
    requires Scaled(Speed(n) as real, speeds) == Part(Speed(n), speed.0, speed.1)
    requires Scaled(n.sessions as real, counts) == Part(n.sessions, sessions.0, sessions.1)
    ensures ScoreOver(MetricsOf(n, sourceLatency), latencies, speeds, counts) == Total(n, sourceLatency, latency, speed, sessions)
  {
    WeightedInFifths(Part(Latency(n, sourceLatency), latency.0, latency.1), Part(Speed(n), speed.0, speed.1),
                     Part(n.sessions, sessions.0, sessions.1));
  }

  /** The smart ranking is by the total, the highest first, and by id where totals are equal. */
  lemma SmartRankedByTotal(nodes: seq<Node>, sourceLatency: bool, latency: (int, int), speed: (int, int), sessions: (int, int), i: nat, j: nat)
    requires Span(nodes, m => Latency(m, sourceLatency), latency)
    requires Span(nodes, Speed, speed) && Span(nodes, (m: Node) => m.sessions, sessions)
    requires i < j < |SmartSortedNodes(nodes, sourceLatency)|
    ensures var (a, b) := (SmartSortedNodes(nodes, sourceLatency)[i], SmartSortedNodes(nodes, sourceLatency)[j]);
            var (ta, tb) := (Total(a, sourceLatency, latency, speed, sessions), Total(b, sourceLatency, latency, speed, sessions));
            ta > tb || (ta == tb && AtMost(a.id, b.id))
  {
    var sorted, order := SmartSortedNodes(nodes, sourceLatency), SmartNodeOrder(MetricsAll(nodes, sourceLatency), sourceLatency);
    SameElements(nodes, sorted);
    SmartNodeOrderIsStrictWeak(MetricsAll(nodes, sourceLatency), sourceLatency);
    SortOrdered(nodes, order);
    assert sorted[i] in sorted && sorted[j] in sorted;
    ScoreIsTotal(nodes, sourceLatency, latency, speed, sessions, sorted[i]);
    ScoreIsTotal(nodes, sourceLatency, latency, speed, sessions, sorted[j]);
    assert !order(sorted[j], sorted[i]);
  }

  lemma {:induction false} SpanExists(nodes: seq<Node>, value: Node -> int) returns (ends: (int, int))
    requires nodes != []
    ensures Span(nodes, value, ends)
  {
    var first := nodes[0];
    if |nodes| == 1 {
      ends := (value(first), value(first));
    } else {
      var rest := SpanExists(nodes[1..], value);
      assert forall n | n in nodes :: n == first || n in nodes[1..];
      ends := (Min(value(first), rest.0), if value(first) > rest.1 then value(first) else rest.1);
    }
  }

  /** The first of the smart ranking has the highest total. */
  lemma FirstHasHighestTotal(nodes: seq<Node>, latency: (int, int), speed: (int, int), sessions: (int, int), n: Node)
    requires Span(nodes, m => Latency(m, false), latency)
    requires Span(nodes, Speed, speed) && Span(nodes, (m: Node) => m.sessions, sessions)
    requires n in nodes
    ensures |Ranked(nodes, Smart)| > 0
    ensures Total(n, false, latency, speed, sessions) <= Total(Ranked(nodes, Smart)[0], false, latency, speed, sessions)
  {
    var ranked := Ranked(nodes, Smart);
    SameElements(nodes, ranked);
    var i :| 0 <= i < |ranked| && ranked[i] == n;
    if i > 0 {
      SmartRankedByTotal(nodes, false, latency, speed, sessions, 0, i);
    }
  }

  /** The same nodes, in the order the mode the settings name puts them. */
  method SortCandidates(nodes: seq<Node>, settings: Settings) returns (out: seq<Node>)
    requires NoRepeats(NodeIds(nodes))
    ensures out == Ranked(nodes, settings.mode)
    ensures multiset(out) == multiset(nodes)
    ensures settings.mode != Smart ==> forall i, j | 0 <= i < j < |out| :: Leads(out[i], out[j], settings.mode)
  {
    if settings.mode.Smart? {
      out := SortSmartCandidates(nodes, false);
      return;
    }
    out := StableSorted(nodes, ModeOrder(settings.mode));
    forall i, j | 0 <= i < j < |out|
      ensures Leads(out[i], out[j], settings.mode)
    {
      RankedByMode(nodes, settings.mode, i, j);
    }
  }
}
