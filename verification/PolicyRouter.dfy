/**
 The policy router (internal/netx/routing.go) against a small kernel: a multiset of rules, a
 multiset of routes and a map of rp_filter values, reached through commands that may fail.
 */
module PolicyRouter {
  import opened Wrappers
  import opened Naming

  type Device = string

  /** A rule as far as the router can tell rules apart; "" is a rule without an outgoing interface. */
  datatype Rule = Rule(oif: Device, table: int)

  /** "" is a route without a device. */
  datatype Route = Route(dest: string, dev: Device, table: int)

  datatype Host = Host(rules: multiset<Rule>, routes: multiset<Route>, rpFilter: map<Device, string>)

  // ----- What the commands print, and how it is parsed --------------------------------

  /** One line of output, already split into fields. */
  type Fields = seq<string>

  datatype PolicyRule = PolicyRule(oif: Device, table: string)

  datatype TableRoute = TableRoute(destination: string, device: Device)

  /** A table is printed by its registered name, if it has one. */
  function TableText(names: map<int, string>, table: int): string {
    if table in names then names[table] else Itoa(table)
  }

  function ShowRule(names: map<int, string>, r: Rule): Fields {
    ["32765:", "from", "all"] + (if r.oif == "" then [] else ["oif", r.oif]) + ["lookup", TableText(names, r.table)]
  }

  function ShowRoute(r: Route): Fields {
    [r.dest] + (if r.dev == "" then [] else ["dev", r.dev]) + ["scope", "link"]
  }

  /** The field after the last `key`, or "". */
  function LastAfter(fields: Fields, key: string): string {
    if |fields| < 2 then ""
    else if fields[|fields| - 2] == key then fields[|fields| - 1]
    else LastAfter(fields[..|fields| - 1], key)
  }

  /** The field after the first `key`, or "". */
  function FirstAfter(fields: Fields, key: string): string {
    if |fields| < 2 then "" else if fields[0] == key then fields[1] else FirstAfter(fields[1..], key)
  }

  method ParseRule(fields: Fields) returns (rule: PolicyRule)
    ensures rule == PolicyRule(LastAfter(fields, "oif"), LastAfter(fields, "lookup"))
  {
    rule := PolicyRule("", "");
    for i := 0 to |fields|
      invariant i < |fields| ==> rule == PolicyRule(LastAfter(fields[..i + 1], "oif"), LastAfter(fields[..i + 1], "lookup"))
      invariant i == |fields| ==> rule == PolicyRule(LastAfter(fields, "oif"), LastAfter(fields, "lookup"))
    {
      if i + 1 >= |fields| {
        assert fields[..i + 1] == fields;
        break;
      }
      assert fields[..i + 2][..i + 1] == fields[..i + 1];
      if fields[i] == "oif" {
        rule := rule.(oif := fields[i + 1]);
      } else if fields[i] == "lookup" {
        rule := rule.(table := fields[i + 1]);
      }
    }
  }

  method ParseRoute(fields: Fields) returns (route: TableRoute)
    requires fields != []
    ensures route == TableRoute(fields[0], FirstAfter(fields, "dev"))
  {
    route := TableRoute(fields[0], "");
    for i := 0 to |fields|
      invariant route == TableRoute(fields[0], "")
      invariant FirstAfter(fields, "dev") == FirstAfter(fields[i..], "dev")
    {
      assert fields[i..][1..] == fields[i + 1..];
      if fields[i] == "dev" && i + 1 < |fields| {
        assert fields[i..][1] == fields[i + 1];
        return route.(device := fields[i + 1]);
      }
    }
  }

  lemma LastAfterAppend(fields: Fields, x: string, key: string)
    ensures LastAfter(fields + [x], key)
            == if fields != [] && fields[|fields| - 1] == key then x else LastAfter(fields, key)
  {
    assert (fields + [x])[..|fields|] == fields;
  }

  lemma FirstAfterPrepend(x: string, fields: Fields, key: string)
    ensures FirstAfter([x] + fields, key)
            == if fields != [] && x == key then fields[0] else FirstAfter(fields, key)
  {
    assert ([x] + fields)[1..] == fields;
  }

  lemma LastAfterShown(names: map<int, string>, r: Rule, key: string)
    requires key == "oif" || key == "lookup"
    ensures LastAfter(ShowRule(names, r), key) ==
            if key == "lookup" then TableText(names, r.table) else if r.oif == "oif" then "lookup" else r.oif
  {
    var start: Fields := ["32765:", "from", "all"];
    var text := TableText(names, r.table);
    assert LastAfter(start, key) == "" by {
      assert start == [] + ["32765:"] + ["from"] + ["all"];
      LastAfterAppend([], "32765:", key);
      LastAfterAppend([] + ["32765:"], "from", key);
      LastAfterAppend([] + ["32765:"] + ["from"], "all", key);
    }
    if r.oif == "" {
      LastAfterAppend(start, "lookup", key);
      LastAfterAppend(start + ["lookup"], text, key);
      assert ShowRule(names, r) == start + ["lookup"] + [text];
    } else {
      LastAfterAppend(start, "oif", key);
      LastAfterAppend(start + ["oif"], r.oif, key);
      LastAfterAppend(start + ["oif"] + [r.oif], "lookup", key);
      LastAfterAppend(start + ["oif"] + [r.oif] + ["lookup"], text, key);
      assert ShowRule(names, r) == start + ["oif"] + [r.oif] + ["lookup"] + [text];
    }
  }

  /** A printed rule is read back as it was, unless its device is called "oif", which the scan takes for the keyword. */
  lemma ShownRuleParses(names: map<int, string>, r: Rule)
    ensures LastAfter(ShowRule(names, r), "lookup") == TableText(names, r.table)
    ensures LastAfter(ShowRule(names, r), "oif") == if r.oif == "oif" then "lookup" else r.oif
  {
    LastAfterShown(names, r, "lookup");
    LastAfterShown(names, r, "oif");
  }

  lemma ShownRouteParses(r: Route)
    requires r.dest != "dev"
    ensures ShowRoute(r) != [] && ShowRoute(r)[0] == r.dest && FirstAfter(ShowRoute(r), "dev") == r.dev
  {
    FirstAfterPrepend("scope", ["link"], "dev");
    assert ["scope", "link"] == ["scope"] + ["link"];
    if r.dev == "" {
      FirstAfterPrepend(r.dest, ["scope", "link"], "dev");
      assert ShowRoute(r) == [r.dest] + ["scope", "link"];
    } else {
      FirstAfterPrepend("dev", [r.dev, "scope", "link"], "dev");
      FirstAfterPrepend(r.dest, ["dev", r.dev, "scope", "link"], "dev");
      assert ["dev", r.dev, "scope", "link"] == ["dev"] + [r.dev, "scope", "link"];
      assert ShowRoute(r) == [r.dest] + ["dev", r.dev, "scope", "link"];
    }
  }

  // ----- Sorting out what was listed ---------------------------------------------------

  function Parsed(fields: Fields): PolicyRule {
    PolicyRule(LastAfter(fields, "oif"), LastAfter(fields, "lookup"))
  }

  /** The devices of the rules that are `mine`. */
  function Attributions(lines: seq<Fields>, mine: PolicyRule -> bool): seq<Device> {
    if lines == [] then []
    else
      var last := Parsed(lines[|lines| - 1]);
      Attributions(lines[..|lines| - 1], mine) + if mine(last) then [last.oif] else []
  }

  method SelectRules(lines: seq<Fields>, mine: PolicyRule -> bool) returns (oifs: seq<Device>)
    ensures oifs == Attributions(lines, mine)
  {
    oifs := [];
    for i := 0 to |lines|
      invariant oifs == Attributions(lines[..i], mine)
    {
      assert lines[..i + 1][..i] == lines[..i];
      var rule := ParseRule(lines[i]);
      if !mine(rule) {
        continue;
      }
      oifs := oifs + [rule.oif];
    }
    assert lines[..|lines|] == lines;
  }

  lemma {:induction false} SelectedRulesQualify(lines: seq<Fields>, mine: PolicyRule -> bool)
    ensures forall d | d in Attributions(lines, mine) :: exists p: PolicyRule :: p.oif == d && mine(p)
  {
    if lines != [] {
      SelectedRulesQualify(lines[..|lines| - 1], mine);
    }
  }

  /** The device a printed rule is attributed to, if it is `mine`. */
  function Attribution(names: map<int, string>, mine: PolicyRule -> bool, r: Rule): multiset<Device> {
    var p := Parsed(ShowRule(names, r));
    if mine(p) then multiset{p.oif} else multiset{}
  }

  ghost function AnyOf<T>(m: multiset<T>): (x: T)
    requires m != multiset{}
    ensures x in m
  {
    var x :| x in m; x
  }

  /** What the elements contribute, together. */
  ghost function Gathered<T, U>(f: T -> multiset<U>, m: multiset<T>): multiset<U>
    decreases |m|
  {
    if m == multiset{} then multiset{} else Gathered(f, m - multiset{AnyOf(m)}) + f(AnyOf(m))
  }

  /** It does not matter which element is taken first. */
  lemma {:induction false} GatheredSplits<T, U>(f: T -> multiset<U>, m: multiset<T>, y: T)
    requires y in m
    ensures Gathered(f, m) == Gathered(f, m - multiset{y}) + f(y)
    decreases |m|
  {
    var x := AnyOf(m);
    if x != y {
      GatheredSplits(f, m - multiset{x}, y);
      GatheredSplits(f, m - multiset{y}, x);
      assert m - multiset{x} - multiset{y} == m - multiset{y} - multiset{x};
      SummandsSwap(Gathered(f, m - multiset{x} - multiset{y}), f(y), f(x));
    }
  }

  lemma SummandsSwap<U>(a: multiset<U>, b: multiset<U>, c: multiset<U>)
    ensures a + b + c == a + c + b
  {
  }

  lemma GatheredOne<T, U>(f: T -> multiset<U>, y: T)
    ensures Gathered(f, multiset{y}) == f(y)
  {
    assert AnyOf(multiset{y}) == y && multiset{y} - multiset{y} == multiset{};
  }

  lemma {:induction false} GatheredAtLeast<T, U>(f: T -> multiset<U>, m: multiset<T>, y: T, u: U)
    requires f(y) == multiset{u}
    ensures m[y] <= Gathered(f, m)[u]
    decreases |m|
  {
    if y in m {
      GatheredAtLeast(f, m - multiset{y}, y, u);
      GatheredSplits(f, m, y);
    }
  }

  lemma {:induction false} GatheredExactly<T(!new), U>(f: T -> multiset<U>, m: multiset<T>, y: T, u: U)
    requires f(y) == multiset{u} && forall x :: u in f(x) ==> x == y
    ensures m[y] == Gathered(f, m)[u]
    decreases |m|
  {
    if m != multiset{} {
      var x := AnyOf(m);
      GatheredExactly(f, m - multiset{x}, y, u);
      assert x != y ==> u !in f(x);
    }
  }

  lemma {:induction false} GatheredNothing<T(!new), U>(f: T -> multiset<U>, m: multiset<T>)
    requires forall x :: f(x) == multiset{}
    ensures Gathered(f, m) == multiset{}
    decreases |m|
  {
    if m != multiset{} {
      GatheredNothing(f, m - multiset{AnyOf(m)});
    }
  }

  ghost function Attributing(names: map<int, string>, mine: PolicyRule -> bool): Rule -> multiset<Device> {
    r => Attribution(names, mine, r)
  }

  /** A listing contributes line by line what the multiset does together. */
  lemma {:induction false} ListedIsGathered<T, U>(f: T -> multiset<U>, s: seq<T>)
    ensures Folded(f, s) == Gathered(f, multiset(s))
  {
    if s != [] {
      var front, last := s[..|s| - 1], s[|s| - 1];
      ListedIsGathered(f, front);
      assert s == front + [last] && multiset(s) - multiset{last} == multiset(front);
      GatheredSplits(f, multiset(s), last);
    }
  }

  ghost function Folded<T, U>(f: T -> multiset<U>, s: seq<T>): multiset<U> {
    if s == [] then multiset{} else Folded(f, s[..|s| - 1]) + f(s[|s| - 1])
  }

  lemma LastAttribution(names: map<int, string>, mine: PolicyRule -> bool, lines: seq<Fields>, r: Rule)
    requires lines != [] && lines[|lines| - 1] == ShowRule(names, r)
    ensures multiset(Attributions(lines, mine)) == multiset(Attributions(lines[..|lines| - 1], mine)) + Attribution(names, mine, r)
  {
  }

  lemma {:induction false} AttributionsFolded(names: map<int, string>, mine: PolicyRule -> bool, f: Rule -> multiset<Device>,
                                              listed: seq<Rule>, lines: seq<Fields>)
    requires |lines| == |listed| && forall i | 0 <= i < |listed| :: lines[i] == ShowRule(names, listed[i])
    requires f == Attributing(names, mine)
    ensures multiset(Attributions(lines, mine)) == Folded(f, listed)
  {
    if listed != [] {
      var n := |listed| - 1;
      AttributionsFolded(names, mine, f, listed[..n], lines[..n]);
      LastAttribution(names, mine, lines, listed[n]);
    }
  }

  /** Listed in any order, the rules are attributed alike. */
  lemma ListedAttributions(names: map<int, string>, mine: PolicyRule -> bool, listed: seq<Rule>, lines: seq<Fields>)
    requires |lines| == |listed| && forall i | 0 <= i < |listed| :: lines[i] == ShowRule(names, listed[i])
    ensures multiset(Attributions(lines, mine)) == Gathered(Attributing(names, mine), multiset(listed))
  {
    AttributionsFolded(names, mine, Attributing(names, mine), listed, lines);
    ListedIsGathered(Attributing(names, mine), listed);
  }

  ghost predicate NoBlankLine(lines: seq<Fields>) {
    forall i | 0 <= i < |lines| :: lines[i] != []
  }

  function ParsedRoute(fields: Fields): TableRoute
    requires fields != []
  {
    TableRoute(fields[0], FirstAfter(fields, "dev"))
  }

  /** The listed routes whose device is owned, or those whose device is not. */
  ghost function Chosen(lines: seq<Fields>, owns: Device -> bool, owned: bool): seq<TableRoute>
    requires NoBlankLine(lines)
  {
    if lines == [] then []
    else
      var route := ParsedRoute(lines[|lines| - 1]);
      Chosen(lines[..|lines| - 1], owns, owned) + if owns(route.device) == owned then [route] else []
  }

  method SplitRoutes(lines: seq<Fields>, owns: Device -> bool) returns (ours: seq<TableRoute>, foreign: seq<TableRoute>)
    requires NoBlankLine(lines)
    ensures ours == Chosen(lines, owns, true) && foreign == Chosen(lines, owns, false)
  {
    ours, foreign := [], [];
    for i := 0 to |lines|
      invariant ours == Chosen(lines[..i], owns, true) && foreign == Chosen(lines[..i], owns, false)
    {
      assert lines[..i + 1][..i] == lines[..i];
      var route := ParseRoute(lines[i]);
      if owns(route.device) {
        ours := ours + [route];
      } else {
        foreign := foreign + [route];
      }
    }
    assert lines[..|lines|] == lines;
  }

  lemma {:induction false} SplitQualifies(lines: seq<Fields>, owns: Device -> bool, owned: bool)
    requires NoBlankLine(lines)
    ensures forall t | t in Chosen(lines, owns, owned) :: owns(t.device) == owned
  {
    if lines != [] {
      SplitQualifies(lines[..|lines| - 1], owns, owned);
    }
  }

  lemma {:induction false} RoutesAreCounted(table: int, listed: seq<Route>, lines: seq<Fields>, owns: Device -> bool, r: Route)
    requires |lines| == |listed| && NoBlankLine(lines) && r.table == table
    requires forall i | 0 <= i < |listed| :: lines[i] == ShowRoute(listed[i]) && listed[i].dest != "dev" && listed[i].table == table
    ensures multiset(listed)[r] == multiset(Chosen(lines, owns, owns(r.dev)))[TableRoute(r.dest, r.dev)]
  {
    if listed != [] {
      var front, last := listed[..|listed| - 1], listed[|listed| - 1];
      assert listed == front + [last];
      RoutesAreCounted(table, front, lines[..|lines| - 1], owns, r);
      ShownRouteParses(last);
    }
  }

  // ----- The kernel -----------------------------------------------------------------

  function RulesWithout(h: Host, oif: Device, table: int): Host {
    h.(rules := h.rules - multiset{Rule(oif, table)})
  }

  function RoutesWithout(h: Host, dest: string, dev: Device, table: int): Host {
    h.(routes := h.routes - multiset{Route(dest, dev, table)})
  }

  ghost predicate Flushed(before: Host, table: int, after: Host) {
    && after.rules == before.rules && after.rpFilter == before.rpFilter
    && forall r :: after.routes[r] == if r.table == table then 0 else before.routes[r]
  }

  method Enumerate<T(==)>(m: multiset<T>) returns (s: seq<T>)
    ensures multiset(s) == m
  {
    s := [];
    var todo := m;
    while todo != multiset{}
      invariant multiset(s) + todo == m
      decreases |todo|
    {
      var x :| x in todo;
      todo := todo - multiset{x};
      s := s + [x];
    }
  }

  function Here(routes: seq<Route>, table: int): seq<Route> {
    if routes == [] then []
    else
      var last := routes[|routes| - 1];
      Here(routes[..|routes| - 1], table) + if last.table == table then [last] else []
  }

  function Elsewhere(routes: seq<Route>, table: int): seq<Route> {
    if routes == [] then []
    else
      var last := routes[|routes| - 1];
      Elsewhere(routes[..|routes| - 1], table) + if last.table == table then [] else [last]
  }

  lemma {:induction false} HereCounts(routes: seq<Route>, table: int)
    ensures forall r :: multiset(Here(routes, table))[r] == if r.table == table then multiset(routes)[r] else 0
  {
    if routes != [] {
      assert routes == routes[..|routes| - 1] + [routes[|routes| - 1]];
      HereCounts(routes[..|routes| - 1], table);
    }
  }

  lemma {:induction false} ElsewhereCounts(routes: seq<Route>, table: int)
    ensures forall r :: multiset(Elsewhere(routes, table))[r] == if r.table == table then 0 else multiset(routes)[r]
  {
    if routes != [] {
      assert routes == routes[..|routes| - 1] + [routes[|routes| - 1]];
      ElsewhereCounts(routes[..|routes| - 1], table);
    }
  }

  /** A command as far as telling commands apart matters. */
  datatype Command = ShowRules | ShowRoutes | DelRule | DelRoute | AddRule | AddRoute | FlushRoutes
                   | ReadRp(dev: Device) | WriteRp(dev: Device, value: string)

  /** A command in the order of running: whether it could be run, and the host it met. */
  datatype Ran = Ran(command: Command, ok: bool, on: Host)

  /**
   The host, reached by commands. `ok(n, c)` says whether `c`, as the n-th command, does its work where the
   kernel lets it; of those that do not, `exits(n, c)` says whether they were started and failed with a code.
   */
  class Runner {
    var host: Host
    var log: seq<Ran>
    const ok: (nat, Command) -> bool
    const exits: (nat, Command) -> bool
    const names: map<int, string>

    constructor (host: Host, names: map<int, string>, ok: (nat, Command) -> bool, exits: (nat, Command) -> bool)
      ensures this.host == host && this.names == names && this.ok == ok && this.exits == exits && log == []
    {
      this.host, this.names, this.ok, this.exits, log := host, names, ok, exits, [];
    }

    /** What the next command's entry in the log is. */
    function Next(c: Command): Ran
      reads this
    {
      Ran(c, ok(|log|, c), host)
    }

    method Record(c: Command) returns (runs: bool)
      modifies `log
      ensures log == old(log) + [old(Next(c))] && runs == old(Next(c)).ok
    {
      runs := Next(c).ok;
      log := log + [Next(c)];
    }

    /** `ip rule show`, in any order. */
    method RuleShow() returns (lines: Option<seq<Fields>>, ghost listed: seq<Rule>)
      modifies `log
      ensures log == old(log) + [old(Next(ShowRules))]
      ensures lines.Some? <==> old(Next(ShowRules)).ok
      ensures lines.Some? ==>
                && multiset(listed) == host.rules && |lines.value| == |listed|
                && forall i | 0 <= i < |listed| :: lines.value[i] == ShowRule(names, listed[i])
    {
      var runs := Record(ShowRules);
      listed := [];
      if !runs {
        return None, listed;
      }
      var all := Enumerate(host.rules);
      listed := all;
      lines := Some(seq(|all|, i requires 0 <= i < |all| => ShowRule(names, all[i])));
    }

    /** `ip route show table N`. */
    method RouteShow(table: int) returns (lines: Option<seq<Fields>>, ghost listed: seq<Route>)
      modifies `log
      ensures log == old(log) + [old(Next(ShowRoutes))]
      ensures lines.Some? <==> old(Next(ShowRoutes)).ok
      ensures lines.Some? ==>
                && (forall r :: multiset(listed)[r] == if r.table == table then host.routes[r] else 0)
                && |lines.value| == |listed|
                && forall i | 0 <= i < |listed| :: lines.value[i] == ShowRoute(listed[i])
    {
      var runs := Record(ShowRoutes);
      listed := [];
      if !runs {
        return None, listed;
      }
      var all := Enumerate(host.routes);
      HereCounts(all, table);
      var here := Here(all, table);
      listed := here;
      lines := Some(seq(|here|, i requires 0 <= i < |here| => ShowRoute(here[i])));
    }

    method RuleDel(oif: Device, table: int)
      modifies this
      ensures log == old(log) + [old(Next(DelRule))]
      ensures host == if old(Next(DelRule)).ok then RulesWithout(old(host), oif, table) else old(host)
    {
      var runs := Record(DelRule);
      if runs {
        host := RulesWithout(host, oif, table);
      }
    }

    method RuleAdd(oif: Device, table: int) returns (success: bool, exited: bool)
      modifies this
      ensures log == old(log) + [old(Next(AddRule))] && success == old(Next(AddRule)).ok
      ensures exited <==> success || exits(old(|log|), AddRule)
      ensures host == if success then old(host).(rules := old(host).rules + multiset{Rule(oif, table)}) else old(host)
    {
      exited := exits(|log|, AddRule);
      success := Record(AddRule);
      exited := success || exited;
      if success {
        host := host.(rules := host.rules + multiset{Rule(oif, table)});
      }
    }

    /** The kernel refuses a second route to the same destination in a table. */
    method RouteAdd(dest: string, dev: Device, table: int) returns (success: bool)
      modifies this
      ensures log == old(log) + [old(Next(AddRoute))]
      ensures success <==> old(Next(AddRoute)).ok && forall r | r in old(host).routes :: !(r.dest == dest && r.table == table)
      ensures host == if success then old(host).(routes := old(host).routes + multiset{Route(dest, dev, table)}) else old(host)
    {
      var runs := Record(AddRoute);
      success := runs && forall r | r in host.routes :: !(r.dest == dest && r.table == table);
      if success {
        host := host.(routes := host.routes + multiset{Route(dest, dev, table)});
      }
    }

    method RouteDel(dest: string, dev: Device, table: int)
      modifies this
      ensures log == old(log) + [old(Next(DelRoute))]
      ensures host == if old(Next(DelRoute)).ok then RoutesWithout(old(host), dest, dev, table) else old(host)
    {
      var runs := Record(DelRoute);
      if runs {
        host := RoutesWithout(host, dest, dev, table);
      }
    }

    method Flush(table: int)
      modifies this
      ensures log == old(log) + [old(Next(FlushRoutes))]
      ensures if old(Next(FlushRoutes)).ok then Flushed(old(host), table, host) else host == old(host)
    {
      var runs := Record(FlushRoutes);
      if runs {
        var all := Enumerate(host.routes);
        ElsewhereCounts(all, table);
        host := host.(routes := multiset(Elsewhere(all, table)));
      }
    }

    method SysctlRead(dev: Device) returns (value: Option<string>)
      modifies `log
      ensures log == old(log) + [old(Next(ReadRp(dev)))]
      ensures value == if old(Next(ReadRp(dev))).ok && dev in host.rpFilter then Some(host.rpFilter[dev]) else None
    {
      var runs := Record(ReadRp(dev));
      value := if runs && dev in host.rpFilter then Some(host.rpFilter[dev]) else None;
    }

    method SysctlWrite(dev: Device, value: string) returns (success: bool)
      modifies this
      ensures log == old(log) + [old(Next(WriteRp(dev, value)))]
      ensures success <==> old(Next(WriteRp(dev, value))).ok && dev in old(host).rpFilter
      ensures host == if success then old(host).(rpFilter := old(host).rpFilter[dev := value]) else old(host)
    {
      var runs := Record(WriteRp(dev, value));
      success := runs && dev in host.rpFilter;
      if success {
        host := host.(rpFilter := host.rpFilter[dev := value]);
      }
    }
  }

  // ----- Reading the log ---------------------------------------------------------------

  ghost predicate AllOk(log: seq<Ran>, n: nat) {
    forall k | n <= k < |log| :: log[k].ok
  }

  ghost predicate ListingsOk(log: seq<Ran>, n: nat) {
    forall k | n <= k < |log| && log[k].command.ShowRoutes? :: log[k].ok
  }

  /** A flush that ran on a table other programs have routes in. */
  ghost predicate FlushedShared(log: seq<Ran>, n: nat, shared: Host -> bool) {
    exists k | n <= k < |log| :: log[k].command.FlushRoutes? && log[k].ok && shared(log[k].on)
  }

  /** A shared table is flushed only right after a listing that failed, and after each of those. */
  ghost predicate FlushesBlindly(log: seq<Ran>, n: nat, shared: Host -> bool) {
    && (forall k | n <= k < |log| && log[k].command.FlushRoutes? && shared(log[k].on) ::
          k > n && log[k - 1].command.ShowRoutes? && !log[k - 1].ok)
    && (forall k | n <= k < |log| && log[k].command.ShowRoutes? && !log[k].ok ::
          k + 1 < |log| && log[k + 1].command.FlushRoutes? && log[k + 1].on == log[k].on)
  }

  /** The k-th command loses the value a device's rp_filter had: overwritten unread, or not written back. */
  ghost predicate LosesAt(log: seq<Ran>, k: nat, d: Device)
    requires k < |log|
  {
    var c, on := log[k].command, log[k].on.rpFilter;
    && c.WriteRp? && c.dev == d && d in on
    && (if c.value == "2"
        then log[k].ok && on[d] != "2" && k > 0 && log[k - 1].command == ReadRp(d) && !log[k - 1].ok
        else !log[k].ok && on[d] == "2")
  }

  ghost predicate Lost(log: seq<Ran>, n: nat, d: Device) {
    exists k | n <= k < |log| :: LosesAt(log, k, d)
  }

  /** What a device's rp_filter was before the router first touched it. */
  function BaselineOf(rpFilter: map<Device, string>, original: map<Device, string>, d: Device): string
    requires d in rpFilter
  {
    if d in original then original[d] else rpFilter[d]
  }

  /** A device's baseline stays what it was until the log loses it; then it is the 2 the router wrote. */
  ghost predicate BaselinesFollow(rp: map<Device, string>, original: map<Device, string>,
                                  rp': map<Device, string>, original': map<Device, string>, lost: Device -> bool)
  {
    && rp'.Keys == rp.Keys
    && (forall d | d in rp :: lost(d) ==> BaselineOf(rp, original, d) != "2")
    && (forall d | d in rp :: BaselineOf(rp', original', d) == if lost(d) then "2" else BaselineOf(rp, original, d))
  }

  lemma BaselinesCompose(rp0: map<Device, string>, o0: map<Device, string>, rp1: map<Device, string>, o1: map<Device, string>,
                         rp2: map<Device, string>, o2: map<Device, string>, a: Device -> bool, b: Device -> bool, c: Device -> bool)
    requires BaselinesFollow(rp0, o0, rp1, o1, a) && BaselinesFollow(rp1, o1, rp2, o2, b)
    requires forall d :: c(d) <==> a(d) || b(d)
    ensures BaselinesFollow(rp0, o0, rp2, o2, c)
  {
  }

  /** A value is lost exactly when the log loses it. */
  lemma LostExactly(rp: map<Device, string>, o: map<Device, string>, rp': map<Device, string>, o': map<Device, string>, lost: Device -> bool)
    requires BaselinesFollow(rp, o, rp', o', lost)
    ensures forall d | d in rp :: BaselineOf(rp', o', d) == BaselineOf(rp, o, d) <==> !lost(d)
  {
  }

  lemma LostComposes(a: seq<Ran>, b: seq<Ran>, n: nat, d: Device)
    requires n <= |a| && a <= b
    ensures Lost(b, n, d) <==> Lost(a, n, d) || Lost(b, |a|, d)
  {
    assert forall k | 0 <= k < |a| :: b[k] == a[k];
    assert forall k | 0 <= k < |a| :: LosesAt(b, k, d) <==> LosesAt(a, k, d);
  }

  lemma FlushesCompose(a: seq<Ran>, b: seq<Ran>, n: nat, shared: Host -> bool)
    requires n <= |a| && a <= b
    ensures FlushedShared(b, n, shared) <==> FlushedShared(a, n, shared) || FlushedShared(b, |a|, shared)
    ensures FlushesBlindly(a, n, shared) && FlushesBlindly(b, |a|, shared) ==> FlushesBlindly(b, n, shared)
  {
    assert forall k | 0 <= k < |a| :: b[k] == a[k];
    if FlushedShared(b, n, shared) {
      var k :| n <= k < |b| && b[k].command.FlushRoutes? && b[k].ok && shared(b[k].on);
      assert k < |a| ==> a[k] == b[k];
    }
  }

  lemma LogsCompose(a: seq<Ran>, b: seq<Ran>, n: nat, shared: Host -> bool)
    requires n <= |a| && a <= b
    ensures AllOk(b, n) <==> AllOk(a, n) && AllOk(b, |a|)
    ensures ListingsOk(b, n) <==> ListingsOk(a, n) && ListingsOk(b, |a|)
    ensures FlushedShared(b, n, shared) <==> FlushedShared(a, n, shared) || FlushedShared(b, |a|, shared)
    ensures FlushesBlindly(a, n, shared) && FlushesBlindly(b, |a|, shared) ==> FlushesBlindly(b, n, shared)
    ensures forall d :: Lost(b, n, d) <==> Lost(a, n, d) || Lost(b, |a|, d)
  {
    assert forall k | 0 <= k < |a| :: b[k] == a[k];
    FlushesCompose(a, b, n, shared);
    forall d ensures Lost(b, n, d) <==> Lost(a, n, d) || Lost(b, |a|, d) {
      LostComposes(a, b, n, d);
    }
  }

  /** While every route listing runs, no shared table is flushed. */
  lemma NoBlindFlush(log: seq<Ran>, n: nat, shared: Host -> bool)
    requires FlushesBlindly(log, n, shared) && ListingsOk(log, n)
    ensures !FlushedShared(log, n, shared)
  {
    forall k | n <= k < |log| && log[k].command.FlushRoutes? ensures !shared(log[k].on) {
      if k > n {
        assert log[k - 1].command.ShowRoutes? ==> log[k - 1].ok;
      }
    }
  }

  /** The log goes on from where it was, each command running as the host decides. */
  ghost predicate Continues(was: seq<Ran>, log: seq<Ran>, ok: (nat, Command) -> bool) {
    was <= log && forall k | |was| <= k < |log| :: log[k].ok == ok(k, log[k].command)
  }

  lemma ContinuesFurther(a: seq<Ran>, b: seq<Ran>, c: seq<Ran>, ok: (nat, Command) -> bool)
    requires Continues(a, b, ok) && Continues(b, c, ok)
    ensures Continues(a, c, ok)
  {
    assert forall k | 0 <= k < |b| :: c[k] == b[k];
  }

  lemma OneMore(was: seq<Ran>, log: seq<Ran>, entry: Ran, ok: (nat, Command) -> bool, n: nat)
    requires Continues(was, log, ok) && entry.ok == ok(|log|, entry.command) && n <= |log|
    ensures Continues(was, log + [entry], ok)
    ensures AllOk(log + [entry], n) <==> AllOk(log, n) && entry.ok
    ensures Quiet(log, n) && (entry.command.DelRule? || entry.command.DelRoute?) ==> Quiet(log + [entry], n)
    ensures RulesUnlisted(log, n) && !entry.command.ShowRules? ==> RulesUnlisted(log + [entry], n)
  {
    var next := log + [entry];
    assert next[|log|] == entry && forall k | 0 <= k < |log| :: next[k] == log[k];
  }

  lemma AllOkSplits(a: seq<Ran>, b: seq<Ran>, n: nat)
    requires n <= |a| && a <= b
    ensures AllOk(b, n) <==> AllOk(a, n) && AllOk(b, |a|)
  {
    assert forall k | 0 <= k < |a| :: b[k] == a[k];
  }

  /** No listing of routes, no flush, no write to rp_filter. */
  ghost predicate Quiet(log: seq<Ran>, n: nat) {
    forall k | n <= k < |log| :: !log[k].command.ShowRoutes? && !log[k].command.FlushRoutes? && !log[k].command.WriteRp?
  }

  /** No listing of rules. */
  ghost predicate RulesUnlisted(log: seq<Ran>, n: nat) {
    forall k | n <= k < |log| :: !log[k].command.ShowRules?
  }

  lemma UnlistedFurther(a: seq<Ran>, b: seq<Ran>, n: nat)
    requires n <= |a| && a <= b && RulesUnlisted(a, n) && RulesUnlisted(b, |a|)
    ensures RulesUnlisted(b, n)
  {
    assert forall k | 0 <= k < |a| :: b[k] == a[k];
  }

  ghost predicate OnlyWrites(log: seq<Ran>, n: nat) {
    forall k | n <= k < |log| :: log[k].command.WriteRp?
  }

  ghost function LostIn(log: seq<Ran>, n: nat): Device -> bool {
    d => Lost(log, n, d)
  }

  // ----- Writing the remembered values back ------------------------------------------------

  /** A remembered device has its remembered value, or the 2 written over it. */
  ghost predicate Sane(rp: map<Device, string>, original: map<Device, string>) {
    forall d | d in original && d in rp :: rp[d] == "2" || rp[d] == original[d]
  }

  ghost predicate WroteBack(log: seq<Ran>, n: nat, d: Device, value: string) {
    exists k | n <= k < |log| :: log[k].command == WriteRp(d, value) && log[k].ok
  }

  /** Each device has its remembered value again exactly when the command writing it back ran. */
  ghost predicate WrittenBack(rp: map<Device, string>, original: map<Device, string>, rp': map<Device, string>, log: seq<Ran>, n: nat) {
    && rp'.Keys == rp.Keys
    && (forall d | d in original :: exists k | n <= k < |log| :: log[k].command == WriteRp(d, original[d]))
    && (forall d | d in rp :: rp'[d] == if d in original && WroteBack(log, n, d, original[d]) then original[d] else rp[d])
  }

  /** The commands so far: the one for device `d` is at `at[d]`. */
  ghost predicate Written(rp: map<Device, string>, original: map<Device, string>, log: seq<Ran>, n: nat, at: map<Device, nat>) {
    && n <= |log|
    && (forall d | d in at ::
          && d in original && n <= at[d] < |log|
          && log[at[d]].command == WriteRp(d, original[d]) && log[at[d]].on.rpFilter.Keys == rp.Keys
          && (d in rp ==> log[at[d]].on.rpFilter[d] == rp[d]))
    && (forall k | n <= k < |log| ::
          log[k].command.WriteRp? && log[k].command.dev in at && at[log[k].command.dev] == k)
  }

  ghost predicate Restores(rp: map<Device, string>, original: map<Device, string>, now: map<Device, string>,
                           log: seq<Ran>, n: nat, at: map<Device, nat>)
  {
    && now.Keys == rp.Keys && Written(rp, original, log, n, at)
    && (forall d | d in rp :: now[d] == if d in at && log[at[d]].ok then original[d] else rp[d])
  }

  lemma WriteNext(rp: map<Device, string>, original: map<Device, string>, log: seq<Ran>, entry: Ran, n: nat, at: map<Device, nat>, d: Device)
    requires Written(rp, original, log, n, at) && d in original && d !in at
    requires entry.command == WriteRp(d, original[d]) && entry.on.rpFilter.Keys == rp.Keys && (d in rp ==> entry.on.rpFilter[d] == rp[d])
    ensures Written(rp, original, log + [entry], n, at[d := |log|])
  {
    var log', at' := log + [entry], at[d := |log|];
    assert forall x | x in at :: log'[at'[x]] == log[at[x]];
  }

  lemma RestoreNext(rp: map<Device, string>, original: map<Device, string>, now: map<Device, string>, next: map<Device, string>,
                    log: seq<Ran>, entry: Ran, n: nat, at: map<Device, nat>, d: Device)
    requires Restores(rp, original, now, log, n, at) && d in original && d !in at
    requires entry.command == WriteRp(d, original[d]) && entry.on.rpFilter == now
    requires next == if entry.ok && d in now then now[d := original[d]] else now
    ensures Restores(rp, original, next, log + [entry], n, at[d := |log|])
  {
    WriteNext(rp, original, log, entry, n, at, d);
    assert forall x | x in at :: (log + [entry])[at[x]] == log[at[x]];
  }

  lemma RestoredValues(rp: map<Device, string>, original: map<Device, string>, now: map<Device, string>,
                       log: seq<Ran>, n: nat, at: map<Device, nat>)
    requires Restores(rp, original, now, log, n, at) && at.Keys == original.Keys
    ensures WrittenBack(rp, original, now, log, n) && OnlyWrites(log, n)
  {
    forall d | d in rp && d in original ensures WroteBack(log, n, d, original[d]) <==> log[at[d]].ok {
    }
  }

  lemma RestoresLose(rp: map<Device, string>, original: map<Device, string>, now: map<Device, string>,
                     log: seq<Ran>, n: nat, at: map<Device, nat>, d: Device)
    requires Restores(rp, original, now, log, n, at) && at.Keys == original.Keys
    ensures Lost(log, n, d) <==> d in rp && d in original && LosesAt(log, at[d], d)
  {
    if k :| n <= k < |log| && LosesAt(log, k, d) {
      assert at[d] == k;
    }
  }

  lemma RestoredExactly(rp: map<Device, string>, original: map<Device, string>, now: map<Device, string>,
                        log: seq<Ran>, n: nat, at: map<Device, nat>)
    requires Restores(rp, original, now, log, n, at) && at.Keys == original.Keys && Sane(rp, original)
    ensures BaselinesFollow(rp, original, now, map[], LostIn(log, n))
    ensures AllOk(log, n) ==> forall d :: !Lost(log, n, d)
  {
    forall d | d in rp
      ensures Lost(log, n, d) ==> BaselineOf(rp, original, d) != "2"
      ensures BaselineOf(now, map[], d) == if Lost(log, n, d) then "2" else BaselineOf(rp, original, d)
    {
      RestoresLose(rp, original, now, log, n, at, d);
    }
    forall d ensures AllOk(log, n) ==> !Lost(log, n, d) {
      RestoresLose(rp, original, now, log, n, at, d);
    }
  }

  // ----- Deleting one at a time --------------------------------------------------------

  function Minus(a: nat, b: nat): nat {
    if a < b then 0 else a - b
  }

  /** What deleting one rule per listed device leaves; exactly that if all of it happened. */
  ghost predicate RulesGone(before: multiset<Rule>, now: multiset<Rule>, table: int, oifs: seq<Device>, complete: bool) {
    && now <= before
    && (forall r: Rule | r.table != table || r.oif !in oifs :: now[r] == before[r])
    && (complete ==> forall r: Rule | r.table == table :: now[r] == Minus(before[r], multiset(oifs)[r.oif]))
  }

  lemma OneLess(before: multiset<Rule>, now: multiset<Rule>, next: multiset<Rule>, d: Device, r: Rule, gone: nat)
    requires now[r] == Minus(before[r], gone) && next == now - multiset{Rule(d, r.table)}
    ensures next[r] == Minus(before[r], gone + if r.oif == d then 1 else 0)
  {
    assert r == Rule(d, r.table) <==> r.oif == d;
  }

  lemma RuleGone(before: multiset<Rule>, now: multiset<Rule>, next: multiset<Rule>, table: int, oifs: seq<Device>,
                 d: Device, complete: bool, complete': bool)
    requires RulesGone(before, now, table, oifs, complete)
    requires next == now - multiset{Rule(d, table)} || (next == now && !complete')
    requires complete' ==> complete
    ensures RulesGone(before, next, table, oifs + [d], complete')
  {
    assert d in oifs + [d] && forall x | x in oifs :: x in oifs + [d];
    if complete' {
      forall r: Rule | r.table == table ensures next[r] == Minus(before[r], multiset(oifs + [d])[r.oif]) {
        OneLess(before, now, next, d, r, multiset(oifs)[r.oif]);
      }
    }
  }

  ghost predicate RoutesGone(before: multiset<Route>, now: multiset<Route>, table: int, gone: seq<TableRoute>, complete: bool) {
    && now <= before
    && (forall r: Route | r.table != table || TableRoute(r.dest, r.dev) !in gone :: now[r] == before[r])
    && (complete ==> forall r: Route | r.table == table ::
          now[r] == 0 || now[r] + multiset(gone)[TableRoute(r.dest, r.dev)] == before[r])
  }

  lemma RouteGone(before: multiset<Route>, now: multiset<Route>, next: multiset<Route>, table: int, gone: seq<TableRoute>,
                  t: TableRoute, complete: bool, complete': bool)
    requires RoutesGone(before, now, table, gone, complete)
    requires next == now - multiset{Route(t.destination, t.device, table)} || (next == now && !complete')
    requires complete' ==> complete
    ensures RoutesGone(before, next, table, gone + [t], complete')
  {
    assert forall x :: multiset(gone + [t])[x] == multiset(gone)[x] + if x == t then 1 else 0;
  }

  // ----- The router -----------------------------------------------------------------

  /** The single gate on every destructive operation. */
  predicate Owns(iface: Device, prefix: string, device: Device) {
    device != "" && (device == iface || HasDevicePrefix(device, prefix))
  }

  predicate MatchesTable(p: PolicyRule, table: int) {
    p.table == Itoa(table) || p.table == ROUTING_TABLE_ALIAS
  }

  /** Routes print a destination that is not the keyword `dev`. */
  ghost predicate Printable(h: Host) {
    forall r | r in h.routes :: r.dest != "dev"
  }

  /** A router without a configured prefix has the default one. */
  type Prefix = s: string | s != "" witness "fpx"

  class Router {
    const runner: Runner
    const table: int
    const iface: Device
    const prefix: Prefix
    const setupRetries: nat
    const strict: bool
    const supported: bool
    var rpFilterOriginal: map<Device, string>

    constructor (runner: Runner, table: int, iface: Device, prefix: string, retries: int, strict: bool, supported: bool)
      ensures this.runner == runner && this.table == table && this.iface == iface
      ensures this.prefix == if prefix == "" then DEVICE_PREFIX else prefix
      ensures setupRetries == (if retries < 1 then 1 else retries) && rpFilterOriginal == map[]
      ensures this.strict == strict && this.supported == supported
    {
      this.runner, this.table, this.iface, this.strict, this.supported := runner, table, iface, strict, supported;
      this.prefix := if prefix == "" then DEVICE_PREFIX else prefix;
      setupRetries := if retries < 1 then 1 else retries;
      rpFilterOriginal := map[];
    }

    predicate OursRule(r: Rule) { r.table == table && Owns(iface, prefix, r.oif) }

    predicate OursRoute(r: Route) { r.table == table && Owns(iface, prefix, r.dev) }

    /** A device of somebody else's: neither the router's interface nor its prefix with decimal digits after it. */
    ghost predicate Elsewhere(d: Device) {
      d == "" || (d != iface && !Numbered(d, prefix))
    }

    lemma OwnsExactly(d: Device)
      ensures Owns(iface, prefix, d) <==> !Elsewhere(d)
    {
      PrefixExactly(d, prefix);
      if Numbered(d, prefix) {
        var digits :| NumberedBy(d, prefix, digits);
        NumberedSuffix(d, prefix, digits);
      }
    }

    lemma OwnsExactlyEach()
      ensures forall d :: Owns(iface, prefix, d) <==> !Elsewhere(d)
    {
      forall d ensures Owns(iface, prefix, d) <==> !Elsewhere(d) {
        OwnsExactly(d);
      }
    }

    /** The interface and every name of the pool are the router's own. */
    lemma OwnDevices(i: nat)
      ensures iface != "" ==> !Elsewhere(iface)
      ensures !Elsewhere(DeviceName(prefix, i))
    {
      PoolNamesHavePrefix(prefix, i);
      PrefixExactly(DeviceName(prefix, i), prefix);
    }

    ghost predicate SameStrangerRules(before: Host, after: Host) {
      forall r: Rule | r.table != table || Elsewhere(r.oif) :: after.rules[r] == before.rules[r]
    }

    ghost predicate SameStrangerRoutes(before: Host, after: Host) {
      forall r: Route | r.table != table || Elsewhere(r.dev) :: after.routes[r] == before.routes[r]
    }

    ghost predicate StrangerInTable(h: Host) {
      exists r: Route :: h.routes[r] > 0 && r.table == table && Elsewhere(r.dev)
    }

    /**
     Everybody else's rules are as they were. Their routes never multiply, and are as they were exactly when no
     flush ran while one of them was in the table.
     */
    ghost predicate StrangersKept(before: Host, after: Host, log: seq<Ran>, n: nat) {
      && SameStrangerRules(before, after)
      && (forall r: Route | r.table != table || Elsewhere(r.dev) :: after.routes[r] <= before.routes[r])
      && (SameStrangerRoutes(before, after) <==>
            !(exists k | n <= k < |log| :: log[k].command == FlushRoutes && log[k].ok && StrangerInTable(log[k].on)))
    }

    /** No rule and no route of the interface or a name of the pool is left in the table. */
    ghost predicate NoneOfItsOwn(h: Host) {
      && (forall r: Rule | r.table == table && !Elsewhere(r.oif) :: h.rules[r] == 0)
      && (forall r: Route | r.table == table && !Elsewhere(r.dev) :: h.routes[r] == 0)
    }

    lemma ForeignIsStrangers(before: Host, after: Host)
      ensures SameForeignRules(before, after) <==> SameStrangerRules(before, after)
      ensures SameForeignRoutes(before, after) <==> SameStrangerRoutes(before, after)
    {
      OwnsExactlyEach();
    }

    lemma SharedIsStranger(h: Host)
      ensures SharedTable(h) <==> StrangerInTable(h)
    {
      OwnsExactlyEach();
    }

    lemma OursIsItsOwn(h: Host)
      ensures NothingOfOurs(h) <==> NoneOfItsOwn(h)
    {
      OwnsExactlyEach();
    }

    lemma StrangersAreForeign(before: Host, after: Host, log: seq<Ran>, n: nat)
      requires ForeignKept(before, after, log, n)
      ensures StrangersKept(before, after, log, n)
    {
      ForeignIsStrangers(before, after);
      FlushedOnStrangers(log, n);
      forall r: Route | r.table != table || Elsewhere(r.dev)
        ensures after.routes[r] <= before.routes[r]
      {
        OwnsExactly(r.dev);
      }
    }

    lemma FlushedOnStrangers(log: seq<Ran>, n: nat)
      ensures FlushedShared(log, n, Shared()) <==>
                exists k | n <= k < |log| :: log[k].command == FlushRoutes && log[k].ok && StrangerInTable(log[k].on)
    {
      forall k | n <= k < |log|
        ensures SharedTable(log[k].on) <==> StrangerInTable(log[k].on)
      {
        SharedIsStranger(log[k].on);
      }
    }

    /** A table's text is taken for the router's own. */
    predicate TakenForOurs(t: int) {
      TableText(runner.names, t) == Itoa(table) || TableText(runner.names, t) == ROUTING_TABLE_ALIAS
    }

    /**
     The host prints the router's table by its number or by the alias registered for it, and the interface is not
     called like the keyword in front of it: then, and only then, every rule of the router's is recognised.
     */
    predicate Attributable() {
      TakenForOurs(table) && iface != "oif"
    }

    /** Moreover, no other rule is printed like one of them. */
    ghost predicate Unmistakable() {
      && Attributable() && iface != "lookup"
      && forall t: int | t != table :: !TakenForOurs(t)
    }

    /** The router's table has a name that is neither of the two, and no other has one of them: no table is taken for it. */
    predicate Blind() {
      table in runner.names && Itoa(table) !in runner.names.Values && ROUTING_TABLE_ALIAS !in runner.names.Values
    }

    lemma BlindTakesNone(t: int)
      requires Blind()
      ensures !TakenForOurs(t)
    {
      ItoaSign(t);
      if t !in runner.names && Itoa(t) == Itoa(table) {
        ItoaInjective(t, table);
      }
    }

    /** Every command since the n-th could be run. */
    ghost predicate AllRan(n: nat)
      reads runner
    {
      AllOk(runner.log, n)
    }

    /** Which parsed rules are the router's own. */
    function Mine(): PolicyRule -> bool {
      (p: PolicyRule) => p.table != "" && MatchesTable(p, table) && Owns(iface, prefix, p.oif)
    }

    function OwnsFn(): Device -> bool {
      (d: Device) => Owns(iface, prefix, d)
    }

    lemma NoPrefixOfKeyword()
      ensures !HasDevicePrefix("oif", prefix) && !HasDevicePrefix("lookup", prefix)
    {
      assert prefix < "oif" ==> "oif"[|prefix|..][2 - |prefix|] == 'f';
      assert prefix < "lookup" ==> "lookup"[|prefix|..][5 - |prefix|] == 'p';
    }

    /**
     A rule of the router's is recognised exactly when its table is printed as
     one of the two texts and its device is not "oif".
     */
    lemma OwnRuleIsRecognised(r: Rule)
      requires OursRule(r)
      ensures Mine()(Parsed(ShowRule(runner.names, r))) <==> TakenForOurs(table) && r.oif != "oif"
      ensures Attributing(runner.names, Mine())(r) == if TakenForOurs(table) && r.oif != "oif" then multiset{r.oif} else multiset{}
    {
      ShownRuleParses(runner.names, r);
      NoPrefixOfKeyword();
      ItoaSign(table);
    }

    /** And nothing else is, when nothing else is printed alike. */
    lemma OwnRulesAreRecognisedExactly(r: Rule)
      requires Unmistakable()
      ensures Mine()(Parsed(ShowRule(runner.names, r))) <==> OursRule(r)
      ensures OursRule(r) ==> Parsed(ShowRule(runner.names, r)).oif == r.oif
      ensures Mine()(Parsed(ShowRule(runner.names, r))) ==> r == Rule(Parsed(ShowRule(runner.names, r)).oif, table)
    {
      ShownRuleParses(runner.names, r);
      NoPrefixOfKeyword();
      ItoaSign(table);
      assert TakenForOurs(r.table) ==> r.table == table;
    }

    ghost function OurAttributions(rules: multiset<Rule>): multiset<Device> {
      Gathered(Attributing(runner.names, Mine()), rules)
    }

    /** Each rule of the router's is covered by an attribution. */
    ghost predicate EachAttributed(rules: multiset<Rule>) {
      forall r: Rule | OursRule(r) :: rules[r] <= OurAttributions(rules)[r.oif]
    }

    lemma AttributableIsEnough(rules: multiset<Rule>)
      requires Attributable()
      ensures EachAttributed(rules)
    {
      NoPrefixOfKeyword();
      forall r: Rule | OursRule(r) ensures rules[r] <= OurAttributions(rules)[r.oif] {
        OwnRuleIsRecognised(r);
        GatheredAtLeast(Attributing(runner.names, Mine()), rules, r, r.oif);
      }
    }

    lemma LoneRuleIsMissed(r: Rule)
      requires OursRule(r) && !(TakenForOurs(table) && r.oif != "oif")
      ensures !EachAttributed(multiset{r})
    {
      OwnRuleIsRecognised(r);
      GatheredOne(Attributing(runner.names, Mine()), r);
      assert multiset{r}[r] == 1;
    }

    /** Whatever rules there are, each of the router's is attributed to it: exactly when the host prints them so. */
    lemma AlwaysAttributedExactly()
      ensures (forall rules :: EachAttributed(rules)) <==> Attributable()
    {
      if Attributable() {
        forall rules ensures EachAttributed(rules) {
          AttributableIsEnough(rules);
        }
      } else if !TakenForOurs(table) {
        PoolNamesHavePrefix(prefix, 0);
        LoneRuleIsMissed(Rule(DeviceName(prefix, 0), table));
      } else {
        LoneRuleIsMissed(Rule("oif", table));
      }
    }

    lemma BlindSeesNothing(rules: multiset<Rule>)
      requires Blind()
      ensures OurAttributions(rules) == multiset{}
    {
      forall x: Rule ensures Attributing(runner.names, Mine())(x) == multiset{} {
        ShownRuleParses(runner.names, x);
        BlindTakesNone(x.table);
      }
      GatheredNothing(Attributing(runner.names, Mine()), rules);
    }

    lemma UnmistakableCounts(rules: multiset<Rule>, r: Rule)
      requires Unmistakable() && OursRule(r)
      ensures rules[r] == OurAttributions(rules)[r.oif]
    {
      forall x: Rule ensures r.oif in Attributing(runner.names, Mine())(x) ==> x == r {
        OwnRulesAreRecognisedExactly(x);
      }
      OwnRulesAreRecognisedExactly(r);
      GatheredExactly(Attributing(runner.names, Mine()), rules, r, r.oif);
    }

    /** One device for each rule attributed to the router; its own rules are among them as the host prints them. */
    method OurRules() returns (oifs: seq<Device>)
      modifies runner`log
      ensures runner.log == old(runner.log) + [old(runner.Next(ShowRules))]
      ensures forall d | d in oifs :: Owns(iface, prefix, d)
      ensures multiset(oifs) == if old(runner.Next(ShowRules)).ok then OurAttributions(runner.host.rules) else multiset{}
      ensures old(runner.Next(ShowRules)).ok && Attributable() ==>
                forall r: Rule | OursRule(r) :: runner.host.rules[r] <= multiset(oifs)[r.oif]
      ensures old(runner.Next(ShowRules)).ok && Unmistakable() ==>
                forall r: Rule | OursRule(r) :: runner.host.rules[r] == multiset(oifs)[r.oif]
    {
      var lines, listed := runner.RuleShow();
      if lines == None {
        return [];
      }
      oifs := SelectRules(lines.value, Mine());
      SelectedRulesQualify(lines.value, Mine());
      ListedAttributions(runner.names, Mine(), listed, lines.value);
      if Attributable() {
        AttributableIsEnough(runner.host.rules);
      }
      if Unmistakable() {
        forall r: Rule | OursRule(r) ensures runner.host.rules[r] == multiset(oifs)[r.oif] {
          UnmistakableCounts(runner.host.rules, r);
        }
      }
    }

    method TableRoutes() returns (ours: seq<TableRoute>, foreign: seq<TableRoute>)
      requires Printable(runner.host)
      modifies runner`log
      ensures runner.log == old(runner.log) + [old(runner.Next(ShowRoutes))]
      ensures forall t | t in ours :: Owns(iface, prefix, t.device)
      ensures forall t | t in foreign :: !Owns(iface, prefix, t.device)
      ensures !old(runner.Next(ShowRoutes)).ok ==> ours == [] && foreign == []
      ensures old(runner.Next(ShowRoutes)).ok ==>
                && (forall r | OursRoute(r) :: multiset(ours)[TableRoute(r.dest, r.dev)] == runner.host.routes[r])
                && (forall r: Route | r.table == table && !OursRoute(r) ::
                      multiset(foreign)[TableRoute(r.dest, r.dev)] == runner.host.routes[r])
    {
      var lines, listed := runner.RouteShow(table);
      if lines == None {
        return [], [];
      }
      assert forall i | 0 <= i < |listed| :: listed[i] in multiset(listed);
      ours, foreign := SplitRoutes(lines.value, OwnsFn());
      SplitQualifies(lines.value, OwnsFn(), true);
      SplitQualifies(lines.value, OwnsFn(), false);
      forall r: Route | r.table == table
        ensures multiset(Chosen(lines.value, OwnsFn(), OursRoute(r)))[TableRoute(r.dest, r.dev)] == runner.host.routes[r]
      {
        RoutesAreCounted(table, listed, lines.value, OwnsFn(), r);
      }
    }

    // ----- Cleanup ------------------------------------------------------------------

    /** Deletes one rule per attribution. */
    method DeleteRules(oifs: seq<Device>)
      requires forall d | d in oifs :: Owns(iface, prefix, d)
      modifies runner
      ensures Continues(old(runner.log), runner.log, runner.ok) && Quiet(runner.log, old(|runner.log|))
      ensures runner.host == old(runner.host).(rules := runner.host.rules)
      ensures forall r: Rule :: runner.host.rules[r] <= old(runner.host).rules[r]
      ensures forall r: Rule | !OursRule(r) :: runner.host.rules[r] == old(runner.host).rules[r]
      ensures RulesUnlisted(runner.log, old(|runner.log|))
      ensures oifs == [] ==> runner.host.rules == old(runner.host).rules
      ensures AllRan(old(|runner.log|)) ==>
                forall r: Rule | r.table == table :: runner.host.rules[r] == Minus(old(runner.host).rules[r], multiset(oifs)[r.oif])
    {
      ghost var before, n := runner.host.rules, |runner.log|;
      for i := 0 to |oifs|
        invariant Continues(old(runner.log), runner.log, runner.ok) && Quiet(runner.log, n)
        invariant runner.host == old(runner.host).(rules := runner.host.rules)
        invariant RulesUnlisted(runner.log, n)
        invariant RulesGone(before, runner.host.rules, table, oifs[..i], AllRan(n))
      {
        ghost var now := runner.host.rules;
        ghost var complete := AllRan(n);
        OneMore(old(runner.log), runner.log, runner.Next(DelRule), runner.ok, n);
        runner.RuleDel(oifs[i], table);
        RuleGone(before, now, runner.host.rules, table, oifs[..i], oifs[i], complete, AllRan(n));
        assert oifs[..i + 1] == oifs[..i] + [oifs[i]];
      }
      assert oifs[..|oifs|] == oifs;
    }

    method DeleteRoutes(ours: seq<TableRoute>)
      requires forall t | t in ours :: Owns(iface, prefix, t.device)
      modifies runner
      ensures Continues(old(runner.log), runner.log, runner.ok) && Quiet(runner.log, old(|runner.log|))
      ensures RulesUnlisted(runner.log, old(|runner.log|))
      ensures runner.host == old(runner.host).(routes := runner.host.routes)
      ensures forall r: Route :: runner.host.routes[r] <= old(runner.host).routes[r]
      ensures forall r: Route | !OursRoute(r) :: runner.host.routes[r] == old(runner.host).routes[r]
      ensures AllRan(old(|runner.log|)) ==>
                forall r: Route | r.table == table && old(runner.host).routes[r] <= multiset(ours)[TableRoute(r.dest, r.dev)] ::
                  runner.host.routes[r] == 0
    {
      ghost var before, n := runner.host.routes, |runner.log|;
      for i := 0 to |ours|
        invariant Continues(old(runner.log), runner.log, runner.ok) && Quiet(runner.log, n)
        invariant runner.host == old(runner.host).(routes := runner.host.routes)
        invariant RulesUnlisted(runner.log, n)
        invariant RoutesGone(before, runner.host.routes, table, ours[..i], AllRan(n))
      {
        ghost var now := runner.host.routes;
        ghost var complete := AllRan(n);
        OneMore(old(runner.log), runner.log, runner.Next(DelRoute), runner.ok, n);
        runner.RouteDel(ours[i].destination, ours[i].device, table);
        RouteGone(before, now, runner.host.routes, table, ours[..i], ours[i], complete, AllRan(n));
        assert ours[..i + 1] == ours[..i] + [ours[i]];
      }
      assert ours[..|ours|] == ours;
    }

    /** Each value remembered is written back by a command of its own, and forgotten whether or not that one ran. */
    method RestoreRpFilter()
      requires Sane(runner.host.rpFilter, rpFilterOriginal)
      modifies runner, this`rpFilterOriginal
      ensures Continues(old(runner.log), runner.log, runner.ok) && rpFilterOriginal == map[]
      ensures runner.host == old(runner.host).(rpFilter := runner.host.rpFilter)
      ensures WrittenBack(old(runner.host).rpFilter, old(rpFilterOriginal), runner.host.rpFilter, runner.log, old(|runner.log|))
      ensures BaselinesFollow(old(runner.host).rpFilter, old(rpFilterOriginal), runner.host.rpFilter, map[],
                              LostIn(runner.log, old(|runner.log|)))
      ensures OnlyWrites(runner.log, old(|runner.log|))
      ensures AllRan(old(|runner.log|)) ==> forall d :: !Lost(runner.log, old(|runner.log|), d)
    {
      ghost var n, rp := |runner.log|, runner.host.rpFilter;
      ghost var at: map<Device, nat> := map[];
      var todo := rpFilterOriginal.Keys;
      while todo != {}
        invariant Continues(old(runner.log), runner.log, runner.ok) && todo <= rpFilterOriginal.Keys && rpFilterOriginal == old(rpFilterOriginal)
        invariant runner.host == old(runner.host).(rpFilter := runner.host.rpFilter)
        invariant at.Keys == rpFilterOriginal.Keys - todo
        invariant Restores(rp, rpFilterOriginal, runner.host.rpFilter, runner.log, n, at)
        decreases todo
      {
        var d :| d in todo;
        todo := todo - {d};
        ghost var now, log, entry := runner.host.rpFilter, runner.log, runner.Next(WriteRp(d, rpFilterOriginal[d]));
        var _ := runner.SysctlWrite(d, rpFilterOriginal[d]);
        RestoreNext(rp, rpFilterOriginal, now, runner.host.rpFilter, log, entry, n, at, d);
        at := at[d := |log|];
      }
      RestoredValues(rp, rpFilterOriginal, runner.host.rpFilter, runner.log, n, at);
      RestoredExactly(rp, rpFilterOriginal, runner.host.rpFilter, runner.log, n, at);
      rpFilterOriginal := map[];
    }

    ghost predicate SameForeignRules(before: Host, after: Host) {
      forall r: Rule | !OursRule(r) :: after.rules[r] == before.rules[r]
    }

    ghost predicate SameForeignRoutes(before: Host, after: Host) {
      forall r: Route | !OursRoute(r) :: after.routes[r] == before.routes[r]
    }

    ghost predicate SharedTable(h: Host) {
      exists r: Route :: h.routes[r] > 0 && r.table == table && !OursRoute(r)
    }

    ghost function Shared(): Host -> bool {
      h => SharedTable(h)
    }

    ghost predicate NothingOfOurs(h: Host) {
      && (forall r: Rule | OursRule(r) :: h.rules[r] == 0)
      && (forall r: Route | OursRoute(r) :: h.routes[r] == 0)
    }

    /**
     What other programs have. Their rules stay; their routes stay exactly when the log has no flush that
     ran on a table they share, and never multiply.
     */
    ghost predicate ForeignKept(before: Host, after: Host, log: seq<Ran>, n: nat) {
      && SameForeignRules(before, after)
      && (forall r: Route | !OursRoute(r) :: after.routes[r] <= before.routes[r])
      && (SameForeignRoutes(before, after) <==> !FlushedShared(log, n, Shared()))
    }

    lemma ForeignCompose(h0: Host, h1: Host, h2: Host, log1: seq<Ran>, log2: seq<Ran>, n: nat)
      requires n <= |log1| && log1 <= log2
      requires ForeignKept(h0, h1, log1, n) && ForeignKept(h1, h2, log2, |log1|)
      ensures ForeignKept(h0, h2, log2, n)
    {
      LogsCompose(log1, log2, n, Shared());
      forall r: Route | !OursRoute(r)
        ensures h2.routes[r] <= h0.routes[r]
        ensures h2.routes[r] == h0.routes[r] ==> h1.routes[r] == h0.routes[r] && h2.routes[r] == h1.routes[r]
      {
        assert h1.routes[r] <= h0.routes[r] && h2.routes[r] <= h1.routes[r];
      }
    }

    /** Commands that touch no foreign route leave nothing to explain. */
    lemma QuietKeepsForeign(before: Host, after: Host, log: seq<Ran>, n: nat)
      requires Quiet(log, n) && SameForeignRules(before, after) && SameForeignRoutes(before, after)
      ensures ForeignKept(before, after, log, n) && FlushesBlindly(log, n, Shared())
      ensures forall d :: !Lost(log, n, d)
    {
    }

    /**
     The routes are listed first. If the listing shows other programs' routes, the router's own are deleted one by
     one; otherwise, and so whenever the listing fails, the whole table is flushed.
     */
    method CleanRoutes()
      requires Printable(runner.host)
      modifies runner
      ensures Continues(old(runner.log), runner.log, runner.ok) && old(runner.log) + [old(runner.Next(ShowRoutes))] <= runner.log
      ensures var listed := old(runner.Next(ShowRoutes)).ok;
              if listed && SharedTable(old(runner.host)) then Quiet(runner.log, old(|runner.log|) + 1)
              else runner.log == old(runner.log) + [old(runner.Next(ShowRoutes)),
                                                    Ran(FlushRoutes, runner.ok(old(|runner.log|) + 1, FlushRoutes), old(runner.host))]
      ensures runner.host == old(runner.host).(routes := runner.host.routes)
      ensures forall r: Route :: runner.host.routes[r] <= old(runner.host).routes[r]
      ensures ForeignKept(old(runner.host), runner.host, runner.log, old(|runner.log|))
      ensures FlushesBlindly(runner.log, old(|runner.log|), Shared())
      ensures forall d :: !Lost(runner.log, old(|runner.log|), d)
      ensures RulesUnlisted(runner.log, old(|runner.log|))
      ensures AllRan(old(|runner.log|)) ==> forall r: Route | OursRoute(r) :: runner.host.routes[r] == 0
    {
      ghost var before, n := runner.host, |runner.log|;
      var ours, foreign := TableRoutes();
      ghost var listed := runner.log[n].ok;
      if foreign == [] {
        assert listed ==> !SharedTable(before);
        runner.Flush(table);
        FlushKeepsForeign(before, runner.host, runner.log, n);
      } else {
        ghost var log := runner.log;
        DeleteRoutes(ours);
        assert before.routes[Route(foreign[0].destination, foreign[0].device, table)] > 0;
        ListedKeepsForeign(before, runner.host, runner.log, n);
      }
    }

    lemma FlushKeepsForeign(before: Host, after: Host, log: seq<Ran>, n: nat)
      requires |log| == n + 2 && log[n].command.ShowRoutes? && log[n].on == before
      requires log[n + 1].command.FlushRoutes? && log[n + 1].on == before
      requires if log[n + 1].ok then Flushed(before, table, after) else after == before
      requires log[n].ok ==> !SharedTable(before)
      ensures ForeignKept(before, after, log, n) && FlushesBlindly(log, n, Shared()) && RulesUnlisted(log, n)
      ensures forall d :: !Lost(log, n, d)
    {
      if SharedTable(before) && log[n + 1].ok {
        var r: Route :| before.routes[r] > 0 && r.table == table && !OursRoute(r);
        assert after.routes[r] == 0;
        assert FlushedShared(log, n, Shared());
      }
    }

    lemma ListedKeepsForeign(before: Host, after: Host, log: seq<Ran>, n: nat)
      requires n < |log| && log[n].command.ShowRoutes? && log[n].ok && Quiet(log, n + 1) && RulesUnlisted(log, n + 1)
      requires SameForeignRules(before, after) && SameForeignRoutes(before, after)
      ensures ForeignKept(before, after, log, n) && FlushesBlindly(log, n, Shared()) && RulesUnlisted(log, n)
      ensures forall d :: !Lost(log, n, d)
    {
    }

    // ----- The account of a sequence of commands ----------------------------------------------

    /**
     What the log says of what happened. `owned` says that no route or rule was added for a device the router
     does not own; only then do other programs' entries have nothing to do with the router's.
     */
    ghost predicate Accounted(h0: Host, o0: map<Device, string>, h1: Host, o1: map<Device, string>, log: seq<Ran>, n: nat, owned: bool) {
      && (owned ==> ForeignKept(h0, h1, log, n))
      && FlushesBlindly(log, n, Shared())
      && BaselinesFollow(h0.rpFilter, o0, h1.rpFilter, o1, LostIn(log, n))
      && (AllOk(log, n) ==> forall d :: !Lost(log, n, d))
    }

    lemma AccountsCompose(h0: Host, o0: map<Device, string>, h1: Host, o1: map<Device, string>, h2: Host, o2: map<Device, string>,
                          log1: seq<Ran>, log2: seq<Ran>, n: nat, owned: bool)
      requires n <= |log1| && log1 <= log2
      requires Accounted(h0, o0, h1, o1, log1, n, owned) && Accounted(h1, o1, h2, o2, log2, |log1|, owned)
      ensures Accounted(h0, o0, h2, o2, log2, n, owned)
    {
      LogsCompose(log1, log2, n, Shared());
      if owned {
        ForeignCompose(h0, h1, h2, log1, log2, n);
      }
      BaselinesCompose(h0.rpFilter, o0, h1.rpFilter, o1, h2.rpFilter, o2, LostIn(log1, n), LostIn(log2, |log1|), LostIn(log2, n));
    }

    /** The rules were listed first, and what was attributed was deleted: if all commands ran, exactly that. */
    ghost predicate RulesCleaned(h0: Host, rules: multiset<Rule>, log: seq<Ran>, n: nat) {
      && n < |log| && log[n].command.ShowRules? && log[n].on == h0 && RulesUnlisted(log, n + 1)
      && (AllOk(log, n) ==> forall r: Rule | OursRule(r) :: rules[r] == Minus(h0.rules[r], OurAttributions(h0.rules)[r.oif]))
      && (Blind() ==> rules == h0.rules)
    }

    lemma RulesStayCleaned(h0: Host, rules: multiset<Rule>, a: seq<Ran>, b: seq<Ran>, n: nat)
      requires RulesCleaned(h0, rules, a, n) && a <= b && RulesUnlisted(b, |a|)
      ensures RulesCleaned(h0, rules, b, n)
    {
      UnlistedFurther(a, b, n + 1);
      AllOkSplits(a, b, n);
    }

    lemma CleanedLeavesAsListed(h0: Host, h: Host, log: seq<Ran>, n: nat)
      requires RulesCleaned(h0, h.rules, log, n) && AllOk(log, n)
      requires forall r: Route | OursRoute(r) :: h.routes[r] == 0
      ensures NothingOfOurs(h) <==> EachAttributed(h0.rules)
      ensures LeftAsListed(log, n, h)
    {
    }

    /** Deletes the router's own rules. */
    method CleanRules()
      modifies runner
      ensures Continues(old(runner.log), runner.log, runner.ok) && Quiet(runner.log, old(|runner.log|))
      ensures runner.host == old(runner.host).(rules := runner.host.rules)
      ensures Accounted(old(runner.host), rpFilterOriginal, runner.host, rpFilterOriginal, runner.log, old(|runner.log|), true)
      ensures RulesCleaned(old(runner.host), runner.host.rules, runner.log, old(|runner.log|))
    {
      ghost var h0, log0 := runner.host, runner.log;
      if Blind() {
        BlindSeesNothing(h0.rules);
      }
      var oifs := OurRules();
      ghost var log := runner.log;
      OneMore(log0, log0, log[|log0|], runner.ok, |log0|);
      DeleteRules(oifs);
      ContinuesFurther(log0, log, runner.log, runner.ok);
      AllOkSplits(log, runner.log, |log0|);
      QuietFurther(log, runner.log, |log0|);
      QuietIsAccounted(h0, rpFilterOriginal, runner.host, runner.log, |log0|);
    }

    lemma QuietFurther(a: seq<Ran>, b: seq<Ran>, n: nat)
      requires n <= |a| && a <= b && Quiet(a, n) && Quiet(b, |a|)
      ensures Quiet(b, n)
    {
      assert forall k | 0 <= k < |a| :: b[k] == a[k];
    }

    lemma QuietIsAccounted(h0: Host, o: map<Device, string>, h1: Host, log: seq<Ran>, n: nat)
      requires Quiet(log, n) && h1.rpFilter == h0.rpFilter && SameForeignRules(h0, h1) && SameForeignRoutes(h0, h1)
      ensures Accounted(h0, o, h1, o, log, n, true)
    {
      QuietKeepsForeign(h0, h1, log, n);
    }

    lemma WritesAreAccounted(h0: Host, o0: map<Device, string>, h1: Host, log: seq<Ran>, n: nat)
      requires OnlyWrites(log, n) && h1 == h0.(rpFilter := h1.rpFilter)
      requires BaselinesFollow(h0.rpFilter, o0, h1.rpFilter, map[], LostIn(log, n))
      requires AllOk(log, n) ==> forall d :: !Lost(log, n, d)
      ensures Accounted(h0, o0, h1, map[], log, n, true)
    {
    }

    /** The router's rules, then the table's routes. */
    method CleanTable()
      requires Printable(runner.host)
      modifies runner
      ensures Printable(runner.host) && Continues(old(runner.log), runner.log, runner.ok)
      ensures runner.host == old(runner.host).(rules := runner.host.rules, routes := runner.host.routes)
      ensures Accounted(old(runner.host), rpFilterOriginal, runner.host, rpFilterOriginal, runner.log, old(|runner.log|), true)
      ensures ListsRoutes(runner.log, old(|runner.log|), old(runner.host))
      ensures AllRan(old(|runner.log|)) ==> forall r: Route | OursRoute(r) :: runner.host.routes[r] == 0
      ensures RulesCleaned(old(runner.host), runner.host.rules, runner.log, old(|runner.log|))
    {
      ghost var h0, log0 := runner.host, runner.log;
      CleanRules();
      ghost var h1, log1 := runner.host, runner.log;
      CleanRoutes();
      RulesStayCleaned(h0, runner.host.rules, log1, runner.log, |log0|);
      AccountsCompose(h0, rpFilterOriginal, h1, rpFilterOriginal, runner.host, rpFilterOriginal, log1, runner.log, |log0|, true);
      ContinuesFurther(log0, log1, runner.log, runner.ok);
      AllOkSplits(log1, runner.log, |log0|);
      assert runner.log[|log1|].command.ShowRoutes?;
    }

    lemma ListedStill(a: seq<Ran>, b: seq<Ran>, n: nat, h: Host)
      requires a <= b && ListsRoutes(a, n, h)
      ensures ListsRoutes(b, n, h)
    {
      var k :| n <= k < |a| && a[k].command.ShowRoutes? && a[k].on.routes == h.routes;
      assert b[k] == a[k];
    }

    /**
     What a cleanup does, whichever of its commands fail. The log tells everything: foreign routes change exactly
     when a flush ran on a shared table, which happens only right after a listing that failed; a remembered value
     is lost exactly when writing it back failed over the 2 the router had written. If all of them run, nothing of
     the router's is left exactly when each of its rules was attributed to it.
     */
    method Cleanup()
      requires Printable(runner.host) && Sane(runner.host.rpFilter, rpFilterOriginal)
      modifies this`rpFilterOriginal, runner
      ensures Printable(runner.host) && Continues(old(runner.log), runner.log, runner.ok)
      ensures Accounted(old(runner.host), old(rpFilterOriginal), runner.host, rpFilterOriginal, runner.log, old(|runner.log|), true)
      ensures ListingsOk(runner.log, old(|runner.log|)) ==> SameForeignRoutes(old(runner.host), runner.host)
      ensures supported ==> rpFilterOriginal == map[] && ListsRoutes(runner.log, old(|runner.log|), old(runner.host))
      ensures !supported ==> runner.log == old(runner.log) && runner.host == old(runner.host) && rpFilterOriginal == old(rpFilterOriginal)
      ensures supported && AllRan(old(|runner.log|)) ==> forall r: Route | OursRoute(r) :: runner.host.routes[r] == 0
      ensures supported && AllRan(old(|runner.log|)) ==> (NothingOfOurs(runner.host) <==> EachAttributed(old(runner.host).rules))
      ensures supported && AllRan(old(|runner.log|)) ==> LeftAsListed(runner.log, old(|runner.log|), runner.host)
      ensures supported && AllRan(old(|runner.log|)) && Attributable() ==> NothingOfOurs(runner.host)
      ensures Blind() ==> runner.host.rules == old(runner.host).rules
      ensures StrangersKept(old(runner.host), runner.host, runner.log, old(|runner.log|))
      ensures ListingsOk(runner.log, old(|runner.log|)) ==> SameStrangerRoutes(old(runner.host), runner.host)
      ensures supported && AllRan(old(|runner.log|)) && Attributable() ==> NoneOfItsOwn(runner.host)
    {
      ghost var h0, log0 := runner.host, runner.log;
      if !supported {
        NothingIsAccounted(runner.host, rpFilterOriginal, runner.log);
        StrangersAreForeign(h0, runner.host, runner.log, |log0|);
        return;
      }
      CleanAndRestore();
      if AllRan(|log0|) {
        CleanedLeavesAsListed(h0, runner.host, runner.log, |log0|);
        if Attributable() {
          AttributableIsEnough(h0.rules);
        }
      }
      if ListingsOk(runner.log, |log0|) {
        NoBlindFlush(runner.log, |log0|, Shared());
      }
      ForeignIsStrangers(h0, runner.host);
      StrangersAreForeign(h0, runner.host, runner.log, |log0|);
      OursIsItsOwn(runner.host);
    }

    method CleanAndRestore()
      requires Printable(runner.host) && Sane(runner.host.rpFilter, rpFilterOriginal)
      modifies this`rpFilterOriginal, runner
      ensures Printable(runner.host) && Continues(old(runner.log), runner.log, runner.ok)
      ensures Accounted(old(runner.host), old(rpFilterOriginal), runner.host, rpFilterOriginal, runner.log, old(|runner.log|), true)
      ensures rpFilterOriginal == map[] && ListsRoutes(runner.log, old(|runner.log|), old(runner.host))
      ensures AllRan(old(|runner.log|)) ==> forall r: Route | OursRoute(r) :: runner.host.routes[r] == 0
      ensures RulesCleaned(old(runner.host), runner.host.rules, runner.log, old(|runner.log|))
    {
      ghost var h0, o0, log0 := runner.host, rpFilterOriginal, runner.log;
      CleanTable();
      ghost var h2, log2 := runner.host, runner.log;
      RestoreRpFilter();
      WritesAreAccounted(h2, o0, runner.host, runner.log, |log2|);
      AccountsCompose(h0, o0, h2, o0, runner.host, map[], log2, runner.log, |log0|, true);
      ContinuesFurther(log0, log2, runner.log, runner.ok);
      ListedStill(log2, runner.log, |log0|, h0);
      AllOkSplits(log2, runner.log, |log0|);
      RulesStayCleaned(h0, runner.host.rules, log2, runner.log, |log0|);
    }

    /** What is left of the router's is told by the rules as they were last listed. */
    ghost predicate LeftAsListed(log: seq<Ran>, n: nat, h: Host) {
      exists k | n <= k < |log| ::
        log[k].command.ShowRules? && RulesUnlisted(log, k + 1) && (NothingOfOurs(h) <==> EachAttributed(log[k].on.rules))
    }

    lemma AttributableLeavesNothing(log: seq<Ran>, n: nat, h: Host)
      requires Attributable() && LeftAsListed(log, n, h)
      ensures NothingOfOurs(h)
    {
      var k :| n <= k < |log| && log[k].command.ShowRules? && (NothingOfOurs(h) <==> EachAttributed(log[k].on.rules));
      AttributableIsEnough(log[k].on.rules);
    }

    /** No rule goes, and `n` of the rule come. */
    ghost predicate Grows(before: multiset<Rule>, after: multiset<Rule>, r: Rule, n: nat) {
      before <= after && before[r] + n <= after[r]
    }

    lemma GrowthAdds(a: multiset<Rule>, b: multiset<Rule>, c: multiset<Rule>, r: Rule, m: nat, n: nat)
      requires Grows(a, b, r, m) && Grows(b, c, r, n)
      ensures Grows(a, c, r, m + n)
    {
    }

    /** The routes were listed, as they were. */
    ghost predicate ListsRoutes(log: seq<Ran>, n: nat, h: Host) {
      exists k | n <= k < |log| :: log[k].command.ShowRoutes? && log[k].on.routes == h.routes
    }

    // ----- Setup --------------------------------------------------------------------

    ghost predicate Installed(h: Host, device: Device) {
      h.rules[Rule(device, table)] > 0 && h.routes[Route("default", device, table)] > 0
    }

    /** Remembers the device's rp_filter, then loosens it. */
    method Relax(device: Device) returns (success: bool)
      modifies this`rpFilterOriginal, runner
      ensures Continues(old(runner.log), runner.log, runner.ok) && |runner.log| == old(|runner.log|) + 2
      ensures runner.log[old(|runner.log|)].command == ReadRp(device)
      ensures runner.log[old(|runner.log|) + 1] == Ran(WriteRp(device, "2"), runner.log[old(|runner.log|) + 1].ok, old(runner.host))
      ensures success <==> runner.log[old(|runner.log|) + 1].ok && device in old(runner.host).rpFilter
      ensures runner.host == old(runner.host).(rpFilter := runner.host.rpFilter)
      ensures (runner.host.rpFilter, rpFilterOriginal)
              == Relaxed(old(runner.host).rpFilter, old(rpFilterOriginal), device,
                         runner.log[old(|runner.log|)].ok, runner.log[old(|runner.log|) + 1].ok)
    {
      ghost var log0 := runner.log;
      var read := runner.SysctlRead(device);
      if read.Some? {
        rpFilterOriginal := rpFilterOriginal[device := read.value];
      }
      success := runner.SysctlWrite(device, "2");
      assert runner.log == log0 + [runner.log[|log0|], runner.log[|log0| + 1]];
    }

    lemma RelaxIsAccounted(h0: Host, h1: Host, o1: map<Device, string>, log: seq<Ran>, n: nat, device: Device)
      requires |log| == n + 2 && log[n].command == ReadRp(device) && log[n + 1].command == WriteRp(device, "2")
      requires log[n + 1].on == h0 && h1 == h0.(rpFilter := h1.rpFilter)
      requires (h1.rpFilter, o1) == Relaxed(h0.rpFilter, map[], device, log[n].ok, log[n + 1].ok)
      ensures Accounted(h0, map[], h1, o1, log, n, true) && Sane(h1.rpFilter, o1)
    {
      RelaxFollows(h0.rpFilter, h1.rpFilter, o1, log, n, device);
    }

    lemma LooseningTold(h0: Host, h1: Host, h2: Host, o2: map<Device, string>, log1: seq<Ran>, log2: seq<Ran>, n: nat, device: Device)
      requires Accounted(h0, map[], h1, map[], log1, n, Owns(iface, prefix, device)) && n <= |log1|
      requires log1 <= log2 && |log2| == |log1| + 2
      requires log2[|log1|].command == ReadRp(device) && log2[|log1| + 1].command == WriteRp(device, "2") && log2[|log1| + 1].on == h1
      requires h2 == h1.(rpFilter := h2.rpFilter)
      requires (h2.rpFilter, o2) == Relaxed(h1.rpFilter, map[], device, log2[|log1|].ok, log2[|log1| + 1].ok)
      ensures Accounted(h0, map[], h2, o2, log2, n, Owns(iface, prefix, device)) && Sane(h2.rpFilter, o2)
      ensures AllOk(log2, n) ==> AllOk(log1, n) && log2[|log1| + 1].ok
    {
      RelaxIsAccounted(h1, h2, o2, log2, |log1|, device);
      AccountsCompose(h0, map[], h1, map[], h2, o2, log1, log2, n, Owns(iface, prefix, device));
      AllOkSplits(log1, log2, n);
      assert AllOk(log2, |log1|) ==> log2[|log1| + 1].ok;
    }

    /** Adds the route, then the rule. */
    method Install(device: Device) returns (routed: bool, ruled: bool, exited: bool)
      requires Printable(runner.host)
      modifies runner
      ensures Printable(runner.host) && Continues(old(runner.log), runner.log, runner.ok) && Quiet(runner.log, old(|runner.log|))
      ensures |runner.log| == old(|runner.log|) + if routed then 2 else 1
      ensures runner.log[old(|runner.log|)].command == AddRoute && (routed ==> runner.log[old(|runner.log|) + 1].command == AddRule)
      ensures routed <==> runner.log[old(|runner.log|)].ok && !Occupied(old(runner.host))
      ensures !routed ==> !ruled && runner.host == old(runner.host)
      ensures routed ==> (ruled <==> runner.log[old(|runner.log|) + 1].ok)
      ensures routed ==> (exited <==> ruled || runner.exits(old(|runner.log|) + 1, AddRule))
      ensures routed ==> runner.host == old(runner.host).(
                routes := old(runner.host).routes + multiset{Route("default", device, table)},
                rules := old(runner.host).rules + if ruled then multiset{Rule(device, table)} else multiset{})
    {
      ruled, exited := false, false;
      routed := runner.RouteAdd("default", device, table);
      if routed {
        ruled, exited := runner.RuleAdd(device, table);
      }
    }

    /** Some route of the table already leads to the default destination. */
    ghost predicate Occupied(h: Host) {
      exists r | r in h.routes :: r.dest == "default" && r.table == table
    }

    lemma InstallIsAccounted(h0: Host, h1: Host, device: Device, routed: bool, ruled: bool, log: seq<Ran>, n: nat)
      requires Quiet(log, n)
      requires if !routed then h1 == h0 else
                 h1 == h0.(routes := h0.routes + multiset{Route("default", device, table)},
                           rules := h0.rules + if ruled then multiset{Rule(device, table)} else multiset{})
      ensures Accounted(h0, map[], h1, map[], log, n, Owns(iface, prefix, device))
    {
      if Owns(iface, prefix, device) {
        QuietIsAccounted(h0, map[], h1, log, n);
      }
    }

    /** Adding the route and the rule, and cleaning up again if the rule is refused; not if its command could not be run. */
    method Claim(device: Device) returns (claimed: bool)
      requires Printable(runner.host) && supported && rpFilterOriginal == map[]
      modifies this`rpFilterOriginal, runner
      ensures Printable(runner.host) && Continues(old(runner.log), runner.log, runner.ok) && rpFilterOriginal == map[]
      ensures Accounted(old(runner.host), map[], runner.host, map[], runner.log, old(|runner.log|), Owns(iface, prefix, device))
      ensures claimed ==> Installed(runner.host, device) && runner.host.rpFilter == old(runner.host).rpFilter
      ensures AllRan(old(|runner.log|)) ==> (claimed <==> !Occupied(old(runner.host)))
      ensures var n := old(|runner.log|);
              !Occupied(old(runner.host)) && runner.ok(n, AddRoute) && !runner.ok(n + 1, AddRule) && !runner.exits(n + 1, AddRule) ==>
                runner.host == old(runner.host).(routes := old(runner.host).routes + multiset{Route("default", device, table)})
      ensures Blind() ==> Grows(old(runner.host).rules, runner.host.rules, Rule(device, table), if claimed then 1 else 0)
    {
      ghost var h0, log0 := runner.host, runner.log;
      var routed, ruled, exited := Install(device);
      ghost var h1, log1 := runner.host, runner.log;
      InstallIsAccounted(h0, h1, device, routed, ruled, log1, |log0|);
      if !routed {
        return false;
      }
      if !ruled && !exited {
        return false;
      }
      if !ruled {
        Cleanup();
        AccountsCompose(h0, map[], h1, map[], runner.host, map[], log1, runner.log, |log0|, Owns(iface, prefix, device));
        ContinuesFurther(log0, log1, runner.log, runner.ok);
        AllOkSplits(log1, runner.log, |log0|);
        return false;
      }
      claimed := true;
    }

    method Take(device: Device) returns (success: bool)
      requires Printable(runner.host) && supported && rpFilterOriginal == map[]
      modifies this`rpFilterOriginal, runner
      ensures Printable(runner.host) && Continues(old(runner.log), runner.log, runner.ok)
      ensures Sane(runner.host.rpFilter, rpFilterOriginal)
      ensures Accounted(old(runner.host), map[], runner.host, rpFilterOriginal, runner.log, old(|runner.log|), Owns(iface, prefix, device))
      ensures success ==> Installed(runner.host, device)
      ensures success && strict ==> device in runner.host.rpFilter && runner.host.rpFilter[device] == "2"
      ensures AllRan(old(|runner.log|)) ==> (success <==> !Occupied(old(runner.host)) && (strict ==> device in old(runner.host).rpFilter))
      ensures Blind() ==> Grows(old(runner.host).rules, runner.host.rules, Rule(device, table), if success then 1 else 0)
    {
      ghost var h0, log0 := runner.host, runner.log;
      var claimed := Claim(device);
      if !claimed {
        return false;
      }
      ghost var h1, log1 := runner.host, runner.log;
      success := Relax(device);
      ContinuesFurther(log0, log1, runner.log, runner.ok);
      LooseningTold(h0, h1, runner.host, rpFilterOriginal, log1, runner.log, |log0|, device);
      if !success && !strict {
        success := true;
      }
    }

    method SetupOnce(device: Device) returns (success: bool)
      requires Printable(runner.host) && supported && Sane(runner.host.rpFilter, rpFilterOriginal)
      modifies this`rpFilterOriginal, runner
      ensures Printable(runner.host) && Continues(old(runner.log), runner.log, runner.ok)
      ensures Sane(runner.host.rpFilter, rpFilterOriginal)
      ensures Accounted(old(runner.host), old(rpFilterOriginal), runner.host, rpFilterOriginal, runner.log, old(|runner.log|),
                        Owns(iface, prefix, device))
      ensures success ==> Installed(runner.host, device)
      ensures success && strict ==> device in runner.host.rpFilter && runner.host.rpFilter[device] == "2"
      ensures AllRan(old(|runner.log|)) ==> (success <==> CanInstall(old(runner.host), device))
      ensures Blind() ==> Grows(old(runner.host).rules, runner.host.rules, Rule(device, table), if success then 1 else 0)
    {
      ghost var h0, o0, log0 := runner.host, rpFilterOriginal, runner.log;
      Cleanup();
      ghost var h1, log1 := runner.host, runner.log;
      success := Take(device);
      AccountsCompose(h0, o0, h1, map[], runner.host, rpFilterOriginal, log1, runner.log, |log0|, Owns(iface, prefix, device));
      ContinuesFurther(log0, log1, runner.log, runner.ok);
      AllOkSplits(log1, runner.log, |log0|);
      if AllRan(|log0|) {
        AllListingsOk(log1, |log0|);
        CleanTableIsFree(h0, h1);
      }
    }

    lemma AllListingsOk(log: seq<Ran>, n: nat)
      requires AllOk(log, n)
      ensures ListingsOk(log, n)
    {
    }

    /** No other program holds a default route in the table. */
    ghost predicate NeighbourFree(h: Host) {
      forall r: Route | h.routes[r] > 0 && r.table == table && r.dest == "default" :: OursRoute(r)
    }

    lemma CleanTableIsFree(before: Host, clean: Host)
      requires SameForeignRoutes(before, clean)
      requires forall r: Route | OursRoute(r) :: clean.routes[r] == 0
      ensures !Occupied(clean) <==> NeighbourFree(before)
    {
      if r :| r in clean.routes && r.dest == "default" && r.table == table {
        assert before.routes[r] > 0 && !OursRoute(r);
      }
    }

    /** A neighbour's default route in the table is what keeps the router out of it. */
    ghost predicate CanInstall(h: Host, device: Device) {
      && NeighbourFree(h)
      && (strict ==> device in h.rpFilter)
    }

    /** What the configured interface, or the one given instead, resolves to. */
    function DeviceFor(given: Device): Device {
      if given == "" then iface else given
    }

    lemma SameNeighbours(a: Host, b: Host)
      requires SameForeignRoutes(a, b)
      ensures NeighbourFree(a) <==> NeighbourFree(b)
    {
      assert forall r: Route | !OursRoute(r) :: a.routes[r] == b.routes[r];
    }

    /**
     What trying has led to: success with everything in place, or a cleanup after the failure. If every command
     ran, it succeeded exactly when no neighbour is in the way.
     */
    ghost predicate Tried(h0: Host, o0: map<Device, string>, log0: seq<Ran>, h: Host, o: map<Device, string>, log: seq<Ran>,
                          device: Device, success: bool)
    {
      && Printable(h) && Continues(log0, log, runner.ok) && Sane(h.rpFilter, o)
      && Accounted(h0, o0, h, o, log, |log0|, Owns(iface, prefix, device))
      && (success ==> Installed(h, device))
      && (success && strict ==> device in h.rpFilter && h.rpFilter[device] == "2")
      && (!success ==> o == map[])
      && (!success && AllOk(log, |log0|) ==> LeftAsListed(log, |log0|, h))
      && (AllOk(log, |log0|) && Owns(iface, prefix, device) ==> (success <==> CanInstall(h0, device)))
      && (Blind() ==> Grows(h0.rules, h.rules, Rule(device, table), if success then 1 else 0))
    }

    /** A retry finds the neighbours the first attempt found, if every command ran. */
    lemma TriedAgain(h0: Host, o0: map<Device, string>, log0: seq<Ran>, h1: Host, o1: map<Device, string>, log1: seq<Ran>,
                     h2: Host, o2: map<Device, string>, log2: seq<Ran>, device: Device, success: bool)
      requires Tried(h0, o0, log0, h1, o1, log1, device, false) && Tried(h1, o1, log1, h2, o2, log2, device, success)
      ensures Tried(h0, o0, log0, h2, o2, log2, device, success)
    {
      ContinuesFurther(log0, log1, log2, runner.ok);
      AccountsCompose(h0, o0, h1, o1, h2, o2, log1, log2, |log0|, Owns(iface, prefix, device));
      AllOkSplits(log1, log2, |log0|);
      if AllOk(log1, |log0|) && Owns(iface, prefix, device) {
        AllListingsOk(log1, |log0|);
        NoBlindFlush(log1, |log0|, Shared());
        SameNeighbours(h0, h1);
      }
    }

    /** An attempt, and the cleanup after one that failed. */
    method Attempt(device: Device) returns (success: bool)
      requires Printable(runner.host) && supported && Sane(runner.host.rpFilter, rpFilterOriginal)
      modifies this`rpFilterOriginal, runner
      ensures Tried(old(runner.host), old(rpFilterOriginal), old(runner.log), runner.host, rpFilterOriginal, runner.log, device, success)
    {
      ghost var h0, o0, log0 := runner.host, rpFilterOriginal, runner.log;
      success := SetupOnce(device);
      if success {
        return;
      }
      ghost var h1, o1, log1 := runner.host, rpFilterOriginal, runner.log;
      Cleanup();
      AccountsCompose(h0, o0, h1, o1, runner.host, rpFilterOriginal, log1, runner.log, |log0|, Owns(iface, prefix, device));
      ContinuesFurther(log0, log1, runner.log, runner.ok);
      AllOkSplits(log1, runner.log, |log0|);
    }

    /** As many attempts as it takes, or as are allowed. */
    method Retry(device: Device) returns (success: bool)
      requires Printable(runner.host) && supported && setupRetries > 0 && Sane(runner.host.rpFilter, rpFilterOriginal)
      modifies this`rpFilterOriginal, runner
      ensures Tried(old(runner.host), old(rpFilterOriginal), old(runner.log), runner.host, rpFilterOriginal, runner.log, device, success)
    {
      ghost var h0, o0, log0 := runner.host, rpFilterOriginal, runner.log;
      success := false;
      var attempt := 1;
      while attempt <= setupRetries && !success
        invariant attempt >= 1
        invariant if attempt == 1 then !success && runner.host == h0 && rpFilterOriginal == o0 && runner.log == log0
                  else Tried(h0, o0, log0, runner.host, rpFilterOriginal, runner.log, device, success)
      {
        ghost var h1, o1, log1 := runner.host, rpFilterOriginal, runner.log;
        success := Attempt(device);
        if attempt > 1 {
          TriedAgain(h0, o0, log0, h1, o1, log1, runner.host, rpFilterOriginal, runner.log, device, success);
        }
        attempt := attempt + 1;
      }
    }

    /**
     With retries, cleaning up after each failure, whichever commands fail. For a device of the router's own,
     other programs' rules stay, and their routes stay exactly when no flush ran on a table they share: always,
     if every route listing ran.
     */
    method Setup(given: Device) returns (success: bool)
      requires Printable(runner.host) && setupRetries > 0 && Sane(runner.host.rpFilter, rpFilterOriginal)
      modifies this`rpFilterOriginal, runner
      ensures Printable(runner.host) && Continues(old(runner.log), runner.log, runner.ok)
      ensures Sane(runner.host.rpFilter, rpFilterOriginal)
      ensures Accounted(old(runner.host), old(rpFilterOriginal), runner.host, rpFilterOriginal, runner.log, old(|runner.log|),
                        Owns(iface, prefix, DeviceFor(given)))
      ensures Owns(iface, prefix, DeviceFor(given)) && ListingsOk(runner.log, old(|runner.log|)) ==>
                SameForeignRoutes(old(runner.host), runner.host)
      ensures !supported ==> !success && runner.log == old(runner.log) && runner.host == old(runner.host)
                             && rpFilterOriginal == old(rpFilterOriginal)
      ensures success ==> Installed(runner.host, DeviceFor(given))
      ensures success && strict ==> DeviceFor(given) in runner.host.rpFilter && runner.host.rpFilter[DeviceFor(given)] == "2"
      ensures supported && !success ==> rpFilterOriginal == map[]
      ensures supported && AllRan(old(|runner.log|)) && !success ==> LeftAsListed(runner.log, old(|runner.log|), runner.host)
      ensures supported && AllRan(old(|runner.log|)) && !success && Attributable() ==> NothingOfOurs(runner.host)
      ensures supported && AllRan(old(|runner.log|)) && Owns(iface, prefix, DeviceFor(given)) ==>
                (success <==> CanInstall(old(runner.host), DeviceFor(given)))
      ensures Blind() ==> Grows(old(runner.host).rules, runner.host.rules, Rule(DeviceFor(given), table), if success then 1 else 0)
      ensures !Elsewhere(if given == "" then iface else given) ==>
                && StrangersKept(old(runner.host), runner.host, runner.log, old(|runner.log|))
                && (ListingsOk(runner.log, old(|runner.log|)) ==> SameStrangerRoutes(old(runner.host), runner.host))
                && (supported && AllRan(old(|runner.log|)) ==>
                      (success <==> SetupHasWay(old(runner.host), if given == "" then iface else given)))
      ensures supported && AllRan(old(|runner.log|)) && !success && Attributable() ==> NoneOfItsOwn(runner.host)
    {
      var device := DeviceFor(given);
      ghost var h0, o0, log0 := runner.host, rpFilterOriginal, runner.log;
      OwnsExactly(device);
      if !supported {
        NothingIsAccounted(runner.host, rpFilterOriginal, runner.log);
        StrangersAreForeign(h0, runner.host, runner.log, |log0|);
        return false;
      }
      success := Retry(device);
      if Attributable() && !success && AllRan(|log0|) {
        AttributableLeavesNothing(runner.log, |log0|, runner.host);
      }
      if ListingsOk(runner.log, |log0|) {
        NoBlindFlush(runner.log, |log0|, Shared());
      }
      OursIsItsOwn(runner.host);
      SetupHasWayExactly(h0, device);
      ForeignIsStrangers(h0, runner.host);
      if Owns(iface, prefix, device) {
        StrangersAreForeign(h0, runner.host, runner.log, |log0|);
      }
    }

    /** Nobody else has the table's default route, and a strict router finds the device's rp_filter. */
    ghost predicate SetupHasWay(h: Host, device: Device) {
      && (forall r: Route | h.routes[r] > 0 && r.table == table && r.dest == "default" :: !Elsewhere(r.dev))
      && (strict ==> device in h.rpFilter)
    }

    lemma SetupHasWayExactly(h: Host, device: Device)
      ensures CanInstall(h, device) <==> SetupHasWay(h, device)
    {
      OwnsExactlyEach();
    }

    method OneCall(call: Call)
      requires Printable(runner.host) && setupRetries > 0 && Sane(runner.host.rpFilter, rpFilterOriginal)
      requires call.SetupCall? ==> Owns(iface, prefix, DeviceFor(call.given))
      modifies this`rpFilterOriginal, runner
      ensures Printable(runner.host) && Continues(old(runner.log), runner.log, runner.ok) && Sane(runner.host.rpFilter, rpFilterOriginal)
      ensures Accounted(old(runner.host), old(rpFilterOriginal), runner.host, rpFilterOriginal, runner.log, old(|runner.log|), true)
      ensures supported && call.CleanupCall? ==> rpFilterOriginal == map[]
      ensures supported && AllRan(old(|runner.log|)) && call.CleanupCall? ==> LeftAsListed(runner.log, old(|runner.log|), runner.host)
      ensures Blind() ==> old(runner.host).rules <= runner.host.rules
    {
      if call.SetupCall? {
        var _ := Setup(call.given);
      } else {
        Cleanup();
      }
    }

    lemma CallTold(h0: Host, o0: map<Device, string>, h1: Host, o1: map<Device, string>, h2: Host, o2: map<Device, string>,
                   log0: seq<Ran>, log1: seq<Ran>, log2: seq<Ran>)
      requires Continues(log0, log1, runner.ok) && Continues(log1, log2, runner.ok)
      requires Accounted(h0, o0, h1, o1, log1, |log0|, true) && Accounted(h1, o1, h2, o2, log2, |log1|, true)
      ensures Continues(log0, log2, runner.ok) && Accounted(h0, o0, h2, o2, log2, |log0|, true)
      ensures AllOk(log2, |log0|) <==> AllOk(log1, |log0|) && AllOk(log2, |log1|)
      ensures LeftAsListed(log2, |log1|, h2) ==> LeftAsListed(log2, |log0|, h2)
    {
      AccountsCompose(h0, o0, h1, o1, h2, o2, log1, log2, |log0|, true);
      ContinuesFurther(log0, log1, log2, runner.ok);
      AllOkSplits(log1, log2, |log0|);
    }

    /** The calls one after the other, each adding to the account of those before it. */
    method RunCalls(calls: seq<Call>)
      requires Printable(runner.host) && setupRetries > 0 && Sane(runner.host.rpFilter, rpFilterOriginal)
      requires forall c | c in calls && c.SetupCall? :: Owns(iface, prefix, DeviceFor(c.given))
      modifies this`rpFilterOriginal, runner
      ensures Printable(runner.host) && Continues(old(runner.log), runner.log, runner.ok)
      ensures Accounted(old(runner.host), old(rpFilterOriginal), runner.host, rpFilterOriginal, runner.log, old(|runner.log|), true)
      ensures supported && calls != [] && calls[|calls| - 1].CleanupCall? ==> rpFilterOriginal == map[]
      ensures supported && AllRan(old(|runner.log|)) && calls != [] && calls[|calls| - 1].CleanupCall? ==>
                LeftAsListed(runner.log, old(|runner.log|), runner.host)
      ensures Blind() ==> old(runner.host).rules <= runner.host.rules
    {
      ghost var h0, o0, log0 := runner.host, rpFilterOriginal, runner.log;
      NothingIsAccounted(h0, o0, log0);
      for i := 0 to |calls|
        invariant Printable(runner.host) && Continues(log0, runner.log, runner.ok) && Sane(runner.host.rpFilter, rpFilterOriginal)
        invariant Accounted(h0, o0, runner.host, rpFilterOriginal, runner.log, |log0|, true)
        invariant supported && i > 0 && calls[i - 1].CleanupCall? ==> rpFilterOriginal == map[]
        invariant supported && AllRan(|log0|) && i > 0 && calls[i - 1].CleanupCall? ==> LeftAsListed(runner.log, |log0|, runner.host)
        invariant Blind() ==> h0.rules <= runner.host.rules
      {
        ghost var h1, o1, log1 := runner.host, rpFilterOriginal, runner.log;
        OneCall(calls[i]);
        CallTold(h0, o0, h1, o1, runner.host, rpFilterOriginal, log0, log1, runner.log);
      }
    }

    lemma OwnCalls(calls: seq<Call>)
      requires forall c | c in calls && c.SetupCall? :: !Elsewhere(if c.given == "" then iface else c.given)
      ensures forall c | c in calls && c.SetupCall? :: Owns(iface, prefix, DeviceFor(c.given))
    {
      forall c | c in calls && c.SetupCall?
        ensures Owns(iface, prefix, DeviceFor(c.given))
      {
        OwnsExactly(DeviceFor(c.given));
      }
    }

    /**
     Any sequence of setups of the router's own devices and of cleanups, with any commands failing. Other
     programs' rules stay. Their routes stay exactly when no flush ran on a table they share, and one does only
     right after a listing that failed. A device's original rp_filter value stays known or in place exactly
     when the log does not lose it.
     */
    method AnySequence(calls: seq<Call>)
      requires Printable(runner.host) && setupRetries > 0 && Sane(runner.host.rpFilter, rpFilterOriginal)
      requires forall c | c in calls && c.SetupCall? :: !Elsewhere(if c.given == "" then iface else c.given)
      modifies this`rpFilterOriginal, runner
      ensures Printable(runner.host) && Continues(old(runner.log), runner.log, runner.ok)
      ensures ForeignKept(old(runner.host), runner.host, runner.log, old(|runner.log|))
      ensures FlushesBlindly(runner.log, old(|runner.log|), Shared())
      ensures ListingsOk(runner.log, old(|runner.log|)) ==> SameForeignRoutes(old(runner.host), runner.host)
      ensures runner.host.rpFilter.Keys == old(runner.host).rpFilter.Keys
      ensures forall d | d in runner.host.rpFilter ::
                BaselineOf(runner.host.rpFilter, rpFilterOriginal, d) == BaselineOf(old(runner.host).rpFilter, old(rpFilterOriginal), d)
                <==> !Lost(runner.log, old(|runner.log|), d)
      ensures AllRan(old(|runner.log|)) ==> forall d :: !Lost(runner.log, old(|runner.log|), d)
      ensures supported && calls != [] && calls[|calls| - 1].CleanupCall? ==> rpFilterOriginal == map[]
      ensures supported && AllRan(old(|runner.log|)) && calls != [] && calls[|calls| - 1].CleanupCall? ==>
                LeftAsListed(runner.log, old(|runner.log|), runner.host) && (Attributable() ==> NothingOfOurs(runner.host))
      ensures Blind() ==> old(runner.host).rules <= runner.host.rules
      ensures StrangersKept(old(runner.host), runner.host, runner.log, old(|runner.log|))
      ensures ListingsOk(runner.log, old(|runner.log|)) ==> SameStrangerRoutes(old(runner.host), runner.host)
      ensures supported && AllRan(old(|runner.log|)) && calls != [] && calls[|calls| - 1].CleanupCall? && Attributable() ==>
                NoneOfItsOwn(runner.host)
    {
      ghost var h0, o0, log0 := runner.host, rpFilterOriginal, runner.log;
      OwnCalls(calls);
      RunCalls(calls);
      LostExactly(h0.rpFilter, o0, runner.host.rpFilter, rpFilterOriginal, LostIn(runner.log, |log0|));
      if Attributable() && supported && AllRan(|log0|) && calls != [] && calls[|calls| - 1].CleanupCall? {
        AttributableLeavesNothing(runner.log, |log0|, runner.host);
      }
      if ListingsOk(runner.log, |log0|) {
        NoBlindFlush(runner.log, |log0|, Shared());
      }
      ForeignIsStrangers(h0, runner.host);
      StrangersAreForeign(h0, runner.host, runner.log, |log0|);
      OursIsItsOwn(runner.host);
    }

    /** A listing that failed and a flush that ran, on a table others share. */
    lemma BlindFlushTakesRoutes(h0: Host, h1: Host, log: seq<Ran>)
      requires ForeignKept(h0, h1, log, 0) && FlushesBlindly(log, 0, Shared()) && ListsRoutes(log, 0, h0)
      requires forall k | 0 <= k < |log| :: log[k].ok <==> !log[k].command.ShowRoutes?
      ensures SharedTable(h0) ==> !SameForeignRoutes(h0, h1)
    {
      if SharedTable(h0) {
        var k :| 0 <= k < |log| && log[k].command.ShowRoutes? && log[k].on.routes == h0.routes;
        var r: Route :| h0.routes[r] > 0 && r.table == table && !OursRoute(r);
        assert log[k + 1].command.FlushRoutes? && log[k + 1].on.routes[r] > 0;
        assert SharedTable(log[k + 1].on);
      }
    }

    lemma NothingIsAccounted(h: Host, o: map<Device, string>, log: seq<Ran>)
      ensures Accounted(h, o, h, o, log, |log|, true)
    {
    }
  }

  datatype Call = SetupCall(given: Device) | CleanupCall

  function Relaxed(rpFilter: map<Device, string>, original: map<Device, string>, device: Device, readOk: bool, writeOk: bool)
    : (map<Device, string>, map<Device, string>)
  {
    (if writeOk && device in rpFilter then rpFilter[device := "2"] else rpFilter,
     if readOk && device in rpFilter then original[device := rpFilter[device]] else original)
  }

  lemma RelaxFollows(rp: map<Device, string>, rp': map<Device, string>, original: map<Device, string>, log: seq<Ran>, n: nat, device: Device)
    requires |log| == n + 2 && log[n].command == ReadRp(device) && log[n + 1].command == WriteRp(device, "2")
    requires log[n + 1].on.rpFilter == rp
    requires (rp', original) == Relaxed(rp, map[], device, log[n].ok, log[n + 1].ok)
    ensures BaselinesFollow(rp, map[], rp', original, LostIn(log, n))
    ensures AllOk(log, n) ==> forall d :: !Lost(log, n, d)
  {
    forall d ensures Lost(log, n, d) <==> d == device && LosesAt(log, n + 1, d) {
    }
  }

  /** One loosening loses the value exactly when it could not be read and was overwritten with another. */
  lemma RelaxKeepsBaselineExactly(rpFilter: map<Device, string>, original: map<Device, string>, device: Device, readOk: bool, writeOk: bool)
    requires device in rpFilter && device !in original
    ensures var r := Relaxed(rpFilter, original, device, readOk, writeOk);
            (forall d | d in rpFilter :: d in r.0 && BaselineOf(r.0, r.1, d) == BaselineOf(rpFilter, original, d))
            <==> readOk || !writeOk || rpFilter[device] == "2"
  {
    var r := Relaxed(rpFilter, original, device, readOk, writeOk);
    if !readOk && writeOk && rpFilter[device] != "2" {
      assert BaselineOf(r.0, r.1, device) == "2";
    }
  }

  // ----- Failing runs --------------------------------------------------------------------

  /** When only the listing of routes fails, a cleanup takes other programs' routes along. */
  method FailedListingTakesForeignRoutes(host: Host, names: map<int, string>, table: int, iface: Device, prefix: string)
    returns (router: Router)
    requires Printable(host)
    ensures router.table == table && router.iface == iface && router.prefix == (if prefix == "" then DEVICE_PREFIX else prefix)
    ensures router.SameStrangerRules(host, router.runner.host)
    ensures router.StrangerInTable(host) ==> !router.SameStrangerRoutes(host, router.runner.host)
  {
    var ok := (n: nat, c: Command) => !c.ShowRoutes?;
    var runner := new Runner(host, names, ok, ok);
    router := new Router(runner, table, iface, prefix, 1, false, true);
    router.Cleanup();
    router.BlindFlushTakesRoutes(host, runner.host, runner.log);
    router.SharedIsStranger(host);
    router.ForeignIsStrangers(host, runner.host);
  }

  /**
   On a host that prints the table by some other name, every command running: each setup leaves a rule of the
   router's behind that no cleanup takes away, the last one included.
   */
  method UnseenRulesPileUp(host: Host, table: int, name: string, iface: Device, prefix: string, setups: nat) returns (router: Router)
    requires Printable(host) && iface != "" && name != Itoa(table) && name != ROUTING_TABLE_ALIAS
    requires forall r: Route | host.routes[r] > 0 && r.table == table && r.dest == "default" :: r.dev == iface
    ensures router.table == table && router.iface == iface && fresh(router) && fresh(router.runner)
    ensures router.AllRan(0) && router.OursRule(Rule(iface, table)) && !router.Attributable()
    ensures router.runner.host.rules[Rule(iface, table)] >= host.rules[Rule(iface, table)] + setups
  {
    router := UnderAnotherName(host, table, name, iface, prefix);
    PileUp(router, setups);
    LastCleanup(router);
  }

  /** A router on a host on which every command runs, and which prints its table by `name`. */
  method UnderAnotherName(host: Host, table: int, name: string, iface: Device, prefix: string) returns (router: Router)
    requires Printable(host) && name != Itoa(table) && name != ROUTING_TABLE_ALIAS
    ensures router.table == table && router.iface == iface && fresh(router) && fresh(router.runner)
    ensures router.runner.host == host && router.runner.log == [] && router.rpFilterOriginal == map[] && router.Blind()
    ensures router.setupRetries > 0 && router.supported && !router.strict && forall n, c :: router.runner.ok(n, c)
  {
    var all := (n: nat, c: Command) => true;
    var runner := new Runner(host, map[table := name], all, all);
    router := new Router(runner, table, iface, prefix, 1, false, true);
  }

  method LastCleanup(router: Router)
    requires Printable(router.runner.host) && Sane(router.runner.host.rpFilter, router.rpFilterOriginal)
    requires router.Blind() && router.AllRan(0) && forall n, c :: router.runner.ok(n, c)
    modifies router`rpFilterOriginal, router.runner
    ensures router.AllRan(0) && router.runner.host.rules == old(router.runner.host).rules
  {
    ghost var log := router.runner.log;
    router.Cleanup();
    AllRunFurther(log, router.runner.log, router.runner.ok);
  }

  method PileUp(router: Router, setups: nat)
    requires Printable(router.runner.host) && Sane(router.runner.host.rpFilter, router.rpFilterOriginal)
    requires router.setupRetries > 0 && router.supported && !router.strict && router.iface != ""
    requires router.Blind() && router.AllRan(0) && router.NeighbourFree(router.runner.host)
    requires forall n, c :: router.runner.ok(n, c)
    modifies router`rpFilterOriginal, router.runner
    ensures Printable(router.runner.host) && Sane(router.runner.host.rpFilter, router.rpFilterOriginal) && router.AllRan(0)
    ensures router.Grows(old(router.runner.host).rules, router.runner.host.rules, Rule(router.iface, router.table), setups)
  {
    ghost var before := router.runner.host.rules;
    for i := 0 to setups
      invariant router.AllRan(0) && Printable(router.runner.host) && Sane(router.runner.host.rpFilter, router.rpFilterOriginal)
      invariant router.NeighbourFree(router.runner.host)
      invariant router.Grows(before, router.runner.host.rules, Rule(router.iface, router.table), i)
    {
      ghost var rules := router.runner.host.rules;
      LeaveOneMore(router);
      router.GrowthAdds(before, rules, router.runner.host.rules, Rule(router.iface, router.table), i, 1);
    }
  }

  method LeaveOneMore(router: Router)
    requires Printable(router.runner.host) && Sane(router.runner.host.rpFilter, router.rpFilterOriginal)
    requires router.setupRetries > 0 && router.supported && !router.strict && router.iface != ""
    requires router.Blind() && router.AllRan(0) && router.NeighbourFree(router.runner.host)
    requires forall n, c :: router.runner.ok(n, c)
    modifies router`rpFilterOriginal, router.runner
    ensures Printable(router.runner.host) && Sane(router.runner.host.rpFilter, router.rpFilterOriginal)
    ensures router.AllRan(0) && router.NeighbourFree(router.runner.host)
    ensures router.Grows(old(router.runner.host).rules, router.runner.host.rules, Rule(router.iface, router.table), 1)
  {
    var runner := router.runner;
    ghost var h, log := runner.host, runner.log;
    var installed := router.Setup(router.iface);
    AllRunFurther(log, runner.log, runner.ok);
    router.AllListingsOk(runner.log, |log|);
    router.SameNeighbours(h, runner.host);
  }

  lemma AllRunFurther(a: seq<Ran>, b: seq<Ran>, ok: (nat, Command) -> bool)
    requires AllOk(a, 0) && Continues(a, b, ok) && forall n, c :: ok(n, c)
    ensures AllOk(b, 0) && AllOk(b, |a|)
  {
    assert forall k | 0 <= k < |a| :: b[k] == a[k];
  }

  /** When only the writing back of a value fails, the 2 stays and nobody remembers what was there. */
  method FailedRestoreLosesTheValue(host: Host, names: map<int, string>, table: int, device: Device) returns (router: Router)
    requires device in host.rpFilter && host.rpFilter[device] != "2"
    ensures device in router.runner.host.rpFilter && router.runner.host.rpFilter[device] == "2"
    ensures router.rpFilterOriginal == map[]
  {
    var ok := (n: nat, c: Command) => c.WriteRp? ==> c.value == "2";
    var runner := new Runner(host, names, ok, ok);
    router := new Router(runner, table, device, "", 1, true, true);
    var loosened := router.Relax(device);
    assert runner.log[0].ok && runner.log[1].ok;
    ghost var log := runner.log;
    router.RestoreRpFilter();
    NothingWrittenBack(log, runner.log, ok, device, host.rpFilter[device]);
  }

  lemma NothingWrittenBack(was: seq<Ran>, log: seq<Ran>, ok: (nat, Command) -> bool, d: Device, value: string)
    requires Continues(was, log, ok) && value != "2"
    requires forall n, c: Command :: ok(n, c) ==> c != WriteRp(d, value)
    ensures !WroteBack(log, |was|, d, value)
  {
  }
}
