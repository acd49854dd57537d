/**
 The pool of probe devices: the configuration that keeps it clear of the active tunnel
 (internal/config/config.go) and the allocator that leases its names (internal/netx/tun.go).
 */
module TunAllocator {
  import opened Wrappers
  import opened Naming

  const PROBE_DEVICE_RANGE_START := 1
  const PROBE_DEVICE_RANGE_END := 64

  // ----- The configuration -----------------------------------------------------------

  datatype NamingError = BadPrefix | BadInterface | BadTable | NoProbeDevice

  function ProbeIndex(device: string, prefix: string): Option<int> {
    if HasDevicePrefix(device, prefix) then Atoi(device[|prefix|..]) else None
  }

  /** An operator's settings after defaults. */
  datatype Settings = Settings(prefix: string, tunnel: string, table: int)

  function Defaulted(s: Settings): Settings {
    Settings(if s.prefix == "" then DEVICE_PREFIX else s.prefix,
             if s.tunnel == "" then ActiveDevice() else s.tunnel,
             if s.table == 0 then DEFAULT_ROUTING_TABLE else s.table)
  }

  /** The only settings refused: invalid ones, and a tunnel on the pool's last index. */
  function Refusal(s: Settings): Option<NamingError> {
    if !ValidDevicePrefix(s.prefix) then Some(BadPrefix)
    else if !ValidDeviceName(s.tunnel) then Some(BadInterface)
    else if !ValidRoutingTable(s.table) then Some(BadTable)
    else if ProbeIndex(s.tunnel, s.prefix) == Some(PROBE_DEVICE_RANGE_END) then Some(NoProbeDevice)
    else None
  }

  /** Where the pool begins: right after the tunnel's index when that lies in the range. */
  function StartFor(tunnel: Option<int>): int {
    if tunnel.Some? && PROBE_DEVICE_RANGE_START <= tunnel.value <= PROBE_DEVICE_RANGE_END then tunnel.value + 1
    else PROBE_DEVICE_RANGE_START
  }

  lemma ProbeIndexExactly(device: string, prefix: string, i: int)
    ensures ProbeIndex(device, prefix) == Some(i) <==>
              prefix != "" && exists digits :: NumberedBy(device, prefix, digits) && AllDigits(digits) && Value(digits) == i <= MAX_INT
  {
    PrefixExactly(device, prefix);
    if HasDevicePrefix(device, prefix) {
      assert NumberedBy(device, prefix, device[|prefix|..]);
    }
    forall digits | NumberedBy(device, prefix, digits)
      ensures |prefix| <= |device| && device[|prefix|..] == digits && AllDigits(digits)
    {
      NumberedSuffix(device, prefix, digits);
    }
  }

  /** A name the kernel takes. */
  ghost predicate Nameable(name: string) {
    1 <= |name| <= 15 && name != "." && name != ".." && forall c | c in name :: c !in {' ', '/', ':', '\t', '\n'}
  }

  /**
   What the operator may set: names the kernel takes, with room for three digits after the prefix, a table it
   does not reserve, and a tunnel that leaves the pool a device: any but the last of its indices.
   */
  ghost predicate Usable(s: Settings) {
    && s.prefix != "" && |s.prefix| <= 12 && (forall c | c in s.prefix :: c !in {' ', '/', ':', '\t', '\n'})
    && Nameable(s.tunnel)
    && s.table > 0 && s.table !in {253, 254, 255}
    && (forall digits | NumberedBy(s.tunnel, s.prefix, digits) && AllDigits(digits) :: Value(digits) != 64)
  }

  lemma NameableExactly(name: string)
    ensures ValidDeviceName(name) <==> Nameable(name)
  {
    if ValidDeviceName(name) {
      assert forall c | c in name :: !Forbidden(c);
    }
    if Nameable(name) {
      forall i | 0 <= i < |name| ensures !Forbidden(name[i]) {
        assert name[i] in name;
      }
    }
  }

  lemma PrefixUsable(prefix: string)
    ensures ValidDevicePrefix(prefix) <==>
              prefix != "" && |prefix| <= 12 && forall c | c in prefix :: c !in {' ', '/', ':', '\t', '\n'}
  {
    var padded := prefix + "000";
    NameableExactly(padded);
    assert forall c | c in prefix :: c in padded;
    assert forall c | c in padded :: c in prefix || c == '0';
    assert |padded| > 3 ==> padded != "." && padded != "..";
  }

  lemma UsableExactly(s: Settings)
    ensures Refusal(s) == None <==> Usable(s)
  {
    PrefixUsable(s.prefix);
    NameableExactly(s.tunnel);
    ProbeIndexExactly(s.tunnel, s.prefix, 64);
  }

  lemma DefaultsSpelled(s: Settings)
    ensures Defaulted(s) == Settings(if s.prefix == "" then "fpx" else s.prefix, if s.tunnel == "" then "fpx0" else s.tunnel,
                                     if s.table == 0 then 9527 else s.table)
  {
    assert Decimal(0) == "0";
    assert ActiveDevice() == "fpx0";
  }

  class Config {
    var probeDevicePrefix: string
    var tunnelInterface: string
    var policyRoutingTable: int
    var testTunStart: int
    var testTunEnd: int

    constructor (s: Settings)
      ensures probeDevicePrefix == s.prefix && tunnelInterface == s.tunnel && policyRoutingTable == s.table
    {
      probeDevicePrefix, tunnelInterface, policyRoutingTable := s.prefix, s.tunnel, s.table;
      testTunStart, testTunEnd := 0, 0;
    }

    function Current(): Settings
      reads this
    {
      Settings(probeDevicePrefix, tunnelInterface, policyRoutingTable)
    }

    /** An accepted configuration has a pool, within the fixed range, in which the tunnel's name does not occur. */
    method FinalizeNaming() returns (error: Option<NamingError>)
      modifies this
      ensures error == Refusal(Defaulted(old(Current())))
      ensures error == None <==>
                Usable(Settings(if old(probeDevicePrefix) == "" then "fpx" else old(probeDevicePrefix),
                                if old(tunnelInterface) == "" then "fpx0" else old(tunnelInterface),
                                if old(policyRoutingTable) == 0 then 9527 else old(policyRoutingTable)))
      ensures error.None? ==>
                && Current() == Defaulted(old(Current()))
                && ValidDevicePrefix(probeDevicePrefix) && ValidDeviceName(tunnelInterface) && ValidRoutingTable(policyRoutingTable)
                && PROBE_DEVICE_RANGE_START <= testTunStart <= testTunEnd == PROBE_DEVICE_RANGE_END
                && (forall i | testTunStart <= i <= testTunEnd :: DeviceName(probeDevicePrefix, i) != tunnelInterface)
      ensures error.None? ==>
                testTunStart == StartFor(ProbeIndex(tunnelInterface, probeDevicePrefix))
    {
      DefaultsSpelled(Current());
      UsableExactly(Defaulted(Current()));
      testTunStart, testTunEnd := PROBE_DEVICE_RANGE_START, PROBE_DEVICE_RANGE_END;
      if probeDevicePrefix == "" {
        probeDevicePrefix := DEVICE_PREFIX;
      }
      if !ValidDevicePrefix(probeDevicePrefix) {
        return Some(BadPrefix);
      }
      if tunnelInterface == "" {
        tunnelInterface := ActiveDevice();
      }
      if !ValidDeviceName(tunnelInterface) {
        return Some(BadInterface);
      }
      if policyRoutingTable == 0 {
        policyRoutingTable := DEFAULT_ROUTING_TABLE;
      }
      if !ValidRoutingTable(policyRoutingTable) {
        return Some(BadTable);
      }
      error := Narrow();
    }

    /** The range is the project's own, so it is what yields to the tunnel. */
    method Narrow() returns (error: Option<NamingError>)
      requires ValidDevicePrefix(probeDevicePrefix)
      requires testTunStart == PROBE_DEVICE_RANGE_START && testTunEnd == PROBE_DEVICE_RANGE_END
      modifies this`testTunStart
      ensures error == if ProbeIndex(tunnelInterface, probeDevicePrefix) == Some(PROBE_DEVICE_RANGE_END) then Some(NoProbeDevice) else None
      ensures error.None? ==>
                && PROBE_DEVICE_RANGE_START <= testTunStart <= testTunEnd
                && (forall i | testTunStart <= i <= testTunEnd :: DeviceName(probeDevicePrefix, i) != tunnelInterface)
                && testTunStart == StartFor(ProbeIndex(tunnelInterface, probeDevicePrefix))
    {
      var idx := ProbeIndex(tunnelInterface, probeDevicePrefix);
      if idx.Some? && idx.value >= testTunStart && idx.value <= testTunEnd {
        testTunStart := idx.value + 1;
        if testTunStart > testTunEnd {
          return Some(NoProbeDevice);
        }
      }
      PoolAvoidsTunnel(probeDevicePrefix, tunnelInterface, testTunStart);
      error := None;
    }
  }

  /** Each name of the pool is read back as its own index. */
  lemma PoolNameIndex(prefix: string, i: nat)
    requires prefix != "" && i <= MAX_INT
    ensures ProbeIndex(DeviceName(prefix, i), prefix) == Some(i)
  {
    PoolNamesHavePrefix(prefix, i);
    assert DeviceName(prefix, i)[|prefix|..] == Decimal(i);
    DecimalValue(i);
  }

  /** Past the tunnel's own index, or with no index of the range to avoid, no name of the pool is the tunnel's. */
  lemma PoolAvoidsTunnel(prefix: string, tunnel: string, start: int)
    requires ValidDevicePrefix(prefix) && start >= PROBE_DEVICE_RANGE_START
    requires var idx := ProbeIndex(tunnel, prefix);
             idx.Some? && start <= idx.value ==> idx.value > PROBE_DEVICE_RANGE_END
    ensures forall i | start <= i <= PROBE_DEVICE_RANGE_END :: DeviceName(prefix, i) != tunnel
  {
    forall i | start <= i <= PROBE_DEVICE_RANGE_END ensures DeviceName(prefix, i) != tunnel {
      PoolNameIndex(prefix, i);
    }
  }

  lemma SmallDecimal(i: nat)
    requires i < 1000
    ensures |Decimal(i)| <= 3
  {
    if i >= 100 {
      assert i / 10 >= 10 && i / 10 / 10 < 10;
      assert |Decimal(i / 10 / 10)| == 1;
    } else if i >= 10 {
      assert |Decimal(i / 10)| == 1;
    }
  }

  /** The room an accepted prefix leaves is enough: the kernel takes every name of the pool. */
  lemma PoolNamesAreValid(prefix: string, i: nat)
    requires ValidDevicePrefix(prefix) && i < 1000
    ensures ValidDeviceName(DeviceName(prefix, i))
  {
    SmallDecimal(i);
    var name, padded := DeviceName(prefix, i), prefix + "000";
    forall k | 0 <= k < |name| ensures !Forbidden(name[k]) {
      if k < |prefix| {
        assert name[k] == padded[k];
      } else {
        assert name[k] == Decimal(i)[k - |prefix|] && IsDigit(name[k]);
      }
    }
    assert IsDigit(name[|name| - 1]);
  }

  // ----- The allocator --------------------------------------------------------------

  /** What a grant hands out: a device name, and the memory of whether it was given back. */
  class Lease {
    const idx: int
    const device: string
    var released: bool

    constructor (idx: int, device: string)
      ensures this.idx == idx && this.device == device && !released
    {
      this.idx, this.device := idx, device;
      released := false;
    }
  }

  datatype Grant = Granted(lease: Lease) | SomePresent(occupied: nat, total: int) | AllInUse(total: int)

  /** Neither leased nor on the host. */
  predicate Free(prefix: string, held: set<int>, present: set<string>, i: int) {
    i !in held && DeviceName(prefix, i) !in present
  }

  /** The indices not leased whose names somebody else has. */
  function Occupied(prefix: string, held: set<int>, present: set<string>, start: int, end: int): set<int> {
    set i | start <= i < end && i !in held && DeviceName(prefix, i) in present
  }

  lemma NothingOccupied(prefix: string, held: set<int>, present: set<string>, start: int, end: int)
    requires forall i | start <= i <= end :: !Free(prefix, held, present, i)
    requires Occupied(prefix, held, present, start, end + 1) == {}
    ensures forall i | start <= i <= end :: i in held
  {
    forall i | start <= i <= end ensures i in held {
      assert !Free(prefix, held, present, i) && i !in Occupied(prefix, held, present, start, end + 1);
    }
  }

  class Allocator {
    const prefix: string
    const start: int
    const end: int
    var held: set<int>
    ghost var leases: set<Lease>

    constructor (prefix: string, start: int, end: int)
      requires start <= end
      ensures this.prefix == prefix && this.start == start && this.end == end && leases == {} && held == {} && Valid()
    {
      this.prefix, this.start, this.end := prefix, start, end;
      held, leases := {}, {};
    }

    /** The bookkeeping is exactly the indices of the leases not given back, each held by one lease. */
    ghost predicate Valid()
      reads this, leases
    {
      && start <= end
      && (forall l | l in leases :: start <= l.idx <= end && l.device == DeviceName(prefix, l.idx))
      && (forall l | l in leases && !l.released :: l.idx in held)
      && (forall i | i in held :: exists l :: l in leases && !l.released && l.idx == i)
      && (forall l, m | l in leases && m in leases && !l.released && !m.released && l.idx == m.idx :: l == m)
    }

    method Take(i: int, name: string) returns (lease: Lease)
      requires Valid() && start <= i <= end && i !in held && name == DeviceName(prefix, i)
      modifies this`held, this`leases
      ensures Valid() && fresh(lease) && !lease.released && lease.idx == i && lease.device == name
      ensures leases == old(leases) + {lease} && held == old(held) + {i}
    {
      held := held + {i};
      lease := new Lease(i, name);
      leases := leases + {lease};
    }

    /** Passes over the indices held, counts the names present, and stops at the first index free of both. */
    method Search(present: set<string>) returns (at: Option<int>, occupied: nat)
      requires start <= end
      ensures at.Some? ==> start <= at.value <= end && Free(prefix, held, present, at.value)
      ensures forall j | start <= j < (if at.Some? then at.value else end + 1) :: !Free(prefix, held, present, j)
      ensures at.None? ==> occupied == |Occupied(prefix, held, present, start, end + 1)|
    {
      occupied := 0;
      ghost var seen: set<int> := {};
      var i := start;
      while i <= end
        invariant start <= i <= end + 1
        invariant forall j | start <= j < i :: !Free(prefix, held, present, j)
        invariant seen == Occupied(prefix, held, present, start, i) && occupied == |seen|
        decreases end - i
      {
        if i !in held {
          var name := DeviceName(prefix, i);
          if name in present {
            assert Occupied(prefix, held, present, start, i + 1) == seen + {i};
            seen := seen + {i};
            occupied := occupied + 1;
          } else {
            return Some(i), occupied;
          }
        }
        i := i + 1;
      }
      at := None;
    }

    /**
     The lowest free index, or the reason there is none: every index is held or its name is present, and
     the message tells the two apart.
     */
    method Allocate(present: set<string>) returns (grant: Grant)
      requires Valid()
      modifies this`held, this`leases
      ensures Valid()
      ensures grant.Granted? <==> exists i :: start <= i <= end && Free(prefix, old(held), present, i)
      ensures grant.Granted? ==>
                && fresh(grant.lease) && !grant.lease.released
                && start <= grant.lease.idx <= end && Free(prefix, old(held), present, grant.lease.idx)
                && (forall i | start <= i < grant.lease.idx :: !Free(prefix, old(held), present, i))
                && grant.lease.device == DeviceName(prefix, grant.lease.idx) && grant.lease.device !in present
                && leases == old(leases) + {grant.lease} && held == old(held) + {grant.lease.idx}
      ensures !grant.Granted? ==> leases == old(leases) && held == old(held)
      ensures grant.SomePresent? ==> grant.occupied == |Occupied(prefix, held, present, start, end + 1)| > 0 && grant.total == end - start + 1
      ensures grant.AllInUse? ==> (forall i | start <= i <= end :: i in held) && grant.total == end - start + 1
    {
      var at, occupied := Search(present);
      if at.Some? {
        var lease := Take(at.value, DeviceName(prefix, at.value));
        return Granted(lease);
      }
      var total := end - start + 1;
      if occupied > 0 {
        return SomePresent(occupied, total);
      }
      NothingOccupied(prefix, held, present, start, end);
      return AllInUse(total);
    }

    /** Giving a lease back frees its index the first time, and does nothing after that. */
    method Release(lease: Lease)
      requires Valid() && lease in leases
      modifies this`held, lease
      ensures Valid() && lease.released && leases == old(leases)
      ensures held == if old(lease.released) then old(held) else old(held) - {lease.idx}
    {
      if !lease.released {
        lease.released := true;
        held := held - {lease.idx};
      }
    }

    /** Two leases not given back never name the same device. */
    lemma LeasesAreExclusive(l: Lease, m: Lease)
      requires Valid() && l in leases && m in leases && !l.released && !m.released
      ensures l.device == m.device <==> l == m
    {
      if l.device == m.device {
        DeviceNameInjective(prefix, l.idx, m.idx);
      }
    }
  }

  method NewTunAllocator(prefix: string, start: int, end: int) returns (a: Option<Allocator>)
    ensures a.Some? <==> ValidDevicePrefix(if prefix == "" then DEVICE_PREFIX else prefix) && start <= end
    ensures a.Some? ==>
              && fresh(a.value) && a.value.Valid() && a.value.leases == {} && a.value.held == {}
              && a.value.prefix == (if prefix == "" then DEVICE_PREFIX else prefix) && a.value.start == start && a.value.end == end
  {
    var p := if prefix == "" then DEVICE_PREFIX else prefix;
    if !ValidDevicePrefix(p) || start > end {
      return None;
    }
    var fresh_ := new Allocator(p, start, end);
    return Some(fresh_);
  }

  // ----- Runs -----------------------------------------------------------------------

  /** Releases name a grant by its place among the grants so far. */
  datatype Call = AllocateCall(present: set<string>) | ReleaseCall(nth: nat)

  /** A grant as the calls determine it: its index, the names the host had, and whether it was given back. */
  datatype Ticket = Ticket(idx: int, host: set<string>, released: bool)

  function HeldBy(tickets: seq<Ticket>): set<int> {
    set t | t in tickets && !t.released :: t.idx
  }

  function LowestFree(prefix: string, held: set<int>, present: set<string>, from: int, end: int): (r: Option<int>)
    ensures r.Some? ==> from <= r.value <= end && Free(prefix, held, present, r.value)
    ensures forall i | from <= i < (if r.Some? then r.value else end + 1) :: !Free(prefix, held, present, i)
    decreases end + 1 - from
  {
    if from > end then None
    else if Free(prefix, held, present, from) then Some(from)
    else LowestFree(prefix, held, present, from + 1, end)
  }

  function Served(prefix: string, start: int, end: int, tickets: seq<Ticket>, call: Call): seq<Ticket> {
    match call
    case AllocateCall(present) =>
      (match LowestFree(prefix, HeldBy(tickets), present, start, end)
       case Some(i) => tickets + [Ticket(i, present, false)]
       case None => tickets)
    case ReleaseCall(nth) =>
      if nth < |tickets| then tickets[nth := tickets[nth].(released := true)] else tickets
  }

  function ServedAll(prefix: string, start: int, end: int, calls: seq<Call>): seq<Ticket> {
    if calls == [] then []
    else Served(prefix, start, end, ServedAll(prefix, start, end, calls[..|calls| - 1]), calls[|calls| - 1])
  }

  /** Tickets not given back are of different indices. */
  predicate Exclusive(tickets: seq<Ticket>) {
    forall j, k | 0 <= j < k < |tickets| && !tickets[j].released && !tickets[k].released :: tickets[j].idx != tickets[k].idx
  }

  lemma NothingHeld()
    ensures HeldBy([]) == {}
  {
    forall i ensures i !in HeldBy([]) {
    }
  }

  lemma GrantHolds(tickets: seq<Ticket>, t: Ticket)
    requires !t.released
    ensures HeldBy(tickets + [t]) == HeldBy(tickets) + {t.idx}
  {
    assert forall u :: u in tickets + [t] <==> u in tickets || u == t;
  }

  lemma ReleaseFrees(tickets: seq<Ticket>, nth: nat)
    requires nth < |tickets| && Exclusive(tickets)
    ensures HeldBy(tickets[nth := tickets[nth].(released := true)])
            == if tickets[nth].released then HeldBy(tickets) else HeldBy(tickets) - {tickets[nth].idx}
  {
    var t, after := tickets[nth], tickets[nth := tickets[nth].(released := true)];
    if t.released {
      assert after == tickets;
    } else {
      forall i ensures i in HeldBy(after) <==> i in HeldBy(tickets) - {t.idx} {
        if i in HeldBy(after) {
          var k :| 0 <= k < |after| && !after[k].released && after[k].idx == i;
          assert after[k] == tickets[k] && tickets[k] in tickets;
        }
        if i in HeldBy(tickets) - {t.idx} {
          var k :| 0 <= k < |tickets| && !tickets[k].released && tickets[k].idx == i;
          assert after[k] == tickets[k] && after[k] in after;
        }
      }
    }
  }

  lemma GrantIsExclusive(tickets: seq<Ticket>, t: Ticket)
    requires Exclusive(tickets) && t.idx !in HeldBy(tickets)
    ensures Exclusive(tickets + [t])
  {
    forall j | 0 <= j < |tickets| && !tickets[j].released ensures tickets[j].idx != t.idx {
      assert tickets[j] in tickets;
    }
  }

  lemma GrantServes(prefix: string, start: int, end: int, tickets: seq<Ticket>, present: set<string>, i: int)
    requires Exclusive(tickets) && start <= i <= end && Free(prefix, HeldBy(tickets), present, i)
    requires forall j | start <= j < i :: !Free(prefix, HeldBy(tickets), present, j)
    ensures var t := Ticket(i, present, false);
            && Served(prefix, start, end, tickets, AllocateCall(present)) == tickets + [t]
            && HeldBy(tickets + [t]) == HeldBy(tickets) + {i} && Exclusive(tickets + [t])
  {
    GrantHolds(tickets, Ticket(i, present, false));
    GrantIsExclusive(tickets, Ticket(i, present, false));
    LowestIs(prefix, HeldBy(tickets), present, start, end, i);
  }

  lemma LowestIs(prefix: string, held: set<int>, present: set<string>, start: int, end: int, i: int)
    requires start <= i <= end && Free(prefix, held, present, i)
    requires forall j | start <= j < i :: !Free(prefix, held, present, j)
    ensures LowestFree(prefix, held, present, start, end) == Some(i)
  {
  }

  lemma ReleaseServes(prefix: string, start: int, end: int, tickets: seq<Ticket>, nth: nat)
    requires Exclusive(tickets) && nth < |tickets|
    ensures var t := tickets[nth];
            var after := tickets[nth := t.(released := true)];
            && Served(prefix, start, end, tickets, ReleaseCall(nth)) == after && Exclusive(after)
            && HeldBy(after) == (if t.released then HeldBy(tickets) else HeldBy(tickets) - {t.idx})
  {
    ReleaseFrees(tickets, nth);
  }

  /**
   Whatever the calls: the grants not given back are of different indices, each is of the pool, and its
   name was absent from the host when it was granted.
   */
  lemma {:induction false} GrantsAreSound(prefix: string, start: int, end: int, calls: seq<Call>)
    ensures Exclusive(ServedAll(prefix, start, end, calls))
    ensures forall t | t in ServedAll(prefix, start, end, calls) :: start <= t.idx <= end && DeviceName(prefix, t.idx) !in t.host
  {
    if calls != [] {
      var before, call := ServedAll(prefix, start, end, calls[..|calls| - 1]), calls[|calls| - 1];
      GrantsAreSound(prefix, start, end, calls[..|calls| - 1]);
      match call
      case AllocateCall(present) =>
        var i := LowestFree(prefix, HeldBy(before), present, start, end);
        if i.Some? {
          GrantIsExclusive(before, Ticket(i.value, present, false));
        }
      case ReleaseCall(nth) =>
        if nth < |before| {
          assert before[nth] in before;
        }
    }
  }

  /** The leases granted are the tickets, given back or not as they are. */
  ghost predicate Tells(prefix: string, granted: seq<Lease>, tickets: seq<Ticket>)
    reads granted
  {
    && |granted| == |tickets|
    && forall k | 0 <= k < |granted| ::
         granted[k].idx == tickets[k].idx && granted[k].released == tickets[k].released && granted[k].device == DeviceName(prefix, tickets[k].idx)
  }

  /** Each lease is told by one ticket. */
  ghost predicate Account(pool: Allocator, granted: seq<Lease>, tickets: seq<Ticket>)
    reads pool, granted
  {
    && Tells(pool.prefix, granted, tickets)
    && NoRepeats(granted)
    && pool.leases == (set l | l in granted)
    && pool.held == HeldBy(tickets)
  }

  /** What the pool grants is the lowest free index. */
  method Lowest(pool: Allocator, present: set<string>) returns (lease: Option<Lease>)
    requires pool.Valid()
    modifies pool
    ensures pool.Valid()
    ensures lease.Some? <==> LowestFree(pool.prefix, old(pool.held), present, pool.start, pool.end).Some?
    ensures lease.Some? ==>
              && fresh(lease.value) && !lease.value.released
              && Some(lease.value.idx) == LowestFree(pool.prefix, old(pool.held), present, pool.start, pool.end)
              && lease.value.device == DeviceName(pool.prefix, lease.value.idx)
              && pool.leases == old(pool.leases) + {lease.value} && pool.held == old(pool.held) + {lease.value.idx}
    ensures lease.None? ==> pool.leases == old(pool.leases) && pool.held == old(pool.held)
  {
    var grant := pool.Allocate(present);
    lease := if grant.Granted? then Some(grant.lease) else None;
  }

  method Grants(pool: Allocator, granted: seq<Lease>, present: set<string>, ghost tickets: seq<Ticket>) returns (now: seq<Lease>)
    requires pool.Valid() && Account(pool, granted, tickets) && Exclusive(tickets)
    modifies pool
    ensures pool.Valid() && fresh(pool.leases - old(pool.leases))
    ensures var after := Served(pool.prefix, pool.start, pool.end, tickets, AllocateCall(present));
            Account(pool, now, after) && Exclusive(after)
  {
    now := granted;
    var lease := Lowest(pool, present);
    if lease.Some? {
      GrantServes(pool.prefix, pool.start, pool.end, tickets, present, lease.value.idx);
      now := granted + [lease.value];
      assert Tells(pool.prefix, now, tickets + [Ticket(lease.value.idx, present, false)]);
    }
  }

  method Returns(pool: Allocator, granted: seq<Lease>, nth: nat, ghost tickets: seq<Ticket>)
    requires pool.Valid() && Account(pool, granted, tickets) && Exclusive(tickets)
    modifies pool, pool.leases
    ensures pool.Valid() && pool.leases == old(pool.leases)
    ensures var after := Served(pool.prefix, pool.start, pool.end, tickets, ReleaseCall(nth));
            Account(pool, granted, after) && Exclusive(after)
  {
    if nth < |granted| {
      assert granted[nth] in pool.leases;
      ReleaseServes(pool.prefix, pool.start, pool.end, tickets, nth);
      pool.Release(granted[nth]);
      assert Tells(pool.prefix, granted, tickets[nth := tickets[nth].(released := true)]);
    }
  }

  method Serve(pool: Allocator, calls: seq<Call>) returns (granted: seq<Lease>)
    requires pool.Valid() && pool.leases == {} && pool.held == {}
    modifies pool
    ensures pool.Valid() && fresh(pool.leases)
    ensures Account(pool, granted, ServedAll(pool.prefix, pool.start, pool.end, calls))
  {
    granted := [];
    ghost var tickets: seq<Ticket> := [];
    NothingHeld();
    for n := 0 to |calls|
      invariant pool.Valid() && fresh(pool.leases) && Account(pool, granted, tickets) && Exclusive(tickets)
      invariant tickets == ServedAll(pool.prefix, pool.start, pool.end, calls[..n])
    {
      assert calls[..n + 1][..n] == calls[..n];
      match calls[n] {
        case AllocateCall(present) => granted := Grants(pool, granted, present, tickets);
        case ReleaseCall(nth) => Returns(pool, granted, nth, tickets);
      }
      tickets := Served(pool.prefix, pool.start, pool.end, tickets, calls[n]);
    }
    assert calls[..|calls|] == calls;
  }

  /**
   From an accepted configuration, any sequence of allocations and releases, releases coming late, twice or
   of the same lease from several places, is served grant by grant as `ServedAll` says: the leases not
   given back name distinct devices, none is the active tunnel's, each was absent from the host when it
   was granted, and the kernel takes every name.
   */
  method AnyRun(config: Config, calls: seq<Call>) returns (error: Option<NamingError>, granted: seq<Lease>)
    modifies config
    ensures error == Refusal(Defaulted(old(config.Current())))
    ensures error.Some? ==> granted == []
    ensures error.None? ==> Tells(config.probeDevicePrefix, granted,
                                  ServedAll(config.probeDevicePrefix, config.testTunStart, config.testTunEnd, calls))
    ensures forall k | 0 <= k < |granted| :: granted[k].device != config.tunnelInterface && ValidDeviceName(granted[k].device)
    ensures forall k | 0 <= k < |granted| ::
              granted[k].device !in ServedAll(config.probeDevicePrefix, config.testTunStart, config.testTunEnd, calls)[k].host
    ensures forall j, k | 0 <= j < k < |granted| && !granted[j].released && !granted[k].released :: granted[j].device != granted[k].device
  {
    granted := [];
    error := config.FinalizeNaming();
    if error.Some? {
      return;
    }
    var made := NewTunAllocator(config.probeDevicePrefix, config.testTunStart, config.testTunEnd);
    var pool := made.value;
    granted := Serve(pool, calls);
    GrantsAreSound(pool.prefix, pool.start, pool.end, calls);
    forall k | 0 <= k < |granted|
      ensures granted[k].device != config.tunnelInterface && ValidDeviceName(granted[k].device)
    {
      assert granted[k] in pool.leases;
      PoolNamesAreValid(pool.prefix, granted[k].idx);
    }
    forall j, k | 0 <= j < k < |granted| && !granted[j].released && !granted[k].released
      ensures granted[j].device != granted[k].device
    {
      pool.LeasesAreExclusive(granted[j], granted[k]);
    }
  }
}
