/**
 The SOCKS5 handshake of RFC 1928 and RFC 1929: the gateway's side (internal/proxy/socks5.go) up to the
 dial and the reply, and the health checker's side (internal/netx/proxy_health.go).
 */
module Socks5 {
  import opened Wrappers

  const VERSION: byte := 0x05
  const AUTH_VERSION: byte := 0x01
  const AUTH_NONE: byte := 0x00
  const AUTH_USER_PASS: byte := 0x02
  const AUTH_NO_ACCEPT: byte := 0xFF
  const CMD_CONNECT: byte := 0x01
  const ATYP_IPV4: byte := 0x01
  const ATYP_DOMAIN: byte := 0x03
  const ATYP_IPV6: byte := 0x04
  const REP_SUCCESS: byte := 0x00
  const REP_GENERAL_FAIL: byte := 0x01
  const REP_REFUSED: byte := 0x05
  const REP_CMD_NOT_SUP: byte := 0x07

  // ----- Messages on the wire (sections 3, 4 and 5 of RFC 1928, section 2 of RFC 1929) ------------

  datatype Address = IPv4(ip: Bytes) | IPv6(ip: Bytes) | Domain(name: Bytes)

  predicate ValidAddress(a: Address) {
    match a
    case IPv4(ip) => |ip| == 4
    case IPv6(ip) => |ip| == 16
    case Domain(name) => |name| <= 255
  }

  function Counted(b: Bytes): Bytes
    requires |b| <= 255
  {
    [|b| as byte] + b
  }

  function Greeting(methods: Bytes): Bytes
    requires |methods| <= 255
  {
    [VERSION] + Counted(methods)
  }

  function AuthRequest(user: Bytes, pass: Bytes): Bytes
    requires |user| <= 255 && |pass| <= 255
  {
    [AUTH_VERSION] + Counted(user) + Counted(pass)
  }

  function AddressType(a: Address): byte {
    match a
    case IPv4(_) => ATYP_IPV4
    case IPv6(_) => ATYP_IPV6
    case Domain(_) => ATYP_DOMAIN
  }

  function AddressBody(a: Address): Bytes
    requires ValidAddress(a)
  {
    match a
    case Domain(name) => Counted(name)
    case _ => a.ip
  }

  function PortBytes(port: nat): Bytes
    requires port < 0x1_0000
  {
    [(port / 256) as byte, (port % 256) as byte]
  }

  function ConnectRequest(reserved: byte, a: Address, port: nat): Bytes
    requires ValidAddress(a) && port < 0x1_0000
  {
    [VERSION, CMD_CONNECT, reserved, AddressType(a)] + AddressBody(a) + PortBytes(port)
  }

  function Reply(rep: byte): Bytes {
    [VERSION, rep, 0, ATYP_IPV4, 0, 0, 0, 0, 0, 0]
  }

  // ----- Reading them ------------------------------------------------------------------

  /** What the bytes at hand hold: not all of a message, not a message, or one and its length. */
  datatype Read<T> = More | Bad | Got(value: T, used: nat)

  function ReadCounted(s: Bytes): (r: Read<Bytes>)
    ensures r.Got? ==> r.used <= |s|
  {
    if s == [] || |s| < 1 + s[0] as int then More
    else Got(s[1..1 + s[0] as int], 1 + s[0] as int)
  }

  function ReadGreeting(s: Bytes): (r: Read<Bytes>)
    ensures r.Got? ==> r.used <= |s|
  {
    if s == [] then More
    else if s[0] != VERSION then Bad
    else match ReadCounted(s[1..])
         case Got(methods, n) => Got(methods, 1 + n)
         case _ => More
  }

  function ReadAuth(s: Bytes): (r: Read<(Bytes, Bytes)>)
    ensures r.Got? ==> r.used <= |s|
  {
    if s == [] then More
    else if s[0] != AUTH_VERSION then Bad
    else match ReadCounted(s[1..])
         case Got(user, n) =>
           (match ReadCounted(s[1 + n..])
            case Got(pass, k) => Got((user, pass), 1 + n + k)
            case _ => More)
         case _ => More
  }

  function ReadAddress(kind: byte, s: Bytes): (r: Read<Address>)
    ensures r.Got? ==> r.used <= |s|
  {
    if kind == ATYP_IPV4 then if |s| < 4 then More else Got(IPv4(s[..4]), 4)
    else if kind == ATYP_IPV6 then if |s| < 16 then More else Got(IPv6(s[..16]), 16)
    else if kind == ATYP_DOMAIN then
      match ReadCounted(s)
      case Got(name, n) => Got(Domain(name), n)
      case _ => More
    else Bad
  }

  /** A request read to its end, or the point at which the server leaves off. */
  datatype Request = Incomplete | NotSocks | OtherCommand | AddressCut | AddressUnknown
                   | Connect(reserved: byte, address: Address, port: nat, used: nat)

  function ReadRequest(s: Bytes): (r: Request)
    ensures r.Connect? ==> r.used <= |s|
  {
    if |s| < 4 then Incomplete
    else if s[0] != VERSION then NotSocks
    else if s[1] != CMD_CONNECT then OtherCommand
    else match ReadAddress(s[3], s[4..])
         case Bad => AddressUnknown
         case More => AddressCut
         case Got(a, n) =>
           if |s| < 4 + n + 2 then Incomplete
           else Connect(s[2], a, s[4 + n] as int * 256 + s[4 + n + 1] as int, 4 + n + 2)
  }

  // ----- What was read is what was sent ---------------------------------------------------

  lemma CountedTells(s: Bytes)
    requires ReadCounted(s).Got?
    ensures var r := ReadCounted(s); |r.value| <= 255 && s[..r.used] == Counted(r.value)
  {
  }

  lemma GreetingTells(s: Bytes)
    requires ReadGreeting(s).Got?
    ensures var r := ReadGreeting(s); |r.value| <= 255 && s[..r.used] == Greeting(r.value)
  {
    CountedTells(s[1..]);
  }

  lemma AuthTells(s: Bytes)
    requires ReadAuth(s).Got?
    ensures var r := ReadAuth(s);
            |r.value.0| <= 255 && |r.value.1| <= 255 && s[..r.used] == AuthRequest(r.value.0, r.value.1)
  {
    CountedTells(s[1..]);
    var n := ReadCounted(s[1..]).used;
    CountedTells(s[1 + n..]);
    var k := ReadCounted(s[1 + n..]).used;
    assert s[1..][..n] == s[1..1 + n] && s[1 + n..][..k] == s[1 + n..1 + n + k];
    assert s[..1 + n + k] == [s[0]] + s[1..1 + n] + s[1 + n..1 + n + k];
  }

  lemma AddressTells(kind: byte, s: Bytes)
    requires ReadAddress(kind, s).Got?
    ensures var r := ReadAddress(kind, s);
            ValidAddress(r.value) && AddressType(r.value) == kind && s[..r.used] == AddressBody(r.value)
  {
    if kind == ATYP_DOMAIN {
      CountedTells(s);
    }
  }

  lemma RequestTells(s: Bytes)
    requires ReadRequest(s).Connect?
    ensures var r := ReadRequest(s);
            ValidAddress(r.address) && r.port < 0x1_0000 && s[..r.used] == ConnectRequest(r.reserved, r.address, r.port)
  {
    AddressTells(s[3], s[4..]);
    var n := ReadAddress(s[3], s[4..]).used;
    assert s[4..][..n] == s[4..4 + n];
    RequestOfPieces(s, n, ReadAddress(s[3], s[4..]).value, ReadRequest(s).port);
  }

  lemma RequestOfPieces(s: Bytes, n: nat, a: Address, port: nat)
    requires 4 + n + 2 <= |s| && ValidAddress(a) && s[4..4 + n] == AddressBody(a)
    requires s[0] == VERSION && s[1] == CMD_CONNECT && s[3] == AddressType(a)
    requires port == s[4 + n] as int * 256 + s[4 + n + 1] as int
    ensures port < 0x1_0000 && s[..4 + n + 2] == ConnectRequest(s[2], a, port)
  {
    assert s[..4 + n + 2] == s[..4] + s[4..4 + n] + s[4 + n..4 + n + 2];
    assert s[..4] == [VERSION, CMD_CONNECT, s[2], AddressType(a)];
    assert s[4 + n..4 + n + 2] == PortBytes(port);
  }

  // ----- What is sent is read back ---------------------------------------------------------

  lemma CountedReads(b: Bytes, s: Bytes)
    requires |b| <= 255 && Counted(b) <= s
    ensures ReadCounted(s) == Got(b, |Counted(b)|)
  {
    assert s[0] == Counted(b)[0] && s[..1 + |b|] == Counted(b);
    assert s[1..1 + |b|] == s[..1 + |b|][1..];
  }

  lemma GreetingReads(methods: Bytes, s: Bytes)
    requires |methods| <= 255 && Greeting(methods) <= s
    ensures ReadGreeting(s) == Got(methods, |Greeting(methods)|)
  {
    Cut([VERSION], Counted(methods), s);
    CountedReads(methods, s[1..]);
  }

  /** A prefix in two parts: the second is a prefix of what follows the first. */
  lemma Cut(a: Bytes, b: Bytes, s: Bytes)
    requires a + b <= s
    ensures a <= s && b <= s[|a|..]
  {
    assert s[..|a|] == (a + b)[..|a|];
    assert s[|a|..][..|b|] == s[..|a| + |b|][|a|..];
  }

  lemma AuthReads(user: Bytes, pass: Bytes, s: Bytes)
    requires |user| <= 255 && |pass| <= 255 && AuthRequest(user, pass) <= s
    ensures ReadAuth(s) == Got((user, pass), |AuthRequest(user, pass)|)
  {
    Cut([AUTH_VERSION] + Counted(user), Counted(pass), s);
    Cut([AUTH_VERSION], Counted(user), s);
    CountedReads(user, s[1..]);
    CountedReads(pass, s[1 + |Counted(user)|..]);
  }

  lemma AddressReads(a: Address, s: Bytes)
    requires ValidAddress(a) && AddressBody(a) <= s
    ensures ReadAddress(AddressType(a), s) == Got(a, |AddressBody(a)|)
  {
    if a.Domain? {
      CountedReads(a.name, s);
    } else {
      assert s[..|AddressBody(a)|] == AddressBody(a);
    }
  }

  lemma ConnectReads(reserved: byte, a: Address, port: nat, s: Bytes)
    requires ValidAddress(a) && port < 0x1_0000 && ConnectRequest(reserved, a, port) <= s
    ensures ReadRequest(s) == Connect(reserved, a, port, |ConnectRequest(reserved, a, port)|)
  {
    var head, body, tail := [VERSION, CMD_CONNECT, reserved, AddressType(a)], AddressBody(a), PortBytes(port);
    Cut(head + body, tail, s);
    Cut(head, body, s);
    AddressReads(a, s[4..]);
    assert s[..4] == head && s[4 + |body|..][0] == tail[0] && s[4 + |body|..][1] == tail[1];
  }

  // ----- The server's dialogue ------------------------------------------------------------

  datatype Target = Target(host: Bytes, port: nat)

  datatype DialResult = Connected | Refused | Failed

  /** What the gateway is configured with, and the parts of the system it asks. */
  datatype Server = Server(requireAuth: bool, authentic: (Bytes, Bytes) -> bool, render: Bytes -> Bytes, dial: Target -> DialResult)

  function Host(server: Server, a: Address): Bytes {
    match a
    case Domain(name) => name
    case _ => server.render(a.ip)
  }

  /** What the server wrote before any dial, the dial it made, and how much it had read by then. */
  datatype Dialogue = Dialogue(output: Bytes, target: Option<Target>, used: nat)

  function Selection(server: Server): Bytes {
    [VERSION, if server.requireAuth then AUTH_USER_PASS else AUTH_NONE]
  }

  /** What the server reads, as far as it can: `start` is where the request begins. */
  datatype Script = Script(greeting: Read<Bytes>, auth: Read<(Bytes, Bytes)>, request: Request, start: nat)

  function Parse(withAuth: bool, s: Bytes): (r: Script)
    ensures r.request.Connect? ==> r.start + r.request.used <= |s|
  {
    match ReadGreeting(s)
    case Got(methods, n) =>
      if !withAuth then Script(Got(methods, n), Got(([], []), 0), ReadRequest(s[n..]), n)
      else
        (match ReadAuth(s[n..])
         case Got(credentials, k) => Script(Got(methods, n), Got(credentials, k), ReadRequest(s[n + k..]), n + k)
         case other => Script(Got(methods, n), other, Incomplete, n))
    case other => Script(other, More, Incomplete, 0)
  }

  /** The request is answered. `ended` says the client has closed its side, so nothing more will come. */
  function DecideRequest(server: Server, ended: bool, request: Request, start: nat, output: Bytes): Dialogue {
    match request
    case Connect(_, a, port, n) => Dialogue(output, Some(Target(Host(server, a), port)), start + n)
    case OtherCommand => Dialogue(output + Reply(REP_CMD_NOT_SUP), None, 0)
    case AddressUnknown => Dialogue(output + Reply(REP_GENERAL_FAIL), None, 0)
    case AddressCut => Dialogue(if ended then output + Reply(REP_GENERAL_FAIL) else output, None, 0)
    case _ => Dialogue(output, None, 0)
  }

  /** `selects` says the answer to the greeting could be written. */
  function Decide(server: Server, ended: bool, selects: bool, script: Script): Dialogue {
    if !script.greeting.Got? then Dialogue([], None, 0)
    else if server.requireAuth && AUTH_USER_PASS !in script.greeting.value then Dialogue([VERSION, AUTH_NO_ACCEPT], None, 0)
    else if !selects then Dialogue([], None, 0)
    else if !server.requireAuth then DecideRequest(server, ended, script.request, script.start, Selection(server))
    else if !script.auth.Got? then Dialogue(Selection(server), None, 0)
    else if !server.authentic(script.auth.value.0, script.auth.value.1) then Dialogue(Selection(server) + [AUTH_VERSION, 1], None, 0)
    else DecideRequest(server, ended, script.request, script.start, Selection(server) + [AUTH_VERSION, 0])
  }

  function Serve(server: Server, ended: bool, selects: bool, s: Bytes): Dialogue {
    Decide(server, ended, selects, Parse(server.requireAuth, s))
  }

  function ReplyTo(r: DialResult): byte {
    match r
    case Connected => REP_SUCCESS
    case Refused => REP_REFUSED
    case Failed => REP_GENERAL_FAIL
  }

  /** The dialogue's output with the reply to its dial. */
  function Written(server: Server, d: Dialogue): Bytes {
    d.output + if d.target.Some? then Reply(ReplyTo(server.dial(d.target.value))) else []
  }

  /** Everything the server writes, the reply to the dial included. */
  function Output(server: Server, ended: bool, s: Bytes): Bytes {
    Written(server, Serve(server, ended, true, s))
  }

  /** What the server says, byte for byte: method 2 when it wants credentials and 0 else, and the replies 7, 1, 5 and 0. */
  ghost function Welcome(server: Server): Bytes {
    if server.requireAuth then [5, 2, 1, 0] else [5, 0]
  }

  /** A dial that was refused is told with 5, one that failed otherwise with 1, and one that succeeded with 0. */
  lemma DialIsTold(server: Server, d: Dialogue)
    ensures d.target == None ==> Written(server, d) == d.output
    ensures d.target.Some? ==>
              Written(server, d) == d.output + match server.dial(d.target.value) {
                case Connected => [5, 0, 0, 1, 0, 0, 0, 0, 0, 0]
                case Refused => [5, 5, 0, 1, 0, 0, 0, 0, 0, 0]
                case Failed => [5, 1, 0, 1, 0, 0, 0, 0, 0, 0]
              }
  {
  }

  lemma RequestIsTold(server: Server, request: Request, start: nat, output: Bytes)
    ensures var d := DecideRequest(server, true, request, start, output);
            && (request == OtherCommand ==> d.output == output + [5, 7, 0, 1, 0, 0, 0, 0, 0, 0])
            && (request == AddressUnknown || request == AddressCut ==> d.output == output + [5, 1, 0, 1, 0, 0, 0, 0, 0, 0])
            && (request.Connect? || request == Incomplete || request == NotSocks ==> d.output == output)
  {
  }

  ghost predicate Offers(server: Server, script: Script) {
    script.greeting.Got? && (server.requireAuth ==> 2 in script.greeting.value)
  }

  ghost predicate Accepts(server: Server, script: Script) {
    Offers(server, script) && (server.requireAuth ==>
      script.auth.Got? && server.authentic(script.auth.value.0, script.auth.value.1))
  }

  lemma WelcomeByByte(server: Server)
    ensures Welcome(server) == if server.requireAuth then Selection(server) + [AUTH_VERSION, 0] else Selection(server)
    ensures server.requireAuth ==> Selection(server) == [5, 2] && Selection(server) + [AUTH_VERSION, 1] == [5, 2, 1, 1]
  {
  }

  /** What a client that sends `s` and closes is told before any dial, case by case. */
  lemma ToldExactly(server: Server, s: Bytes)
    ensures var (script, output) := (Parse(server.requireAuth, s), Serve(server, true, true, s).output);
            && (!script.greeting.Got? ==> output == [])
            && (script.greeting.Got? && !Offers(server, script) ==> output == [5, 255])
            && (Offers(server, script) && !Accepts(server, script) ==> output == if script.auth.Got? then [5, 2, 1, 1] else [5, 2])
            && (Accepts(server, script) && script.request == OtherCommand ==>
                  output == Welcome(server) + [5, 7, 0, 1, 0, 0, 0, 0, 0, 0])
            && (Accepts(server, script) && (script.request == AddressUnknown || script.request == AddressCut) ==>
                  output == Welcome(server) + [5, 1, 0, 1, 0, 0, 0, 0, 0, 0])
            && (Accepts(server, script) && (script.request.Connect? || script.request == Incomplete || script.request == NotSocks) ==>
                  output == Welcome(server))
  {
    DecisionIsTold(server, Parse(server.requireAuth, s));
  }

  lemma DecisionIsTold(server: Server, script: Script)
    ensures var output := Decide(server, true, true, script).output;
            && (!script.greeting.Got? ==> output == [])
            && (script.greeting.Got? && !Offers(server, script) ==> output == [5, 255])
            && (Offers(server, script) && !Accepts(server, script) ==> output == if script.auth.Got? then [5, 2, 1, 1] else [5, 2])
            && (Accepts(server, script) ==> output == DecideRequest(server, true, script.request, script.start, Welcome(server)).output)
            && (Accepts(server, script) && script.request == OtherCommand ==>
                  output == Welcome(server) + [5, 7, 0, 1, 0, 0, 0, 0, 0, 0])
            && (Accepts(server, script) && (script.request == AddressUnknown || script.request == AddressCut) ==>
                  output == Welcome(server) + [5, 1, 0, 1, 0, 0, 0, 0, 0, 0])
            && (Accepts(server, script) && (script.request.Connect? || script.request == Incomplete || script.request == NotSocks) ==>
                  output == Welcome(server))
  {
    WelcomeByByte(server);
    RequestIsTold(server, script.request, script.start, Welcome(server));
  }

  // ----- When a dial happens ----------------------------------------------------------------

  /** All a client must have said before a connection is opened for it. */
  datatype Hello = Hello(methods: Bytes, user: Bytes, pass: Bytes, reserved: byte, address: Address, port: nat)

  predicate Sized(withAuth: bool, h: Hello) {
    && |h.methods| <= 255 && ValidAddress(h.address) && h.port < 0x1_0000
    && (if withAuth then |h.user| <= 255 && |h.pass| <= 255 else h.user == [] && h.pass == [])
  }

  function Wire(withAuth: bool, h: Hello): Bytes
    requires Sized(withAuth, h)
  {
    Greeting(h.methods) + (if withAuth then AuthRequest(h.user, h.pass) else []) + ConnectRequest(h.reserved, h.address, h.port)
  }

  predicate Allowed(server: Server, h: Hello) {
    server.requireAuth ==> AUTH_USER_PASS in h.methods && server.authentic(h.user, h.pass)
  }

  /**
   A hello byte for byte: versions 5 and 1, command 1, address types 1, 4
   and 3, lengths in a byte, the port high byte first.
   */
  lemma HelloByByte(withAuth: bool, h: Hello)
    requires Sized(withAuth, h)
    ensures Wire(withAuth, h)
            == [5, |h.methods| as byte] + h.methods
               + (if withAuth then [1, |h.user| as byte] + h.user + [|h.pass| as byte] + h.pass else [])
               + [5, 1, h.reserved]
               + (match h.address
                  case IPv4(ip) => [1] + ip
                  case IPv6(ip) => [4] + ip
                  case Domain(name) => [3, |name| as byte] + name)
               + [(h.port / 256) as byte, (h.port % 256) as byte]
  {
    GreetingByByte(h.methods);
    if withAuth {
      AuthByByte(h.user, h.pass);
    }
    RequestByByte(h.reserved, h.address, h.port);
    var greeting := [5 as byte, |h.methods| as byte] + h.methods;
    var auth := if withAuth then [1 as byte, |h.user| as byte] + h.user + [|h.pass| as byte] + h.pass else [];
    var address := match h.address
      case IPv4(ip) => [1 as byte] + ip
      case IPv6(ip) => [4 as byte] + ip
      case Domain(name) => [3 as byte, |name| as byte] + name;
    PiecesAssociate(greeting, auth, [5, 1, h.reserved], address, [(h.port / 256) as byte, (h.port % 256) as byte]);
  }

  lemma PiecesAssociate(a: Bytes, b: Bytes, c: Bytes, d: Bytes, e: Bytes)
    ensures a + b + (c + d + e) == a + b + c + d + e
  {
  }

  lemma GreetingByByte(methods: Bytes)
    requires |methods| <= 255
    ensures Greeting(methods) == [5, |methods| as byte] + methods
  {
  }

  lemma AuthByByte(user: Bytes, pass: Bytes)
    requires |user| <= 255 && |pass| <= 255
    ensures AuthRequest(user, pass) == [1, |user| as byte] + user + [|pass| as byte] + pass
  {
  }

  lemma RequestByByte(reserved: byte, a: Address, port: nat)
    requires ValidAddress(a) && port < 0x1_0000
    ensures ConnectRequest(reserved, a, port)
            == [5, 1, reserved]
               + (match a
                  case IPv4(ip) => [1] + ip
                  case IPv6(ip) => [4] + ip
                  case Domain(name) => [3, |name| as byte] + name)
               + [(port / 256) as byte, (port % 256) as byte]
  {
  }

  /** Where the messages of a hello lie in what begins with it. */
  lemma WireCuts(withAuth: bool, h: Hello, s: Bytes)
    requires Sized(withAuth, h) && Wire(withAuth, h) <= s
    ensures Greeting(h.methods) <= s
    ensures var n := |Greeting(h.methods)|;
            if withAuth then
              var k := |AuthRequest(h.user, h.pass)|;
              n + k <= |s| && AuthRequest(h.user, h.pass) <= s[n..] && ConnectRequest(h.reserved, h.address, h.port) <= s[n + k..]
            else ConnectRequest(h.reserved, h.address, h.port) <= s[n..]
  {
    var greeting, request := Greeting(h.methods), ConnectRequest(h.reserved, h.address, h.port);
    var auth := if withAuth then AuthRequest(h.user, h.pass) else [];
    Cut(greeting + auth, request, s);
    Cut(greeting, auth, s);
    assert greeting + [] == greeting;
  }

  /** A hello is parsed into what it says, and its length. */
  lemma ParseOfWire(withAuth: bool, h: Hello, s: Bytes)
    requires Sized(withAuth, h) && Wire(withAuth, h) <= s
    ensures var script := Parse(withAuth, s);
            && script.greeting.Got? && script.auth.Got? && script.request.Connect? && ToldBy(script) == h
            && script.start + script.request.used == |Wire(withAuth, h)|
  {
    var n := |Greeting(h.methods)|;
    if withAuth {
      var k := |AuthRequest(h.user, h.pass)|;
      WireCuts(true, h, s);
      GreetingReads(h.methods, s);
      AuthReads(h.user, h.pass, s[n..]);
      ConnectReads(h.reserved, h.address, h.port, s[n + k..]);
      ParseAuthenticated(s, h.methods, n, (h.user, h.pass), k);
    } else {
      WireCuts(false, h, s);
      GreetingReads(h.methods, s);
      ConnectReads(h.reserved, h.address, h.port, s[n..]);
      ParsePlain(s, h.methods, n);
    }
  }

  lemma ParseAuthenticated(s: Bytes, methods: Bytes, n: nat, credentials: (Bytes, Bytes), k: nat)
    requires ReadGreeting(s) == Got(methods, n) && ReadAuth(s[n..]) == Got(credentials, k)
    ensures Parse(true, s) == Script(Got(methods, n), Got(credentials, k), ReadRequest(s[n + k..]), n + k)
  {
  }

  lemma ParsePlain(s: Bytes, methods: Bytes, n: nat)
    requires ReadGreeting(s) == Got(methods, n)
    ensures Parse(false, s) == Script(Got(methods, n), Got(([], []), 0), ReadRequest(s[n..]), n)
  {
  }

  ghost function ToldBy(script: Script): Hello
    requires script.greeting.Got? && script.auth.Got? && script.request.Connect?
  {
    Hello(script.greeting.value, script.auth.value.0, script.auth.value.1,
          script.request.reserved, script.request.address, script.request.port)
  }

  lemma AuthTellsAt(s: Bytes, n: nat)
    requires n <= |s| && ReadAuth(s[n..]).Got?
    ensures var r := ReadAuth(s[n..]);
            |r.value.0| <= 255 && |r.value.1| <= 255 && s[n..n + r.used] == AuthRequest(r.value.0, r.value.1)
  {
    AuthTells(s[n..]);
    assert s[n..][..ReadAuth(s[n..]).used] == s[n..n + ReadAuth(s[n..]).used];
  }

  lemma RequestTellsAt(s: Bytes, n: nat)
    requires n <= |s| && ReadRequest(s[n..]).Connect?
    ensures var r := ReadRequest(s[n..]);
            ValidAddress(r.address) && r.port < 0x1_0000 && s[n..n + r.used] == ConnectRequest(r.reserved, r.address, r.port)
  {
    RequestTells(s[n..]);
    assert s[n..][..ReadRequest(s[n..]).used] == s[n..n + ReadRequest(s[n..]).used];
  }

  lemma WireOfPieces(withAuth: bool, h: Hello, s: Bytes, n: nat, m: nat, e: nat)
    requires Sized(withAuth, h) && n <= m <= e <= |s|
    requires s[..n] == Greeting(h.methods) && s[m..e] == ConnectRequest(h.reserved, h.address, h.port)
    requires if withAuth then s[n..m] == AuthRequest(h.user, h.pass) else n == m
    ensures Wire(withAuth, h) == s[..e]
  {
    assert s[..e] == s[..n] + s[n..m] + s[m..e];
  }

  lemma PlainTells(s: Bytes)
    requires var script := Parse(false, s); script.greeting.Got? && script.request.Connect?
    ensures var script := Parse(false, s);
            Sized(false, ToldBy(script)) && Wire(false, ToldBy(script)) == s[..script.start + script.request.used]
  {
    var script := Parse(false, s);
    GreetingTells(s);
    RequestTellsAt(s, script.start);
    WireOfPieces(false, ToldBy(script), s, script.start, script.start, script.start + script.request.used);
  }

  lemma PiecesTell(s: Bytes, n: nat, m: nat) returns (h: Hello)
    requires n <= m <= |s| && ReadGreeting(s).Got? && ReadGreeting(s).used == n
    requires ReadAuth(s[n..]).Got? && n + ReadAuth(s[n..]).used == m && ReadRequest(s[m..]).Connect?
    ensures var c, r := ReadAuth(s[n..]).value, ReadRequest(s[m..]);
            && h == Hello(ReadGreeting(s).value, c.0, c.1, r.reserved, r.address, r.port)
            && Sized(true, h) && Wire(true, h) == s[..m + r.used]
  {
    GreetingTells(s);
    AuthTellsAt(s, n);
    RequestTellsAt(s, m);
    var c, r := ReadAuth(s[n..]).value, ReadRequest(s[m..]);
    h := Hello(ReadGreeting(s).value, c.0, c.1, r.reserved, r.address, r.port);
    WireOfPieces(true, h, s, n, m, m + r.used);
  }

  lemma ParsedInSteps(s: Bytes) returns (n: nat, m: nat)
    requires var script := Parse(true, s); script.greeting.Got? && script.auth.Got? && script.request.Connect?
    ensures n <= m <= |s| && ReadGreeting(s).Got? && ReadGreeting(s).used == n
    ensures ReadAuth(s[n..]).Got? && n + ReadAuth(s[n..]).used == m && ReadRequest(s[m..]).Connect?
    ensures Parse(true, s) == Script(ReadGreeting(s), ReadAuth(s[n..]), ReadRequest(s[m..]), m)
  {
    n := ReadGreeting(s).used;
    m := n + ReadAuth(s[n..]).used;
  }

  lemma AuthenticatedTells(s: Bytes)
    requires var script := Parse(true, s); script.greeting.Got? && script.auth.Got? && script.request.Connect?
    ensures var script := Parse(true, s);
            Sized(true, ToldBy(script)) && Wire(true, ToldBy(script)) == s[..script.start + script.request.used]
  {
    var n, m := ParsedInSteps(s);
    var _ := PiecesTell(s, n, m);
  }

  /** What is parsed as a hello is one, byte for byte. */
  lemma WireOfParse(withAuth: bool, s: Bytes)
    requires var script := Parse(withAuth, s); script.greeting.Got? && script.auth.Got? && script.request.Connect?
    ensures var script := Parse(withAuth, s);
            Sized(withAuth, ToldBy(script)) && Wire(withAuth, ToldBy(script)) == s[..script.start + script.request.used]
  {
    if withAuth {
      AuthenticatedTells(s);
    } else {
      PlainTells(s);
    }
  }

  lemma DecideExactly(server: Server, ended: bool, selects: bool, script: Script)
    requires !server.requireAuth && script.greeting.Got? ==> script.auth.Got?
    ensures var d := Decide(server, ended, selects, script);
            && (d.target.Some? <==>
                  && selects && script.greeting.Got? && script.auth.Got? && script.request.Connect?
                  && (server.requireAuth ==> AUTH_USER_PASS in script.greeting.value
                                             && server.authentic(script.auth.value.0, script.auth.value.1)))
            && (d.target.Some? ==>
                  && d.target.value == Target(Host(server, script.request.address), script.request.port)
                  && d.used == script.start + script.request.used
                  && d.output == if server.requireAuth then Selection(server) + [AUTH_VERSION, 0] else Selection(server))
  {
  }

  /** A complete greeting, authentication and request is dialled, whatever follows it, and read exactly. */
  lemma HelloIsDialled(server: Server, ended: bool, h: Hello, s: Bytes)
    requires Sized(server.requireAuth, h) && Allowed(server, h) && Wire(server.requireAuth, h) <= s
    ensures var d := Serve(server, ended, true, s);
            && d.target == Some(Target(Host(server, h.address), h.port)) && d.used == |Wire(server.requireAuth, h)|
            && d.output == if server.requireAuth then Selection(server) + [AUTH_VERSION, 0] else Selection(server)
  {
    ParseOfWire(server.requireAuth, h, s);
    DecideExactly(server, ended, true, Parse(server.requireAuth, s));
  }

  /** And nothing else is: a dial tells what was read. */
  lemma DialTellsHello(server: Server, ended: bool, selects: bool, s: Bytes) returns (h: Hello)
    requires Serve(server, ended, selects, s).target.Some?
    ensures var d := Serve(server, ended, selects, s);
            && selects && Sized(server.requireAuth, h) && Allowed(server, h)
            && d.used <= |s| && Wire(server.requireAuth, h) == s[..d.used]
            && d.target == Some(Target(Host(server, h.address), h.port))
  {
    DecideExactly(server, ended, selects, Parse(server.requireAuth, s));
    WireOfParse(server.requireAuth, s);
    h := ToldBy(Parse(server.requireAuth, s));
  }

  /**
   On any bytes at all: the server dials exactly when they begin with a well-formed greeting, the
   authentication it requires, and a complete request; the target is the one requested.
   */
  lemma DialExactly(server: Server, ended: bool, s: Bytes, target: Target)
    ensures Serve(server, ended, true, s).target == Some(target) <==>
              exists h :: Sized(server.requireAuth, h) && Wire(server.requireAuth, h) <= s && Allowed(server, h)
                          && target == Target(Host(server, h.address), h.port)
  {
    if Serve(server, ended, true, s).target == Some(target) {
      var h := DialTellsHello(server, ended, true, s);
    }
    if h :| Sized(server.requireAuth, h) && Wire(server.requireAuth, h) <= s && Allowed(server, h)
            && target == Target(Host(server, h.address), h.port) {
      HelloIsDialled(server, ended, h, s);
    }
  }

  /** Two complete hellos never begin alike, so no byte short of the last one makes the server dial. */
  lemma NoDialBeforeTheEnd(server: Server, ended: bool, h: Hello, s: Bytes)
    requires Sized(server.requireAuth, h) && Allowed(server, h) && s < Wire(server.requireAuth, h)
    ensures Serve(server, ended, true, s).target == None
  {
    if Serve(server, ended, true, s).target.Some? {
      var early := DialTellsHello(server, ended, true, s);
      HelloIsDialled(server, ended, early, Wire(server.requireAuth, h));
      HelloIsDialled(server, ended, h, Wire(server.requireAuth, h));
    }
  }

  // ----- Answers are never taken back ---------------------------------------------------------

  lemma CountedGrows(s: Bytes, t: Bytes)
    requires s <= t
    ensures ReadCounted(s).Got? ==> ReadCounted(t) == ReadCounted(s)
  {
    if ReadCounted(s).Got? {
      var n := ReadCounted(s).used;
      assert s[0] == t[0] && s[1..n] == t[..|s|][1..n] == t[1..n];
    }
  }

  lemma GreetingGrows(s: Bytes, t: Bytes)
    requires s <= t
    ensures !ReadGreeting(s).More? ==> ReadGreeting(t) == ReadGreeting(s)
  {
    if s != [] {
      CountedGrows(s[1..], t[1..]);
    }
  }

  lemma AuthGrows(s: Bytes, t: Bytes)
    requires s <= t
    ensures !ReadAuth(s).More? ==> ReadAuth(t) == ReadAuth(s)
  {
    if s != [] {
      CountedGrows(s[1..], t[1..]);
      if ReadCounted(s[1..]).Got? {
        CountedGrows(s[1 + ReadCounted(s[1..]).used..], t[1 + ReadCounted(s[1..]).used..]);
      }
    }
  }

  lemma RequestGrows(s: Bytes, t: Bytes)
    requires s <= t
    ensures !ReadRequest(s).Incomplete? && !ReadRequest(s).AddressCut? ==> ReadRequest(t) == ReadRequest(s)
  {
    if |s| >= 4 {
      assert s[4..] <= t[4..];
      CountedGrows(s[4..], t[4..]);
      if ReadAddress(s[3], s[4..]).Got? {
        assert ReadAddress(s[3], t[4..]) == ReadAddress(s[3], s[4..]) by {
          assert s[4..][..ReadAddress(s[3], s[4..]).used] == t[4..][..ReadAddress(s[3], s[4..]).used];
        }
      }
    }
  }

  /** What is settled in one script is the same in the other. */
  ghost predicate Extends(a: Script, b: Script) {
    && (a.greeting.More? || a.greeting == b.greeting)
    && (a.greeting.Got? ==> a.auth.More? || a.auth == b.auth)
    && (a.greeting.Got? && a.auth.Got? ==>
          a.start == b.start && (a.request.Incomplete? || a.request.AddressCut? || a.request == b.request))
  }

  lemma PlainScriptGrows(s: Bytes, t: Bytes)
    requires s <= t
    ensures Extends(Parse(false, s), Parse(false, t))
  {
    GreetingGrows(s, t);
    if ReadGreeting(s).Got? {
      var n := ReadGreeting(s).used;
      ParsePlain(s, ReadGreeting(s).value, n);
      ParsePlain(t, ReadGreeting(s).value, n);
      RequestGrows(s[n..], t[n..]);
    }
  }

  lemma AuthenticatedScriptGrows(s: Bytes, t: Bytes)
    requires s <= t
    ensures Extends(Parse(true, s), Parse(true, t))
  {
    GreetingGrows(s, t);
    if ReadGreeting(s).Got? {
      var n := ReadGreeting(s).used;
      AuthGrows(s[n..], t[n..]);
      if ReadAuth(s[n..]).Got? {
        var k := ReadAuth(s[n..]).used;
        ParseAuthenticated(s, ReadGreeting(s).value, n, ReadAuth(s[n..]).value, k);
        ParseAuthenticated(t, ReadGreeting(s).value, n, ReadAuth(s[n..]).value, k);
        RequestGrows(s[n + k..], t[n + k..]);
      }
    }
  }

  lemma DecisionGrows(server: Server, a: Script, b: Script)
    requires Extends(a, b) && (!server.requireAuth && a.greeting.Got? ==> a.auth.Got?)
    ensures Written(server, Decide(server, false, true, a)) <= Written(server, Decide(server, false, true, b))
  {
  }

  /** What a server that waits for more has written stays written, whatever comes. */
  lemma OutputOnlyGrows(server: Server, s: Bytes, t: Bytes)
    requires s <= t
    ensures Output(server, false, s) <= Output(server, false, t)
  {
    if server.requireAuth {
      AuthenticatedScriptGrows(s, t);
    } else {
      PlainScriptGrows(s, t);
    }
    DecisionGrows(server, Parse(server.requireAuth, s), Parse(server.requireAuth, t));
  }

  // ----- The gateway's code ---------------------------------------------------------------

  /** A client's connection: all the bytes it sends before it closes, and what happens on the server's side. */
  class Conn {
    const input: Bytes
    var pos: nat
    var output: Bytes
    var dials: seq<Target>
    var relayed: bool

    constructor (input: Bytes)
      ensures this.input == input && pos == 0 && output == [] && dials == [] && !relayed
    {
      this.input := input;
      pos, output, dials, relayed := 0, [], [], false;
    }

    function Rest(): Bytes
      reads this
      requires pos <= |input|
    {
      input[pos..]
    }

    method ReadByte() returns (b: Option<byte>)
      requires pos <= |input|
      modifies this`pos
      ensures old(pos) <= pos <= |input| && (b.Some? <==> old(Rest()) != [])
      ensures b.Some? ==> b.value == old(Rest())[0] && pos == old(pos) + 1 && Rest() == old(Rest())[1..]
    {
      if pos == |input| {
        return None;
      }
      pos := pos + 1;
      return Some(input[pos - 1]);
    }

    method ReadFull(n: nat) returns (b: Option<Bytes>)
      requires pos <= |input|
      modifies this`pos
      ensures old(pos) <= pos <= |input| && (b.Some? <==> n <= |old(Rest())|)
      ensures b.Some? ==> b.value == old(Rest())[..n] && pos == old(pos) + n && Rest() == old(Rest())[n..]
    {
      if |input| - pos < n {
        pos := |input|;
        return None;
      }
      pos := pos + n;
      return Some(input[pos - n..pos]);
    }

    method Write(b: Bytes)
      modifies this`output
      ensures output == old(output) + b
    {
      output := output + b;
    }

    method Dial(server: Server, target: Target) returns (r: DialResult)
      modifies this`dials
      ensures r == server.dial(target) && dials == old(dials) + [target]
    {
      dials := dials + [target];
      r := server.dial(target);
    }
  }

  method ReadCountedField(conn: Conn) returns (b: Option<Bytes>)
    requires conn.pos <= |conn.input|
    modifies conn`pos
    ensures old(conn.pos) <= conn.pos <= |conn.input| && (b.Some? <==> ReadCounted(old(conn.Rest())).Got?)
    ensures b.Some? ==> ReadCounted(old(conn.Rest())) == Got(b.value, conn.pos - old(conn.pos))
  {
    var n := conn.ReadByte();
    if n.None? {
      return None;
    }
    ghost var s := conn.Rest();
    b := conn.ReadFull(n.value as nat);
    assert b.Some? ==> b.value == s[..n.value as int] == old(conn.Rest())[1..1 + n.value as int];
  }

  method ReceiveGreeting(conn: Conn) returns (methods: Option<Bytes>)
    requires conn.pos <= |conn.input|
    modifies conn`pos
    ensures old(conn.pos) <= conn.pos <= |conn.input| && (methods.Some? <==> ReadGreeting(old(conn.Rest())).Got?)
    ensures methods.Some? ==> ReadGreeting(old(conn.Rest())) == Got(methods.value, conn.pos - old(conn.pos))
  {
    var ver := conn.ReadByte();
    if ver.None? || ver.value != VERSION {
      return None;
    }
    methods := ReadCountedField(conn);
  }

  method ReceiveAuth(conn: Conn) returns (credentials: Option<(Bytes, Bytes)>)
    requires conn.pos <= |conn.input|
    modifies conn`pos
    ensures old(conn.pos) <= conn.pos <= |conn.input| && (credentials.Some? <==> ReadAuth(old(conn.Rest())).Got?)
    ensures credentials.Some? ==> ReadAuth(old(conn.Rest())) == Got(credentials.value, conn.pos - old(conn.pos))
  {
    ghost var s := conn.Rest();
    var ver := conn.ReadByte();
    if ver.None? || ver.value != AUTH_VERSION {
      return None;
    }
    ghost var at := conn.pos;
    var user := ReadCountedField(conn);
    if user.None? {
      return None;
    }
    assert conn.Rest() == s[1 + (conn.pos - at)..];
    var pass := ReadCountedField(conn);
    if pass.None? {
      return None;
    }
    credentials := Some((user.value, pass.value));
  }

  method ReadSocksAddr(conn: Conn, kind: byte) returns (r: Read<Address>)
    requires conn.pos <= |conn.input|
    modifies conn`pos
    ensures conn.pos <= |conn.input| && r == ReadAddress(kind, old(conn.Rest()))
    ensures r.Got? ==> r.used == conn.pos - old(conn.pos)
  {
    if kind == ATYP_IPV4 {
      var b := conn.ReadFull(4);
      return if b.Some? then Got(IPv4(b.value), 4) else More;
    } else if kind == ATYP_IPV6 {
      var b := conn.ReadFull(16);
      return if b.Some? then Got(IPv6(b.value), 16) else More;
    } else if kind == ATYP_DOMAIN {
      ghost var at := conn.pos;
      var b := ReadCountedField(conn);
      return if b.Some? then Got(Domain(b.value), 1 + |b.value|) else More;
    } else {
      return Bad;
    }
  }

  method ReceiveRequest(conn: Conn) returns (r: Request)
    requires conn.pos <= |conn.input|
    modifies conn`pos
    ensures conn.pos <= |conn.input| && r == ReadRequest(old(conn.Rest()))
    ensures r.Connect? ==> r.used == conn.pos - old(conn.pos)
  {
    ghost var s := conn.Rest();
    var header := conn.ReadFull(4);
    if header.None? {
      return Incomplete;
    }
    if header.value[0] != VERSION {
      return NotSocks;
    }
    if header.value[1] != CMD_CONNECT {
      return OtherCommand;
    }
    var address := ReadSocksAddr(conn, header.value[3]);
    if !address.Got? {
      return if address.Bad? then AddressUnknown else AddressCut;
    }
    assert conn.Rest() == s[4 + address.used..];
    var port := conn.ReadFull(2);
    if port.None? {
      return Incomplete;
    }
    return Connect(header.value[2], address.value, port.value[0] as int * 256 + port.value[1] as int, 4 + address.used + 2);
  }

  /** The sub-negotiation: the credentials are accepted, or refused, or never arrive. */
  method SocksAuth(conn: Conn, server: Server) returns (ok: bool)
    requires conn.pos <= |conn.input|
    modifies conn`pos, conn`output
    ensures old(conn.pos) <= conn.pos <= |conn.input|
    ensures var r := ReadAuth(old(conn.Rest()));
            && (ok <==> r.Got? && server.authentic(r.value.0, r.value.1))
            && (ok ==> conn.pos == old(conn.pos) + r.used)
            && conn.output == old(conn.output) + if !r.Got? then [] else [AUTH_VERSION, if ok then 0 else 1]
  {
    var credentials := ReceiveAuth(conn);
    if credentials.None? {
      return false;
    }
    ok := server.authentic(credentials.value.0, credentials.value.1);
    conn.Write([AUTH_VERSION, if ok then 0 else 1]);
  }

  /** The greeting and the method chosen for it; `selects` says whether the choice could be written. */
  method Greet(conn: Conn, server: Server, selects: bool) returns (ok: bool)
    requires conn.pos == 0 && conn.output == []
    modifies conn`pos, conn`output
    ensures conn.pos <= |conn.input|
    ensures var r := ReadGreeting(conn.input);
            && (ok <==> r.Got? && selects && (server.requireAuth ==> AUTH_USER_PASS in r.value))
            && (ok ==> conn.pos == r.used)
            && conn.output == if ok then Selection(server)
                              else if r.Got? && server.requireAuth && AUTH_USER_PASS !in r.value then [VERSION, AUTH_NO_ACCEPT]
                              else []
  {
    assert conn.Rest() == conn.input;
    var methods := ReceiveGreeting(conn);
    if methods.None? {
      return false;
    }
    if server.requireAuth && AUTH_USER_PASS !in methods.value {
      conn.Write([VERSION, AUTH_NO_ACCEPT]);
      return false;
    }
    if !selects {
      return false;
    }
    conn.Write(Selection(server));
    ok := true;
  }

  /** Up to the request, as the dialogue has it. */
  method Open(conn: Conn, server: Server, selects: bool) returns (ok: bool)
    requires conn.pos == 0 && conn.output == []
    modifies conn`pos, conn`output
    ensures conn.pos <= |conn.input|
    ensures Serve(server, true, selects, conn.input)
            == if ok then DecideRequest(server, true, ReadRequest(conn.Rest()), conn.pos, conn.output)
               else Dialogue(conn.output, None, 0)
  {
    ok := Greet(conn, server, selects);
    if !ok {
      ServeNotOpened(server, selects, conn.input);
      return;
    }
    ghost var n := conn.pos;
    if server.requireAuth {
      ok := SocksAuth(conn, server);
      ServeAuthenticating(server, conn.input, n);
    } else {
      ServePlain(server, conn.input, n);
    }
  }

  lemma ServeNotOpened(server: Server, selects: bool, s: Bytes)
    requires var r := ReadGreeting(s); !(r.Got? && selects && (server.requireAuth ==> AUTH_USER_PASS in r.value))
    ensures var r := ReadGreeting(s);
            Serve(server, true, selects, s)
            == Dialogue(if r.Got? && server.requireAuth && AUTH_USER_PASS !in r.value then [VERSION, AUTH_NO_ACCEPT] else [], None, 0)
  {
  }

  lemma ServePlain(server: Server, s: Bytes, n: nat)
    requires !server.requireAuth && ReadGreeting(s).Got? && ReadGreeting(s).used == n
    ensures Serve(server, true, true, s) == DecideRequest(server, true, ReadRequest(s[n..]), n, Selection(server))
  {
    ParsePlain(s, ReadGreeting(s).value, n);
  }

  lemma ServeAuthenticating(server: Server, s: Bytes, n: nat)
    requires server.requireAuth && ReadGreeting(s).Got? && ReadGreeting(s).used == n && AUTH_USER_PASS in ReadGreeting(s).value
    ensures var r := ReadAuth(s[n..]);
            Serve(server, true, true, s)
            == if !r.Got? then Dialogue(Selection(server), None, 0)
               else if !server.authentic(r.value.0, r.value.1) then Dialogue(Selection(server) + [AUTH_VERSION, 1], None, 0)
               else DecideRequest(server, true, ReadRequest(s[n + r.used..]), n + r.used, Selection(server) + [AUTH_VERSION, 0])
  {
    var r := ReadAuth(s[n..]);
    if r.Got? {
      ParseAuthenticated(s, ReadGreeting(s).value, n, r.value, r.used);
    }
  }

  method Answer(conn: Conn, server: Server, request: Request, replies: bool)
    requires conn.dials == [] && !conn.relayed
    modifies conn`output, conn`dials, conn`relayed
    ensures var d := DecideRequest(server, true, request, 0, old(conn.output)); Answered(conn, server, d, replies)
  {
    match request {
      case Connect(_, a, port, _) =>
        var result := conn.Dial(server, Target(Host(server, a), port));
        if result != Connected {
          conn.Write(Reply(ReplyTo(result)));
          return;
        }
        if !replies {
          return;
        }
        conn.Write(Reply(REP_SUCCESS));
        conn.relayed := true;
      case OtherCommand => conn.Write(Reply(REP_CMD_NOT_SUP));
      case AddressUnknown => conn.Write(Reply(REP_GENERAL_FAIL));
      case AddressCut => conn.Write(Reply(REP_GENERAL_FAIL));
      case _ =>
    }
  }

  /** What the connection shows once a dialogue is over. */
  ghost predicate Answered(conn: Conn, server: Server, d: Dialogue, replies: bool)
    reads conn
  {
    && conn.dials == (if d.target.Some? then [d.target.value] else [])
    && (conn.relayed <==> d.target.Some? && server.dial(d.target.value) == Connected && replies)
    && conn.output == d.output
         + if d.target.None? || (server.dial(d.target.value) == Connected && !replies) then []
           else Reply(ReplyTo(server.dial(d.target.value)))
  }

  /**
   The whole handshake. Nothing is dialled but the target of a complete hello, once; the reply tells how the
   dial went; and a connection is relayed only when the dial succeeded and the client could be told so.
   */
  method ServeSocks5(conn: Conn, server: Server, selects: bool, replies: bool)
    requires conn.pos == 0 && conn.output == [] && conn.dials == [] && !conn.relayed
    modifies conn
    ensures var d := Serve(server, true, selects, conn.input);
            Answered(conn, server, d, replies) && (d.target.Some? ==> conn.pos == d.used)
    ensures replies ==> conn.output == Written(server, Serve(server, true, selects, conn.input))
  {
    var ok := Open(conn, server, selects);
    if !ok {
      return;
    }
    var request := ReceiveRequest(conn);
    Answer(conn, server, request, replies);
  }
}
