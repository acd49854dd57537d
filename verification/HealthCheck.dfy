/**
 The health checker's side of the SOCKS5 handshake (internal/netx/proxy_health.go), and the two sides put
 together: the server it talks to is the gateway of module Socks5.
 */
module HealthCheck {
  import opened Wrappers
  import opened Socks5

  datatype Client = Client(username: Bytes, password: Bytes)

  predicate AuthEnabled(c: Client) { c.username != [] || c.password != [] }

  function Methods(c: Client): Bytes {
    if AuthEnabled(c) then [AUTH_NONE, AUTH_USER_PASS] else [AUTH_NONE]
  }

  const HTTP_PORT: nat := 80

  /** The length as it is written: one byte, whatever the length. */
  function LengthByte(b: Bytes): byte {
    (|b| % 256) as byte
  }

  function AuthMessage(c: Client): Bytes {
    [AUTH_VERSION, LengthByte(c.username)] + c.username + [LengthByte(c.password)] + c.password
  }

  function ConnectMessage(host: Bytes): Bytes {
    [VERSION, CMD_CONNECT, 0, ATYP_DOMAIN, LengthByte(host)] + host + [0, HTTP_PORT as byte]
  }

  predicate Short(c: Client) { |c.username| <= 255 && |c.password| <= 255 }

  lemma AuthMessageIsRequest(c: Client)
    requires Short(c)
    ensures AuthMessage(c) == AuthRequest(c.username, c.password)
  {
  }

  lemma ConnectMessageIsRequest(host: Bytes)
    requires |host| <= 255
    ensures ConnectMessage(host) == ConnectRequest(0, Domain(host), HTTP_PORT)
  {
    assert PortBytes(HTTP_PORT) == [0, HTTP_PORT as byte];
  }

  /** The server reads back the credentials sent exactly when both lengths fit their byte. */
  lemma CredentialsSurviveExactly(c: Client)
    ensures ReadAuth(AuthMessage(c)) == Got((c.username, c.password), |AuthMessage(c)|) <==> Short(c)
  {
    if Short(c) {
      AuthMessageIsRequest(c);
      AuthReads(c.username, c.password, AuthMessage(c));
    } else if ReadAuth(AuthMessage(c)).Got? {
      AuthTells(AuthMessage(c));
    }
  }

  lemma HostSurvivesExactly(host: Bytes)
    ensures ReadRequest(ConnectMessage(host)) == Connect(0, Domain(host), HTTP_PORT, |ConnectMessage(host)|) <==> |host| <= 255
  {
    if |host| <= 255 {
      ConnectMessageIsRequest(host);
      ConnectReads(0, Domain(host), HTTP_PORT, ConnectMessage(host));
    } else if ReadRequest(ConnectMessage(host)).Connect? {
      RequestTells(ConnectMessage(host));
    }
  }

  // ----- The checker's code ----------------------------------------------------------------

  /** A connection to a server that has answered `answers(s)` once it has read the bytes `s`. */
  class Peer {
    const answers: Bytes -> Bytes
    var sent: Bytes
    var read: nat

    constructor (answers: Bytes -> Bytes)
      ensures this.answers == answers && sent == [] && read == 0
    {
      this.answers := answers;
      sent, read := [], 0;
    }

    method Send(b: Bytes)
      modifies this`sent
      ensures sent == old(sent) + b
    {
      sent := sent + b;
    }

    /** None when the deadline passes before so much has come. */
    method ReadFull(n: nat) returns (b: Option<Bytes>)
      modifies this`read
      ensures b.Some? <==> old(read) + n <= |answers(sent)|
      ensures b.Some? ==> read == old(read) + n && b.value == answers(sent)[old(read)..old(read) + n]
    {
      if read + n > |answers(sent)| {
        return None;
      }
      read := read + n;
      return Some(answers(sent)[read - n..read]);
    }
  }

  /** How long an address and its port are, given its type and first byte; None for an unknown type. */
  function TailLength(kind: byte, first: Option<byte>): Option<nat> {
    if kind == ATYP_IPV4 then Some(4 + 2)
    else if kind == ATYP_IPV6 then Some(16 + 2)
    else if kind == ATYP_DOMAIN && first.Some? then Some(1 + first.value as nat + 2)
    else None
  }

  /** How much of the answers the reply takes from `at` on, when it is a complete one that reports success. */
  function ReplyEnd(answers: Bytes, at: nat): Option<nat> {
    if |answers| < at + 4 || answers[at + 1] != REP_SUCCESS then None
    else
      match TailLength(answers[at + 3], if |answers| > at + 4 then Some(answers[at + 4]) else None)
      case Some(n) => if |answers| < at + 4 + n then None else Some(at + 4 + n)
      case None => None
  }

  /** A handshake that succeeded: all that was sent, and how much of the answers was read. */
  datatype Session = Session(sent: Bytes, read: nat)

  function FinishHandshake(host: Bytes, answers: Bytes -> Bytes, sent: Bytes, at: nat): Option<Session> {
    match ReplyEnd(answers(sent + ConnectMessage(host)), at)
    case Some(end) => Some(Session(sent + ConnectMessage(host), end))
    case None => None
  }

  function Handshake(c: Client, host: Bytes, answers: Bytes -> Bytes): Option<Session> {
    var hello := Greeting(Methods(c));
    var choice := answers(hello);
    if |choice| < 2 || choice[0] != VERSION || choice[1] == AUTH_NO_ACCEPT then None
    else if choice[1] != AUTH_USER_PASS then FinishHandshake(host, answers, hello, 2)
    else
      var verdict := answers(hello + AuthMessage(c));
      if |verdict| < 4 || verdict[2] != AUTH_VERSION || verdict[3] != 0 then None
      else FinishHandshake(host, answers, hello + AuthMessage(c), 4)
  }

  /** Method 0, and method 2 beside it when there is a user name or a password. */
  ghost function Opening(c: Client): Bytes {
    if c.username == [] && c.password == [] then [5, 1, 0] else [5, 2, 0, 2]
  }

  /**
   What a checker that succeeds has said, byte for byte: the opening, its
   credentials if asked for them, and the host on port 80.
   */
  ghost predicate SaysExactly(c: Client, host: Bytes, answers: Bytes -> Bytes, sent: Bytes) {
    && |answers(Opening(c))| >= 2 && answers(Opening(c))[0] == 5 && answers(Opening(c))[1] != 255
    && sent == Opening(c)
               + (if answers(Opening(c))[1] == 2 then
                    [1, (|c.username| % 256) as byte] + c.username + [(|c.password| % 256) as byte] + c.password
                  else [])
               + ([5, 1, 0, 3, (|host| % 256) as byte] + host + [0, 80])
  }

  lemma OpeningIsGreeting(c: Client)
    ensures Greeting(Methods(c)) == Opening(c)
  {
  }

  lemma HandshakeSays(c: Client, host: Bytes, answers: Bytes -> Bytes)
    ensures Handshake(c, host, answers).Some? ==> SaysExactly(c, host, answers, Handshake(c, host, answers).value.sent)
  {
    OpeningIsGreeting(c);
    assert Greeting(Methods(c)) + [] == Greeting(Methods(c));
  }

  method ConsumeSocksAddr(peer: Peer, kind: byte) returns (ok: bool)
    modifies peer`read
    ensures var a, at := peer.answers(peer.sent), old(peer.read);
            var n := TailLength(kind, if |a| > at then Some(a[at]) else None);
            && (ok <==> n.Some? && at + n.value <= |a|)
            && (ok ==> peer.read == at + n.value)
  {
    var b;
    if kind == ATYP_IPV4 {
      b := peer.ReadFull(4 + 2);
    } else if kind == ATYP_IPV6 {
      b := peer.ReadFull(16 + 2);
    } else if kind == ATYP_DOMAIN {
      var length := peer.ReadFull(1);
      if length.None? {
        return false;
      }
      b := peer.ReadFull(length.value[0] as nat + 2);
    } else {
      return false;
    }
    ok := b.Some?;
  }

  method Authenticate(peer: Peer, c: Client) returns (ok: bool)
    modifies peer
    ensures peer.sent == old(peer.sent) + AuthMessage(c)
    ensures var a, at := peer.answers(peer.sent), old(peer.read);
            && (ok <==> at + 2 <= |a| && a[at] == AUTH_VERSION && a[at + 1] == 0)
            && (ok ==> peer.read == at + 2)
  {
    peer.Send([AUTH_VERSION, LengthByte(c.username)] + c.username + [LengthByte(c.password)] + c.password);
    var resp := peer.ReadFull(2);
    if resp.None? {
      return false;
    }
    ok := resp.value[0] == AUTH_VERSION && resp.value[1] == 0;
  }

  method RequestConnect(peer: Peer, host: Bytes) returns (ok: bool)
    modifies peer
    ensures ok <==> FinishHandshake(host, peer.answers, old(peer.sent), old(peer.read)).Some?
    ensures ok ==> FinishHandshake(host, peer.answers, old(peer.sent), old(peer.read)) == Some(Session(peer.sent, peer.read))
  {
    peer.Send([VERSION, CMD_CONNECT, 0, ATYP_DOMAIN, LengthByte(host)] + host + [0, HTTP_PORT as byte]);
    var reply := peer.ReadFull(4);
    if reply.None? || reply.value[1] != REP_SUCCESS {
      return false;
    }
    ok := ConsumeSocksAddr(peer, reply.value[3]);
  }

  /** The check up to the point where the request for a page may be sent. */
  method RequestIP(peer: Peer, c: Client, host: Bytes) returns (ok: bool)
    requires peer.sent == [] && peer.read == 0
    modifies peer
    ensures ok <==> Handshake(c, host, peer.answers).Some?
    ensures ok ==> Handshake(c, host, peer.answers) == Some(Session(peer.sent, peer.read))
    ensures ok ==> SaysExactly(c, host, peer.answers, peer.sent)
  {
    HandshakeSays(c, host, peer.answers);
    var methods := [AUTH_NONE];
    if AuthEnabled(c) {
      methods := [AUTH_NONE, AUTH_USER_PASS];
    }
    peer.Send([VERSION, |methods| as byte] + methods);
    assert peer.sent == Greeting(Methods(c));
    var sel := peer.ReadFull(2);
    if sel.None? || sel.value[0] != VERSION || sel.value[1] == AUTH_NO_ACCEPT {
      return false;
    }
    if sel.value[1] == AUTH_USER_PASS {
      var accepted := Authenticate(peer, c);
      if !accepted {
        return false;
      }
    }
    ok := RequestConnect(peer, host);
  }

  // ----- The two sides together ----------------------------------------------------------------

  lemma NothingToRead()
    ensures ReadAuth([]) == More && ReadRequest([]) == Incomplete
  {
  }

  lemma AfterGreeting(server: Server, methods: Bytes)
    requires |methods| <= 255
    ensures Output(server, false, Greeting(methods))
            == if server.requireAuth && AUTH_USER_PASS !in methods then [VERSION, AUTH_NO_ACCEPT] else Selection(server)
  {
    var s := Greeting(methods);
    GreetingReads(methods, s);
    assert s[|s|..] == [];
    NothingToRead();
  }

  lemma AfterAuth(server: Server, methods: Bytes, c: Client)
    requires |methods| <= 255 && Short(c) && server.requireAuth && AUTH_USER_PASS in methods
    ensures Output(server, false, Greeting(methods) + AuthMessage(c))
            == Selection(server) + [AUTH_VERSION, if server.authentic(c.username, c.password) then 0 else 1]
  {
    AuthMessageIsRequest(c);
    var greeting, auth := Greeting(methods), AuthRequest(c.username, c.password);
    var s := greeting + auth;
    GreetingReads(methods, s);
    assert s[|greeting|..] == auth && s[|s|..] == [];
    AuthReads(c.username, c.password, auth);
    ParseAuthenticated(s, methods, |greeting|, (c.username, c.password), |auth|);
    NothingToRead();
  }

  lemma AfterRequest(server: Server, h: Hello)
    requires Sized(server.requireAuth, h) && Allowed(server, h)
    ensures var target := Target(Host(server, h.address), h.port);
            Output(server, false, Wire(server.requireAuth, h))
            == (if server.requireAuth then Selection(server) + [AUTH_VERSION, 0] else Selection(server))
               + Reply(ReplyTo(server.dial(target)))
  {
    HelloIsDialled(server, false, h, Wire(server.requireAuth, h));
  }

  /** What the checker says to this server when nothing goes wrong. */
  function HelloTo(server: Server, c: Client, host: Bytes): Hello {
    if server.requireAuth then Hello(Methods(c), c.username, c.password, 0, Domain(host), HTTP_PORT)
    else Hello(Methods(c), [], [], 0, Domain(host), HTTP_PORT)
  }

  ghost predicate AnswersOf(server: Server, answers: Bytes -> Bytes) {
    forall s :: answers(s) == Output(server, false, s)
  }

  /** The last leg: the reply to the dial is read to its last byte, and accepted exactly when it reports success. */
  lemma ReplyIsReadExactly(before: Bytes, r: DialResult)
    ensures ReplyEnd(before + Reply(ReplyTo(r)), |before|)
            == if r == Connected then Some(|before + Reply(ReplyTo(r))|) else None
  {
    var a, at := before + Reply(ReplyTo(r)), |before|;
    assert a[at + 1] == ReplyTo(r) && a[at + 3] == ATYP_IPV4;
  }

  lemma LastLeg(server: Server, c: Client, host: Bytes, answers: Bytes -> Bytes, sent: Bytes, at: nat)
    requires AnswersOf(server, answers) && |host| <= 255 && Short(c) && Allowed(server, HelloTo(server, c, host))
    requires sent == Greeting(Methods(c)) + if server.requireAuth then AuthMessage(c) else []
    requires at == if server.requireAuth then 4 else 2
    ensures var wire := Wire(server.requireAuth, HelloTo(server, c, host));
            FinishHandshake(host, answers, sent, at)
            == if server.dial(Target(host, HTTP_PORT)) == Connected then Some(Session(wire, |answers(wire)|)) else None
  {
    var h := HelloTo(server, c, host);
    AuthMessageIsRequest(c);
    ConnectMessageIsRequest(host);
    assert sent + ConnectMessage(host) == Wire(server.requireAuth, h);
    AfterRequest(server, h);
    var before := if server.requireAuth then Selection(server) + [AUTH_VERSION, 0] else Selection(server);
    ReplyIsReadExactly(before, server.dial(Target(host, HTTP_PORT)));
  }

  /** A handshake that ends in what the server's dialogue says of it. */
  ghost predicate Agreed(server: Server, host: Bytes, answers: Bytes -> Bytes, session: Session) {
    var d := Serve(server, false, true, session.sent);
    && d.target == Some(Target(host, HTTP_PORT)) && d.used == |session.sent|
    && session.read == |answers(session.sent)|
  }

  lemma OpenHandshake(server: Server, c: Client, host: Bytes, answers: Bytes -> Bytes)
    requires AnswersOf(server, answers) && Short(c) && |host| <= 255 && !server.requireAuth
    ensures Handshake(c, host, answers).Some? <==> server.dial(Target(host, HTTP_PORT)) == Connected
    ensures Handshake(c, host, answers).Some? ==> Agreed(server, host, answers, Handshake(c, host, answers).value)
  {
    var hello := Greeting(Methods(c));
    AfterGreeting(server, Methods(c));
    assert hello + [] == hello;
    LastLeg(server, c, host, answers, hello, 2);
    HelloIsDialled(server, false, HelloTo(server, c, host), Wire(false, HelloTo(server, c, host)));
  }

  lemma AuthenticatedHandshake(server: Server, c: Client, host: Bytes, answers: Bytes -> Bytes)
    requires AnswersOf(server, answers) && Short(c) && |host| <= 255 && server.requireAuth
    requires AuthEnabled(c) && server.authentic(c.username, c.password)
    ensures Handshake(c, host, answers).Some? <==> server.dial(Target(host, HTTP_PORT)) == Connected
    ensures Handshake(c, host, answers).Some? ==> Agreed(server, host, answers, Handshake(c, host, answers).value)
  {
    var hello := Greeting(Methods(c));
    AfterGreeting(server, Methods(c));
    AfterAuth(server, Methods(c), c);
    LastLeg(server, c, host, answers, hello + AuthMessage(c), 4);
    HelloIsDialled(server, false, HelloTo(server, c, host), Wire(true, HelloTo(server, c, host)));
  }

  lemma RefusedHandshake(server: Server, c: Client, host: Bytes, answers: Bytes -> Bytes)
    requires AnswersOf(server, answers) && Short(c) && |host| <= 255 && server.requireAuth
    requires !(AuthEnabled(c) && server.authentic(c.username, c.password))
    ensures Handshake(c, host, answers).None?
  {
    AfterGreeting(server, Methods(c));
    if AuthEnabled(c) {
      AfterAuth(server, Methods(c), c);
    }
  }

  /**
   Round trip. With credentials and host that fit their length bytes, the check connects exactly when the
   server accepts the credentials it requires and the dial succeeds. Then the server has read exactly the
   bytes sent and dialled exactly the host and port asked for, and the checker has read exactly its answers.
   */
  lemma HandshakeSucceedsExactly(server: Server, c: Client, host: Bytes, answers: Bytes -> Bytes)
    requires AnswersOf(server, answers) && Short(c) && |host| <= 255
    ensures Handshake(c, host, answers).Some? <==>
              && (server.requireAuth ==> (c.username != [] || c.password != []) && server.authentic(c.username, c.password))
              && server.dial(Target(host, HTTP_PORT)) == Connected
    ensures Handshake(c, host, answers).Some? ==> Agreed(server, host, answers, Handshake(c, host, answers).value)
  {
    if !server.requireAuth {
      OpenHandshake(server, c, host, answers);
    } else if AuthEnabled(c) && server.authentic(c.username, c.password) {
      AuthenticatedHandshake(server, c, host, answers);
    } else {
      RefusedHandshake(server, c, host, answers);
    }
  }
}
