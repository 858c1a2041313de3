/**
  The repository's SOCKS5 client talking to its socks5-type proxy port over two byte
  pipes, in every interleaving and every segmentation of the bytes.
 */
module Socks5Session {
  import opened Bytes
  import opened Socks5Codec
  import opened Socks5Endpoints

  /** Bytes on their way, and bytes that have arrived but are not read. */
  datatype Pipe = Pipe(wire: Data, inbox: Data) {
    function Pending(): Data {
      inbox + wire
    }
  }

  /**
    `sent`, `relayed`, `answered` and `received` are history: what the client's user wrote
    after connecting, what the server forwarded to the target, what the target sent
    back, and what the client's user read.
   */
  datatype Session = Session(
    client: ClientPhase,
    server: ServerPhase,
    up: Pipe,
    down: Pipe,
    dialled: seq<Socksaddr>,
    sent: Data,
    relayed: Data,
    answered: Data,
    received: Data)

  datatype Setup = Setup(client: Client, server: Server)

  datatype Step =
    | ClientBegins
    | ClientReads                  // a complete reply has arrived
    | ClientEnds                   // the server closed before the reply was complete
    | ServerReads                  // a complete message has arrived
    | ServerEnds                   // the client closed before the message was complete
    | DeliverUp(n: nat)            // the network moves n bytes
    | DeliverDown(n: nat)
    | UserSends(data: Data)
    | UserReceives(n: nat)
    | RelaysUp(n: nat)             // the relay forwards n bytes to the target
    | TargetSends(data: Data)      // the relay writes what the target sent

  function Start(): Session {
    Session(Begin, AwaitGreeting, Pipe([], []), Pipe([], []), [], [], [], [], [])
  }

  // ---------------------------------------------------------------- one message at the server

  /** What the server does with the bytes that have arrived: it waits while the message is incomplete. */
  datatype ServerTurn = Waits | Turns(out: Data, next: ServerPhase, rest: Data, target: seq<Socksaddr>)

  function ServerTurnOf(server: Server, phase: ServerPhase, input: Data): ServerTurn {
    match phase
    case AwaitGreeting => (
      match ParseGreeting(input)
      case Done(methods, rest) =>
        var r := OnGreeting(server, methods);
        Turns(r.out, r.next, rest, [])
      case More => Waits
      case Bad => Turns([], Closed, [], []))
    case AwaitAuth => (
      match ParseAuth(input)
      case Done(given, rest) =>
        var r := OnAuth(server, given);
        Turns(r.out, r.next, rest, [])
      case More => Waits
      case Bad => Turns([0x01, 0x01], Closed, [], []))
    case AwaitRequest => (
      match ParseRequest(input)
      case Done(target, rest) =>
        var r := OnRequest(server, target);
        Turns(r.out, r.next, rest, [target])
      case More => Waits
      case Bad => Turns(Reply(0x01), Closed, [], []))
    case Relaying => Waits
    case Closed => Waits
  }

  /** What the server still writes when the stream ends inside a message. */
  function LastWords(phase: ServerPhase, input: Data): Data {
    match phase
    case AwaitAuth => if |input| == 0 then [0x01, 0x01] else []
    case AwaitRequest => Reply(0x01)
    case _ => []
  }

  function ServerRank(phase: ServerPhase): nat {
    match phase
    case AwaitGreeting => 3
    case AwaitAuth => 2
    case AwaitRequest => 1
    case _ => 0
  }

  /** The server's turns one after the other on a stream that ends. */
  function Drive(server: Server, phase: ServerPhase, input: Data): Served
    decreases ServerRank(phase)
  {
    match ServerTurnOf(server, phase, input)
    case Waits => Served(LastWords(phase, input), if phase.Relaying? then Relaying else Closed, [], input)
    case Turns(out, next, rest, target) =>
      var more := Drive(server, next, rest);
      more.(out := out + more.out, dialled := target + more.dialled)
  }

  /** The procedure handleSocks5 does what the turns of the session do. */
  lemma ProcedureIsTurns(server: Server, input: Data)
    ensures var served, turns := Serve(server, input), Drive(server, AwaitGreeting, input);
      && served.out == turns.out && served.phase == turns.phase && served.dialled == turns.dialled
      && (served.phase.Relaying? ==> served.rest == turns.rest)
  {
    match ParseGreeting(input)
    case Done(methods, rest) =>
      var r := OnGreeting(server, methods);
      if r.next.AwaitAuth? {
        match ParseAuth(rest) {
          case Done(given, request) =>
            RequestIsTurn(server, request);
            var auth := OnAuth(server, given);
            assert r.out + (auth.out + Drive(server, auth.next, request).out)
                == (r.out + auth.out) + Drive(server, auth.next, request).out;
          case _ =>
        }
      } else {
        RequestIsTurn(server, rest);
      }
    case _ =>
  }

  lemma RequestIsTurn(server: Server, input: Data)
    ensures var served, turns := ServeRequest(server, input), Drive(server, AwaitRequest, input);
      && served.out == turns.out && served.phase == turns.phase && served.dialled == turns.dialled
      && (served.phase.Relaying? ==> served.rest == turns.rest)
  {
    match ParseRequest(input)
    case Done(target, rest) =>
      var r := OnRequest(server, target);
      assert r.out + [] == r.out;
    case _ =>
  }

  // ---------------------------------------------------------------- one message at the client

  datatype ClientTurn = Holds | Goes(out: Data, next: ClientPhase, rest: Data)

  function ClientTurnOf(client: Client, phase: ClientPhase, input: Data): ClientTurn
    requires client.destination.Valid()
  {
    match phase
    case AwaitMethod =>
      if |input| < 2 then Holds
      else
        var r := OnMethod(client, input[..2]);
        Goes(r.out, r.next, input[2..])
    case AwaitAuthReply =>
      if |input| < 2 then Holds
      else
        var r := OnAuthReply(client, input[..2]);
        Goes(r.out, r.next, input[2..])
    case AwaitReply => (
      match ParseReply(input)
      case Done(_, rest) => Goes([], Connected, rest)
      case More => Holds
      case Bad => Goes([], Failed, input))
    case _ => Holds
  }

  function ClientRank(phase: ClientPhase): nat {
    match phase
    case Begin => 4
    case AwaitMethod => 3
    case AwaitAuthReply => 2
    case AwaitReply => 1
    case _ => 0
  }

  /** What a client wrote after its greeting, how it ended and what it left unread, when its input ends. */
  datatype Dialled = Dialled(out: Data, connected: bool, rest: Data)

  /** The client's turns one after the other on a stream that ends. */
  function DriveClient(client: Client, phase: ClientPhase, input: Data): Dialled
    requires client.destination.Valid()
    decreases ClientRank(phase)
  {
    match ClientTurnOf(client, phase, input)
    case Holds => Dialled([], phase.Connected?, input)
    case Goes(out, next, rest) =>
      var more := DriveClient(client, next, rest);
      more.(out := out + more.out)
  }

  /** The two procedures one after the other, as a dial calls them, do what the client's turns do. */
  method DialSocks5(client: Client, conn: Conn, reader: Reader) returns (ok: bool)
    requires client.destination.Valid()
    modifies conn, reader
    ensures var turns := DriveClient(client, AwaitMethod, old(reader.buf));
      && ok == turns.connected
      && conn.written == old(conn.written) + Greeting(client) + turns.out
      && (ok ==> reader.buf == turns.rest)
  {
    hide ParseReply, Greeting;
    ghost var input := reader.buf;
    DriveMethod(client, input);
    ok := Negotiate(client, conn, reader);
    if !ok {
      return;
    }
    DriveReply(client, reader.buf);
    var bound;
    ok, bound := SendRequest(client, conn, reader);
  }

  lemma DriveReply(client: Client, input: Data)
    requires client.destination.Valid()
    ensures var turns := DriveClient(client, AwaitReply, input);
      turns.out == [] && turns.connected == ParseReply(input).Done? && (turns.connected ==> turns.rest == ParseReply(input).rest)
  {
    hide ParseReply;
  }

  lemma DriveMethod(client: Client, input: Data)
    requires client.destination.Valid()
    ensures var turns := DriveClient(client, AwaitMethod, input);
      && (|input| < 2 ==> turns.out == [] && !turns.connected)
      && (|input| >= 2 ==>
            var r := OnMethod(client, input[..2]);
            match r.next
            case AwaitReply =>
              var reply := DriveClient(client, AwaitReply, input[2..]);
              turns == reply.(out := Request(client) + reply.out)
            case AwaitAuthReply => (
              if |input| >= 4 && OnAuthReply(client, input[2..4]).next.AwaitReply? then
                var reply := DriveClient(client, AwaitReply, input[4..]);
                turns == reply.(out := AuthMessage(client) + (Request(client) + reply.out))
              else turns.out == AuthMessage(client) && !turns.connected)
            case _ => turns.out == [] && !turns.connected)
  {
    hide ParseReply;
    if |input| >= 4 {
      assert input[2..][..2] == input[2..4] && input[2..][2..] == input[4..];
    }
  }

  predicate ClientWaiting(phase: ClientPhase) {
    phase.AwaitMethod? || phase.AwaitAuthReply? || phase.AwaitReply?
  }

  predicate ServerWaiting(phase: ServerPhase) {
    phase.AwaitGreeting? || phase.AwaitAuth? || phase.AwaitRequest?
  }

  // ---------------------------------------------------------------- steps

  predicate Enabled(u: Setup, s: Session, step: Step)
    requires u.client.destination.Valid()
  {
    match step
    case ClientBegins => s.client.Begin?
    case ClientReads => ClientWaiting(s.client) && ClientTurnOf(u.client, s.client, s.down.inbox).Goes?
    case ClientEnds =>
      ClientWaiting(s.client) && s.server.Closed? && s.down.wire == [] &&
      ClientTurnOf(u.client, s.client, s.down.inbox).Holds?
    case ServerReads => ServerWaiting(s.server) && ServerTurnOf(u.server, s.server, s.up.inbox).Turns?
    case ServerEnds =>
      ServerWaiting(s.server) && s.client.Failed? && s.up.wire == [] &&
      ServerTurnOf(u.server, s.server, s.up.inbox).Waits?
    case DeliverUp(n) => 0 < n <= |s.up.wire|
    case DeliverDown(n) => 0 < n <= |s.down.wire|
    case UserSends(_) => s.client.Connected?
    case UserReceives(n) => s.client.Connected? && 0 < n <= |s.down.inbox|
    case RelaysUp(n) => s.server.Relaying? && 0 < n <= |s.up.inbox|
    case TargetSends(_) => s.server.Relaying?
  }

  function Put(p: Pipe, data: Data): Pipe {
    p.(wire := p.wire + data)
  }

  function Deliver(p: Pipe, n: nat): Pipe
    requires n <= |p.wire|
  {
    Pipe(p.wire[n..], p.inbox + p.wire[..n])
  }

  function Apply(u: Setup, s: Session, step: Step): Session
    requires u.client.destination.Valid() && Enabled(u, s, step)
  {
    match step
    case ClientBegins => s.(client := AwaitMethod, up := Put(s.up, Greeting(u.client)))
    case ClientReads =>
      var t := ClientTurnOf(u.client, s.client, s.down.inbox);
      s.(client := t.next, up := Put(s.up, t.out), down := s.down.(inbox := t.rest))
    case ClientEnds => s.(client := Failed)
    case ServerReads =>
      var t := ServerTurnOf(u.server, s.server, s.up.inbox);
      s.(server := t.next, down := Put(s.down, t.out), up := s.up.(inbox := t.rest), dialled := s.dialled + t.target)
    case ServerEnds => s.(server := Closed, down := Put(s.down, LastWords(s.server, s.up.inbox)))
    case DeliverUp(n) => s.(up := Deliver(s.up, n))
    case DeliverDown(n) => s.(down := Deliver(s.down, n))
    case UserSends(data) => s.(up := Put(s.up, data), sent := s.sent + data)
    case UserReceives(n) =>
      s.(down := s.down.(inbox := s.down.inbox[n..]), received := s.received + s.down.inbox[..n])
    case RelaysUp(n) =>
      s.(up := s.up.(inbox := s.up.inbox[n..]), relayed := s.relayed + s.up.inbox[..n])
    case TargetSends(data) => s.(down := Put(s.down, data), answered := s.answered + data)
  }

  predicate IsRun(u: Setup, s: Session, steps: seq<Step>)
    requires u.client.destination.Valid()
    decreases |steps|
  {
    |steps| == 0 || (Enabled(u, s, steps[0]) && IsRun(u, Apply(u, s, steps[0]), steps[1..]))
  }

  function Run(u: Setup, s: Session, steps: seq<Step>): Session
    requires u.client.destination.Valid() && IsRun(u, s, steps)
    decreases |steps|
  {
    if |steps| == 0 then s else Run(u, Apply(u, s, steps[0]), steps[1..])
  }

  // ---------------------------------------------------------------- the joint protocol

  /** The client's credentials can be carried by the protocol. */
  predicate Carriable(client: Client) {
    |client.username| <= 255 && |client.password| <= 255
  }

  /** The server lets this client in. */
  predicate Permitted(u: Setup) {
    u.server.RequiresAuth() ==>
      && u.client.UsesAuth() && Carriable(u.client)
      && u.client.username == u.server.username && u.client.password == u.server.password
  }

  predicate Admitted(u: Setup) {
    Permitted(u) && u.server.dials(u.client.destination)
  }

  predicate Usable(u: Setup) {
    u.client.destination.Valid() && u.client.destination.Encodable()
  }

  predicate NoTraffic(s: Session) {
    s.sent == [] && s.relayed == [] && s.received == [] && (!s.server.Relaying? ==> s.answered == [])
  }

  /** Which pairs of phases occur, and exactly which bytes are outstanding in each. */
  predicate Joint(u: Setup, s: Session)
    requires Usable(u)
  {
    var up, down := s.up.Pending(), s.down.Pending();
    match s.client
    case Begin => s.server.AwaitGreeting? && up == [] && down == [] && s.dialled == [] && NoTraffic(s)
    case AwaitMethod => (
      && s.dialled == [] && NoTraffic(s)
      && match s.server
         case AwaitGreeting => up == Greeting(u.client) && down == []
         case AwaitAuth => up == [] && down == [0x05, 0x02] && u.server.RequiresAuth() && u.client.UsesAuth()
         case AwaitRequest => up == [] && down == [0x05, 0x00] && !u.server.RequiresAuth()
         case Closed => down == [0x05, 0xff] && !Permitted(u)
         case Relaying => false)
    case AwaitAuthReply => (
      && s.dialled == [] && NoTraffic(s) && u.server.RequiresAuth() && u.client.UsesAuth() && Carriable(u.client)
      && match s.server
         case AwaitAuth => up == AuthMessage(u.client) && down == []
         case AwaitRequest => up == [] && down == [0x01, 0x00] && Permitted(u)
         case Closed => down == [0x01, 0x01] && !Permitted(u)
         case _ => false)
    case AwaitReply => (
      && NoTraffic(s) && Permitted(u)
      && match s.server
         case AwaitRequest => up == Request(u.client) && down == [] && s.dialled == []
         case Relaying =>
           up == [] && down == Reply(0x00) + s.answered && s.dialled == [u.client.destination] && Admitted(u)
         case Closed => down == Reply(0x05) && s.dialled == [u.client.destination] && !Admitted(u)
         case _ => false)
    case Connected =>
      && s.server.Relaying? && Admitted(u) && s.dialled == [u.client.destination]
      && s.relayed + up == s.sent
      && s.received + down == s.answered
    case Failed =>
      && !Admitted(u) && !s.server.Relaying?
      && NoTraffic(s) && (s.server.Closed? || (s.server.AwaitAuth? && up == []))
      && (s.dialled == [] || s.dialled == [u.client.destination])
  }

  // ---------------------------------------------------------------- messages are read whole

  lemma GreetingParses(client: Client)
    ensures ParseGreeting(Greeting(client)) ==
      Done(if client.UsesAuth() then [0x00, 0x02] else [0x00], [])
  {
    var b := Greeting(client);
    if client.UsesAuth() {
      assert b[2..4] == [0x00, 0x02] && b[4..] == [];
    } else {
      assert b[2..3] == [0x00] && b[3..] == [];
    }
  }

  lemma ParseGreetingExtends(b: Data, more: Data)
    ensures ParseGreeting(b).Done? ==>
              ParseGreeting(b + more) == Done(ParseGreeting(b).value, ParseGreeting(b).rest + more)
    ensures ParseGreeting(b).Bad? ==> ParseGreeting(b + more).Bad?
  {
    if ParseGreeting(b).Done? {
      var n: nat := b[1];
      assert (b + more)[2..2 + n] == b[2..2 + n];
      assert (b + more)[2 + n..] == b[2 + n..] + more;
    }
  }

  lemma ParseAuthExtends(b: Data, more: Data)
    ensures ParseAuth(b).Done? ==> ParseAuth(b + more) == Done(ParseAuth(b).value, ParseAuth(b).rest + more)
    ensures ParseAuth(b).Bad? ==> ParseAuth(b + more).Bad?
  {
    if ParseAuth(b).Done? {
      var u: nat := b[1];
      var p: nat := b[2 + u];
      assert (b + more)[2..2 + u] == b[2..2 + u];
      assert (b + more)[3 + u..3 + u + p] == b[3 + u..3 + u + p];
      assert (b + more)[3 + u + p..] == b[3 + u + p..] + more;
    }
  }

  lemma AuthMessageParses(client: Client)
    requires Carriable(client)
    ensures ParseAuth(AuthMessage(client)) == Done(Credentials(client.username, client.password), [])
  {
    var b := AuthMessage(client);
    var u := |client.username|;
    assert b[1] == u && b[2 + u] == |client.password|;
    assert b[2..2 + u] == client.username;
    assert b[3 + u..3 + u + |client.password|] == client.password;
    assert b[3 + u + |client.password|..] == [];
  }

  lemma RequestParses(client: Client)
    requires client.destination.Valid() && client.destination.Encodable()
    ensures ParseRequest(Request(client)) == Done(client.destination, [])
  {
    var address := AppendSocksaddr(client.destination);
    AddrRoundTripIff(client.destination, []);
    assert address + [] == address;
    DecodersAgree(address, 0x00);
  }

  lemma ParseReplyExtends(b: Data, more: Data)
    ensures ParseReply(b).Done? ==> ParseReply(b + more) == Done(ParseReply(b).value, ParseReply(b).rest + more)
    ensures ParseReply(b).Bad? ==> ParseReply(b + more).Bad?
  {
    if |b| >= 3 {
      assert (b + more)[3..] == b[3..] + more;
      ParseAddrExtends(b[3..], more);
    }
  }

  lemma ReplyParses(code: byte, more: Data)
    ensures code == 0x00 ==> ParseReply(Reply(code) + more) == Done(Socksaddr(V4([0, 0, 0, 0]), 0), more)
    ensures code != 0x00 ==> ParseReply(Reply(code) + more).Bad?
  {
    var b := Reply(code) + more;
    var address := b[3..];
    if code == 0x00 {
      assert address == [0x01, 0, 0, 0, 0, 0, 0] + more;
      assert address[1..5] == [0, 0, 0, 0];
      assert address[5..][..2] == [0, 0];
      assert address[5..][2..] == more;
    }
  }

  lemma RefusalParses()
    ensures ParseReply(Reply(0x05)).Bad?
  {
    assert Reply(0x05) + [] == Reply(0x05);
    ReplyParses(0x05, []);
  }

  /** A turn taken on what has arrived is the turn the whole pending stream calls for. */
  lemma ServerTurnExtends(server: Server, phase: ServerPhase, b: Data, more: Data)
    requires ServerTurnOf(server, phase, b).Turns?
    ensures var t, whole := ServerTurnOf(server, phase, b), ServerTurnOf(server, phase, b + more);
      && whole.Turns? && whole.out == t.out && whole.next == t.next && whole.target == t.target
      && (!t.next.Closed? ==> whole.rest == t.rest + more)
  {
    match phase
    case AwaitGreeting => ParseGreetingExtends(b, more);
    case AwaitAuth => ParseAuthExtends(b, more);
    case AwaitRequest => ParseRequestExtends(b, more);
  }

  lemma ClientTurnExtends(client: Client, phase: ClientPhase, b: Data, more: Data)
    requires client.destination.Valid() && ClientTurnOf(client, phase, b).Goes?
    ensures var t := ClientTurnOf(client, phase, b);
      ClientTurnOf(client, phase, b + more) == Goes(t.out, t.next, t.rest + more)
  {
    if phase.AwaitReply? {
      ParseReplyExtends(b, more);
    } else {
      assert (b + more)[..2] == b[..2];
      assert (b + more)[2..] == b[2..] + more;
    }
  }

  // ---------------------------------------------------------------- preservation

  lemma DeliverPending(p: Pipe, n: nat)
    requires n <= |p.wire|
    ensures Deliver(p, n).Pending() == p.Pending()
  {
    assert p.inbox + p.wire[..n] + p.wire[n..] == p.inbox + (p.wire[..n] + p.wire[n..]);
    assert p.wire[..n] + p.wire[n..] == p.wire;
  }

  lemma PutPending(p: Pipe, data: Data)
    ensures Put(p, data).Pending() == p.Pending() + data
  {
    assert p.inbox + (p.wire + data) == p.inbox + p.wire + data;
  }

  /** The server's turn, read off the whole pending stream. */
  lemma ServerTurnWhole(u: Setup, s: Session)
    requires Usable(u) && Enabled(u, s, ServerReads)
    ensures var after := Apply(u, s, ServerReads);
      var whole := ServerTurnOf(u.server, s.server, s.up.Pending());
      && whole.Turns? && after.server == whole.next && after.dialled == s.dialled + whole.target
      && after.down.Pending() == s.down.Pending() + whole.out
      && (!whole.next.Closed? ==> after.up.Pending() == whole.rest)
      && after == s.(server := after.server, up := after.up, down := after.down, dialled := after.dialled)
  {
    ServerTurnExtends(u.server, s.server, s.up.inbox, s.up.wire);
    PutPending(s.down, ServerTurnOf(u.server, s.server, s.up.inbox).out);
  }

  lemma GreetingReadKeeps(u: Setup, s: Session)
    requires Usable(u) && Joint(u, s) && Enabled(u, s, ServerReads) && s.server.AwaitGreeting?
    ensures Joint(u, Apply(u, s, ServerReads))
  {
    ServerTurnWhole(u, s);
    EmptyWaits(u.server, AwaitGreeting);
    GreetingTurn(u);
    hide ServerTurnOf, Apply, Enabled;
    assert s.client.AwaitMethod? && s.up.Pending() == Greeting(u.client) && s.down.Pending() == [];
  }

  lemma AuthReadKeeps(u: Setup, s: Session)
    requires Usable(u) && Joint(u, s) && Enabled(u, s, ServerReads) && s.server.AwaitAuth?
    ensures Joint(u, Apply(u, s, ServerReads))
  {
    ServerTurnWhole(u, s);
    EmptyWaits(u.server, AwaitAuth);
    hide ServerTurnOf, Apply, Enabled;
    assert s.client.AwaitAuthReply? && s.up.Pending() == AuthMessage(u.client) && s.down.Pending() == [];
    AuthTurn(u);
    hide AuthMessage, Greeting, Request, Reply;
    var after := Apply(u, s, ServerReads);
    if Permitted(u) {
      assert after.server == AwaitRequest && after.down.Pending() == [0x01, 0x00] && after.up.Pending() == [];
    } else {
      assert after.server == Closed && after.down.Pending() == [0x01, 0x01];
    }
  }

  lemma RequestReadKeeps(u: Setup, s: Session)
    requires Usable(u) && Joint(u, s) && Enabled(u, s, ServerReads) && s.server.AwaitRequest?
    ensures Joint(u, Apply(u, s, ServerReads))
  {
    ServerTurnWhole(u, s);
    EmptyWaits(u.server, AwaitRequest);
    RequestTurn(u);
    hide ServerTurnOf, Apply, Enabled;
    assert s.client.AwaitReply? && s.up.Pending() == Request(u.client) && s.down.Pending() == [];
    assert Reply(0x00) + [] == Reply(0x00);
  }

  lemma ServerReadsKeeps(u: Setup, s: Session)
    requires Usable(u) && Joint(u, s) && Enabled(u, s, ServerReads)
    ensures Joint(u, Apply(u, s, ServerReads))
  {
    hide Joint, Apply;
    match s.server
    case AwaitGreeting => GreetingReadKeeps(u, s);
    case AwaitAuth => AuthReadKeeps(u, s);
    case AwaitRequest => RequestReadKeeps(u, s);
  }

  lemma EmptyWaits(server: Server, phase: ServerPhase)
    ensures ServerTurnOf(server, phase, []).Waits?
  {
  }

  lemma GreetingTurn(u: Setup)
    requires Usable(u)
    ensures var t := ServerTurnOf(u.server, AwaitGreeting, Greeting(u.client));
      && t.Turns? && t.target == []
      && (!u.server.RequiresAuth() ==> t.out == [0x05, 0x00] && t.next == AwaitRequest && t.rest == [])
      && (u.server.RequiresAuth() && u.client.UsesAuth() ==>
            t.out == [0x05, 0x02] && t.next == AwaitAuth && t.rest == [])
      && (u.server.RequiresAuth() && !u.client.UsesAuth() ==> t.out == [0x05, 0xff] && t.next == Closed)
  {
    GreetingParses(u.client);
  }

  lemma AuthTurn(u: Setup)
    requires Usable(u) && Carriable(u.client) && u.server.RequiresAuth() && u.client.UsesAuth()
    ensures var t := ServerTurnOf(u.server, AwaitAuth, AuthMessage(u.client));
      && t.Turns? && t.target == []
      && (Permitted(u) ==> t.out == [0x01, 0x00] && t.next == AwaitRequest && t.rest == [])
      && (!Permitted(u) ==> t.out == [0x01, 0x01] && t.next == Closed)
  {
    AuthMessageParses(u.client);
  }

  lemma RequestTurn(u: Setup)
    requires Usable(u)
    ensures var t := ServerTurnOf(u.server, AwaitRequest, Request(u.client));
      && t.Turns? && t.target == [u.client.destination]
      && (u.server.dials(u.client.destination) ==> t.out == Reply(0x00) && t.next == Relaying && t.rest == [])
      && (!u.server.dials(u.client.destination) ==> t.out == Reply(0x05) && t.next == Closed)
  {
    RequestParses(u.client);
  }

  /** The client's turn, read off the whole pending stream. */
  lemma ClientTurnWhole(u: Setup, s: Session)
    requires Usable(u) && Enabled(u, s, ClientReads)
    ensures var t, after := ClientTurnOf(u.client, s.client, s.down.Pending()), Apply(u, s, ClientReads);
      && t.Goes? && after.client == t.next && after.down.Pending() == t.rest && after.up.Pending() == s.up.Pending() + t.out
      && after == s.(client := after.client, up := after.up, down := after.down)
  {
    var t := ClientTurnOf(u.client, s.client, s.down.inbox);
    ClientTurnExtends(u.client, s.client, s.down.inbox, s.down.wire);
    PutPending(s.up, t.out);
    hide ClientTurnOf;
    assert Apply(u, s, ClientReads).down.Pending() == t.rest + s.down.wire;
  }

  lemma ChoiceReadKeeps(u: Setup, s: Session)
    requires Usable(u) && Joint(u, s) && Enabled(u, s, ClientReads) && !s.client.AwaitReply?
    ensures Joint(u, Apply(u, s, ClientReads))
  {
    ClientTurnWhole(u, s);
    hide Apply;
    var down := s.down.Pending();
    assert |down| == 2 && down[..2] == down && down[2..] == [];
  }

  lemma ReplyReadKeeps(u: Setup, s: Session)
    requires Usable(u) && Joint(u, s) && Enabled(u, s, ClientReads) && s.client.AwaitReply?
    ensures Joint(u, Apply(u, s, ClientReads))
  {
    ClientTurnWhole(u, s);
    hide Apply;
    if s.server.Relaying? {
      ReplyParses(0x00, s.answered);
    } else if s.server.Closed? {
      RefusalParses();
    }
  }

  lemma ClientReadsKeeps(u: Setup, s: Session)
    requires Usable(u) && Joint(u, s) && Enabled(u, s, ClientReads)
    ensures Joint(u, Apply(u, s, ClientReads))
  {
    hide Joint, Apply;
    if s.client.AwaitReply? {
      ReplyReadKeeps(u, s);
    } else {
      ChoiceReadKeeps(u, s);
    }
  }

  /** While the client waits, an ended server has always left it a complete answer. */
  lemma ClientNeverCutOff(u: Setup, s: Session)
    requires Usable(u) && Joint(u, s)
    ensures !Enabled(u, s, ClientEnds)
  {
    if Enabled(u, s, ClientEnds) {
      assert s.down.Pending() == s.down.inbox + [] == s.down.inbox;
      if s.client.AwaitReply? {
        RefusalParses();
      }
      assert false;
    }
  }

  lemma RelayKeeps(u: Setup, s: Session, step: Step)
    requires Usable(u) && Joint(u, s) && Enabled(u, s, step)
    requires step.UserSends? || step.UserReceives? || step.RelaysUp? || step.TargetSends?
    ensures Joint(u, Apply(u, s, step))
  {
    var after := Apply(u, s, step);
    match step
    case UserSends(data) =>
      PutPending(s.up, data);
      assert s.relayed + (s.up.Pending() + data) == s.relayed + s.up.Pending() + data;
    case UserReceives(n) =>
      Shift(s.received, s.down.inbox, s.down.wire, n);
    case RelaysUp(n) =>
      Shift(s.relayed, s.up.inbox, s.up.wire, n);
    case TargetSends(data) =>
      PutPending(s.down, data);
      if s.client.Connected? {
        assert s.received + (s.down.Pending() + data) == s.received + s.down.Pending() + data;
      } else {
        assert Reply(0x00) + s.answered + data == Reply(0x00) + (s.answered + data);
      }
  }

  lemma Shift(done: Data, inbox: Data, wire: Data, n: nat)
    requires n <= |inbox|
    ensures (done + inbox[..n]) + (inbox[n..] + wire) == done + (inbox + wire)
  {
    assert inbox[..n] + inbox[n..] == inbox;
    assert (done + inbox[..n]) + (inbox[n..] + wire) == done + (inbox[..n] + inbox[n..] + wire);
  }

  lemma StepKeeps(u: Setup, s: Session, step: Step)
    requires Usable(u) && Joint(u, s) && Enabled(u, s, step)
    ensures Joint(u, Apply(u, s, step))
  {
    match step
    case ClientBegins => PutPending(s.up, Greeting(u.client));
    case ClientReads => ClientReadsKeeps(u, s);
    case ClientEnds => ClientNeverCutOff(u, s);
    case ServerReads => ServerReadsKeeps(u, s);
    case ServerEnds =>
    case DeliverUp(n) => DeliverPending(s.up, n);
    case DeliverDown(n) => DeliverPending(s.down, n);
    case _ => RelayKeeps(u, s, step);
  }

  lemma {:induction false} RunKeeps(u: Setup, s: Session, steps: seq<Step>)
    requires Usable(u) && Joint(u, s) && IsRun(u, s, steps)
    ensures Joint(u, Run(u, s, steps))
    decreases |steps|
  {
    if |steps| > 0 {
      StepKeeps(u, s, steps[0]);
      RunKeeps(u, Apply(u, s, steps[0]), steps[1..]);
    }
  }

  // ---------------------------------------------------------------- results

  /**
    In every run the client connects only if it is admitted and fails only if it is not;
    the server never dials anything but the client's destination, and dials it at most once.
   */
  lemma VerdictIsRight(u: Setup, steps: seq<Step>)
    requires Usable(u) && IsRun(u, Start(), steps)
    ensures var s := Run(u, Start(), steps);
      && (s.client.Connected? ==> Admitted(u) && s.dialled == [u.client.destination])
      && (s.client.Failed? ==> !Admitted(u))
      && (s.dialled == [] || s.dialled == [u.client.destination])
      && (s.server.Relaying? ==> Admitted(u))
  {
    RunKeeps(u, Start(), steps);
  }

  /**
    No handshake byte reaches the relay in either direction: once connected, what was
    forwarded, followed by what is under way, is exactly what was sent.
   */
  lemma RelayIsTransparent(u: Setup, steps: seq<Step>)
    requires Usable(u) && IsRun(u, Start(), steps) && Run(u, Start(), steps).client.Connected?
    ensures var s := Run(u, Start(), steps);
      && s.relayed + s.up.Pending() == s.sent
      && s.received + s.down.Pending() == s.answered
  {
    RunKeeps(u, Start(), steps);
  }

  predicate Handshake(step: Step) {
    !step.UserSends? && !step.UserReceives? && !step.RelaysUp? && !step.TargetSends?
  }

  predicate Decided(s: Session) {
    s.client.Connected? || s.client.Failed?
  }

  ghost predicate CanStep(u: Setup, s: Session)
    requires u.client.destination.Valid()
  {
    exists step :: Handshake(step) && Enabled(u, s, step)
  }

  lemma Steps(u: Setup, s: Session, step: Step)
    requires u.client.destination.Valid() && Handshake(step) && Enabled(u, s, step)
    ensures CanStep(u, s)
  {
  }

  /** The handshake never stalls: until the client has its verdict some handshake step is possible. */
  lemma NeverStalls(u: Setup, steps: seq<Step>)
    requires Usable(u) && IsRun(u, Start(), steps) && !Decided(Run(u, Start(), steps))
    ensures CanStep(u, Run(u, Start(), steps))
  {
    RunKeeps(u, Start(), steps);
    Progress(u, Run(u, Start(), steps));
  }

  lemma Progress(u: Setup, s: Session)
    requires Usable(u) && Joint(u, s) && !Decided(s)
    ensures CanStep(u, s)
  {
    if s.client.Begin? {
      Steps(u, s, ClientBegins);
    } else if |s.up.wire| > 0 {
      Steps(u, s, DeliverUp(1));
    } else if |s.down.wire| > 0 {
      Steps(u, s, DeliverDown(1));
    } else {
      assert s.up.Pending() == s.up.inbox && s.down.Pending() == s.down.inbox;
      AllArrived(u, s);
    }
  }

  lemma AllArrived(u: Setup, s: Session)
    requires Usable(u) && Joint(u, s) && !Decided(s) && !s.client.Begin?
    requires s.up.Pending() == s.up.inbox && s.down.Pending() == s.down.inbox
    ensures CanStep(u, s)
  {
    if s.down.inbox == [] {
      if s.server.AwaitGreeting? {
        GreetingTurn(u);
      } else if s.server.AwaitAuth? {
        AuthTurn(u);
      } else {
        RequestTurn(u);
      }
      Steps(u, s, ServerReads);
    } else {
      if s.client.AwaitReply? {
        if s.server.Relaying? {
          ReplyParses(0x00, s.answered);
        } else {
          RefusalParses();
        }
      }
      Steps(u, s, ClientReads);
    }
  }

  /** Bounds the handshake steps left: each message is shorter than the weight of a phase. */
  function Remaining(s: Session): nat {
    1000 * (ClientRank(s.client) + ServerRank(s.server)) + |s.up.wire| + |s.down.wire|
  }

  lemma HandshakeDescends(u: Setup, s: Session, step: Step)
    requires Usable(u) && Handshake(step) && Enabled(u, s, step)
    ensures Remaining(Apply(u, s, step)) < Remaining(s)
  {
  }

  lemma {:induction false} HandshakeBound(u: Setup, s: Session, steps: seq<Step>)
    requires Usable(u) && IsRun(u, s, steps) && forall k :: 0 <= k < |steps| ==> Handshake(steps[k])
    ensures |steps| <= Remaining(s)
    decreases |steps|
  {
    if |steps| > 0 {
      HandshakeDescends(u, s, steps[0]);
      HandshakeBound(u, Apply(u, s, steps[0]), steps[1..]);
    }
  }

  /** The handshake ends within a fixed number of steps, and when nothing more can happen the client has exactly the right verdict. */
  lemma ConnectsIffAdmitted(u: Setup, steps: seq<Step>)
    requires Usable(u) && IsRun(u, Start(), steps)
    requires forall k :: 0 <= k < |steps| ==> Handshake(steps[k])
    ensures |steps| <= 7000
    ensures !CanStep(u, Run(u, Start(), steps)) ==>
              Decided(Run(u, Start(), steps)) && (Run(u, Start(), steps).client.Connected? <==> Admitted(u))
  {
    HandshakeBound(u, Start(), steps);
    VerdictIsRight(u, steps);
    if !CanStep(u, Run(u, Start(), steps)) && !Decided(Run(u, Start(), steps)) {
      NeverStalls(u, steps);
    }
  }

  /**
    The condition on the destination is necessary: for a name of more than 255 bytes the
    server reads another destination and takes the rest of the request for relay data.
   */
  lemma LongNameLeaks(client: Client)
    requires client.destination.Valid()
    ensures ParseRequest(Request(client)) == Done(client.destination, []) <==> client.destination.Encodable()
    ensures ParseRequest(Request(client)).Done?
    ensures !client.destination.Encodable() ==> |ParseRequest(Request(client)).rest| >= 256
  {
    var address := AppendSocksaddr(client.destination);
    AddrRoundTripIff(client.destination, []);
    assert address + [] == address;
    DecodersAgree(address, 0x00);
  }

  /** Who is admitted, said of the four strings and the dial. */
  lemma AdmittedMeans(u: Setup)
    ensures Admitted(u) <==>
              && u.server.dials(u.client.destination)
              && ((u.server.username == [] && u.server.password == [])
                  || (u.client.username != [] && |u.client.username| <= 255 && |u.client.password| <= 255
                      && u.client.username == u.server.username && u.client.password == u.server.password))
  {
  }
}
