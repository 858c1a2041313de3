/**
  The two ends of a SOCKS5 CONNECT: what each side does with each message, and the
  procedures that do it on a connection (RFC 1928, sections 3 to 6; RFC 1929, section 2).
 */
module Socks5Endpoints {
  import opened Bytes
  import opened Socks5Codec

  // ---------------------------------------------------------------- server decisions

  /** A proxy port's credentials and whether dialling a target through its outbounds succeeds. */
  datatype Server = Server(username: Data, password: Data, dials: Socksaddr -> bool) {
    predicate RequiresAuth() {
      username != [] || password != []
    }
  }

  datatype ServerPhase = AwaitGreeting | AwaitAuth | AwaitRequest | Relaying | Closed

  datatype Reaction<+P> = Reaction(out: Data, next: P)

  /** The offered methods. */
  function ParseGreeting(b: Data): Parse<Data> {
    if |b| < 1 then More
    else if b[0] != 0x05 then Bad
    else if |b| < 2 then More
    else
      var n: nat := b[1];
      if |b| < 2 + n then More else Done(b[2..2 + n], b[2 + n..])
  }

  datatype Credentials = Credentials(username: Data, password: Data)

  function ParseAuth(b: Data): Parse<Credentials> {
    if |b| < 1 then More
    else if b[0] != 0x01 then Bad
    else if |b| < 2 then More
    else
      var u: nat := b[1];
      if |b| < 2 + u + 1 then More
      else
        var p: nat := b[2 + u];
        if |b| < 3 + u + p then More
        else Done(Credentials(b[2..2 + u], b[3 + u..3 + u + p]), b[3 + u + p..])
  }

  function OnGreeting(server: Server, methods: Data): Reaction<ServerPhase> {
    var chosen: byte := if server.RequiresAuth() then 0x02 else 0x00;
    if chosen !in methods then Reaction([0x05, 0xff], Closed)
    else Reaction([0x05, chosen], if chosen == 0x02 then AwaitAuth else AwaitRequest)
  }

  function OnAuth(server: Server, given: Credentials): Reaction<ServerPhase> {
    if given.username != server.username || given.password != server.password then Reaction([0x01, 0x01], Closed)
    else Reaction([0x01, 0x00], AwaitRequest)
  }

  function Reply(code: byte): Data {
    [0x05, code, 0x00, 0x01, 0, 0, 0, 0, 0, 0]
  }

  function OnRequest(server: Server, target: Socksaddr): Reaction<ServerPhase> {
    if server.dials(target) then Reaction(Reply(0x00), Relaying) else Reaction(Reply(0x05), Closed)
  }

  // ---------------------------------------------------------------- server procedures

  /** The write side of a connection. */
  class Conn {
    var written: Data

    constructor ()
      ensures written == []
    {
      written := [];
    }

    method Write(b: Data)
      modifies this
      ensures written == old(written) + b
    {
      written := written + b;
    }
  }

  /** What the server says and where it ends up, given everything the client will ever send. */
  datatype Served = Served(out: Data, phase: ServerPhase, dialled: seq<Socksaddr>, rest: Data)

  function ServeRequest(server: Server, input: Data): Served {
    match ParseRequest(input)
    case Done(target, rest) =>
      var r := OnRequest(server, target);
      Served(r.out, r.next, [target], rest)
    case _ => Served(Reply(0x01), Closed, [], [])
  }

  /** A handshake stage: whether to go on, what was written, and the unread input. */
  datatype Stage = Stage(ok: bool, out: Data, rest: Data)

  function AuthStage(server: Server, input: Data): Stage {
    match ParseAuth(input)
    case Done(given, rest) =>
      var r := OnAuth(server, given);
      Stage(r.next.AwaitRequest?, r.out, rest)
    case More => Stage(false, if |input| == 0 then [0x01, 0x01] else [], [])
    case Bad => Stage(false, [0x01, 0x01], [])
  }

  function HandshakeStage(server: Server, input: Data): Stage {
    match ParseGreeting(input)
    case Done(methods, rest) =>
      var r := OnGreeting(server, methods);
      if r.next.AwaitAuth? then
        var auth := AuthStage(server, rest);
        auth.(out := r.out + auth.out)
      else Stage(r.next.AwaitRequest?, r.out, rest)
    case _ => Stage(false, [], [])
  }

  function Serve(server: Server, input: Data): Served {
    var shake := HandshakeStage(server, input);
    if !shake.ok then Served(shake.out, Closed, [], [])
    else
      var served := ServeRequest(server, shake.rest);
      served.(out := shake.out + served.out)
  }

  /** A length byte and that many bytes. */
  predicate FieldFits(b: Data) {
    |b| >= 1 && |b| >= 1 + b[0] as int
  }

  function FieldOf(b: Data): Data
    requires FieldFits(b)
  {
    b[1..][..b[0]]
  }

  function FieldRest(b: Data): Data
    requires FieldFits(b)
  {
    b[1..][b[0]..]
  }

  method ReadField(reader: Reader) returns (ok: bool, field: Data)
    modifies reader
    ensures ok == FieldFits(old(reader.buf))
    ensures ok ==> field == FieldOf(old(reader.buf)) && reader.buf == FieldRest(old(reader.buf))
  {
    field := [];
    var length: byte;
    ok, length := reader.ReadByte();
    if ok {
      ok, field := reader.ReadFull(length);
    }
  }

  /** The authentication message is its version and two such fields. */
  lemma AuthByFields(b: Data)
    requires |b| >= 1 && b[0] == 0x01
    ensures var name := b[1..];
      && (!FieldFits(name) ==> ParseAuth(b).More?)
      && (FieldFits(name) ==>
            var password := FieldRest(name);
            && (!FieldFits(password) ==> ParseAuth(b).More?)
            && (FieldFits(password) ==>
                  ParseAuth(b) == Done(Credentials(FieldOf(name), FieldOf(password)), FieldRest(password))))
  {
    var name := b[1..];
    if FieldFits(name) {
      var u: nat := b[1];
      Slices(b, 2, u);
      assert name[1..] == b[2..];
      var password := FieldRest(name);
      assert password == b[2 + u..];
      if FieldFits(password) {
        var p: nat := b[2 + u];
        assert password[0] as nat == p && password[1..] == b[3 + u..];
        Slices(b, 3 + u, p);
      }
    }
  }

  method HandleAuth(server: Server, conn: Conn, reader: Reader) returns (ok: bool)
    modifies conn, reader
    ensures var stage := AuthStage(server, old(reader.buf));
      ok == stage.ok && conn.written == old(conn.written) + stage.out && (ok ==> reader.buf == stage.rest)
    ensures |old(reader.buf)| >= 1 && old(reader.buf)[0] != 0x01 ==> !ok && conn.written == old(conn.written) + [0x01, 0x01]
  {
    var ver: byte;
    ok, ver := reader.ReadByte();
    if !ok || ver != 0x01 {
      conn.Write([0x01, 0x01]);
      return false;
    }
    AuthByFields(old(reader.buf));
    hide ParseAuth, FieldFits, FieldOf, FieldRest;
    var uname, pass;
    ok, uname := ReadField(reader);
    if !ok {
      return;
    }
    ok, pass := ReadField(reader);
    if !ok {
      return;
    }
    if uname != server.username || pass != server.password {
      conn.Write([0x01, 0x01]);
      return false;
    }
    conn.Write([0x01, 0x00]);
  }

  method HandleHandshake(server: Server, conn: Conn, reader: Reader) returns (ok: bool)
    modifies conn, reader
    ensures var stage := HandshakeStage(server, old(reader.buf));
      ok == stage.ok && conn.written == old(conn.written) + stage.out && (ok ==> reader.buf == stage.rest)
    ensures |old(reader.buf)| >= 1 && old(reader.buf)[0] != 0x05 ==> !ok && conn.written == old(conn.written)
  {
    hide AuthStage;
    var ver: byte;
    ok, ver := reader.ReadByte();
    if !ok || ver != 0x05 {
      return false;
    }
    var nMethods: byte;
    ok, nMethods := reader.ReadByte();
    if !ok {
      return;
    }
    var methods;
    ok, methods := reader.ReadFull(nMethods);
    if !ok {
      return;
    }
    ghost var rest := reader.buf;
    assert ParseGreeting(old(reader.buf)) == Done(methods, rest) by {
      assert old(reader.buf)[1..][1..] == old(reader.buf)[2..];
      Slices(old(reader.buf), 2, nMethods);
    }
    var authRequired := server.RequiresAuth();
    var chosen: byte := 0x00;
    if authRequired {
      chosen := 0x02;
    }
    if authRequired && 0x02 !in methods {
      conn.Write([0x05, 0xff]);
      return false;
    }
    if !authRequired && 0x00 !in methods {
      conn.Write([0x05, 0xff]);
      return false;
    }
    conn.Write([0x05, chosen]);
    if chosen == 0x02 {
      ok := HandleAuth(server, conn, reader);
      assert conn.written == old(conn.written) + ([0x05, chosen] + AuthStage(server, rest).out);
    }
  }

  /** handleSocks5 up to the relay: `relay` says whether it is entered, and reader.buf is what it will forward first. */
  method HandleSocks5(server: Server, conn: Conn, reader: Reader) returns (relay: bool, dialled: seq<Socksaddr>)
    modifies conn, reader
    ensures var served := Serve(server, old(reader.buf));
      && conn.written == old(conn.written) + served.out
      && relay == served.phase.Relaying?
      && dialled == served.dialled
      && (relay ==> reader.buf == served.rest)
    ensures var shake := HandshakeStage(server, old(reader.buf));
      shake.ok && ((|shake.rest| >= 1 && shake.rest[0] != 0x05) || (|shake.rest| >= 2 && shake.rest[1] != 0x01)) ==>
        && !relay && dialled == []
        && conn.written == old(conn.written) + shake.out + [0x05, 0x01, 0x00, 0x01, 0, 0, 0, 0, 0, 0]
    ensures |dialled| <= 1 && (relay <==> |dialled| == 1 && server.dials(dialled[0]))
    ensures |dialled| == 1 ==>
      var code: byte := if relay then 0x00 else 0x05;
      conn.written == old(conn.written) + HandshakeStage(server, old(reader.buf)).out + [0x05, code, 0x00, 0x01, 0, 0, 0, 0, 0, 0]
  {
    hide HandshakeStage, ParseRequest;
    OnlyConnect(HandshakeStage(server, reader.buf).rest);
    dialled := [];
    var ok := HandleHandshake(server, conn, reader);
    if !ok {
      return false, [];
    }
    ghost var shake := HandshakeStage(server, old(reader.buf));
    var target;
    ok, target := ReadSocks5Request(reader);
    if !ok {
      conn.Write(Reply(0x01));
      assert conn.written == old(conn.written) + (shake.out + Reply(0x01));
      return false, [];
    }
    dialled := [target];
    if !server.dials(target) {
      conn.Write(Reply(0x05));
      assert conn.written == old(conn.written) + (shake.out + Reply(0x05));
      return false, dialled;
    }
    conn.Write(Reply(0x00));
    assert conn.written == old(conn.written) + (shake.out + Reply(0x00));
    relay := true;
  }

  // ---------------------------------------------------------------- client decisions

  datatype Client = Client(username: Data, password: Data, destination: Socksaddr) {
    predicate UsesAuth() {
      username != []
    }
  }

  datatype ClientPhase = Begin | AwaitMethod | AwaitAuthReply | AwaitReply | Connected | Failed

  function Greeting(client: Client): Data {
    if client.UsesAuth() then [0x05, 0x02, 0x00, 0x02] else [0x05, 0x01, 0x00]
  }

  function AuthMessage(client: Client): Data
    requires |client.username| <= 255 && |client.password| <= 255
  {
    [0x01, |client.username|] + client.username + [|client.password|] + client.password
  }

  function Request(client: Client): Data
    requires client.destination.Valid()
  {
    [0x05, 0x01, 0x00] + AppendSocksaddr(client.destination)
  }

  function OnMethod(client: Client, reply: Data): Reaction<ClientPhase>
    requires |reply| == 2 && client.destination.Valid()
  {
    if reply[0] != 0x05 then Reaction([], Failed)
    else if reply[1] == 0x00 then Reaction(Request(client), AwaitReply)
    else if reply[1] == 0x02 && client.UsesAuth() && |client.username| <= 255 && |client.password| <= 255 then
      Reaction(AuthMessage(client), AwaitAuthReply)
    else Reaction([], Failed)
  }

  function OnAuthReply(client: Client, reply: Data): Reaction<ClientPhase>
    requires |reply| == 2 && client.destination.Valid()
  {
    if reply[1] != 0x00 then Reaction([], Failed) else Reaction(Request(client), AwaitReply)
  }

  /** The reply header is judged before the bound address is read. */
  function ParseReply(b: Data): Parse<Socksaddr> {
    if |b| < 3 then More
    else if b[0] != 0x05 || b[1] != 0x00 then Bad
    else ParseAddr(b[3..])
  }

  // ---------------------------------------------------------------- client procedures

  method UserPassAuth(client: Client, conn: Conn, reader: Reader) returns (ok: bool)
    modifies conn, reader
    ensures |client.username| > 255 || |client.password| > 255 ==> !ok && conn.written == old(conn.written)
    ensures |client.username| <= 255 && |client.password| <= 255 ==>
      && conn.written == old(conn.written) + AuthMessage(client)
      && ok == (|old(reader.buf)| >= 2 && old(reader.buf)[1] == 0x00)
      && (ok ==> reader.buf == old(reader.buf)[2..])
  {
    if |client.username| > 255 || |client.password| > 255 {
      return false;
    }
    var buf: Data := [0x01, |client.username|];
    buf := buf + client.username;
    buf := buf + [|client.password|];
    buf := buf + client.password;
    conn.Write(buf);
    var resp;
    ok, resp := reader.ReadFull(2);
    if ok && resp[1] != 0x00 {
      return false;
    }
  }

  /** socks5Negotiate: succeeds exactly when the server accepts, consuming exactly its replies. */
  method Negotiate(client: Client, conn: Conn, reader: Reader) returns (ok: bool)
    requires client.destination.Valid()
    modifies conn, reader
    ensures var input := old(reader.buf);
      && (|input| < 2 ==> !ok && conn.written == old(conn.written) + Greeting(client))
      && (|input| >= 2 ==>
            match OnMethod(client, input[..2]).next
            case AwaitReply => ok && conn.written == old(conn.written) + Greeting(client) && reader.buf == input[2..]
            case AwaitAuthReply =>
              && conn.written == old(conn.written) + Greeting(client) + AuthMessage(client)
              && ok == (|input| >= 4 && OnAuthReply(client, input[2..4]).next.AwaitReply?)
              && (ok ==> reader.buf == input[4..])
            case _ => !ok && conn.written == old(conn.written) + Greeting(client))
  {
    conn.Write(Greeting(client));
    var reply;
    ok, reply := reader.ReadFull(2);
    if !ok {
      return;
    }
    if reply[0] != 0x05 {
      return false;
    }
    if reply[1] == 0x00 {
      return true;
    }
    if reply[1] == 0x02 {
      if !client.UsesAuth() {
        return false;
      }
      ok := UserPassAuth(client, conn, reader);
      return;
    }
    return false;
  }

  /** socks5SendRequest for CONNECT. */
  method SendRequest(client: Client, conn: Conn, reader: Reader) returns (ok: bool, bound: Socksaddr)
    requires client.destination.Valid()
    modifies conn, reader
    ensures conn.written == old(conn.written) + Request(client)
    ensures ok == ParseReply(old(reader.buf)).Done?
    ensures ok ==> ParseReply(old(reader.buf)) == Done(bound, reader.buf)
    ensures |old(reader.buf)| >= 3 && (old(reader.buf)[0] != 0x05 || old(reader.buf)[1] != 0x00) ==> !ok
  {
    bound := Socksaddr(Name([]), 0);
    conn.Write([0x05, 0x01, 0x00] + AppendSocksaddr(client.destination));
    var header;
    ok, header := reader.ReadFull(3);
    if !ok {
      return;
    }
    if header[0] != 0x05 {
      return false, bound;
    }
    if header[1] != 0x00 {
      return false, bound;
    }
    ok, bound := ReadSocksaddr(reader);
  }

  // ---------------------------------------------------------------- the bytes themselves

  /** The server's answer to a complete greeting, without and with credentials of its own. */
  lemma GreetingAnswers(server: Server, methods: Data, rest: Data)
    requires |methods| <= 255
    ensures var stage := HandshakeStage(server, [0x05, |methods|] + methods + rest);
      && (server.username == [] && server.password == [] ==>
            if 0x00 in methods then stage == Stage(true, [0x05, 0x00], rest)
            else !stage.ok && stage.out == [0x05, 0xff])
      && (server.username != [] || server.password != [] ==>
            if 0x02 in methods then
              stage == AuthStage(server, rest).(out := [0x05, 0x02] + AuthStage(server, rest).out)
            else !stage.ok && stage.out == [0x05, 0xff])
  {
    hide AuthStage;
    var input := [0x05, |methods|] + methods + rest;
    assert input[2..2 + |methods|] == methods && input[2 + |methods|..] == rest;
  }

  /** The server's answer to a complete authentication message: the credentials must be its own, both of them. */
  lemma AuthAnswers(server: Server, username: Data, password: Data, rest: Data)
    requires |username| <= 255 && |password| <= 255
    ensures var ok := username == server.username && password == server.password;
      AuthStage(server, [0x01, |username|] + username + [|password|] + password + rest)
        == Stage(ok, [0x01, if ok then 0x00 else 0x01], rest)
  {
    var u, p := |username|, |password|;
    var input := [0x01, u] + username + [p] + password + rest;
    assert input[2..2 + u] == username && input[2 + u] == p;
    assert input[3 + u..3 + u + p] == password && input[3 + u + p..] == rest;
  }

  /** What the client says. */
  lemma ClientBytes(client: Client)
    requires client.destination.Valid()
    ensures Greeting(client) == if client.username == [] then [0x05, 0x01, 0x00] else [0x05, 0x02, 0x00, 0x02]
    ensures Request(client) == [0x05, 0x01, 0x00] + AppendSocksaddr(client.destination)
    ensures |client.username| <= 255 && |client.password| <= 255 ==>
              AuthMessage(client) == [0x01, |client.username|] + client.username + [|client.password|] + client.password
  {
  }

  /** What the client makes of the two bytes that select a method, and of the two that end the authentication. */
  lemma ClientReactions(client: Client, a: byte, b: byte)
    requires client.destination.Valid()
    ensures OnMethod(client, [a, b]).next ==
      if a == 0x05 && b == 0x00 then AwaitReply
      else if a == 0x05 && b == 0x02 && client.username != [] && |client.username| <= 255 && |client.password| <= 255 then AwaitAuthReply
      else Failed
    ensures OnAuthReply(client, [a, b]).next == if b == 0x00 then AwaitReply else Failed
  {
  }
}
