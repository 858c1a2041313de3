/**
  SOCKS5 addresses on the wire: the encoder, the three decoders, and the UDP
  encapsulation built on them (RFC 1928, sections 5 and 7).
 */
module Socks5Codec {
  import opened Options
  import opened Bytes

  datatype Host = V4(ip: Data) | V6(ip: Data) | Name(fqdn: Data)

  datatype Socksaddr = Socksaddr(host: Host, port: nat) {
    /** What a dialer can be given: fixed-size IPs, a nonempty name, a 16-bit port. */
    predicate Valid() {
      && port < SIZE16
      && (host.V4? ==> |host.ip| == 4)
      && (host.V6? ==> |host.ip| == 16)
      && (host.Name? ==> |host.fqdn| > 0)
    }

    /** The length byte of a domain name holds at most 255. */
    predicate Encodable() {
      host.Name? ==> |host.fqdn| <= 255
    }
  }

  function AppendSocksaddr(a: Socksaddr): Data
    requires a.Valid()
  {
    (match a.host
     case Name(fqdn) => [0x03, |fqdn| % 0x100] + fqdn
     case V4(ip) => [0x01] + ip
     case V6(ip) => [0x04] + ip)
    + PutBE16(a.port)
  }

  // ---------------------------------------------------------------- decoding a prefix of a stream

  /** Done leaves the unread rest; More waits for bytes (an error at end of stream); Bad is refused. */
  datatype Parse<+T> = Done(value: T, rest: Data) | More | Bad

  function ParsePort(host: Host, b: Data): Parse<Socksaddr> {
    if |b| < 2 then More else Done(Socksaddr(host, BE16(b[..2])), b[2..])
  }

  /** n bytes of address after the type (and, for a name, the length) byte. */
  function ParseHost(b: Data): Parse<Host> {
    if |b| < 1 then More
    else if b[0] == 0x01 then
      if |b| < 5 then More else Done(V4(b[1..5]), b[5..])
    else if b[0] == 0x04 then
      if |b| < 17 then More else Done(V6(b[1..17]), b[17..])
    else if b[0] == 0x03 then
      if |b| < 2 then More
      else
        var n: nat := b[1];
        if |b| < 2 + n then More else Done(Name(b[2..2 + n]), b[2 + n..])
    else Bad
  }

  function ParseAddr(b: Data): Parse<Socksaddr> {
    match ParseHost(b)
    case Done(host, rest) => ParsePort(host, rest)
    case More => More
    case Bad => Bad
  }

  /** A CONNECT request: version 5, command 1, a reserved byte that is not checked, an address. */
  function ParseRequest(b: Data): Parse<Socksaddr> {
    if |b| < 1 then More
    else if b[0] != 0x05 then Bad
    else if |b| < 2 then More
    else if b[1] != 0x01 then Bad
    else if |b| < 4 then More
    else ParseAddr(b[3..])
  }

  /** A byte stream that ends after `buf`; reading consumes it. */
  class Reader {
    var buf: Data

    constructor (buf: Data)
      ensures this.buf == buf
    {
      this.buf := buf;
    }

    /** io.ReadFull: all n bytes, or an error that uses up what was left. */
    method ReadFull(n: nat) returns (ok: bool, bytes: Data)
      modifies this
      ensures ok == (n <= |old(buf)|)
      ensures ok ==> bytes == old(buf)[..n] && buf == old(buf)[n..]
      ensures !ok ==> buf == []
    {
      if n <= |buf| {
        ok, bytes := true, buf[..n];
        buf := buf[n..];
      } else {
        ok, bytes := false, [];
        buf := [];
      }
    }

    method ReadByte() returns (ok: bool, b: byte)
      modifies this
      ensures ok == (1 <= |old(buf)|)
      ensures ok ==> b == old(buf)[0] && buf == old(buf)[1..]
      ensures !ok ==> buf == []
    {
      var bytes;
      ok, bytes := ReadFull(1);
      b := if ok then bytes[0] else 0;
    }
  }

  lemma Slices(all: Data, skip: nat, n: nat)
    requires skip + n <= |all|
    ensures all[skip..][..n] == all[skip..skip + n] && all[skip..][n..] == all[skip + n..]
  {
  }

  lemma HostSlices(all: Data, host: Host, rest: Data)
    requires ParseHost(all).Done?
    requires all[0] == 0x03 ==> |all| >= 2 && host == Name(all[1..][1..][..all[1]]) && rest == all[1..][1..][all[1]..]
    requires all[0] == 0x01 ==> host == V4(all[1..][..4]) && rest == all[1..][4..]
    requires all[0] == 0x04 ==> host == V6(all[1..][..16]) && rest == all[1..][16..]
    ensures ParseHost(all) == Done(host, rest)
  {
    if all[0] == 0x01 {
      Slices(all, 1, 4);
    } else if all[0] == 0x04 {
      Slices(all, 1, 16);
    } else {
      assert all[1..][1..] == all[2..];
      Slices(all, 2, all[1]);
    }
  }

  method ReadSocksaddr(r: Reader) returns (ok: bool, addr: Socksaddr)
    modifies r
    ensures ok == ParseAddr(old(r.buf)).Done?
    ensures ok ==> ParseAddr(old(r.buf)) == Done(addr, r.buf)
  {
    addr := Socksaddr(Name([]), 0);
    var atyp: byte;
    ok, atyp := r.ReadByte();
    if !ok {
      return;
    }
    var host, b := Name([]), [];
    if atyp == 0x01 {
      ok, b := r.ReadFull(4);
      host := V4(b);
    } else if atyp == 0x04 {
      ok, b := r.ReadFull(16);
      host := V6(b);
    } else if atyp == 0x03 {
      var length: byte;
      ok, length := r.ReadByte();
      if !ok {
        return;
      }
      ok, b := r.ReadFull(length);
      host := Name(b);
    } else {
      return false, addr;
    }
    assert ok == ParseHost(old(r.buf)).Done?;
    if !ok {
      return;
    }
    HostSlices(old(r.buf), host, r.buf);
    var port;
    ok, port := r.ReadFull(2);
    if ok {
      addr := Socksaddr(host, BE16(port));
    }
  }

  method ReadSocks5Request(r: Reader) returns (ok: bool, target: Socksaddr)
    modifies r
    ensures ok == ParseRequest(old(r.buf)).Done?
    ensures ok ==> ParseRequest(old(r.buf)) == Done(target, r.buf)
  {
    target := Socksaddr(Name([]), 0);
    var b: byte;
    ok, b := r.ReadByte();
    if !ok || b != 0x05 {
      return false, target;
    }
    ok, b := r.ReadByte();
    if !ok || b != 0x01 {
      return false, target;
    }
    ok, b := r.ReadByte();
    ghost var address := r.buf;
    var atyp: byte;
    ok, atyp := r.ReadByte();
    if !ok {
      return;
    }
    assert address == old(r.buf)[3..];
    var host, bytes := Name([]), [];
    if atyp == 0x01 {
      ok, bytes := r.ReadFull(4);
      host := V4(bytes);
    } else if atyp == 0x03 {
      var length: byte;
      ok, length := r.ReadByte();
      if !ok {
        return;
      }
      ok, bytes := r.ReadFull(length);
      host := Name(bytes);
    } else if atyp == 0x04 {
      ok, bytes := r.ReadFull(16);
      host := V6(bytes);
    } else {
      return false, target;
    }
    assert ok == ParseHost(address).Done?;
    if !ok {
      return;
    }
    HostSlices(address, host, r.buf);
    var port;
    ok, port := r.ReadFull(2);
    if ok {
      target := Socksaddr(host, BE16(port));
    }
  }

  // ---------------------------------------------------------------- the datagram header

  datatype HeaderError = UnexpectedEOF | UnknownType

  function HeaderLen(b: Data): Result<nat, HeaderError> {
    if |b| < 1 then Err(UnexpectedEOF)
    else if b[0] == 0x01 then
      if |b| < 1 + 4 + 2 then Err(UnexpectedEOF) else Ok(1 + 4 + 2)
    else if b[0] == 0x04 then
      if |b| < 1 + 16 + 2 then Err(UnexpectedEOF) else Ok(1 + 16 + 2)
    else if b[0] == 0x03 then
      if |b| < 2 then Err(UnexpectedEOF)
      else
        var dlen: nat := b[1];
        if |b| < 1 + 1 + dlen + 2 then Err(UnexpectedEOF) else Ok(1 + 1 + dlen + 2)
    else Err(UnknownType)
  }

  /** All three decoders accept the same byte strings and take the same number of bytes off the front. */
  lemma DecodersAgree(b: Data, reserved: byte)
    ensures match HeaderLen(b)
      case Ok(n) => ParseAddr(b).Done? && ParseAddr(b).rest == b[n..] && n <= |b|
      case Err(UnexpectedEOF) => ParseAddr(b).More?
      case Err(UnknownType) => ParseAddr(b).Bad?
    ensures ParseRequest([0x05, 0x01, reserved] + b) == ParseAddr(b)
  {
    var request := [0x05, 0x01, reserved] + b;
    assert request[3..] == b;
    if HeaderLen(b).Ok? {
      var n := HeaderLen(b).value;
      assert b[n - 2..][2..] == b[n..];
    }
  }

  lemma ParseHostExtends(b: Data, more: Data)
    ensures ParseHost(b).Done? ==> ParseHost(b + more) == Done(ParseHost(b).value, ParseHost(b).rest + more)
    ensures ParseHost(b).Bad? ==> ParseHost(b + more).Bad?
  {
    var all := b + more;
    if ParseHost(b).Done? {
      var n := |b| - |ParseHost(b).rest|;
      assert all[..n] == b[..n];
      assert all[n..] == b[n..] + more;
      var skip := if b[0] == 0x03 then 2 else 1;
      assert all[skip..n] == b[skip..n];
    }
  }

  /** What a decoder makes of a prefix it makes of the whole stream: segmentation does not matter. */
  lemma ParseAddrExtends(b: Data, more: Data)
    ensures ParseAddr(b).Done? ==> ParseAddr(b + more) == Done(ParseAddr(b).value, ParseAddr(b).rest + more)
    ensures ParseAddr(b).Bad? ==> ParseAddr(b + more).Bad?
  {
    ParseHostExtends(b, more);
    if ParseAddr(b).Done? {
      var rest := ParseHost(b).rest;
      assert (rest + more)[..2] == rest[..2];
      assert (rest + more)[2..] == rest[2..] + more;
    }
  }

  lemma ParseRequestExtends(b: Data, more: Data)
    ensures ParseRequest(b).Done? ==> ParseRequest(b + more) == Done(ParseRequest(b).value, ParseRequest(b).rest + more)
    ensures ParseRequest(b).Bad? ==> ParseRequest(b + more).Bad?
  {
    if |b| >= 4 {
      assert (b + more)[3..] == b[3..] + more;
      ParseAddrExtends(b[3..], more);
    }
  }

  /** What a decoder sees of an encoded name: the length byte keeps only the low eight bits. */
  lemma NameOnTheWire(fqdn: Data, port: nat, more: Data)
    requires port < SIZE16 && |fqdn| > 0
    ensures var b := fqdn + PutBE16(port) + more;
      var n := |fqdn| % 0x100;
      ParseAddr(AppendSocksaddr(Socksaddr(Name(fqdn), port)) + more)
        == Done(Socksaddr(Name(fqdn[..n]), BE16(b[n..n + 2])), b[n + 2..])
  {
    var b := fqdn + PutBE16(port) + more;
    var n := |fqdn| % 0x100;
    var wire := AppendSocksaddr(Socksaddr(Name(fqdn), port)) + more;
    assert wire == [0x03, n] + b;
    assert wire[2..2 + n] == fqdn[..n];
    assert wire[2 + n..][..2] == b[n..n + 2];
    assert wire[2 + n..][2..] == b[n + 2..];
  }

  /**
    Decoding an encoded destination gives it back with nothing left over exactly when its
    name fits the length byte; a longer name yields another destination and leaves the
    rest of the name in the stream.
   */
  lemma AddrRoundTripIff(a: Socksaddr, more: Data)
    requires a.Valid()
    ensures ParseAddr(AppendSocksaddr(a) + more) == Done(a, more) <==> a.Encodable()
    ensures ParseAddr(AppendSocksaddr(a) + more).Done?
    ensures |ParseAddr(AppendSocksaddr(a) + more).rest| - |more| == if a.Encodable() then 0 else |a.host.fqdn| - |a.host.fqdn| % 0x100
  {
    var wire := AppendSocksaddr(a) + more;
    match a.host
    case V4(ip) =>
      assert wire[1..5] == ip && wire[5..][..2] == PutBE16(a.port) && wire[5..][2..] == more;
    case V6(ip) =>
      assert wire[1..17] == ip && wire[17..][..2] == PutBE16(a.port) && wire[17..][2..] == more;
    case Name(fqdn) =>
      NameOnTheWire(fqdn, a.port, more);
      var b := fqdn + PutBE16(a.port) + more;
      if |fqdn| <= 255 {
        assert b[|fqdn|..|fqdn| + 2] == PutBE16(a.port);
        assert b[|fqdn| + 2..] == more;
        assert fqdn[..|fqdn|] == fqdn;
      }
  }

  // ---------------------------------------------------------------- UDP encapsulation

  function Encapsulate(destination: Socksaddr, p: Data): Data
    requires destination.Valid()
  {
    [0x00, 0x00, 0x00] + AppendSocksaddr(destination) + p
  }

  function Take(b: Data, n: nat): Data {
    if |b| <= n then b else b[..n]
  }

  /** One datagram seen through a caller's buffer of `room` bytes; None means it is skipped. */
  function Decapsulate(datagram: Data, room: nat): Option<Data> {
    var buf := Take(datagram, room + 512);
    if |buf| < 3 || buf[2] != 0x00 then None
    else
      match HeaderLen(buf[3..])
      case Err(_) => None
      case Ok(offset) => Some(Take(buf[3 + offset..], room))
  }

  /** ReadFrom's loop over the datagrams the socket delivers: the first one that is not skipped. */
  function FirstPayload(datagrams: seq<Data>, room: nat): Option<Data> {
    if |datagrams| == 0 then None
    else if Decapsulate(datagrams[0], room).Some? then Decapsulate(datagrams[0], room)
    else FirstPayload(datagrams[1..], room)
  }

  method ReadFrom(datagrams: seq<Data>, room: nat) returns (payload: Option<Data>)
    ensures payload == FirstPayload(datagrams, room)
  {
    var i := 0;
    while i < |datagrams|
      invariant 0 <= i <= |datagrams|
      invariant FirstPayload(datagrams[i..], room) == FirstPayload(datagrams, room)
    {
      var buf := Take(datagrams[i], room + 512);
      var next := datagrams[i + 1..];
      assert datagrams[i..][1..] == next;
      i := i + 1;
      if |buf| < 3 {
        continue;
      }
      if buf[2] != 0x00 {
        continue;
      }
      var offset := HeaderLen(buf[3..]);
      if offset.Err? {
        continue;
      }
      return Some(Take(buf[3 + offset.value..], room));
    }
    return None;
  }

  /**
    Any unfragmented datagram with a complete header delivers its whole payload when the
    payload fits the caller's buffer: the 512 spare bytes always hold the header.
   */
  lemma NothingTruncated(header: Data, payload: Data, room: nat)
    requires |header| >= 3 && header[2] == 0x00 && HeaderLen(header[3..]) == Ok(|header| - 3)
    requires |payload| <= room
    ensures Decapsulate(header + payload, room) == Some(payload)
  {
    var datagram := header + payload;
    assert |header| - 3 <= 1 + 1 + 255 + 2;
    assert Take(datagram, room + 512) == datagram;
    assert datagram[3..] == header[3..] + payload;
    assert datagram[|header|..] == payload;
  }

  lemma EncodedHeader(a: Socksaddr)
    requires a.Valid() && a.Encodable()
    ensures HeaderLen(AppendSocksaddr(a)) == Ok(|AppendSocksaddr(a)|)
  {
  }

  /** ReadFrom undoes WriteTo for every destination whose name fits the length byte, and for no other. */
  lemma EncapsulationRoundTripIff(destination: Socksaddr, p: Data, room: nat)
    requires destination.Valid() && |p| < room
    ensures Decapsulate(Encapsulate(destination, p), room) == Some(p) <==> destination.Encodable()
  {
    var header := [0x00, 0x00, 0x00] + AppendSocksaddr(destination);
    assert Encapsulate(destination, p) == header + p;
    assert header[3..] == AppendSocksaddr(destination);
    if destination.Encodable() {
      EncodedHeader(destination);
      NothingTruncated(header, p, room);
    } else {
      LongNameKeepsTooMuch(destination, p, room);
    }
  }

  lemma LongNameKeepsTooMuch(destination: Socksaddr, p: Data, room: nat)
    requires destination.Valid() && !destination.Encodable() && |p| < room
    ensures Decapsulate(Encapsulate(destination, p), room).Some?
    ensures |Decapsulate(Encapsulate(destination, p), room).value| > |p|
  {
    var fqdn := destination.host.fqdn;
    var datagram := Encapsulate(destination, p);
    var buf := Take(datagram, room + 512);
    assert |datagram| == 3 + 2 + |fqdn| + 2 + |p|;
    assert datagram[2] == 0x00 && datagram[3] == 0x03 && datagram[4] == |fqdn| % 0x100;
    assert buf[3..][0] == 0x03 && buf[3..][1] == |fqdn| % 0x100;
  }

  // ---------------------------------------------------------------- the bytes themselves

  /** Every byte of an encoded address: types 1, 3 and 4, a name after its length, the port with its high byte first. */
  lemma AddressBytes(a: Socksaddr)
    requires a.Valid() && a.Encodable()
    ensures var port: Data := [a.port / 0x100, a.port % 0x100];
      AppendSocksaddr(a) ==
        match a.host
        case V4(ip) => [0x01] + ip + port
        case V6(ip) => [0x04] + ip + port
        case Name(fqdn) => [0x03, |fqdn|] + fqdn + port
  {
  }

  /** No other address type is accepted, by any decoder. */
  lemma UnknownTypeRefused(b: Data)
    requires |b| >= 1 && b[0] != 0x01 && b[0] != 0x03 && b[0] != 0x04
    ensures ParseAddr(b).Bad? && HeaderLen(b) == Err(UnknownType)
  {
  }

  /** Only version 5 and the command CONNECT are accepted. */
  lemma OnlyConnect(b: Data)
    ensures |b| >= 1 && b[0] != 0x05 ==> ParseRequest(b).Bad?
    ensures |b| >= 2 && b[1] != 0x01 ==> ParseRequest(b).Bad?
    ensures |b| >= 4 && b[0] == 0x05 && b[1] == 0x01 ==> ParseRequest(b) == ParseAddr(b[3..])
  {
  }

  /** A datagram that is too short, is a fragment or has no complete header is skipped. */
  lemma SkippedDatagrams(datagram: Data, datagrams: seq<Data>, room: nat)
    requires |datagram| < 3 || datagram[2] != 0x00 || (|datagram| >= 4 && datagram[3] != 0x01 && datagram[3] != 0x03 && datagram[3] != 0x04)
    ensures FirstPayload([datagram] + datagrams, room) == FirstPayload(datagrams, room)
  {
    assert ([datagram] + datagrams)[1..] == datagrams;
  }

  /** The two reserved bytes are written as zero and not looked at. */
  lemma ReservedBytes(a: byte, b: byte, rest: Data, room: nat)
    ensures Decapsulate([a, b] + rest, room) == Decapsulate([0, 0] + rest, room)
  {
    var one, two := Take([a, b] + rest, room + 512), Take([0, 0] + rest, room + 512);
    if |one| >= 3 {
      assert one[3..] == two[3..] && one[2] == two[2];
      match HeaderLen(one[3..])
      case Err(_) =>
      case Ok(offset) => assert one[3 + offset..] == two[3 + offset..];
    }
  }

  /** A payload longer than the caller's buffer is cut to it. */
  lemma LongPayloadIsCut(header: Data, payload: Data, room: nat)
    requires |header| >= 3 && header[2] == 0x00 && HeaderLen(header[3..]) == Ok(|header| - 3)
    requires |payload| > room
    ensures Decapsulate(header + payload, room) == Some(payload[..room])
  {
    assert |header| - 3 <= 1 + 1 + 255 + 2;
    var datagram := header + payload;
    var buf := Take(datagram, room + 512);
    var m := |buf| - |header|;
    assert room <= m <= |payload|;
    assert buf == header + payload[..m];
    assert buf[3..] == header[3..] + payload[..m];
    HeaderExtends(header[3..], payload[..m]);
    hide HeaderLen;
    assert buf[|header|..] == payload[..m];
    if m > room {
      assert payload[..m][..room] == payload[..room];
    }
  }

  lemma HeaderExtends(header: Data, more: Data)
    requires HeaderLen(header) == Ok(|header|)
    ensures HeaderLen(header + more) == Ok(|header|)
  {
  }
}
