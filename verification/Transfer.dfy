/**
  Variable-length integers and the transfer packet that redirects a client, bare or
  inside an unsplit RakNet frame.
 */
module Transfer {
  import opened Bytes
  import opened RakNetFrame
  import opened DivMod

  datatype Error = TooShort | InvalidPacket | NotTransfer | SliceOutOfRange

  type int32 = v: int | -0x8000_0000 <= v < 0x8000_0000

  /** `uint32(v)`. */
  function ToUnsigned(v: int32): (u: nat)
    ensures u < SIZE32
  {
    if v < 0 then v + SIZE32 else v
  }

  /** `int32(u)`: the value modulo 2^32 in two's complement. */
  function ToSigned(u: nat): (v: int32)
  {
    var w := u % SIZE32;
    if w < 0x8000_0000 then w else w - SIZE32
  }

  // ---------------------------------------------------------------- writing

  /** Seven bits at a time, lowest first; every byte but the last has its high bit set. */
  function VarBytes(u: nat): (b: Data)
    ensures |b| >= 1
  {
    if u < 128 then [u] else [u % 128 + 128] + VarBytes(u / 128)
  }

  method WriteVarInt(value: int32) returns (written: Data)
    ensures written == VarBytes(ToUnsigned(value))
  {
    var uvalue := ToUnsigned(value);
    written := [];
    while true
      invariant written + VarBytes(uvalue) == VarBytes(ToUnsigned(value))
      decreases uvalue
    {
      var b := uvalue % 128;
      var rest := uvalue / 128;
      if rest != 0 {
        b := b + 128;
      }
      assert VarBytes(uvalue) == [b] + if rest == 0 then [] else VarBytes(rest);
      written := written + [b];
      uvalue := rest;
      if uvalue == 0 {
        break;
      }
    }
  }

  // ---------------------------------------------------------------- reading

  datatype VarInt = VarInt(value: int32, bytesRead: nat)

  function Pow128(k: nat): (p: nat)
    ensures p >= 1
  {
    if k == 0 then 1 else 128 * Pow128(k - 1)
  }

  /** What the lowest seven bits of u add to the result as group k. */
  function Gain(u: nat, k: nat): nat {
    u % 128 * Pow128(k)
  }

  /**
    Reading from byte k on, having accumulated `acc`.  The groups occupy disjoint bits, so
    the `|=` of the loop is an addition; the shift by 28 drops what exceeds 32 bits.
   */
  function ReadFrom(data: Data, offset: nat, k: nat, acc: nat): Result<VarInt, Error>
    decreases 5 - k
  {
    if offset + k >= |data| then Err(TooShort)
    else
      var b := data[offset + k];
      var result := acc + Gain(b, k) % SIZE32;
      if b < 128 then Ok(VarInt(ToSigned(result), k + 1))
      else if k + 1 >= 5 then Err(InvalidPacket)
      else ReadFrom(data, offset, k + 1, result)
  }

  method ReadVarInt(data: Data, offset: nat) returns (r: Result<VarInt, Error>)
    ensures r == ReadFrom(data, offset, 0, 0)
  {
    if offset >= |data| {
      return Err(TooShort);
    }
    var result: nat := 0;
    var bytesRead := 0;
    var place := 1;
    while true
      invariant bytesRead < 5 && place == Pow128(bytesRead)
      invariant ReadFrom(data, offset, bytesRead, result) == ReadFrom(data, offset, 0, 0)
      decreases 5 - bytesRead
    {
      if offset + bytesRead >= |data| {
        return Err(TooShort);
      }
      var b := data[offset + bytesRead];
      result := result + (b % 128 * place) % SIZE32;
      bytesRead := bytesRead + 1;
      if b < 128 {
        return Ok(VarInt(ToSigned(result), bytesRead));
      }
      place := 128 * place;
      if bytesRead >= 5 {
        return Err(InvalidPacket);
      }
    }
  }

  lemma GroupSplits(u: nat, p: nat)
    ensures u % 128 * p + u / 128 * (128 * p) == u * p
  {
    var q, m := u / 128, u % 128;
    assert u == 128 * q + m;
    calc {
      u * p;
      (128 * q + m) * p;
      128 * q * p + m * p;
      q * (128 * p) + m * p;
    }
  }

  /** What the number u adds to the result from group k on. */
  ghost function Weight(u: nat, k: nat): nat {
    u * Pow128(k)
  }

  /** The bounds carry over from one group to the next. */
  lemma NextGroup(u: nat, k: nat)
    requires k < 5 && u >= 128 && Weight(u, k) < SIZE32
    requires k == 4 ==> u < 128
    requires k < 4 ==> u < Pow128(5 - k)
    ensures k < 4 && Weight(u / 128, k + 1) + Gain(u, k) == Weight(u, k)
    ensures k + 1 == 4 ==> u / 128 < 128
    ensures u / 128 < Pow128(4 - k)
  {
    GroupSplits(u, Pow128(k));
    assert Pow128(5 - k) == 128 * Pow128(4 - k);
    assert k + 1 == 4 ==> Pow128(4 - k) == 128 * Pow128(0);
  }

  lemma NextByte(before: Data, u: nat, after: Data)
    requires u >= 128
    ensures var b: byte := u % 128 + 128; var data := before + VarBytes(u) + after;
      && data[|before|] == b && b % 128 == u % 128
      && data == (before + [b]) + VarBytes(u / 128) + after && |VarBytes(u)| == 1 + |VarBytes(u / 128)|
  {
    var b: byte := u % 128 + 128;
    assert VarBytes(u) == [b] + VarBytes(u / 128);
  }

  lemma {:induction false} ReadBack(before: Data, u: nat, after: Data, offset: nat, k: nat, acc: nat)
    requires |before| == offset + k && k < 5
    requires Weight(u, k) + acc < SIZE32
    requires k == 4 ==> u < 128
    requires k < 4 ==> u < Pow128(5 - k)
    ensures ReadFrom(before + VarBytes(u) + after, offset, k, acc)
         == Ok(VarInt(ToSigned(acc + Weight(u, k)), k + |VarBytes(u)|))
    decreases u
  {
    var data := before + VarBytes(u) + after;
    if u < 128 {
      assert data[offset + k] == u && |VarBytes(u)| == 1;
      OneGroup(u, k);
      hide Pow128, Gain, Weight, VarBytes, ReadFrom, ToSigned;
      var last: byte := u;
      ReadOne(data, offset, k, acc, last, u);
    } else {
      NextByte(before, u, after);
      NextGroup(u, k);
      hide Pow128, VarBytes, ReadFrom, ToSigned, Gain, Weight;
      var b: byte := u % 128 + 128;
      ReadOne(data, offset, k, acc, b, u);
      ReadBack(before + [b], u / 128, after, offset, k + 1, acc + Gain(u, k));
    }
  }

  lemma ReadOne(data: Data, offset: nat, k: nat, acc: nat, b: byte, u: nat)
    requires k < 5 && offset + k < |data| && data[offset + k] == b && (b >= 128 ==> k < 4)
    requires b % 128 == u % 128 && acc + Gain(u, k) < SIZE32
    ensures b < 128 ==> ReadFrom(data, offset, k, acc) == Ok(VarInt(ToSigned(acc + Gain(u, k)), k + 1))
    ensures b >= 128 ==> ReadFrom(data, offset, k, acc) == ReadFrom(data, offset, k + 1, acc + Gain(u, k))
  {
    SameGain(b, u, k);
    hide Gain, ToSigned;
    SmallMod(Gain(b, k), SIZE32);
  }

  lemma SmallMod(x: nat, n: nat)
    requires x < n
    ensures x % n == x
  {
  }

  lemma OneGroup(u: nat, k: nat)
    requires u < 128
    ensures Gain(u, k) == Weight(u, k)
  {
  }

  lemma SameGain(a: nat, b: nat, k: nat)
    requires a % 128 == b % 128
    ensures Gain(a, k) == Gain(b, k)
  {
    var m := a % 128;
    assert Gain(a, k) == m * Pow128(k);
  }

  /** readVarInt inverts writeVarInt for every int32, at any offset and before any bytes. */
  lemma VarIntRoundTrip(before: Data, value: int32, after: Data)
    ensures ReadFrom(before + VarBytes(ToUnsigned(value)) + after, |before|, 0, 0)
         == Ok(VarInt(value, |VarBytes(ToUnsigned(value))|))
  {
    var u := ToUnsigned(value);
    FiveGroups();
    hide VarBytes, ReadFrom, Pow128;
    ReadBack(before, u, after, |before|, 0, 0);
  }

  lemma FiveGroups()
    ensures Pow128(0) == 1 && Pow128(5) == 0x8_0000_0000
  {
    assert Pow128(2) == 128 * Pow128(1);
    assert Pow128(4) == 128 * Pow128(3);
  }

  // ---------------------------------------------------------------- the transfer packet

  const IDTransfer: byte := 0x55
  const Wrapper: byte := 0xfe

  datatype TransferInfo = TransferInfo(address: Data, port: nat)

  function Packet(address: Data, port: nat): Data
    requires port < SIZE16
  {
    [Wrapper, IDTransfer] + VarBytes(ToUnsigned(ToSigned(|address|))) + address + PutLE16(port)
  }

  method BuildTransferPacket(address: Data, port: nat) returns (packet: Data)
    requires port < SIZE16
    ensures packet == Packet(address, port)
  {
    packet := [Wrapper];
    packet := packet + [IDTransfer];
    var length := WriteVarInt(ToSigned(|address|));
    packet := packet + length;
    packet := packet + address;
    packet := packet + PutLE16(port);
  }

  /** Where the packet ID and the fields of a transfer packet are found. */
  datatype Located = Located(packetID: byte, data: Data, offset: nat)

  function Locate(data: Data): Result<Located, Error> {
    if |data| < 2 then Err(TooShort)
    else if data[0] == Wrapper then Ok(Located(data[1], data, 2))
    else if IsFramed(data[0]) then
      match InnerOf(data)
      case Err(_) => Err(TooShort)
      case Ok(inner) =>
        if |inner| == 0 then Ok(Located(data[0], inner, 0))
        else if inner[0] == Wrapper && |inner| > 1 then Ok(Located(inner[1], inner, 2))
        else Ok(Located(inner[0], inner, 1))
    else Ok(Located(data[0], data, 1))
  }

  /** The fields after the packet ID.  A negative length makes the Go slice expression fail at run time. */
  function Fields(data: Data, offset: nat): Result<TransferInfo, Error> {
    match ReadFrom(data, offset, 0, 0)
    case Err(e) => Err(e)
    case Ok(v) =>
      var start := offset + v.bytesRead;
      if start + v.value > |data| then Err(TooShort)
      else if v.value < 0 || start > |data| then Err(SliceOutOfRange)
      else if start + v.value + 2 > |data| then Err(TooShort)
      else
        var end := start + v.value;
        Ok(TransferInfo(data[start..end], LE16(data[end..end + 2])))
  }

  function ParseTransfer(data: Data): Result<TransferInfo, Error> {
    match Locate(data)
    case Err(e) => Err(e)
    case Ok(at) => if at.packetID != IDTransfer then Err(NotTransfer) else Fields(at.data, at.offset)
  }

  method ParseTransferPacket(packet: Data) returns (r: Result<TransferInfo, Error>)
    ensures r == ParseTransfer(packet)
  {
    var data := packet;
    if |data| < 2 {
      return Err(TooShort);
    }
    var packetID := data[0];
    var offset := 0;
    if packetID == Wrapper {
      offset := 1;
      packetID := data[offset];
      offset := offset + 1;
    } else if IsFramed(packetID) {
      var inner := ExtractInnerPacket(data);
      if inner.Err? {
        return Err(TooShort);
      }
      data := inner.value;
      offset := 0;
      if |data| > 0 {
        packetID := data[0];
        offset := 1;
        if packetID == Wrapper && |data| > 1 {
          packetID := data[1];
          offset := 2;
        }
      }
    } else {
      offset := 1;
    }
    if packetID != IDTransfer {
      return Err(NotTransfer);
    }
    var length := ReadVarInt(data, offset);
    if length.Err? {
      return Err(length.error);
    }
    offset := offset + length.value.bytesRead;
    if offset + length.value.value > |data| {
      return Err(TooShort);
    }
    if length.value.value < 0 || offset > |data| {
      return Err(SliceOutOfRange);
    }
    var address := data[offset..offset + length.value.value];
    offset := offset + length.value.value;
    if offset + 2 > |data| {
      return Err(TooShort);
    }
    return Ok(TransferInfo(address, LE16(data[offset..offset + 2])));
  }

  predicate IsTransfer(data: Data) {
    |data| >= 2 &&
    var packetID := if data[0] == Wrapper then data[1] else data[0];
    if !IsFramed(packetID) then packetID == IDTransfer
    else
      match InnerOf(data)
      case Err(_) => false
      case Ok(inner) =>
        if |inner| == 0 then packetID == IDTransfer
        else if inner[0] == Wrapper && |inner| > 1 then inner[1] == IDTransfer
        else inner[0] == IDTransfer
  }

  // ---------------------------------------------------------------- results

  lemma Middle(front: Data, address: Data, tail: Data, trailing: Data)
    requires |tail| == 2
    ensures var data, start := front + (address + tail + trailing), |front|;
      && data[start..start + |address|] == address
      && data[start + |address|..start + |address| + 2] == tail
  {
  }

  lemma FieldsRoundTrip(address: Data, port: nat, trailing: Data)
    requires port < SIZE16 && |address| < 0x8000_0000
    ensures Fields(Packet(address, port) + trailing, 2) == Ok(TransferInfo(address, port))
  {
    var head, length := [Wrapper, IDTransfer], VarBytes(|address|);
    var tail := PutLE16(port);
    var rest := address + tail + trailing;
    var data := Packet(address, port) + trailing;
    assert data == head + length + rest;
    VarIntRoundTrip(head, |address|, rest);
    hide VarBytes, ReadFrom, Packet, LE16, PutLE16;
    Middle(head + length, address, tail, trailing);
  }

  /** ParseTransferPacket inverts BuildTransferPacket exactly for addresses whose length fits an int32. */
  lemma TransferRoundTripIff(address: Data, port: nat)
    requires port < SIZE16
    ensures ParseTransfer(Packet(address, port)) == Ok(TransferInfo(address, port)) <==> |address| < 0x8000_0000
  {
    if |address| < 0x8000_0000 {
      FieldsRoundTrip(address, port, []);
      assert Packet(address, port) + [] == Packet(address, port);
    } else {
      var packet := Packet(address, port);
      if Fields(packet, 2).Ok? {
        ParsedLength(packet, 2);
      }
    }
  }

  lemma ParsedLength(data: Data, offset: nat)
    requires Fields(data, offset).Ok?
    ensures |Fields(data, offset).value.address| < 0x8000_0000
  {
  }

  /** The same inside an unsplit frame of at most 8191 bytes, at any reliability. */
  lemma FramedTransferRoundTrip(h: Header, address: Data, port: nat, trailing: Data)
    requires h.Valid() && port < SIZE16 && |Packet(address, port)| <= MAX_PAYLOAD
    ensures ParseTransfer(PlainFrame(h, Packet(address, port)) + trailing) == Ok(TransferInfo(address, port))
    ensures IsTransfer(PlainFrame(h, Packet(address, port)) + trailing)
  {
    var packet := Packet(address, port);
    InnerRoundTrip(h, packet, trailing);
    FieldsRoundTrip(address, port, []);
    assert packet + [] == packet;
    var frame := PlainFrame(h, packet) + trailing;
    assert frame[0] == h.kind;
  }

  lemma BuiltIsTransfer(address: Data, port: nat)
    requires port < SIZE16
    ensures IsTransfer(Packet(address, port))
  {
    assert Packet(address, port)[1] == IDTransfer;
  }

  // ---------------------------------------------------------------- the bytes themselves

  /** Byte k of a varint holds bits 7k to 7k + 6; its high bit says whether another byte follows. */
  lemma {:induction false} VarBytesAt(u: nat, k: nat)
    requires k < |VarBytes(u)|
    ensures VarBytes(u)[k] == u / Pow128(k) % 128 + if k == |VarBytes(u)| - 1 then 0 else 128
    ensures k == |VarBytes(u)| - 1 ==> u < Pow128(k + 1)
    decreases k
  {
    if k > 0 {
      VarBytesAt(u / 128, k - 1);
      assert VarBytes(u) == [u % 128 + 128] + VarBytes(u / 128);
      DivDivBy(u, 128, Pow128(k - 1));
      assert Pow128(k + 1) == 128 * Pow128(k);
    }
  }

  /** A varint that does not end within five bytes is invalid; one that the packet cuts off is too short. */
  lemma {:induction false} UnendedVarInt(data: Data, offset: nat, k: nat, acc: nat)
    requires k < 5 && forall i :: offset + k <= i < |data| && i < offset + 5 ==> data[i] >= 128
    ensures ReadFrom(data, offset, k, acc) == Err(if |data| < offset + 5 then TooShort else InvalidPacket)
    decreases 5 - k
  {
    if offset + k < |data| && k < 4 {
      UnendedVarInt(data, offset, k + 1, acc + Gain(data[offset + k], k) % SIZE32);
    }
  }

  /** 300 takes two bytes, lowest group first; minus one takes five. */
  lemma KnownVarInts()
    ensures VarBytes(ToUnsigned(300)) == [0xac, 0x02]
    ensures VarBytes(ToUnsigned(-1)) == [0xff, 0xff, 0xff, 0xff, 0x0f]
  {
    assert VarBytes(2) == [2] && VarBytes(15) == [15];
    assert VarBytes(0x7ff) == [0xff] + VarBytes(15);
    assert VarBytes(0x3_ffff) == [0xff] + VarBytes(0x7ff);
    assert VarBytes(0x1ff_ffff) == [0xff] + VarBytes(0x3_ffff);
  }

  /** A built packet, byte by byte: wrapper 0xfe, ID 0x55, length, address, port with its low byte first. */
  lemma PacketBytes(address: Data, port: nat)
    requires port < SIZE16 && |address| < 128
    ensures Packet(address, port) == [0xfe, 0x55, |address|] + address + [port % 0x100, port / 0x100]
  {
    assert VarBytes(|address|) == [|address|];
  }

  /** Which bare packets are transfer packets, by their ID byte; the parser refuses the others. */
  lemma BareTransferIff(data: Data)
    requires |data| >= 2 && (data[0] == 0xfe ==> data[1] < 0x80 || data[1] > 0x8f) && (data[0] < 0x80 || data[0] > 0x8f)
    ensures IsTransfer(data) <==> (if data[0] == 0xfe then data[1] else data[0]) == 0x55
    ensures !IsTransfer(data) ==> ParseTransfer(data) == Err(NotTransfer)
  {
  }

  /** Which framed packets are, by the ID byte of the packet inside. */
  lemma FramedTransferIff(h: Header, payload: Data, trailing: Data)
    requires h.Valid() && 2 <= |payload| <= MAX_PAYLOAD
    ensures var frame := PlainFrame(h, payload) + trailing;
      && (IsTransfer(frame) <==> (if payload[0] == 0xfe then payload[1] else payload[0]) == 0x55)
      && (!IsTransfer(frame) ==> ParseTransfer(frame) == Err(NotTransfer))
  {
    InnerRoundTrip(h, payload, trailing);
    var frame := PlainFrame(h, payload) + trailing;
    assert frame[0] == h.kind;
    hide InnerOf, PlainFrame;
  }

  /** A packet too short for an ID is refused by both. */
  lemma TooShortForID(data: Data)
    requires |data| < 2
    ensures !IsTransfer(data) && ParseTransfer(data) == Err(TooShort)
  {
  }
}
