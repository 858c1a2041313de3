/**
  RakNet frames: the two parsers that walk a frame with a moving offset, and the frame
  layout they are meant to read.
 */
module RakNetFrame {
  import opened Bytes

  datatype ParseError = PacketTooShort | InvalidFragment

  datatype Fragment = Fragment(splitID: nat, splitIndex: nat, splitCount: nat, data: Data, received: int)

  predicate IsFramed(packetID: byte) {
    0x80 <= packetID <= 0x8f
  }

  /** `(bitLength + 7) / 8` in 16-bit arithmetic: the sum wraps before the division. */
  function ByteLength(bitLength: nat): nat
    requires bitLength < SIZE16
  {
    ((bitLength + 7) % SIZE16) / 8
  }

  /** Header bytes between the bit length and the split information. */
  function Extra(reliability: nat): nat {
    (if 2 <= reliability <= 4 then 3 else 0)
    + (if reliability == 1 || reliability == 4 then 3 else 0)
    + (if reliability == 1 || reliability == 3 || reliability == 4 || reliability == 7 then 4 else 0)
  }

  function Reliability(flags: byte): nat {
    flags / 32
  }

  predicate HasSplit(flags: byte) {
    (flags / 16) % 2 == 1
  }

  // ---------------------------------------------------------------- what the parsers compute

  /** The offset where the split information (if any) begins. */
  function BodyOffset(flags: byte): nat {
    7 + Extra(Reliability(flags))
  }

  function FragmentOf(data: Data, now: int): (r: Result<Fragment, ParseError>)
    ensures r.Ok? ==> r.value.splitID < SIZE16 && r.value.splitIndex < SIZE32 && r.value.splitCount < SIZE32
  {
    if |data| < 5 then Err(PacketTooShort)
    else if !IsFramed(data[0]) || !HasSplit(data[4]) then Err(InvalidFragment)
    else if |data| < 7 || |data| < BodyOffset(data[4]) + 10 then Err(PacketTooShort)
    else
      var o := BodyOffset(data[4]);
      var size := ByteLength(BE16(data[5..7]));
      Ok(Fragment(BE16(data[o + 4..o + 6]), BE32(data[o + 6..o + 10]), BE32(data[o..o + 4]),
                  data[o + 10..Min(o + 10 + size, |data|)], now))
  }

  function InnerOf(data: Data): Result<Data, ParseError> {
    if |data| < 7 then Err(PacketTooShort)
    else
      var o := BodyOffset(data[4]) + if HasSplit(data[4]) then 10 else 0;
      if |data| <= o then Err(PacketTooShort)
      else Ok(data[o..Min(o + ByteLength(BE16(data[5..7])), |data|)])
  }

  method ParseFragment(data: Data, now: int) returns (r: Result<Fragment, ParseError>)
    ensures r == FragmentOf(data, now)
  {
    if |data| < 5 {
      return Err(PacketTooShort);
    }
    if !IsFramed(data[0]) {
      return Err(InvalidFragment);
    }
    var offset := 4;
    if offset >= |data| {
      return Err(PacketTooShort);
    }
    var reliability := data[offset] / 32;
    var hasSplit := (data[offset] / 16) % 2 != 0;
    offset := offset + 1;
    if !hasSplit {
      return Err(InvalidFragment);
    }
    if offset + 2 > |data| {
      return Err(PacketTooShort);
    }
    var byteLength := ByteLength(BE16(data[offset..offset + 2]));
    offset := offset + 2;
    if reliability >= 2 && reliability <= 4 {
      offset := offset + 3;
    }
    if reliability == 1 || reliability == 4 {
      offset := offset + 3;
    }
    if reliability == 1 || reliability == 3 || reliability == 4 || reliability == 7 {
      offset := offset + 4;
    }
    if offset + 10 > |data| {
      return Err(PacketTooShort);
    }
    var splitCount := BE32(data[offset..offset + 4]);
    offset := offset + 4;
    var splitID := BE16(data[offset..offset + 2]);
    offset := offset + 2;
    var splitIndex := BE32(data[offset..offset + 4]);
    offset := offset + 4;
    var endOffset := offset + byteLength;
    if endOffset > |data| {
      endOffset := |data|;
    }
    return Ok(Fragment(splitID, splitIndex, splitCount, data[offset..endOffset], now));
  }

  method ExtractInnerPacket(data: Data) returns (r: Result<Data, ParseError>)
    ensures r == InnerOf(data)
  {
    if |data| < 4 {
      return Err(PacketTooShort);
    }
    var offset := 4;
    if offset >= |data| {
      return Err(PacketTooShort);
    }
    var reliability := data[offset] / 32;
    var hasSplit := (data[offset] / 16) % 2 != 0;
    offset := offset + 1;
    if offset + 2 > |data| {
      return Err(PacketTooShort);
    }
    var byteLength := ByteLength(BE16(data[offset..offset + 2]));
    offset := offset + 2;
    if reliability >= 2 && reliability <= 4 {
      offset := offset + 3;
    }
    if reliability == 1 || reliability == 4 {
      offset := offset + 3;
    }
    if reliability == 1 || reliability == 3 || reliability == 4 || reliability == 7 {
      offset := offset + 4;
    }
    if hasSplit {
      offset := offset + 10;
    }
    if offset >= |data| {
      return Err(PacketTooShort);
    }
    var endOffset := offset + byteLength;
    if endOffset > |data| {
      endOffset := |data|;
    }
    return Ok(data[offset..endOffset]);
  }

  // ---------------------------------------------------------------- the frame layout

  /**
    What a sender is free to choose: frame type, sequence number, reliability, the low flag
    bits, a message index, a sequencing index, and an ordering index with its channel.
   */
  datatype Header = Header(
    kind: byte, sequence: Data, reliability: nat, low: nat,
    messageIndex: Data, sequencingIndex: Data, ordering: Data)
  {
    predicate Valid() {
      && 0x80 <= kind <= 0x8f && |sequence| == 3 && reliability < 8 && low < 16
      && |messageIndex| == 3 && |sequencingIndex| == 3 && |ordering| == 4
    }
  }

  /** Which of the indices a frame carries, by its reliability. */
  function Indices(h: Header): Data {
    match h.reliability
    case 1 => h.sequencingIndex + h.ordering
    case 2 => h.messageIndex
    case 3 => h.messageIndex + h.ordering
    case 4 => h.messageIndex + h.sequencingIndex + h.ordering
    case 7 => h.ordering
    case _ => []
  }

  function Flags(h: Header, split: bool): byte
    requires h.Valid()
  {
    h.reliability * 32 + (if split then 16 else 0) + h.low
  }

  /** The longest payload whose bit length the parsers read back correctly. */
  const MAX_PAYLOAD: nat := 8191

  function Prefix(h: Header, split: bool, size: nat): Data
    requires h.Valid() && size <= MAX_PAYLOAD
  {
    [h.kind] + h.sequence + [Flags(h, split)] + PutBE16(8 * size) + Indices(h)
  }

  function PlainFrame(h: Header, payload: Data): Data
    requires h.Valid() && |payload| <= MAX_PAYLOAD
  {
    Prefix(h, false, |payload|) + payload
  }

  function SplitInfo(id: nat, index: nat, count: nat): (b: Data)
    requires id < SIZE16 && index < SIZE32 && count < SIZE32
    ensures |b| == 10
  {
    var b := PutBE32(count) + PutBE16(id) + PutBE32(index);
    b
  }

  function SplitFrame(h: Header, id: nat, index: nat, count: nat, payload: Data): Data
    requires h.Valid() && |payload| <= MAX_PAYLOAD
    requires id < SIZE16 && index < SIZE32 && count < SIZE32
  {
    Prefix(h, true, |payload|) + SplitInfo(id, index, count) + payload
  }

  // ---------------------------------------------------------------- results

  /** The 16-bit computation is the rounded-up byte count exactly up to 65528 bits, that is 8191 bytes. */
  lemma ByteLengthExactIff(bitLength: nat)
    requires bitLength < SIZE16
    ensures ByteLength(bitLength) == (bitLength + 7) / 8 <==> bitLength <= 8 * MAX_PAYLOAD
    ensures bitLength > 8 * MAX_PAYLOAD ==> ByteLength(bitLength) == 0
  {
    if bitLength > 8 * MAX_PAYLOAD {
      assert (bitLength + 7) % SIZE16 < 8;
    } else {
      assert (bitLength + 7) % SIZE16 == bitLength + 7;
    }
  }

  lemma IndicesLength(h: Header)
    requires h.Valid()
    ensures |Indices(h)| == Extra(h.reliability)
  {
  }

  lemma PrefixFields(h: Header, split: bool, size: nat, rest: Data)
    requires h.Valid() && size <= MAX_PAYLOAD
    ensures var data := Prefix(h, split, size) + rest;
      && |Prefix(h, split, size)| == BodyOffset(Flags(h, split))
      && |data| >= 7 && data[0] == h.kind && data[4] == Flags(h, split)
      && Reliability(data[4]) == h.reliability && HasSplit(data[4]) == split
      && ByteLength(BE16(data[5..7])) == size
  {
    IndicesLength(h);
    var data := Prefix(h, split, size) + rest;
    assert data[5..7] == PutBE16(8 * size);
    ByteLengthExactIff(8 * size);
  }

  /** parseFragment reads back every field of a split frame, whatever follows it in the datagram. */
  lemma SplitRoundTrip(h: Header, id: nat, index: nat, count: nat, payload: Data, trailing: Data, now: int)
    requires h.Valid() && |payload| <= MAX_PAYLOAD
    requires id < SIZE16 && index < SIZE32 && count < SIZE32
    ensures FragmentOf(SplitFrame(h, id, index, count, payload) + trailing, now)
         == Ok(Fragment(id, index, count, payload, now))
  {
    SplitFields(h, id, index, count, payload, trailing);
  }

  /** Where the fields of a split frame are. */
  lemma SplitFields(h: Header, id: nat, index: nat, count: nat, payload: Data, trailing: Data)
    requires h.Valid() && |payload| <= MAX_PAYLOAD
    requires id < SIZE16 && index < SIZE32 && count < SIZE32
    ensures var frame, o := SplitFrame(h, id, index, count, payload), BodyOffset(Flags(h, true)); var data := frame + trailing;
      && |frame| == o + 10 + |payload|
      && data[0] == h.kind && data[4] == Flags(h, true) && HasSplit(data[4]) && ByteLength(BE16(data[5..7])) == |payload|
      && data[o..o + 4] == PutBE32(count) && data[o + 4..o + 6] == PutBE16(id) && data[o + 6..o + 10] == PutBE32(index)
      && data[o + 10..o + 10 + |payload|] == payload
  {
    var info := SplitInfo(id, index, count);
    var data := SplitFrame(h, id, index, count, payload) + trailing;
    assert data == Prefix(h, true, |payload|) + (info + payload + trailing);
    PrefixFields(h, true, |payload|, info + payload + trailing);
  }

  /** extractInnerPacket returns exactly the payload of an unsplit frame; a datagram that ends with its header is refused. */
  lemma InnerRoundTrip(h: Header, payload: Data, trailing: Data)
    requires h.Valid() && |payload| <= MAX_PAYLOAD
    ensures InnerOf(PlainFrame(h, payload) + trailing)
         == if |payload + trailing| == 0 then Err(PacketTooShort) else Ok(payload)
  {
    var data := PlainFrame(h, payload) + trailing;
    var o := BodyOffset(Flags(h, false));
    assert data == Prefix(h, false, |payload|) + (payload + trailing);
    PrefixFields(h, false, |payload|, payload + trailing);
    assert data[o..o + |payload|] == payload;
  }

  /** extractInnerPacket steps over the split information of a split frame. */
  lemma InnerOfSplit(h: Header, id: nat, index: nat, count: nat, payload: Data, trailing: Data)
    requires h.Valid() && |payload| <= MAX_PAYLOAD
    requires id < SIZE16 && index < SIZE32 && count < SIZE32
    ensures InnerOf(SplitFrame(h, id, index, count, payload) + trailing)
         == if |payload + trailing| == 0 then Err(PacketTooShort) else Ok(payload)
  {
    var info := SplitInfo(id, index, count);
    var data := SplitFrame(h, id, index, count, payload) + trailing;
    var o := BodyOffset(Flags(h, true));
    assert data == Prefix(h, true, |payload|) + (info + payload + trailing);
    PrefixFields(h, true, |payload|, info + payload + trailing);
    assert data[o + 10..o + 10 + |payload|] == payload;
  }

  /** A frame cut off anywhere is refused inside its header and keeps what is left of its payload after it. */
  lemma CutSplitFrame(h: Header, id: nat, index: nat, count: nat, payload: Data, n: nat, now: int)
    requires h.Valid() && |payload| <= MAX_PAYLOAD && id < SIZE16 && index < SIZE32 && count < SIZE32
    requires n <= |SplitFrame(h, id, index, count, payload)|
    ensures var frame := SplitFrame(h, id, index, count, payload); var header := |frame| - |payload|;
      FragmentOf(frame[..n], now)
        == if n < header then Err(PacketTooShort) else Ok(Fragment(id, index, count, payload[..n - header], now))
  {
    var frame := SplitFrame(h, id, index, count, payload);
    var o := BodyOffset(Flags(h, true));
    SplitFields(h, id, index, count, payload, []);
    assert frame + [] == frame;
    hide SplitFrame;
    if n >= o + 10 {
      CutSlice(frame, n, 5, 7);
      CutSlice(frame, n, o, o + 4);
      CutSlice(frame, n, o + 4, o + 6);
      CutSlice(frame, n, o + 6, o + 10);
      CutSlice(frame, n, o + 10, n);
      assert frame[o + 10..n] == payload[..n - (o + 10)];
    }
  }

  lemma CutSlice(s: Data, n: nat, i: nat, j: nat)
    requires i <= j <= n <= |s|
    ensures s[..n][i..j] == s[i..j]
  {
  }

  lemma CutPlainFrame(h: Header, payload: Data, n: nat)
    requires h.Valid() && |payload| <= MAX_PAYLOAD && n <= |PlainFrame(h, payload)|
    ensures var frame := PlainFrame(h, payload); var header := |frame| - |payload|;
      InnerOf(frame[..n]) == if n <= header then Err(PacketTooShort) else Ok(payload[..n - header])
  {
    var frame := PlainFrame(h, payload);
    var o := BodyOffset(Flags(h, false));
    PrefixFields(h, false, |payload|, payload);
    var cut := frame[..n];
    if n > o {
      assert cut[5..7] == frame[5..7];
      assert cut[o..n] == payload[..n - o];
    }
  }

  /** Frames without split information, and packets of other types, are no fragments. */
  lemma NotAFragment(data: Data, now: int)
    requires |data| >= 5
    ensures data[0] < 0x80 || data[0] > 0x8f ==> FragmentOf(data, now) == Err(InvalidFragment)
    ensures data[4] % 32 < 16 ==> FragmentOf(data, now) == Err(InvalidFragment)
  {
  }

  /** Every byte of a split frame. */
  lemma SplitFrameBytes(h: Header, id: nat, index: nat, count: nat, payload: Data)
    requires h.Valid() && |payload| <= MAX_PAYLOAD && id < SIZE16 && index < SIZE32 && count < SIZE32
    ensures SplitFrame(h, id, index, count, payload)
         == [h.kind] + h.sequence + [h.reliability * 32 + 16 + h.low, 8 * |payload| / 0x100, 8 * |payload| % 0x100] + Indices(h)
            + PutBE32(count) + PutBE16(id) + PutBE32(index) + payload
  {
  }

  /** One reliable ordered split frame, byte by byte. */
  lemma KnownFragment(now: int)
    ensures FragmentOf([0x84, 0, 0, 0, 0x70, 0, 8, 1, 0, 0, 0, 0, 0, 0, 0, 0, 0, 2, 0, 9, 0, 0, 0, 1, 0x41], now)
         == Ok(Fragment(9, 1, 2, [0x41], now))
  {
    var data: Data := [0x84, 0, 0, 0, 0x70, 0, 8, 1, 0, 0, 0, 0, 0, 0, 0, 0, 0, 2, 0, 9, 0, 0, 0, 1, 0x41];
    TwoAt(data, 5);
    FourAt(data, 14);
    TwoAt(data, 18);
    FourAt(data, 20);
    OneAt(data, 24);
    assert BodyOffset(data[4]) == 14 && HasSplit(data[4]);
  }

  lemma OneAt(data: Data, i: nat)
    requires i + 1 <= |data|
    ensures data[i..i + 1] == [data[i]]
  {
  }

  lemma TwoAt(data: Data, i: nat)
    requires i + 2 <= |data|
    ensures BE16(data[i..i + 2]) == data[i] as int * 0x100 + data[i + 1]
  {
  }

  lemma FourAt(data: Data, i: nat)
    requires i + 4 <= |data|
    ensures BE32(data[i..i + 4]) == data[i] as int * 0x100_0000 + data[i + 1] as int * 0x1_0000 + data[i + 2] as int * 0x100 + data[i + 3]
  {
    var b := data[i..i + 4];
    ByteOrders(b[0], b[1], b[2], b[3]);
    assert b == [b[0], b[1], b[2], b[3]];
  }
}
