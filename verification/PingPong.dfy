/**
  The unconnected ping and pong: the tester's ping, the handler's answer, and the check
  the tester applies to the datagrams it receives.
 */
module PingPong {
  import opened Bytes
  import opened DivMod

  // ---------------------------------------------------------------- 64-bit big-endian fields

  function Pow256(k: nat): (p: nat)
    ensures p >= 1
  {
    if k == 0 then 1 else 0x100 * Pow256(k - 1)
  }

  function BigEndian(n: nat, width: nat): (b: Data)
    ensures |b| == width
  {
    if width == 0 then [] else BigEndian(n / 0x100, width - 1) + [n % 0x100]
  }

  function Value(b: Data): nat {
    if |b| == 0 then 0 else Value(b[..|b| - 1]) * 0x100 + b[|b| - 1]
  }

  lemma {:induction false} ValueOfBigEndian(n: nat, width: nat)
    requires n < Pow256(width)
    ensures Value(BigEndian(n, width)) == n
  {
    if width > 0 {
      var b := BigEndian(n, width);
      assert b[..width - 1] == BigEndian(n / 0x100, width - 1);
      ValueOfBigEndian(n / 0x100, width - 1);
    }
  }

  /** Byte i of the field is what the shift by 8 * (width - 1 - i) leaves in the low byte. */
  lemma {:induction false} BigEndianAt(n: nat, width: nat, i: nat)
    requires i < width
    ensures BigEndian(n, width)[i] == n / Pow256(width - 1 - i) % 0x100
  {
    if i < width - 1 {
      BigEndianAt(n / 0x100, width - 1, i);
      DivDivBy(n, 0x100, Pow256(width - 2 - i));
    }
  }

  const SIZE64: nat := 0x1_0000_0000_0000_0000

  type int64 = t: int | -0x8000_0000_0000_0000 <= t < 0x8000_0000_0000_0000

  function Bits64(t: int64): (u: nat)
    ensures u < SIZE64
  {
    if t < 0 then t + SIZE64 else t
  }

  function Signed64(u: nat): int64
    requires u < SIZE64
  {
    if u < 0x8000_0000_0000_0000 then u else u - SIZE64
  }

  lemma EightBytes(u: nat)
    requires u < SIZE64
    ensures Value(BigEndian(u, 8)) == u
  {
    EightBytesRange();
    ValueOfBigEndian(u, 8);
  }

  // ---------------------------------------------------------------- ping

  const Magic: Data := [0x00, 0xff, 0xff, 0x00, 0xfe, 0xfe, 0xfe, 0xfe, 0xfd, 0xfd, 0xfd, 0xfd, 0x12, 0x34, 0x56, 0x78]

  const ClientGUID: Data := [0, 1, 2, 3, 4, 5, 6, 7]

  function Ping(timestamp: int64): (packet: Data)
    ensures |packet| == 33
  {
    [0x01] + BigEndian(Bits64(timestamp), 8) + Magic + ClientGUID
  }

  method BuildRakNetPing(timestamp: int64) returns (packet: Data)
    ensures packet == Ping(timestamp)
  {
    var buf := new byte[33](_ => 0);
    buf[0] := 0x01;
    var u := Bits64(timestamp);
    for i := 0 to 8
      invariant buf[0] == 0x01
      invariant forall k :: 0 <= k < i ==> buf[1 + k] == BigEndian(u, 8)[k]
    {
      BigEndianAt(u, 8, i);
      buf[1 + i] := u / Pow256(7 - i) % 0x100;
    }
    for i := 0 to 16
      invariant buf[0] == 0x01
      invariant forall k :: 0 <= k < 8 ==> buf[1 + k] == BigEndian(u, 8)[k]
      invariant forall k :: 0 <= k < i ==> buf[9 + k] == Magic[k]
    {
      buf[9 + i] := Magic[i];
    }
    for i := 0 to 8
      invariant buf[0] == 0x01
      invariant forall k :: 0 <= k < 8 ==> buf[1 + k] == BigEndian(u, 8)[k]
      invariant forall k :: 0 <= k < 16 ==> buf[9 + k] == Magic[k]
      invariant forall k :: 0 <= k < i ==> buf[25 + k] == ClientGUID[k]
    {
      buf[25 + i] := i;
    }
    packet := buf[..];
  }

  // ---------------------------------------------------------------- pong

  datatype PingError = PacketTooShort | InvalidPacket | InvalidMagic

  function Pong(timestamp: int64, serverGUID: int64, serverID: Data): Data {
    [0x1c] + BigEndian(Bits64(timestamp), 8) + BigEndian(Bits64(serverGUID), 8) + Magic
    + PutBE16(|serverID| % SIZE16) + serverID
  }

  function Answer(data: Data, serverGUID: int64, serverID: Data): Result<Data, PingError> {
    if |data| < 33 then Err(PacketTooShort)
    else if data[0] != 0x01 && data[0] != 0x02 then Err(InvalidPacket)
    else if data[9..25] != Magic then Err(InvalidMagic)
    else Ok(Pong(Timestamp(data), serverGUID, serverID))
  }

  /** The signed timestamp in bytes 1 to 8. */
  function Timestamp(data: Data): int64
    requires |data| >= 9
  {
    Signed64(Value(data[1..9]) % SIZE64)
  }

  class Handler {
    const serverGUID: int64
    var serverID: Data

    constructor (serverGUID: int64, serverID: Data)
      ensures this.serverGUID == serverGUID && this.serverID == serverID
    {
      this.serverGUID := serverGUID;
      this.serverID := serverID;
    }

    method UpdateServerID(serverID: Data)
      modifies this
      ensures this.serverID == serverID
    {
      this.serverID := serverID;
    }

    method BuildUnconnectedPong(sendTimestamp: int64) returns (packet: Data)
      ensures packet == Pong(sendTimestamp, serverGUID, serverID)
    {
      packet := [0x1c];
      packet := packet + BigEndian(Bits64(sendTimestamp), 8);
      packet := packet + BigEndian(Bits64(serverGUID), 8);
      packet := packet + Magic;
      packet := packet + PutBE16(|serverID| % SIZE16);
      packet := packet + serverID;
    }

    method HandleUnconnectedPing(data: Data) returns (r: Result<Data, PingError>)
      ensures r == Answer(data, serverGUID, serverID)
    {
      if |data| < 33 {
        return Err(PacketTooShort);
      }
      var packetID := data[0];
      if packetID != 0x01 && packetID != 0x02 {
        return Err(InvalidPacket);
      }
      if data[9..25] != Magic {
        return Err(InvalidMagic);
      }
      var pong := BuildUnconnectedPong(Timestamp(data));
      return Ok(pong);
    }
  }

  // ---------------------------------------------------------------- the tester's check

  const BUFFER: nat := 1500

  /** What one datagram means to the tester waiting for its timestamp. */
  datatype Reading = Stale | Motd(text: Data) | NoMotd | Unknown | Empty

  /** The part of a datagram that fits the read buffer. */
  function Received(datagram: Data): Data {
    if |datagram| <= BUFFER then datagram else datagram[..BUFFER]
  }

  function Judge(datagram: Data, expected: nat): Reading {
    var buf := Received(datagram);
    var n := |buf|;
    if n > 9 && buf[0] == 0x1c && Value(buf[1..9]) != expected then Stale
    else if n > 35 && buf[0] == 0x1c then
      var length := BE16(buf[33..35]);
      if 35 + length <= n then Motd(buf[35..35 + length]) else NoMotd
    else if n > 0 then Unknown
    else Empty
  }

  /** The read loop before its deadline: stale pongs are skipped, anything else ends it. */
  datatype Verdict = TimedOut | Ended(reading: Reading)

  function Await(datagrams: seq<Data>, expected: nat): Verdict {
    if |datagrams| == 0 then TimedOut
    else if Judge(datagrams[0], expected).Stale? then Await(datagrams[1..], expected)
    else Ended(Judge(datagrams[0], expected))
  }

  method AwaitReply(datagrams: seq<Data>, expected: nat) returns (v: Verdict)
    ensures v == Await(datagrams, expected)
  {
    var i := 0;
    while i < |datagrams|
      invariant 0 <= i <= |datagrams|
      invariant Await(datagrams[i..], expected) == Await(datagrams, expected)
    {
      var reading := Judge(datagrams[i], expected);
      if !reading.Stale? {
        return Ended(reading);
      }
      i := i + 1;
    }
    return TimedOut;
  }

  // ---------------------------------------------------------------- results

  lemma PingFields(timestamp: int64)
    ensures var data := Ping(timestamp);
      data[0] == 0x01 && data[9..25] == Magic && data[1..9] == BigEndian(Bits64(timestamp), 8)
    ensures Timestamp(Ping(timestamp)) == timestamp
    ensures Value(Ping(timestamp)[1..9]) == Bits64(timestamp)
  {
    var data := Ping(timestamp);
    assert data[9..25] == Magic;
    assert data[1..9] == BigEndian(Bits64(timestamp), 8);
    EightBytes(Bits64(timestamp));
  }

  lemma PongFields(timestamp: int64, guid: int64, serverID: Data)
    ensures var data := Pong(timestamp, guid, serverID);
      && |data| == 35 + |serverID| && data[0] == 0x1c
      && Value(data[1..9]) == Bits64(timestamp)
      && BE16(data[33..35]) == |serverID| % SIZE16
      && data[35..] == serverID
  {
    var data := Pong(timestamp, guid, serverID);
    assert data[1..9] == BigEndian(Bits64(timestamp), 8);
    assert data[33..35] == PutBE16(|serverID| % SIZE16);
    assert data[35..] == serverID;
    EightBytes(Bits64(timestamp));
  }

  /** Every ping the tester builds is answered, with its own timestamp. */
  lemma PingIsAnswered(timestamp: int64, guid: int64, serverID: Data)
    ensures Answer(Ping(timestamp), guid, serverID) == Ok(Pong(timestamp, guid, serverID))
  {
    PingFields(timestamp);
  }

  lemma PongIsJudged(timestamp: int64, guid: int64, serverID: Data)
    ensures Judge(Pong(timestamp, guid, serverID), Bits64(timestamp)) ==
      if |serverID| == 0 then Unknown
      else if 35 + |serverID| % SIZE16 <= Min(35 + |serverID|, BUFFER) then Motd(serverID[..|serverID| % SIZE16])
      else NoMotd
  {
    var data := Pong(timestamp, guid, serverID);
    PongFields(timestamp, guid, serverID);
    var buf := Received(data);
    assert buf[1..9] == data[1..9] && buf[33..35] == data[33..35];
    var length := |serverID| % SIZE16;
    if 35 + length <= |buf| {
      assert buf[35..35 + length] == data[35..][..length];
    }
  }

  /**
    The tester reads back exactly the handler's MOTD, after any number of stale pongs,
    if and only if the MOTD has 1 to 1465 bytes, the room left in its 1500-byte buffer.
   */
  lemma {:induction false} MotdRoundTripIff(stale: seq<Data>, timestamp: int64, guid: int64, serverID: Data)
    requires forall k :: 0 <= k < |stale| ==> Judge(stale[k], Bits64(timestamp)).Stale?
    ensures Answer(Ping(timestamp), guid, serverID).Ok?
    ensures Await(stale + [Answer(Ping(timestamp), guid, serverID).value], Value(Ping(timestamp)[1..9]))
              == Ended(Motd(serverID))
            <==> 1 <= |serverID| <= 1465
  {
    PingIsAnswered(timestamp, guid, serverID);
    PingFields(timestamp);
    var all := stale + [Pong(timestamp, guid, serverID)];
    if |stale| == 0 {
      PongIsJudged(timestamp, guid, serverID);
      assert serverID[..|serverID| % SIZE16] == serverID <==> |serverID| < SIZE16;
    } else {
      assert all[1..] == stale[1..] + [Pong(timestamp, guid, serverID)];
      MotdRoundTripIff(stale[1..], timestamp, guid, serverID);
    }
  }

  // ---------------------------------------------------------------- the bytes themselves

  /** Every byte of a ping. */
  lemma PingBytes(timestamp: int64)
    ensures Ping(timestamp) == [0x01] + BigEndian(Bits64(timestamp), 8)
      + [0x00, 0xff, 0xff, 0x00, 0xfe, 0xfe, 0xfe, 0xfe, 0xfd, 0xfd, 0xfd, 0xfd, 0x12, 0x34, 0x56, 0x78]
      + [0, 1, 2, 3, 4, 5, 6, 7]
  {
  }

  /** Every byte of a pong: both 64-bit fields can be read off, and the length covers the server ID. */
  lemma PongBytes(timestamp: int64, guid: int64, serverID: Data)
    ensures var data := Pong(timestamp, guid, serverID);
      && data[0] == 0x1c
      && Value(data[1..9]) == Bits64(timestamp) && Value(data[9..17]) == Bits64(guid)
      && data[17..33] == [0x00, 0xff, 0xff, 0x00, 0xfe, 0xfe, 0xfe, 0xfe, 0xfd, 0xfd, 0xfd, 0xfd, 0x12, 0x34, 0x56, 0x78]
      && data[33] as int * 0x100 + data[34] == |serverID| % 0x1_0000
      && data[35..] == serverID
  {
    PongFields(timestamp, guid, serverID);
    EightBytes(Bits64(guid));
    var data := Pong(timestamp, guid, serverID);
    assert data[9..17] == BigEndian(Bits64(guid), 8);
    assert data[33..35] == [data[33], data[34]];
  }

  /** Exactly which datagrams are answered: long enough, of one of two types, and with the magic in place. */
  lemma AnsweredIff(data: Data, guid: int64, serverID: Data)
    ensures Answer(data, guid, serverID).Ok? <==>
              && |data| >= 33 && (data[0] == 0x01 || data[0] == 0x02)
              && data[9..25] == [0x00, 0xff, 0xff, 0x00, 0xfe, 0xfe, 0xfe, 0xfe, 0xfd, 0xfd, 0xfd, 0xfd, 0x12, 0x34, 0x56, 0x78]
    ensures |data| < 33 ==> Answer(data, guid, serverID) == Err(PacketTooShort)
    ensures |data| >= 33 && data[0] != 0x01 && data[0] != 0x02 ==> Answer(data, guid, serverID) == Err(InvalidPacket)
  {
  }

  /** The answer repeats the eight timestamp bytes it was given, whatever they are. */
  lemma AnswerEchoesTimestamp(data: Data, guid: int64, serverID: Data)
    requires Answer(data, guid, serverID).Ok?
    ensures Value(Answer(data, guid, serverID).value[1..9]) == Value(data[1..9])
  {
    ValueBelow(data[1..9]);
    assert Pow256(8) == SIZE64 by { EightBytesRange(); }
    PongFields(Timestamp(data), guid, serverID);
  }

  lemma {:induction false} ValueBelow(b: Data)
    ensures Value(b) < Pow256(|b|)
  {
    if |b| > 0 {
      ValueBelow(b[..|b| - 1]);
    }
  }

  lemma EightBytesRange()
    ensures Pow256(8) == SIZE64
  {
    assert Pow256(2) == 0x1_0000;
    assert Pow256(4) == 0x100 * (0x100 * Pow256(2));
    assert Pow256(6) == 0x100 * (0x100 * Pow256(4));
    assert Pow256(8) == 0x100 * (0x100 * Pow256(6));
  }

  /** Only a pong with another timestamp is skipped; any other datagram ends the wait, and an empty one is a failure. */
  lemma SkippedIff(datagram: Data, expected: nat)
    requires |datagram| <= BUFFER
    ensures Judge(datagram, expected).Stale? <==> |datagram| >= 10 && datagram[0] == 0x1c && Value(datagram[1..9]) != expected
    ensures Judge(datagram, expected).Empty? <==> |datagram| == 0
    ensures |datagram| > 0 && datagram[0] != 0x1c ==> Judge(datagram, expected) == Unknown
  {
  }
}
