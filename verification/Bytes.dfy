/** Bytes, byte strings and the fixed-width integers the wire formats are made of. */
module Bytes {

  type byte = b: int | 0 <= b < 0x100

  type Data = seq<byte>

  datatype Result<+T, +E> = Ok(value: T) | Err(error: E)

  const SIZE16: nat := 0x1_0000
  const SIZE32: nat := 0x1_0000_0000

  function BE16(b: Data): (n: nat)
    requires |b| == 2
    ensures n < SIZE16
  {
    b[0] as int * 0x100 + b[1]
  }

  function LE16(b: Data): (n: nat)
    requires |b| == 2
    ensures n < SIZE16
  {
    b[1] as int * 0x100 + b[0]
  }

  function BE32(b: Data): (n: nat)
    requires |b| == 4
    ensures n < SIZE32
  {
    BE16(b[..2]) * SIZE16 + BE16(b[2..])
  }

  function PutBE16(n: nat): (b: Data)
    requires n < SIZE16
    ensures |b| == 2 && BE16(b) == n
  {
    [n / 0x100, n % 0x100]
  }

  function PutLE16(n: nat): (b: Data)
    requires n < SIZE16
    ensures |b| == 2 && LE16(b) == n
  {
    [n % 0x100, n / 0x100]
  }

  function PutBE32(n: nat): (b: Data)
    requires n < SIZE32
    ensures |b| == 4 && BE32(b) == n
  {
    var b := PutBE16(n / SIZE16) + PutBE16(n % SIZE16);
    assert b[..2] == PutBE16(n / SIZE16) && b[2..] == PutBE16(n % SIZE16);
    b
  }

  function Min(a: nat, b: nat): nat {
    if a <= b then a else b
  }

  function Concat(parts: seq<Data>): Data {
    if |parts| == 0 then [] else Concat(parts[..|parts| - 1]) + parts[|parts| - 1]
  }

  /** The byte orders, on any bytes. */
  lemma ByteOrders(a: byte, b: byte, c: byte, d: byte)
    ensures BE16([a, b]) == 0x100 * a as int + b
    ensures LE16([a, b]) == a as int + 0x100 * b
    ensures BE32([a, b, c, d]) == 0x100_0000 * a as int + 0x1_0000 * b + 0x100 * c + d
  {
    assert [a, b, c, d][..2] == [a, b] && [a, b, c, d][2..] == [c, d];
  }
}
