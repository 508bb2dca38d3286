/** Machine integers, big-endian encoding and the checksum. */
module Bytes {
  const U16 := 0x1_0000
  const U32 := 0x1_0000_0000
  const U64 := 0x1_0000_0000_0000_0000
  const MAX_INT64 := 0x7FFF_FFFF_FFFF_FFFF

  type byte = x: int | 0 <= x < 256
  type uint16 = x: int | 0 <= x < 0x1_0000
  type uint32 = x: int | 0 <= x < 0x1_0000_0000
  type uint64 = x: int | 0 <= x < 0x1_0000_0000_0000_0000
  type Payload = seq<byte>

  function PutUint16(v: uint16): (s: seq<byte>)
    ensures |s| == 2 && Uint16(s) == v
  {
    [v / 0x100, v % 0x100]
  }

  function Uint16(s: seq<byte>): uint16
    requires |s| == 2
  {
    s[0] as int * 0x100 + s[1]
  }

  function PutUint32(v: uint32): (s: seq<byte>)
    ensures |s| == 4 && Uint32(s) == v
  {
    var s := PutUint16(v / U16) + PutUint16(v % U16);
    assert s[..2] == PutUint16(v / U16) && s[2..] == PutUint16(v % U16);
    s
  }

  function Uint32(s: seq<byte>): uint32
    requires |s| == 4
  {
    Uint16(s[..2]) as int * U16 + Uint16(s[2..])
  }

  lemma {:induction false} Uint32Injective(a: seq<byte>, b: seq<byte>)
    requires |a| == |b| == 4 && Uint32(a) == Uint32(b)
    ensures a == b
  {
    assert Uint16(a[..2]) == Uint16(b[..2]) && Uint16(a[2..]) == Uint16(b[2..]);
    assert a == a[..2] + a[2..] && b == b[..2] + b[2..];
  }

  /** Most significant byte first. */
  lemma {:induction false} BigEndian32(v: uint32)
    ensures PutUint32(v) == [v / 0x100_0000, v / 0x1_0000 % 0x100, v / 0x100 % 0x100, v % 0x100]
  {
    var high, low := v / U16, v % U16;
    FourDigits(v, high / 0x100, high % 0x100, low / 0x100, low % 0x100);
  }

  lemma {:induction false} FourDigits(v: uint32, a: byte, b: byte, c: byte, d: byte)
    requires v == a as int * 0x100_0000 + b as int * 0x1_0000 + c as int * 0x100 + d as int
    ensures v / 0x100_0000 == a && v / 0x1_0000 % 0x100 == b && v / 0x100 % 0x100 == c && v % 0x100 == d
  {
    assert v / 0x1_0000 == a as int * 0x100 + b as int;
    assert v / 0x100 == (a as int * 0x100 + b as int) * 0x100 + c as int;
  }

  function PutUint64(v: uint64): (s: seq<byte>)
    ensures |s| == 8 && Uint64(s) == v
  {
    var s := PutUint32(v / U32) + PutUint32(v % U32);
    assert s[..4] == PutUint32(v / U32) && s[4..] == PutUint32(v % U32);
    s
  }

  function Uint64(s: seq<byte>): uint64
    requires |s| == 8
  {
    Uint32(s[..4]) as int * U32 + Uint32(s[4..])
  }

  lemma {:induction false} BigEndian64(v: uint64)
    ensures var high, low := v / 0x1_0000_0000, v % 0x1_0000_0000;
            PutUint64(v) == [
              high / 0x100_0000, high / 0x1_0000 % 0x100, high / 0x100 % 0x100, high % 0x100,
              low / 0x100_0000, low / 0x1_0000 % 0x100, low / 0x100 % 0x100, low % 0x100]
  {
    hide PutUint32;
    BigEndian32(v / U32);
    BigEndian32(v % U32);
  }

  /**
    The checksum of section 12.1 of RFC 3720, left uninterpreted: whatever is proved here holds for
    every function from bytes to 32-bit values.
  */
  const Crc32c: seq<byte> -> uint32

  function Zeroes(n: nat): (s: seq<byte>)
    ensures |s| == n
  {
    seq(n, _ => 0)
  }
}
