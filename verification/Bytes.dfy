/** Octets and the big-endian integers of BGP messages. */
module Bytes {

  type Byte = x: int | 0 <= x < 0x100

  type U16 = x: int | 0 <= x < 0x1_0000

  type U32 = x: int | 0 <= x < 0x1_0000_0000

  function Be16(n: U16): (r: seq<Byte>)
    ensures |r| == 2
  {
    [n / 0x100, n % 0x100]
  }

  function Be32(n: U32): (r: seq<Byte>)
    ensures |r| == 4
  {
    [n / 0x100_0000, n / 0x1_0000 % 0x100, n / 0x100 % 0x100, n % 0x100]
  }

  function Un16(b: seq<Byte>): U16
    requires |b| == 2
  {
    (b[0] as int) * 0x100 + (b[1] as int)
  }

  function Un32(b: seq<Byte>): U32
    requires |b| == 4
  {
    (b[0] as int) * 0x100_0000 + (b[1] as int) * 0x1_0000 + (b[2] as int) * 0x100 + (b[3] as int)
  }

  lemma RoundTrip16(n: U16)
    ensures Un16(Be16(n)) == n
  {
  }

  lemma RoundTrip32(n: U32)
    ensures Un32(Be32(n)) == n
  {
    var a := n / 0x100;
    var b := a / 0x100;
    assert n / 0x1_0000 == b;
    assert n / 0x100_0000 == b / 0x100;
  }

  /** The sixteen octets of ones that open every message header. */
  const MARKER: seq<Byte> := [0xff, 0xff, 0xff, 0xff, 0xff, 0xff, 0xff, 0xff, 0xff, 0xff, 0xff, 0xff, 0xff, 0xff, 0xff, 0xff]

  /** `binary.BigEndian.PutUint16` into a buffer. */
  function Patch16(s: seq<Byte>, at: nat, n: U16): (r: seq<Byte>)
    requires at + 2 <= |s|
    ensures |r| == |s|
  {
    s[at := Be16(n)[0]][at + 1 := Be16(n)[1]]
  }

  lemma PatchAt(a: seq<Byte>, x: seq<Byte>, b: seq<Byte>, n: U16)
    requires |x| == 2
    ensures Patch16(a + x + b, |a|, n) == a + Be16(n) + b
  {
  }
}
