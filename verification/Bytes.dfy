/** Bytes, 32-bit words and their big-endian wire form. */
module Bytes {
  type Byte = x: int | 0 <= x < 256
  const WORD := 0x1_0000_0000
  type U32 = x: int | 0 <= x < 0x1_0000_0000

  /** Unsigned 32-bit addition and subtraction, which wrap. */
  function Add32(x: U32, y: U32): U32 {
    if x + y < WORD then x + y else x + y - WORD
  }

  function Sub32(x: U32, y: U32): U32 {
    if y <= x then x - y else x - y + WORD
  }

  /** The four bytes that `libssh2_htonu32` stores. */
  function Put32(v: U32): (r: seq<Byte>)
    ensures |r| == 4
  {
    [v / 0x100_0000, v / 0x1_0000 % 0x100, v / 0x100 % 0x100, v % 0x100]
  }

  /** The value that `libssh2_ntohu32` loads from offset `at`. */
  function Get32(b: seq<Byte>, at: nat): U32
    requires at + 4 <= |b|
  {
    var b0: int, b1: int, b2: int, b3: int := b[at], b[at + 1], b[at + 2], b[at + 3];
    b0 * 0x100_0000 + b1 * 0x1_0000 + b2 * 0x100 + b3
  }

  lemma Get32OfPut32(v: U32, before: seq<Byte>, after: seq<Byte>)
    ensures Get32(before + Put32(v) + after, |before|) == v
  {
    var w := before + Put32(v) + after;
    var at := |before|;
    assert w[at] == Put32(v)[0] && w[at + 1] == Put32(v)[1] && w[at + 2] == Put32(v)[2] && w[at + 3] == Put32(v)[3];
    assert v == v / 0x100_0000 * 0x100_0000 + v / 0x1_0000 % 0x100 * 0x1_0000 + v / 0x100 % 0x100 * 0x100 + v % 0x100;
  }

  lemma Put32OfGet32(b: seq<Byte>, at: nat)
    requires at + 4 <= |b|
    ensures Put32(Get32(b, at)) == b[at..at + 4]
  {
    var v := Get32(b, at);
    var b0: int, b1: int, b2: int, b3: int := b[at], b[at + 1], b[at + 2], b[at + 3];
    assert v / 0x100_0000 == b0;
    assert v / 0x1_0000 == b0 * 0x100 + b1;
    assert v / 0x100 == b0 * 0x1_0000 + b1 * 0x100 + b2;
    assert Put32(v) == [b0, b1, b2, b3];
  }

  lemma {:induction false} Regroup(a: seq<Byte>, b: seq<Byte>, c: seq<Byte>)
    ensures a + (b + c) == (a + b) + c
  {
  }

  /** The high-order byte comes first. */
  lemma {:induction false} HighByteFirst(b: seq<Byte>)
    requires |b| == 4
    ensures var b0: int, b1: int, b2: int, b3: int := b[0], b[1], b[2], b[3];
            Get32(b, 0) == ((b0 * 256 + b1) * 256 + b2) * 256 + b3
    ensures Put32(Get32(b, 0)) == b
  {
    Put32OfGet32(b, 0);
    assert b[0..4] == b;
  }
}
