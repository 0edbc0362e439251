/** Packets before keys are exchanged: no cipher, no MAC, padding to eight bytes. */
module Cleartext {
  import opened Bytes
  import opened Framing

  datatype ClearOutcome = Nothing | Short | Got(payload: seq<Byte>, rest: seq<Byte>)

  function WriteClear(payload: seq<Byte>, pad: seq<Byte>): seq<Byte>
    requires |payload| + 1 + |pad| < WORD && |pad| < 256
  {
    Plain(payload, pad)
  }

  /** A packet before encryption is the one of section 6 of RFC 4253: length, padding length, payload, padding. */
  lemma {:induction false} WriteClearIs(payload: seq<Byte>, pad: seq<Byte>)
    requires |payload| + 1 + |pad| < WORD && |pad| < 256
    ensures WriteClear(payload, pad) == Put32(|payload| + 1 + |pad|) + [|pad|] + payload + pad
  {
  }

  /** The five header bytes as packet_read sees them.  A read that may not block takes the first byte alone
      and then puts the next four over it, so that its fifth byte is what the buffer held before. */
  function Header(wire: seq<Byte>, block: bool, stale: Byte): seq<Byte>
    requires |wire| >= 5
  {
    if block then wire[..5] else wire[1..5] + [stale]
  }

  function ReadClear(wire: seq<Byte>, block: bool, stale: Byte): ClearOutcome {
    if !block && wire == [] then Nothing
    else if |wire| < 5 then Short
    else
      var head := Header(wire, block, stale);
      var length, padding := Get32(head, 0), head[4];
      var size := Sub32(Sub32(length, padding), 1);
      if |wire| < 5 + size + padding then Short
      else Got(wire[5..5 + size], wire[5 + size + padding..])
  }

  lemma {:induction false} HeaderWord(wire: seq<Byte>, stale: Byte)
    requires |wire| >= 5
    ensures Get32(Header(wire, true, stale), 0) == Get32(wire, 0) && Header(wire, true, stale)[4] == wire[4]
    ensures Get32(Header(wire, false, stale), 0) == Get32(wire, 0) % 0x100_0000 * 0x100 + wire[4]
    ensures Header(wire, false, stale)[4] == stale
  {
    assert Header(wire, false, stale) == [wire[1], wire[2], wire[3], wire[4], stale];
    var b0: int, b1: int, b2: int, b3: int := wire[0], wire[1], wire[2], wire[3];
    var rest := b1 * 0x1_0000 + b2 * 0x100 + b3;
    assert Get32(wire, 0) == b0 * 0x100_0000 + rest && 0 <= rest < 0x100_0000;
  }

  /** The one length with which the shifted header makes sense: four equal bytes, and the same number of
      padding bytes. */
  const EVEN_LENGTH: U32 := 0x0404_0404

  /** When the shifted header gives the size of the payload and of the padding. */
  lemma {:induction false} ShiftedIsRightIff(length: U32, pad: Byte, stale: Byte)
    requires 4 <= pad <= 11 && (length + 4) % 8 == 0 && length > pad
    ensures var word := length % 0x100_0000 * 0x100 + pad;
            Sub32(Sub32(word, stale), 1) == length - 1 - pad && stale == pad
            <==> length == EVEN_LENGTH && pad == 4 && stale == 4
  {
    var b0, b1, b2, b3 := length / 0x100_0000, length / 0x1_0000 % 0x100, length / 0x100 % 0x100, length % 0x100;
    DigitsOf(length, b0, b1, b2, b3);
    ShiftedDigits(length, b0, b1, b2, b3, pad, stale);
  }

  lemma {:induction false} ShiftedDigits(length: U32, b0: int, b1: int, b2: int, b3: int, pad: Byte, stale: Byte)
    requires 0 <= b0 < 256 && 0 <= b1 < 256 && 0 <= b2 < 256 && 0 <= b3 < 256
    requires length == b0 * 0x100_0000 + b1 * 0x1_0000 + b2 * 0x100 + b3
    requires 4 <= pad <= 11 && (length + 4) % 8 == 0 && length > pad
    ensures var tail := b1 * 0x1_0000 + b2 * 0x100 + b3;
            Sub32(Sub32(tail * 0x100 + pad, stale), 1) == length - 1 - pad && stale == pad
            <==> length == EVEN_LENGTH && pad == 4 && stale == 4
  {
    var tail := b1 * 0x1_0000 + b2 * 0x100 + b3;
    TakesBack(tail, pad);
    if stale == pad && tail * 0x100 == length - pad {
      EqualDigits(b0, b1, b2, b3, pad);
      OnlyFour(pad);
    }
  }

  lemma {:induction false} TakesBack(tail: nat, pad: Byte)
    requires tail < 0x100_0000
    ensures Sub32(Sub32(tail * 0x100 + pad, pad), 1) == if tail == 0 then WORD - 1 else tail * 0x100 - 1
  {
  }

  lemma {:induction false} OnlyFour(pad: nat)
    requires 4 <= pad <= 11 && (pad * 0x101_0101 + 4) % 8 == 0
    ensures pad == 4
  {
    assert pad * 0x101_0101 + 4 == 8 * (pad * 0x20_2020) + (pad + 4);
  }

  lemma {:induction false} DigitsOf(length: U32, b0: int, b1: int, b2: int, b3: int)
    requires b0 == length / 0x100_0000 && b1 == length / 0x1_0000 % 0x100
    requires b2 == length / 0x100 % 0x100 && b3 == length % 0x100
    ensures length == b0 * 0x100_0000 + b1 * 0x1_0000 + b2 * 0x100 + b3
    ensures length % 0x100_0000 == b1 * 0x1_0000 + b2 * 0x100 + b3
  {
    assert length / 0x100 == length / 0x1_0000 * 0x100 + b2;
    assert length / 0x1_0000 == b0 * 0x100 + b1;
  }

  lemma {:induction false} EqualDigits(b0: int, b1: int, b2: int, b3: int, pad: int)
    requires 0 <= b0 < 256 && 0 <= b1 < 256 && 0 <= b2 < 256 && 0 <= b3 < 256 && 4 <= pad <= 11
    requires b1 * 0x100_0000 + b2 * 0x1_0000 + b3 * 0x100 == b0 * 0x100_0000 + b1 * 0x1_0000 + b2 * 0x100 + b3 - pad
    ensures b0 == b1 == b2 == b3 == pad
  {
    LowDigit(b1 * 0x1_0000 + b2 * 0x100 + b3, pad, b0 * 0x1_0000 + b1 * 0x100 + b2, b3);
    LowDigit(b1 * 0x100 + b2, b3, b0 * 0x100 + b1, b2);
    LowDigit(b1, b2, b0, b1);
  }

  lemma {:induction false} LowDigit(x: int, a: int, y: int, b: int)
    requires 0 <= a < 256 && 0 <= b < 256 && x * 0x100 + a == y * 0x100 + b
    ensures x == y && a == b
  {
  }

  lemma {:induction false} ReadsSizes(payload: seq<Byte>, pad: seq<Byte>, after: seq<Byte>, block: bool, stale: Byte)
    requires |payload| + 1 + |pad| < WORD && |pad| < 256
    ensures var wire := WriteClear(payload, pad) + after;
            var head := Header(wire, block, stale);
            ReadClear(wire, block, stale) == Got(payload, after)
            <==> Sub32(Sub32(Get32(head, 0), head[4]), 1) == |payload| && head[4] == |pad|
  {
    var wire := WriteClear(payload, pad) + after;
    PlainHeader(payload, pad);
    assert |wire| == 5 + |payload| + |pad| + |after|;
    assert wire[5..5 + |payload|] == payload;
    assert wire[5 + |payload| + |pad|..] == after;
  }

  /** A packet in clear is read back, with what follows it left in place, exactly when the read may block, but
      for one length at which the bytes of the header happen to be equal. */
  lemma {:induction false} ClearRoundTripIff(payload: seq<Byte>, pad: seq<Byte>, after: seq<Byte>, block: bool,
                                             stale: Byte)
    requires |pad| == PadLength(|payload|, 8) && |payload| + 16 < WORD
    ensures |pad| < 16
    ensures ReadClear(WriteClear(payload, pad) + after, block, stale) == Got(payload, after)
            <==> block || (|payload| + 5 == EVEN_LENGTH && stale == 4)
  {
    PadLengthShortest(|payload|, 8);
    PlainHeader(payload, pad);
    var plain := Plain(payload, pad);
    var wire, length := plain + after, |payload| + 1 + |pad|;
    assert Get32(wire, 0) == Get32(plain, 0) && wire[4] == plain[4];
    HeaderWord(wire, stale);
    ReadsSizes(payload, pad, after, block, stale);
    PadAtEvenLength(|payload|, |pad|);
    ShiftedIsRightIff(length, |pad|, stale);
  }

  lemma {:induction false} PadAtEvenLength(len: nat, pad: nat)
    requires pad == PadLength(len, 8)
    ensures 4 <= pad <= 11 && (len + 1 + pad + 4) % 8 == 0
    ensures len + 5 == EVEN_LENGTH <==> len + 1 + pad == EVEN_LENGTH && pad == 4
  {
  }
}
