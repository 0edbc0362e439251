/** The MD5 message digest (RFC 1321, sections 3.1 to 3.5) over any block function, at once and by parts. */
module Md5 {
  import opened Bytes
  import opened Division

  const BLOCK := 64
  const LONG := 0x1_0000_0000_0000_0000

  datatype Registers = Registers(a: U32, b: U32, c: U32, d: U32)

  /** Section 3.4: what one block does to the registers. */
  type Compress = (Registers, seq<Byte>) -> Registers

  const INIT := Registers(0x67452301, 0xefcdab89, 0x98badcfe, 0x10325476)

  /** The registers after the whole blocks of a text. */
  function Blocks(compress: Compress, r: Registers, text: seq<Byte>): Registers
    decreases |text|
  {
    if |text| < BLOCK then r else Blocks(compress, compress(r, text[..BLOCK]), text[BLOCK..])
  }

  /** A number as k bytes, low-order byte first. */
  function Little(v: nat, k: nat): (b: seq<Byte>)
    ensures |b| == k
  {
    if k == 0 then [] else [v % 256] + Little(v / 256, k - 1)
  }

  function Zeros(k: nat): (b: seq<Byte>)
    ensures |b| == k
  {
    if k == 0 then [] else Zeros(k - 1) + [0]
  }

  /** Section 3.1: how many zeros bring a text of n bytes and the byte behind it to 56 modulo 64. */
  function PadZeros(n: nat): (k: nat)
    ensures k < BLOCK && (n + 1 + k) % BLOCK == 56
  {
    (55 - n) % BLOCK
  }

  /** Sections 3.1 and 3.2. */
  function Padded(msg: seq<Byte>): (r: seq<Byte>)
    ensures |r| % BLOCK == 0
  {
    EightMore(|msg| + 1 + PadZeros(|msg|));
    msg + [0x80] + Zeros(PadZeros(|msg|)) + Little(8 * |msg| % LONG, 8)
  }

  lemma EightMore(x: nat)
    requires x % BLOCK == 56
    ensures (x + 8) % BLOCK == 0
  {
  }

  /** Section 3.5. */
  function Output(r: Registers): (b: seq<Byte>)
    ensures |b| == 16
  {
    Little(r.a, 4) + Little(r.b, 4) + Little(r.c, 4) + Little(r.d, 4)
  }

  /** The digest of a message at once. */
  function Digest(compress: Compress, msg: seq<Byte>): seq<Byte> {
    Output(Blocks(compress, INIT, Padded(msg)))
  }

  // ---------- blocks ----------

  lemma {:induction false} BlocksOfParts(compress: Compress, r: Registers, front: seq<Byte>, back: seq<Byte>)
    requires |front| % BLOCK == 0
    ensures Blocks(compress, r, front + back) == Blocks(compress, Blocks(compress, r, front), back)
    decreases |front|
  {
    if front == [] {
      assert front + back == back;
    } else {
      assert (front + back)[..BLOCK] == front[..BLOCK] && (front + back)[BLOCK..] == front[BLOCK..] + back;
      BlocksOfParts(compress, compress(r, front[..BLOCK]), front[BLOCK..], back);
    }
  }

  lemma OneBlock(compress: Compress, r: Registers, front: seq<Byte>, block: seq<Byte>)
    requires |front| % BLOCK == 0 && |block| == BLOCK
    ensures Blocks(compress, r, front + block) == compress(Blocks(compress, r, front), block)
  {
    BlocksOfParts(compress, r, front, block);
    assert block[..BLOCK] == block;
  }

  /** The whole blocks of a text, and what is behind them. */
  function Whole(text: seq<Byte>): (w: seq<Byte>)
    ensures |w| % BLOCK == 0
  {
    text[..|text| - |text| % BLOCK]
  }

  function Tail(text: seq<Byte>): (t: seq<Byte>)
    ensures |t| == |text| % BLOCK && Whole(text) + t == text
  {
    text[|text| - |text| % BLOCK..]
  }

  lemma WholeAndTail(front: seq<Byte>, back: seq<Byte>)
    requires |front| % BLOCK == 0 && |back| < BLOCK
    ensures Whole(front + back) == front && Tail(front + back) == back
  {
    assert |front + back| % BLOCK == |back|;
  }

  // ---------- the bit count in two words ----------

  /** The two words hold the length in bits, modulo 2^64. */
  ghost predicate Counts(low: U32, high: U32, length: nat) {
    low + WORD * high == 8 * length % LONG
  }

  /** The words, and how often 2^64 has been left out. */
  lemma CountsIff(low: U32, high: U32, length: nat, q: int)
    requires 8 * length == low + WORD * high + LONG * q
    ensures Counts(low, high, length)
  {
    var v := low + WORD * high;
    assert 0 <= v < LONG;
    LeftOut(v, q);
  }

  lemma LeftOut(v: int, q: int)
    requires 0 <= v < LONG
    ensures (v + LONG * q) % LONG == v
  {
  }

  lemma CountsOut(low: U32, high: U32, length: nat) returns (q: int)
    requires Counts(low, high, length)
    ensures 8 * length == low + WORD * high + LONG * q
  {
    q := 8 * length / LONG;
  }

  /** What wraps out of a 32-bit sum. */
  lemma AddWraps(x: U32, y: U32) returns (over: int)
    ensures over == (if Add32(x, y) < y then 1 else 0) && x + y == Add32(x, y) + WORD * over
  {
    over := if Add32(x, y) < y then 1 else 0;
  }

  /** The count of section 3.2 is kept through the carry. */
  lemma {:induction false} CountsAdd(low: U32, high: U32, length: nat, n: nat)
    requires Counts(low, high, length) && n < 0x8000_0000
    ensures var bits := 8 * n % WORD;
            var sum := Add32(low, bits);
            Counts(sum, Add32(Add32(high, n / 0x2000_0000), if sum < bits then 1 else 0), length + n)
  {
    var q := CountsOut(low, high, length);
    var bits, carried := 8 * n % WORD, n / 0x2000_0000;
    BitsSplit(n);
    var sum := Add32(low, bits);
    var carry := AddWraps(low, bits);
    var over1 := AddWraps(high, carried);
    var over2 := AddWraps(Add32(high, carried), carry);
    CountsIff(sum, Add32(Add32(high, carried), carry), length + n, q + over1 + over2);
  }

  lemma BitsSplit(n: nat)
    ensures 8 * n == 8 * n % WORD + WORD * (n / 0x2000_0000)
  {
    var t, r := n / 0x2000_0000, n % 0x2000_0000;
    assert 8 * n == WORD * t + 8 * r && 8 * r < WORD;
  }

  lemma Shift(x: int, k: int)
    ensures (x + BLOCK * k) % BLOCK == x % BLOCK
  {
  }

  lemma {:induction false} OffsetIsTail(low: U32, high: U32, length: nat)
    requires Counts(low, high, length)
    ensures low / 8 % BLOCK == length % BLOCK
    ensures (55 - low / 8) % BLOCK == PadZeros(length)
  {
    var q := CountsOut(low, high, length);
    var k := 0x80_0000 * high + 0x80_0000_0000_0000 * q;
    assert low == 8 * (length - BLOCK * k);
    assert low / 8 == length - BLOCK * k;
    Shift(length, -k);
    Shift(55 - length, k);
  }

  function Power(k: nat): (p: nat)
    ensures p > 0
  {
    if k == 0 then 1 else 256 * Power(k - 1)
  }

  lemma LowByte(low: nat, q: nat)
    ensures (low + 256 * q) % 256 == low % 256 && (low + 256 * q) / 256 == low / 256 + q
  {
  }

  lemma PowerTimes(k: nat, high: nat) returns (q: nat)
    requires k > 0
    ensures q == Power(k - 1) * high && Power(k) * high == 256 * q
  {
    q := Power(k - 1) * high;
    var p := Power(k - 1);
    assert (256 * p) * high == 256 * (p * high);
  }

  /** A number in two pieces is the bytes of the one before the bytes of the other. */
  lemma {:induction false} LittleSplits(low: nat, high: nat, k: nat, m: nat)
    requires low < Power(k)
    ensures Little(low + Power(k) * high, k + m) == Little(low, k) + Little(high, m)
  {
    if k > 0 {
      var q := PowerTimes(k, high);
      LowByte(low, q);
      LittleSplits(low / 256, high, k - 1, m);
    }
  }

  lemma LittleOfWords(low: U32, high: U32)
    ensures Little(low + WORD * high, 8) == Little(low, 4) + Little(high, 4)
  {
    assert Power(4) == WORD by {
      assert Power(1) == 256 && Power(2) == 0x1_0000 && Power(3) == 0x100_0000;
    }
    LittleSplits(low, high, 4, 4);
  }

  /** The byte that the source shifts out of a word. */
  function WordByte(w: U32, i: nat): Byte
    requires i < 4
  {
    if i == 0 then w % 256
    else if i == 1 then w / 0x100 % 256
    else if i == 2 then w / 0x1_0000 % 256
    else w / 0x100_0000 % 256
  }

  lemma LittleOfWord(w: U32)
    ensures Little(w, 4) == [WordByte(w, 0), WordByte(w, 1), WordByte(w, 2), WordByte(w, 3)]
  {
    assert w / 0x100 / 0x100 == w / 0x1_0000 && w / 0x1_0000 / 0x100 == w / 0x100_0000;
    assert Little(w / 0x100_0000, 1) == [w / 0x100_0000 % 256] + Little(w / 0x100_0000 / 256, 0);
    assert Little(w / 0x1_0000, 2) == [w / 0x1_0000 % 256] + Little(w / 0x100_0000, 1);
    assert Little(w / 0x100, 3) == [w / 0x100 % 256] + Little(w / 0x1_0000, 2);
  }

  // ---------- the streaming state ----------

  /** Bytes first..first + 4 * |words| of a buffer are these words, low-order byte first. */
  function WordsOut(words: seq<U32>): (b: seq<Byte>)
    ensures |b| == 4 * |words|
  {
    if words == [] then [] else WordsOut(words[..|words| - 1]) + Little(words[|words| - 1], 4)
  }

  /** The loops that store words as bytes. */
  method StoreWords(words: seq<U32>) returns (data: array<Byte>)
    ensures fresh(data) && data[..] == WordsOut(words)
  {
    data := new Byte[4 * |words|];
    var i := 0;
    while i < |words|
      invariant i <= |words| && data[..4 * i] == WordsOut(words[..i])
    {
      LittleOfWord(words[i]);
      ghost var before := data[..4 * i];
      StoreWord(data, 4 * i, words[i]);
      assert words[..i + 1][..i] == words[..i];
      i := i + 1;
    }
    assert words[..i] == words && data[..] == data[..4 * i];
  }

  method StoreWord(data: array<Byte>, at: nat, w: U32)
    requires at + 4 <= data.Length
    modifies data
    ensures data[..at + 4] == old(data[..at]) + Little(w, 4)
  {
    LittleOfWord(w);
    for j := 0 to 4
      invariant data[..at] == old(data[..at])
      invariant forall k :: 0 <= k < j ==> data[at + k] == WordByte(w, k)
    {
      data[at + j] := WordByte(w, j);
    }
    assert data[..at + 4] == data[..at] + [data[at], data[at + 1], data[at + 2], data[at + 3]];
  }

  /** The registers and the buffer stand for this text. */
  ghost predicate Holds(compress: Compress, r: Registers, buf: seq<Byte>, text: seq<Byte>) {
    && |buf| == BLOCK && r == Blocks(compress, INIT, Whole(text))
    && buf[..|Tail(text)|] == Tail(text)
  }

  /** The registers stand for whole blocks `done`, and the rest of the text is still to come. */
  ghost predicate Along(compress: Compress, r: Registers, done: seq<Byte>, rest: seq<Byte>, text: seq<Byte>) {
    |done| % BLOCK == 0 && r == Blocks(compress, INIT, done) && done + rest == text
  }

  lemma AlongStep(compress: Compress, r: Registers, done: seq<Byte>, rest: seq<Byte>, text: seq<Byte>)
    requires Along(compress, r, done, rest, text) && |rest| >= BLOCK
    ensures Along(compress, compress(r, rest[..BLOCK]), done + rest[..BLOCK], rest[BLOCK..], text)
  {
    OneBlock(compress, INIT, done, rest[..BLOCK]);
    assert rest == rest[..BLOCK] + rest[BLOCK..];
    assert done + rest[..BLOCK] + rest[BLOCK..] == done + rest;
  }

  lemma AlongEnds(compress: Compress, r: Registers, done: seq<Byte>, rest: seq<Byte>, buf: seq<Byte>, text: seq<Byte>)
    requires Along(compress, r, done, rest, text) && |rest| < BLOCK && |buf| == BLOCK && buf[..|rest|] == rest
    ensures Holds(compress, r, buf, text)
  {
    WholeAndTail(done, rest);
  }

  class State {
    const compress: Compress
    var low: U32
    var high: U32
    var abcd: Registers
    const buf: array<Byte>

    /** Everything appended so far makes up this message. */
    ghost predicate Absorbed(msg: seq<Byte>)
      reads this, buf
    {
      buf.Length == BLOCK && Counts(low, high, |msg|) && Holds(compress, abcd, buf[..], msg)
    }

    /** `md5_init` */
    constructor (compress: Compress)
      ensures Absorbed([]) && fresh(buf) && this.compress == compress
    {
      this.compress := compress;
      low, high, abcd := 0, 0, INIT;
      buf := new Byte[BLOCK];
    }

    /** memcpy into the buffer. */
    method Keep(at: nat, bytes: seq<Byte>)
      requires buf.Length == BLOCK && at + |bytes| <= BLOCK
      modifies buf
      ensures buf[..at + |bytes|] == old(buf[..at]) + bytes
    {
      forall i | 0 <= i < |bytes| {
        buf[at + i] := bytes[i];
      }
    }

    /** The count in bits. */
    method CountUp(nbytes: nat, ghost length: nat)
      requires nbytes < 0x8000_0000 && Counts(low, high, length)
      modifies `low, `high
      ensures Counts(low, high, length + nbytes)
    {
      CountsAdd(low, high, length, nbytes);
      var nbits := 8 * nbytes % WORD;
      high := Add32(high, nbytes / 0x2000_0000);
      low := Add32(low, nbits);
      if low < nbits { high := Add32(high, 1); }
    }

    /** An initial partial block: how much of the data it takes, and whether the block is full now. */
    method FillPartial(data: seq<Byte>, offset: nat, ghost msg: seq<Byte>) returns (copy: nat, full: bool)
      requires buf.Length == BLOCK && Holds(compress, abcd, buf[..], msg) && offset == |msg| % BLOCK > 0
      modifies `abcd, buf
      ensures full == (offset + |data| >= BLOCK)
      ensures !full ==> Holds(compress, abcd, buf[..], msg + data)
      ensures full ==> offset + copy == BLOCK && copy <= |data|
                       && Along(compress, abcd, Whole(msg) + (Tail(msg) + data[..copy]), data[copy..], msg + data)
    {
      copy := if offset + |data| > BLOCK then BLOCK - offset else |data|;
      ghost var whole, tail := Whole(msg), Tail(msg);
      Keep(offset, data[..copy]);
      assert buf[..offset + copy] == tail + data[..copy];
      assert whole + (tail + data) == msg + data;
      assert Along(compress, abcd, whole, tail + data, msg + data);
      if offset + copy < BLOCK {
        assert data[..copy] == data;
        AlongEnds(compress, abcd, whole, tail + data, buf[..], msg + data);
        return copy, false;
      }
      assert (tail + data)[..BLOCK] == tail + data[..copy] && (tail + data)[BLOCK..] == data[copy..];
      AlongStep(compress, abcd, whole, tail + data, msg + data);
      assert buf[..] == buf[..BLOCK];
      abcd := compress(abcd, buf[..]);
      full := true;
    }

    /** The full blocks of the data from p on, and the final partial block. */
    method Rest(data: seq<Byte>, p: nat, ghost done: seq<Byte>, ghost text: seq<Byte>)
      requires buf.Length == BLOCK && p <= |data| && Along(compress, abcd, done, data[p..], text)
      modifies `abcd, buf
      ensures Holds(compress, abcd, buf[..], text)
    {
      var at := p;
      ghost var front := done;
      while |data| - at >= BLOCK
        invariant p <= at <= |data| && Along(compress, abcd, front, data[at..], text)
      {
        AlongStep(compress, abcd, front, data[at..], text);
        assert data[at..][..BLOCK] == data[at..at + BLOCK] && data[at..][BLOCK..] == data[at + BLOCK..];
        front := front + data[at..at + BLOCK];
        abcd := compress(abcd, data[at..at + BLOCK]);
        at := at + BLOCK;
      }
      if at < |data| { Keep(0, data[at..]); }
      assert buf[..|data| - at] == data[at..];
      AlongEnds(compress, abcd, front, data[at..], buf[..], text);
    }

    /** `md5_append` */
    method Append(data: seq<Byte>, nbytes: int, ghost msg: seq<Byte>)
      requires Absorbed(msg) && nbytes <= |data| && nbytes + 63 < 0x8000_0000
      modifies this, buf
      ensures Absorbed(msg + if nbytes <= 0 then [] else data[..nbytes])
    {
      var offset := low / 8 % BLOCK;
      OffsetIsTail(low, high, |msg|);
      if nbytes <= 0 {
        assert msg + [] == msg;
        return;
      }
      CountUp(nbytes, |msg|);
      var fed := data[..nbytes];
      if offset > 0 {
        var copy, full := FillPartial(fed, offset, msg);
        if full { Rest(fed, copy, Whole(msg) + (Tail(msg) + fed[..copy]), msg + fed); }
      } else {
        assert Whole(msg) == msg && fed[0..] == fed;
        Rest(fed, 0, msg, msg + fed);
      }
    }

    /** Appends the pad and the length. */
    method AppendEnd(ghost msg: seq<Byte>)
      requires Absorbed(msg)
      modifies this, buf
      ensures abcd == Blocks(compress, INIT, Padded(msg))
    {
      var pad := [0x80] + Zeros(63);
      var data := StoreWords([low, high]);
      ghost var bits := data[..];
      var n := (55 - low / 8) % BLOCK + 1;
      FinishText(low, high, msg);
      Append(pad, n, msg);
      AppendLength(data, msg, msg + pad[..n], bits);
    }

    /** Appends the eight bytes of the length. */
    method AppendLength(data: array<Byte>, ghost msg: seq<Byte>, ghost padded: seq<Byte>, ghost bits: seq<Byte>)
      requires Absorbed(padded) && data[..] == bits && |bits| == 8 && padded + bits == Padded(msg)
      modifies this, buf
      ensures abcd == Blocks(compress, INIT, Padded(msg))
    {
      assert bits[..8] == bits;
      Append(data[..], 8, padded);
      NoTail(Padded(msg));
    }

    /** `md5_finish`: the digest of everything appended. */
    method Finish(ghost msg: seq<Byte>) returns (digest: array<Byte>)
      requires Absorbed(msg)
      modifies this, buf
      ensures fresh(digest) && digest[..] == Digest(compress, msg)
    {
      AppendEnd(msg);
      digest := StoreWords([abcd.a, abcd.b, abcd.c, abcd.d]);
      FourWords(abcd);
    }
  }

  lemma LengthBytes(low: U32, high: U32, length: nat)
    requires Counts(low, high, length)
    ensures WordsOut([low, high]) == Little(8 * length % LONG, 8)
  {
    LittleOfWords(low, high);
    assert [low, high][..1] == [low] && [low][..0] == [];
    assert WordsOut([low]) == Little(low, 4);
  }

  lemma FourWords(r: Registers)
    ensures WordsOut([r.a, r.b, r.c, r.d]) == Output(r)
  {
    var w := [r.a, r.b, r.c, r.d];
    assert w[..3] == [r.a, r.b, r.c] && w[..3][..2] == [r.a, r.b] && [r.a, r.b][..1] == [r.a] && [r.a][..0] == [];
    assert WordsOut([r.a]) == Little(r.a, 4);
    assert WordsOut([r.a, r.b]) == Little(r.a, 4) + Little(r.b, 4);
    assert WordsOut([r.a, r.b, r.c]) == Little(r.a, 4) + Little(r.b, 4) + Little(r.c, 4);
  }

  lemma {:induction false} ZerosPrefix(k: nat, n: nat)
    requires k <= n
    ensures Zeros(n)[..k] == Zeros(k)
  {
    if k < n { ZerosPrefix(k, n - 1); }
  }

  lemma PadPrefix(k: nat)
    requires k <= 63
    ensures ([0x80] + Zeros(63))[..k + 1] == [0x80] + Zeros(k)
  {
    ZerosPrefix(k, 63);
  }

  lemma NoTail(text: seq<Byte>)
    requires |text| % BLOCK == 0
    ensures Whole(text) == text
  {
  }

  /** What is appended at the end, worked out from the two counter words, is what sections 3.1 and 3.2 of
      RFC 1321 ask for. */
  lemma {:induction false} FinishText(low: U32, high: U32, msg: seq<Byte>)
    requires Counts(low, high, |msg|)
    ensures msg + ([0x80] + Zeros(63))[..(55 - low / 8) % BLOCK + 1] + WordsOut([low, high]) == Padded(msg)
  {
    OffsetIsTail(low, high, |msg|);
    LengthBytes(low, high, |msg|);
    PadPrefix(PadZeros(|msg|));
    var zeros := Zeros(PadZeros(|msg|));
    assert msg + ([0x80] + zeros) == msg + [0x80] + zeros;
  }

  function Joined(parts: seq<seq<Byte>>): seq<Byte> {
    if parts == [] then [] else Joined(parts[..|parts| - 1]) + parts[|parts| - 1]
  }

  lemma {:induction false} JoinedNext(parts: seq<seq<Byte>>, i: nat)
    requires i < |parts|
    ensures Joined(parts[..i + 1]) == Joined(parts[..i]) + parts[i]
    ensures Joined(parts[..i + 1]) == Joined(parts[..i]) + if |parts[i]| <= 0 then [] else parts[i][..|parts[i]|]
  {
    assert parts[..i + 1][..i] == parts[..i];
  }

  /** However a message is cut into parts, appending them one by one yields its digest. */
  method DigestOfParts(compress: Compress, parts: seq<seq<Byte>>) returns (digest: array<Byte>)
    requires forall i :: 0 <= i < |parts| ==> |parts[i]| + 63 < 0x8000_0000
    ensures digest[..] == Digest(compress, Joined(parts))
  {
    var md5 := new State(compress);
    var i := 0;
    while i < |parts|
      invariant i <= |parts| && fresh(md5) && fresh(md5.buf) && md5.compress == compress
      invariant md5.Absorbed(Joined(parts[..i]))
    {
      JoinedNext(parts, i);
      md5.Append(parts[i], |parts[i]|, Joined(parts[..i]));
      i := i + 1;
    }
    assert parts[..i] == parts;
    digest := md5.Finish(Joined(parts));
  }

  // ---------- in the numbers of RFC 1321 ----------

  /** Section 3.3 gives the registers by their bytes, low-order byte first. */
  lemma {:induction false} InitBytes()
    ensures Output(INIT) == [0x01, 0x23, 0x45, 0x67, 0x89, 0xab, 0xcd, 0xef, 0xfe, 0xdc, 0xba, 0x98, 0x76, 0x54, 0x32,
                             0x10]
  {
    assert INIT.a == 0x67452301 && INIT.b == 0xefcdab89 && INIT.c == 0x98badcfe && INIT.d == 0x10325476;
    WordOfBytes(0x01, 0x23, 0x45, 0x67);
    WordOfBytes(0x89, 0xab, 0xcd, 0xef);
    WordOfBytes(0xfe, 0xdc, 0xba, 0x98);
    WordOfBytes(0x76, 0x54, 0x32, 0x10);
  }

  lemma {:induction false} WordOfBytes(b0: Byte, b1: Byte, b2: Byte, b3: Byte)
    ensures Little((b0 as int) + 0x100 * (b1 as int) + 0x1_0000 * (b2 as int) + 0x100_0000 * (b3 as int), 4)
         == [b0, b1, b2, b3]
  {
    var c0: int, c1: int, c2: int, c3: int := b0, b1, b2, b3;
    LowByte(c0, c1 + 0x100 * c2 + 0x1_0000 * c3);
    LowByte(c1, c2 + 0x100 * c3);
    LowByte(c2, c3);
    assert Little(c3, 1) == [b3] + Little(c3 / 256, 0);
    assert Little(c2 + 0x100 * c3, 2) == [b2] + Little(c3, 1);
    assert Little(c1 + 0x100 * c2 + 0x1_0000 * c3, 3) == [b1] + Little(c2 + 0x100 * c3, 2);
  }

  /** Section 3.5: the digest is A, B, C and D, each with its low-order byte first. */
  lemma {:induction false} OutputIs(r: Registers)
    ensures Output(r) == [r.a % 256, r.a / 0x100 % 256, r.a / 0x1_0000 % 256, r.a / 0x100_0000 % 256,
                          r.b % 256, r.b / 0x100 % 256, r.b / 0x1_0000 % 256, r.b / 0x100_0000 % 256,
                          r.c % 256, r.c / 0x100 % 256, r.c / 0x1_0000 % 256, r.c / 0x100_0000 % 256,
                          r.d % 256, r.d / 0x100 % 256, r.d / 0x1_0000 % 256, r.d / 0x100_0000 % 256]
  {
    LittleOfWord(r.a);
    LittleOfWord(r.b);
    LittleOfWord(r.c);
    LittleOfWord(r.d);
  }

  lemma {:induction false} ZerosAre(k: nat, i: nat)
    requires i < k
    ensures Zeros(k)[i] == 0
  {
    if i < k - 1 { ZerosAre(k - 1, i); }
  }

  lemma {:induction false} LittleAt(v: nat, k: nat, i: nat)
    requires i < k
    ensures Little(v, k)[i] == v / Power(i) % 256
  {
    if i > 0 {
      LittleAt(v / 256, k - 1, i - 1);
      DivideTwice(v, 256, Power(i - 1));
    }
  }

  /** Sections 3.1 and 3.2: the message, a one bit and zeros up to 56 modulo 64, and the length in bits as eight
      bytes, low-order byte first, in as few blocks as that takes. */
  lemma {:induction false} PaddedIs(msg: seq<Byte>, i: nat)
    requires i < |Padded(msg)|
    ensures var p, n := Padded(msg), |msg|;
            && |p| % 64 == 0 && n + 9 <= |p| < n + 9 + 64
            && p[i] == if i < n then msg[i]
                       else if i == n then 0x80
                       else if i < |p| - 8 then 0
                       else 8 * n % LONG / Power(i - (|p| - 8)) % 256
  {
    var n, k := |msg|, PadZeros(|msg|);
    if n < i < n + 1 + k { ZerosAre(k, i - n - 1); }
    if i >= n + 1 + k { LittleAt(8 * n % LONG, 8, i - n - 1 - k); }
  }

  /** Less than a block is not processed. */
  lemma {:induction false} BlocksOfLittle(compress: Compress, r: Registers, text: seq<Byte>)
    requires |text| < 64
    ensures Blocks(compress, r, text) == r
  {
  }
}
