/** The binary packet protocol (section 6 of RFC 4253) as packet_write builds it and packet_read takes it
    apart, with the cipher and the MAC as parameters. */
module Framing {
  import opened Bytes
  import opened Division

  const MAX_PAYLOAD := 40000

  /** A cipher with a running state, used block by block; chaining and key streams live in the state. */
  datatype Cipher<!S> = Cipher(size: nat, encrypt: (S, seq<Byte>) -> (S, seq<Byte>),
                               decrypt: (S, seq<Byte>) -> (S, seq<Byte>))

  /** A MAC over the sequence number and the packet. */
  datatype Mac = Mac(size: nat, hash: (U32, seq<Byte>) -> seq<Byte>)

  /** Decryption undoes encryption and moves to the same state. */
  ghost predicate Lawful<S(!new)>(c: Cipher<S>) {
    && 8 <= c.size <= 32
    && (forall s: S, b: seq<Byte> :: |b| == c.size ==> |c.encrypt(s, b).1| == c.size)
    && (forall s: S, b: seq<Byte> :: |b| == c.size ==> |c.decrypt(s, b).1| == c.size)
    && (forall s: S, b: seq<Byte> :: |b| == c.size ==> c.decrypt(s, c.encrypt(s, b).1) == (c.encrypt(s, b).0, b))
  }

  ghost predicate LawfulMac(m: Mac) {
    forall n: U32, b: seq<Byte> :: |m.hash(n, b)| == m.size
  }

  /** The MAC functions take a packet in two pieces. */
  function HashPieces(m: Mac, seqno: U32, packet: seq<Byte>, addtl: seq<Byte>): seq<Byte> {
    m.hash(seqno, packet + addtl)
  }

  // ---------- padding ----------

  /** packet_length (section 6 of RFC 4253) starts out as the payload and the padding length byte. */
  function PadLength(len: nat, block: nat): nat
    requires block > 0
  {
    var p := block - (len + 5) % block;
    if p < 4 then p + block else p
  }

  /** Where q more bytes end in their block. */
  lemma Lands(x: nat, q: nat, block: nat)
    requires block > 0 && x % block + q <= 2 * block
    ensures var r := x % block;
            (x + q) % block == if r + q < block then r + q else if r + q < 2 * block then r + q - block else 0
  {
    var r, n := x % block, x / block;
    assert x == n * block + r;
    assert (n + 1) * block == n * block + block && (n + 2) * block == n * block + 2 * block;
    if r + q < block {
      SumRemainder(n, r + q, block);
    } else if r + q < 2 * block {
      SumRemainder(n + 1, r + q - block, block);
    } else {
      SumRemainder(n + 2, 0, block);
    }
  }

  /** Padding q to a packet of x bytes ends on a block boundary. */
  predicate Fills(x: nat, q: nat, block: nat)
    requires block > 0
  {
    (x + q) % block == 0
  }

  /** So does padding p, of at least four bytes, and nothing shorter. */
  ghost predicate Shortest(x: nat, p: nat, block: nat)
    requires block > 0
  {
    4 <= p <= block + 3 && Fills(x, p, block) && NothingShorter(x, p, block)
  }

  ghost predicate NothingShorter(x: nat, p: nat, block: nat)
    requires block > 0
  {
    forall q :: 4 <= q < p ==> !Fills(x, q, block)
  }

  lemma FillsBlock(x: nat, r: nat, p: nat, block: nat)
    requires block >= 4 && r == x % block && r < block
    requires p == if block - r < 4 then 2 * block - r else block - r
    ensures Fills(x, p, block)
  {
    Lands(x, p, block);
  }

  lemma LeavesGap(x: nat, r: nat, q: nat, block: nat)
    requires block >= 4 && r == x % block && r < block
    requires 4 <= q < if block - r < 4 then 2 * block - r else block - r
    ensures !Fills(x, q, block)
  {
    Lands(x, q, block);
  }

  lemma PadIsShortest(x: nat, r: nat, p: nat, block: nat)
    requires block >= 4 && r == x % block && r < block
    requires p == if block - r < 4 then 2 * block - r else block - r
    ensures Shortest(x, p, block)
  {
    FillsBlock(x, r, p, block);
    forall q | 4 <= q < p ensures !Fills(x, q, block) {
      LeavesGap(x, r, q, block);
    }
  }

  /** The length packet_write pads to, with its own four bytes and the padding length byte. */
  lemma {:induction false} PadLengthShortest(len: nat, block: nat)
    requires block >= 4
    ensures Shortest(len + 5, PadLength(len, block), block)
  {
    PadIsShortest(len + 5, (len + 5) % block, PadLength(len, block), block);
  }

  // ---------- the packet as a value ----------

  /** A packet before encryption, given the random padding. */
  function Plain(payload: seq<Byte>, pad: seq<Byte>): seq<Byte>
    requires |payload| + 1 + |pad| < WORD && |pad| < 256
  {
    Put32(|payload| + 1 + |pad|) + [|pad|] + payload + pad
  }

  lemma PlainHeader(payload: seq<Byte>, pad: seq<Byte>)
    requires |payload| + 1 + |pad| < WORD && |pad| < 256
    ensures var b := Plain(payload, pad);
            && |b| == 5 + |payload| + |pad|
            && Get32(b, 0) == |payload| + 1 + |pad| && b[4] == |pad| && b[5..] == payload + pad
            && b[5..5 + |payload|] == payload
  {
    var b := Plain(payload, pad);
    Get32OfPut32(|payload| + 1 + |pad|, [], [|pad|] + payload + pad);
    assert b == [] + Put32(|payload| + 1 + |pad|) + ([|pad|] + payload + pad);
  }

  function EncryptAll<S>(c: Cipher<S>, s: S, b: seq<Byte>): (S, seq<Byte>) {
    if c.size == 0 || |b| < c.size then (s, [])
    else
      var (t, first) := c.encrypt(s, b[..c.size]);
      var (u, rest) := EncryptAll(c, t, b[c.size..]);
      (u, first + rest)
  }

  function DecryptAll<S>(c: Cipher<S>, s: S, b: seq<Byte>): (S, seq<Byte>) {
    if c.size == 0 || |b| < c.size then (s, [])
    else
      var (t, first) := c.decrypt(s, b[..c.size]);
      var (u, rest) := DecryptAll(c, t, b[c.size..]);
      (u, first + rest)
  }

  /** What packet_write puts on the wire. */
  function Seal<S>(c: Cipher<S>, m: Mac, s: S, seqno: U32, payload: seq<Byte>, pad: seq<Byte>): (S, seq<Byte>)
    requires |payload| + 1 + |pad| < WORD && |pad| < 256
  {
    var plain := Plain(payload, pad);
    var (t, sealed) := EncryptAll(c, s, plain);
    (t, sealed + m.hash(seqno, plain))
  }

  /** Block by block, with the cipher's state carried from each block to the next. */
  lemma {:induction false} EncryptsBlockAfter<S(!new)>(c: Cipher<S>, s: S, front: seq<Byte>, block: seq<Byte>, n: nat)
    requires Lawful(c) && |front| == n * c.size && |block| == c.size
    ensures var (t, sealed) := EncryptAll(c, s, front);
            var (u, last) := c.encrypt(t, block);
            EncryptAll(c, s, front + block) == (u, sealed + last)
    decreases n
  {
    if n == 0 {
      assert front + block == block + [];
      EncryptsFirst(c, s, block, []);
      assert c.encrypt(s, block).1 + [] == [] + c.encrypt(s, block).1;
    } else {
      OneLess(n, c.size);
      var first, tail := front[..c.size], front[c.size..];
      var (t, out) := c.encrypt(s, first);
      EncryptsBlockAfter(c, t, tail, block, n - 1);
      EncryptsFirst(c, s, first, tail);
      EncryptsFirst(c, s, first, tail + block);
      assert front == first + tail && front + block == first + (tail + block);
      Joins(out, EncryptAll(c, t, tail).1, c.encrypt(EncryptAll(c, t, tail).0, block).1);
    }
  }

  lemma {:induction false} EncryptsFirst<S(!new)>(c: Cipher<S>, s: S, block: seq<Byte>, rest: seq<Byte>)
    requires Lawful(c) && |block| == c.size
    ensures var (t, first) := c.encrypt(s, block);
            var (u, more) := EncryptAll(c, t, rest);
            EncryptAll(c, s, block + rest) == (u, first + more)
  {
    assert (block + rest)[..c.size] == block && (block + rest)[c.size..] == rest;
  }

  lemma {:induction false} DecryptsBlockAfter<S(!new)>(c: Cipher<S>, s: S, front: seq<Byte>, block: seq<Byte>, n: nat)
    requires Lawful(c) && |front| == n * c.size && |block| == c.size
    ensures var (t, plain) := DecryptAll(c, s, front);
            var (u, last) := c.decrypt(t, block);
            DecryptAll(c, s, front + block) == (u, plain + last)
    decreases n
  {
    if n == 0 {
      assert front + block == block + [];
      DecryptsFirst(c, s, block, []);
      assert c.decrypt(s, block).1 + [] == [] + c.decrypt(s, block).1;
    } else {
      OneLess(n, c.size);
      var first, tail := front[..c.size], front[c.size..];
      var (t, out) := c.decrypt(s, first);
      DecryptsBlockAfter(c, t, tail, block, n - 1);
      DecryptsFirst(c, s, first, tail);
      DecryptsFirst(c, s, first, tail + block);
      assert front == first + tail && front + block == first + (tail + block);
      Joins(out, DecryptAll(c, t, tail).1, c.decrypt(DecryptAll(c, t, tail).0, block).1);
    }
  }

  lemma {:induction false} DecryptsFirst<S(!new)>(c: Cipher<S>, s: S, block: seq<Byte>, rest: seq<Byte>)
    requires Lawful(c) && |block| == c.size
    ensures var (t, first) := c.decrypt(s, block);
            var (u, more) := DecryptAll(c, t, rest);
            DecryptAll(c, s, block + rest) == (u, first + more)
  {
    assert (block + rest)[..c.size] == block && (block + rest)[c.size..] == rest;
  }

  lemma {:induction false} Joins(a: seq<Byte>, b: seq<Byte>, c: seq<Byte>)
    ensures a + b + c == a + (b + c)
  {
  }

  lemma {:induction false} OneLess(n: nat, size: nat)
    requires n > 0
    ensures n * size - size == (n - 1) * size && n * size >= size
  {
    AtLeastOnce(n, size);
  }

  /** The encrypted packet and then the MAC of sequence number and packet before encryption. */
  lemma {:induction false} SealIs<S(!new)>(c: Cipher<S>, m: Mac, s: S, seqno: U32, payload: seq<Byte>, pad: seq<Byte>)
    requires |payload| + 1 + |pad| < WORD && |pad| < 256
    ensures var plain := Put32(|payload| + 1 + |pad|) + [|pad|] + payload + pad;
            Seal(c, m, s, seqno, payload, pad)
            == (EncryptAll(c, s, plain).0, EncryptAll(c, s, plain).1 + m.hash(seqno, plain))
  {
  }

  /** Bytes are compared as strncmp compares them: up to the first difference or the first zero in both. */
  predicate StrnEqual(a: seq<Byte>, b: seq<Byte>)
    requires |a| == |b|
  {
    a == [] || (a[0] == b[0] && (a[0] == 0 || StrnEqual(a[1..], b[1..])))
  }

  /** How a read can end: not enough bytes, a header that is refused, padding that exceeds the packet, or a packet. */
  datatype Outcome =
    | Incomplete
    | Refused
    | Overrun
    | Packet(data: seq<Byte>, kind: Byte, confirmed: bool)

  /** What a read makes of the bytes that wait in the socket. */
  datatype Opened<+S> = Opened(outcome: Outcome, state: S, seqno: U32, rest: seq<Byte>)

  /** packet_read's sanity check of a header. */
  predicate Sane(length: U32, block: nat)
    requires block > 0
  {
    Sub32(length, 1) <= MAX_PAYLOAD && Add32(length, 4) % block == 0
  }

  function Open<S(!new)>(c: Cipher<S>, m: Mac, s: S, seqno: U32, wire: seq<Byte>): Opened<S>
    requires Lawful(c)
  {
    if |wire| < c.size then Opened(Incomplete, s, seqno, wire)
    else
      var head := c.decrypt(s, wire[..c.size]).1;
      var length, padding := Get32(head, 0), head[4];
      if !Sane(length, c.size) then Opened(Refused, s, seqno, wire)
      else if |wire| < 4 + length + m.size then Opened(Incomplete, s, seqno, wire)
      else
        var (t, plain) := DecryptAll(c, s, wire[..4 + length]);
        DecryptedSize(c, s, wire[..4 + length]);
        SaneLength(length, c.size);
        var sent := wire[4 + length..4 + length + m.size];
        var outcome :=
          if padding > length - 1 then Overrun
          else Packet(plain[5..4 + length - padding], plain[5],
                      |m.hash(seqno, plain)| == m.size && StrnEqual(sent, m.hash(seqno, plain)));
        Opened(outcome, t, Add32(seqno, 1), wire[4 + length + m.size..])
  }

  // ---------- what a reader makes of any bytes ----------

  /** Without a whole first block nothing happens. */
  lemma {:induction false} OpenOfLittle<S(!new)>(c: Cipher<S>, m: Mac, s: S, seqno: U32, wire: seq<Byte>)
    requires Lawful(c) && |wire| < c.size
    ensures Open(c, m, s, seqno, wire) == Opened(Incomplete, s, seqno, wire)
  {
  }

  /** With one, the length in it is refused unless it is from 1 to 40001 and the packet ends with a block. */
  lemma {:induction false} RefusedIff<S(!new)>(c: Cipher<S>, m: Mac, s: S, seqno: U32, wire: seq<Byte>)
    requires Lawful(c) && |wire| >= c.size
    ensures var length := Get32(c.decrypt(s, wire[..c.size]).1, 0);
            Open(c, m, s, seqno, wire).outcome.Refused?
            <==> length == 0 || length > 40001 || (length + 4) % c.size != 0
  {
  }

  lemma {:induction false} ConfirmedIff(m: Mac, seqno: U32, plain: seq<Byte>, sent: seq<Byte>)
    requires LawfulMac(m) && |sent| == m.size
    ensures var code := m.hash(seqno, plain);
            |code| == m.size
            && (StrnEqual(sent, code)
                <==> sent == code || exists k :: 0 <= k < m.size && sent[k] == 0 && sent[..k + 1] == code[..k + 1])
  {
    StrnEqualIff(sent, m.hash(seqno, plain));
  }

  lemma {:induction false} OpensWhole<S(!new)>(c: Cipher<S>, m: Mac, s: S, seqno: U32, wire: seq<Byte>, length: U32,
                                               head: seq<Byte>, all: (S, seq<Byte>))
    requires Lawful(c) && |wire| >= c.size && head == c.decrypt(s, wire[..c.size]).1 && |head| == c.size
    requires length == Get32(head, 0) && Sane(length, c.size)
    requires |wire| >= 4 + length + m.size && all == DecryptAll(c, s, wire[..4 + length]) && |all.1| == 4 + length
    requires |m.hash(seqno, all.1)| == m.size
    ensures var outcome :=
              if head[4] > length - 1 then Overrun
              else Packet(all.1[5..4 + length - head[4]], all.1[5],
                          StrnEqual(wire[4 + length..4 + length + m.size], m.hash(seqno, all.1)));
            Open(c, m, s, seqno, wire) == Opened(outcome, all.0, (seqno + 1) % WORD, wire[4 + length + m.size..])
  {
  }

  /** Otherwise the reader waits for packet and MAC; then it has decrypted all blocks of the packet, takes the
      payload from behind the header up to the padding, and confirms it exactly when the bytes behind the packet
      are the MAC of sequence number and decrypted packet, or agree with it up to a zero byte. */
  lemma {:induction false} OpenIs<S(!new)>(c: Cipher<S>, m: Mac, s: S, seqno: U32, wire: seq<Byte>, length: U32,
                                           plain: seq<Byte>)
    requires Lawful(c) && LawfulMac(m) && |wire| >= c.size && length == Get32(c.decrypt(s, wire[..c.size]).1, 0)
    requires 0 < length <= 40001 && (length + 4) % c.size == 0
    requires |wire| >= 4 + length ==> plain == DecryptAll(c, s, wire[..4 + length]).1
    ensures |wire| < 4 + length + m.size ==> Open(c, m, s, seqno, wire).outcome.Incomplete?
    ensures |wire| >= 4 + length + m.size ==>
              var o := Open(c, m, s, seqno, wire);
              var padding := c.decrypt(s, wire[..c.size]).1[4];
              var code, sent := m.hash(seqno, plain), wire[4 + length..4 + length + m.size];
              && |plain| == 4 + length
              && o.state == DecryptAll(c, s, wire[..4 + length]).0
              && o.seqno == (seqno + 1) % WORD && o.rest == wire[4 + length + m.size..]
              && (if padding > length - 1 then o.outcome == Overrun
                  else
                    && o.outcome.Packet? && o.outcome.kind == plain[5]
                    && o.outcome.data == plain[5..4 + length - padding]
                    && (o.outcome.confirmed <==>
                          || sent == code
                          || exists k :: 0 <= k < m.size && sent[k] == 0 && sent[..k + 1] == code[..k + 1]))
  {
    if |wire| >= 4 + length + m.size {
      SaneLength(length, c.size);
      DecryptedSize(c, s, wire[..4 + length]);
      ConfirmedIff(m, seqno, plain, wire[4 + length..4 + length + m.size]);
      OpensWhole(c, m, s, seqno, wire, length, c.decrypt(s, wire[..c.size]).1, DecryptAll(c, s, wire[..4 + length]));
    }
  }

  lemma SaneLength(length: U32, block: nat)
    requires 8 <= block && Sane(length, block)
    ensures 0 < length <= MAX_PAYLOAD + 1 && (4 + length) % block == 0 && 4 + length >= block
  {
    if 4 + length < block { SumRemainder(0, 4 + length, block); }
  }

  lemma {:induction false} DecryptFront<S(!new)>(c: Cipher<S>, s: S, b: seq<Byte>)
    requires Lawful(c) && |b| >= c.size
    ensures |DecryptAll(c, s, b).1| == c.size + |DecryptAll(c, c.decrypt(s, b[..c.size]).0, b[c.size..]).1|
  {
    var first := b[..c.size];
    assert |c.decrypt(s, first).1| == c.size;
  }

  /** How much of n bytes makes up whole blocks. */
  function WholeBlocks(n: nat, block: nat): nat
    requires block > 0
  {
    n - n % block
  }

  lemma OneBlockMore(n: nat, block: nat)
    requires block > 0
    ensures n < block ==> WholeBlocks(n, block) == 0
    ensures n >= block ==> WholeBlocks(n, block) == block + WholeBlocks(n - block, block)
  {
    if n >= block { RemainderShift(n, block); } else { SumRemainder(0, n, block); }
  }

  lemma {:induction false} DecryptedSize<S(!new)>(c: Cipher<S>, s: S, b: seq<Byte>)
    requires Lawful(c)
    ensures |DecryptAll(c, s, b).1| == WholeBlocks(|b|, c.size)
    decreases |b|
  {
    OneBlockMore(|b|, c.size);
    if |b| >= c.size {
      DecryptFront(c, s, b);
      DecryptedSize(c, c.decrypt(s, b[..c.size]).0, b[c.size..]);
    }
  }

  lemma RemainderShift(n: nat, block: nat)
    requires block > 0 && n >= block
    ensures (n - block) % block == n % block
  {
    assert n - block == (n / block - 1) * block + n % block;
    SumRemainder(n / block - 1, n % block, block);
  }

  // ---------- round trip ----------

  lemma {:induction false} DecryptUndoesEncrypt<S(!new)>(c: Cipher<S>, s: S, b: seq<Byte>)
    requires Lawful(c) && |b| % c.size == 0
    ensures var (t, sealed) := EncryptAll(c, s, b);
            |sealed| == |b| && DecryptAll(c, s, sealed) == (t, b)
    decreases |b|
  {
    if |b| < c.size {
      SumRemainder(0, |b|, c.size);
      assert b == [];
    } else {
      var (t, first) := c.encrypt(s, b[..c.size]);
      RemainderShift(|b|, c.size);
      DecryptUndoesEncrypt(c, t, b[c.size..]);
      var (u, rest) := EncryptAll(c, t, b[c.size..]);
      assert (first + rest)[..c.size] == first && (first + rest)[c.size..] == rest;
      assert b[..c.size] + b[c.size..] == b;
    }
  }

  /** The first block alone decrypts to the first block of the packet. */
  lemma FirstBlock<S(!new)>(c: Cipher<S>, s: S, b: seq<Byte>)
    requires Lawful(c) && |b| % c.size == 0 && |b| >= c.size
    ensures var sealed := EncryptAll(c, s, b).1;
            |sealed| == |b| && c.decrypt(s, sealed[..c.size]).1 == b[..c.size]
  {
    DecryptUndoesEncrypt(c, s, b);
    var (t, first) := c.encrypt(s, b[..c.size]);
    assert EncryptAll(c, s, b).1[..c.size] == first;
  }

  lemma {:induction false} StrnEqualSelf(a: seq<Byte>)
    ensures StrnEqual(a, a)
  {
    if a != [] { StrnEqualSelf(a[1..]); }
  }

  /** strncmp tells two MACs of the same length apart exactly when they differ somewhere not beyond a zero
      that both have. */
  lemma {:induction false} StrnEqualIff(a: seq<Byte>, b: seq<Byte>)
    requires |a| == |b|
    ensures StrnEqual(a, b) <==> a == b || exists k :: 0 <= k < |a| && a[k] == 0 && a[..k + 1] == b[..k + 1]
  {
    if a != [] {
      StrnEqualIff(a[1..], b[1..]);
      if a[0] == b[0] && a[0] != 0 {
        if StrnEqual(a, b) && a != b {
          var k :| 0 <= k < |a[1..]| && a[1..][k] == 0 && a[1..][..k + 1] == b[1..][..k + 1];
          assert a[..k + 2] == [a[0]] + a[1..][..k + 1] && b[..k + 2] == [b[0]] + b[1..][..k + 1];
          assert a[k + 1] == 0;
        }
        if exists k :: 0 <= k < |a| && a[k] == 0 && a[..k + 1] == b[..k + 1] {
          var k :| 0 <= k < |a| && a[k] == 0 && a[..k + 1] == b[..k + 1];
          assert k > 0;
          assert a[1..][..k] == a[..k + 1][1..] && b[1..][..k] == b[..k + 1][1..];
          assert a[1..][k - 1] == 0;
        }
      } else if a[0] == b[0] {
        assert a[..1] == b[..1];
      } else if exists k :: 0 <= k < |a| && a[k] == 0 && a[..k + 1] == b[..k + 1] {
        var k :| 0 <= k < |a| && a[k] == 0 && a[..k + 1] == b[..k + 1];
        SameFirst(a, b, k + 1);
      }
    }
  }

  lemma SameFirst(a: seq<Byte>, b: seq<Byte>, n: nat)
    requires 0 < n <= |a| == |b| && a[..n] == b[..n]
    ensures a[0] == b[0]
  {
    assert a[..n][0] == a[0] && b[..n][0] == b[0];
  }

  /** A reader that decrypts the first block sees the length and the padding that were written. */
  lemma HeaderOfSeal<S(!new)>(c: Cipher<S>, m: Mac, s: S, seqno: U32, payload: seq<Byte>, pad: seq<Byte>,
                              rest: seq<Byte>)
    requires Lawful(c) && |pad| == PadLength(|payload|, c.size) && |payload| + 64 < WORD && |pad| < 64
    ensures var wire := Seal(c, m, s, seqno, payload, pad).1 + rest;
            && |wire| >= c.size
            && var head := c.decrypt(s, wire[..c.size]).1;
               Get32(head, 0) == |payload| + 1 + |pad| && head[4] == |pad|
  {
    PadLengthShortest(|payload|, c.size);
    var plain := Plain(payload, pad);
    PlainHeader(payload, pad);
    if |plain| < c.size { SumRemainder(0, |plain|, c.size); }
    FirstBlock(c, s, plain);
    var wire := Seal(c, m, s, seqno, payload, pad).1 + rest;
    assert wire[..c.size] == EncryptAll(c, s, plain).1[..c.size];
    assert Get32(plain[..c.size], 0) == Get32(plain, 0);
  }

  /** Past the header, the wire falls into the encrypted packet, its MAC and what follows. */
  lemma PiecesOfSeal<S(!new)>(c: Cipher<S>, m: Mac, s: S, seqno: U32, payload: seq<Byte>, pad: seq<Byte>,
                              rest: seq<Byte>)
    requires Lawful(c) && LawfulMac(m) && |pad| == PadLength(|payload|, c.size) && |payload| + 64 < WORD && |pad| < 64
    ensures var (t, sealed) := Seal(c, m, s, seqno, payload, pad);
            var wire, size := sealed + rest, 5 + |payload| + |pad|;
            && |wire| == size + m.size + |rest|
            && DecryptAll(c, s, wire[..size]) == (t, Plain(payload, pad))
            && wire[size..size + m.size] == m.hash(seqno, Plain(payload, pad))
            && wire[size + m.size..] == rest
  {
    PadLengthShortest(|payload|, c.size);
    var plain := Plain(payload, pad);
    PlainHeader(payload, pad);
    DecryptUndoesEncrypt(c, s, plain);
    var sealed, mac := EncryptAll(c, s, plain).1, m.hash(seqno, plain);
    var wire, size := Seal(c, m, s, seqno, payload, pad).1 + rest, |plain|;
    assert wire == sealed + mac + rest;
    assert wire[..size] == sealed && wire[size..size + m.size] == mac && wire[size + m.size..] == rest;
  }

  /** A packet that was written is read back, whatever follows it on the wire, with its MAC confirmed and
      with the cipher and the sequence number where the writer's are. */
  lemma {:induction false} OpenOfSeal<S(!new)>(c: Cipher<S>, m: Mac, s: S, seqno: U32, payload: seq<Byte>,
                                               pad: seq<Byte>, rest: seq<Byte>)
    requires Lawful(c) && LawfulMac(m)
    requires |pad| == PadLength(|payload|, c.size) && |payload| + |pad| <= MAX_PAYLOAD
    ensures 4 <= |pad| <= 35
    ensures var (t, wire) := Seal(c, m, s, seqno, payload, pad);
            Open(c, m, s, seqno, wire + rest)
              == Opened(Packet(payload, (payload + pad)[0], true), t, Add32(seqno, 1), rest)
  {
    PadLengthShortest(|payload|, c.size);
    PlainHeader(payload, pad);
    HeaderOfSeal(c, m, s, seqno, payload, pad, rest);
    PiecesOfSeal(c, m, s, seqno, payload, pad, rest);
    StrnEqualSelf(m.hash(seqno, Plain(payload, pad)));
    assert Plain(payload, pad)[5] == Plain(payload, pad)[5..][0];
  }

  /** Only the size limit stops a written packet. */
  lemma {:induction false} OversizeRefused<S(!new)>(c: Cipher<S>, m: Mac, s: S, seqno: U32, payload: seq<Byte>,
                                                    pad: seq<Byte>, rest: seq<Byte>)
    requires Lawful(c) && LawfulMac(m)
    requires |pad| == PadLength(|payload|, c.size) && |payload| + 64 < WORD
    ensures |pad| < 64
    ensures Open(c, m, s, seqno, Seal(c, m, s, seqno, payload, pad).1 + rest).outcome.Refused?
            <==> |payload| + |pad| > 40000
  {
    PadLengthShortest(|payload|, c.size);
    if |payload| + |pad| <= MAX_PAYLOAD {
      OpenOfSeal(c, m, s, seqno, payload, pad, rest);
    } else {
      HeaderOfSeal(c, m, s, seqno, payload, pad, rest);
    }
  }

  /** A packet that was sent in part only is not taken for a whole one. */
  lemma {:induction false} CutIsIncomplete<S(!new)>(c: Cipher<S>, m: Mac, s: S, seqno: U32, payload: seq<Byte>,
                                                     pad: seq<Byte>, n: nat)
    requires Lawful(c) && LawfulMac(m)
    requires |pad| == PadLength(|payload|, c.size) && |payload| + |pad| <= MAX_PAYLOAD
    ensures |pad| < 64
    ensures n < |Seal(c, m, s, seqno, payload, pad).1| ==>
              Open(c, m, s, seqno, Seal(c, m, s, seqno, payload, pad).1[..n]).outcome.Incomplete?
  {
    PadLengthShortest(|payload|, c.size);
    HeaderOfSeal(c, m, s, seqno, payload, pad, []);
    PiecesOfSeal(c, m, s, seqno, payload, pad, []);
    var wire := Seal(c, m, s, seqno, payload, pad).1;
    assert wire + [] == wire;
    if c.size <= n < |wire| { assert wire[..n][..c.size] == wire[..c.size]; }
  }

  // ---------- streams of packets ----------

  /** Payloads with the padding each was given. */
  type Item = (seq<Byte>, seq<Byte>)

  predicate Fits(item: Item, block: nat)
    requires block > 0
  {
    |item.1| == PadLength(|item.0|, block) && |item.0| + |item.1| <= MAX_PAYLOAD
  }

  predicate AllFit(items: seq<Item>, block: nat)
    requires block > 0
  {
    forall i :: 0 <= i < |items| ==> Fits(items[i], block)
  }

  function SealAll<S(!new)>(c: Cipher<S>, m: Mac, s: S, seqno: U32, items: seq<Item>): (S, U32, seq<Byte>)
    requires Lawful(c) && AllFit(items, c.size)
    decreases |items|
  {
    if items == [] then (s, seqno, [])
    else
      assert Fits(items[0], c.size);
      PadLengthShortest(|items[0].0|, c.size);
      var (t, wire) := Seal(c, m, s, seqno, items[0].0, items[0].1);
      var (u, n, rest) := SealAll(c, m, t, Add32(seqno, 1), items[1..]);
      (u, n, wire + rest)
  }

  /** Reads packet after packet as long as that goes well. */
  function OpenAll<S(!new)>(c: Cipher<S>, m: Mac, s: S, seqno: U32, wire: seq<Byte>, count: nat)
    : (S, U32, seq<Outcome>, seq<Byte>)
    requires Lawful(c)
    decreases count
  {
    if count == 0 then (s, seqno, [], wire)
    else
      var o := Open(c, m, s, seqno, wire);
      if !o.outcome.Packet? then (o.state, o.seqno, [o.outcome], o.rest)
      else
        var (t, n, outcomes, rest) := OpenAll(c, m, o.state, o.seqno, o.rest, count - 1);
        (t, n, [o.outcome] + outcomes, rest)
  }

  function Delivered(items: seq<Item>): seq<Outcome>
    requires forall i :: 0 <= i < |items| ==> items[i].0 + items[i].1 != []
  {
    if items == [] then []
    else [Packet(items[0].0, (items[0].0 + items[0].1)[0], true)] + Delivered(items[1..])
  }

  lemma FitsNonempty(items: seq<Item>, block: nat)
    requires block >= 4 && AllFit(items, block)
    ensures forall i :: 0 <= i < |items| ==> items[i].0 + items[i].1 != []
  {
    forall i | 0 <= i < |items| ensures items[i].0 + items[i].1 != [] {
      assert Fits(items[i], block);
      PadLengthShortest(|items[i].0|, block);
    }
  }

  /** Whole streams: the reader gets exactly the payloads, in order, each confirmed, and ends in the
      writer's cipher state and sequence number with nothing left over. */
  lemma {:induction false} StreamRoundTrip<S(!new)>(c: Cipher<S>, m: Mac, s: S, seqno: U32, items: seq<Item>,
                                                    after: seq<Byte>)
    requires Lawful(c) && LawfulMac(m) && AllFit(items, c.size)
    ensures forall i :: 0 <= i < |items| ==> items[i].0 + items[i].1 != []
    ensures var (t, n, wire) := SealAll(c, m, s, seqno, items);
            OpenAll(c, m, s, seqno, wire + after, |items|) == (t, n, Delivered(items), after)
    decreases |items|
  {
    FitsNonempty(items, c.size);
    if items == [] {
      assert [] + after == after;
    } else {
      var (payload, pad) := items[0];
      assert Fits(items[0], c.size);
      PadLengthShortest(|payload|, c.size);
      var (t, wire) := Seal(c, m, s, seqno, payload, pad);
      var tail := SealAll(c, m, t, Add32(seqno, 1), items[1..]).2;
      OpenOfSeal(c, m, s, seqno, payload, pad, tail + after);
      StreamRoundTrip(c, m, t, Add32(seqno, 1), items[1..], after);
      OpenAllStep(c, m, s, seqno, wire + (tail + after), |items|);
      assert (wire + tail) + after == wire + (tail + after);
    }
  }

  lemma OpenAllStep<S(!new)>(c: Cipher<S>, m: Mac, s: S, seqno: U32, wire: seq<Byte>, count: nat)
    requires Lawful(c) && count > 0 && Open(c, m, s, seqno, wire).outcome.Packet?
    ensures var o := Open(c, m, s, seqno, wire);
            var (t, n, outcomes, rest) := OpenAll(c, m, o.state, o.seqno, o.rest, count - 1);
            OpenAll(c, m, s, seqno, wire, count) == (t, n, [o.outcome] + outcomes, rest)
  {
  }
}
