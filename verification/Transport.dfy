/** packet_write and packet_read as loops over buffers, proved to seal and to open packets as Framing says. */
module Transport {
  import opened Bytes
  import opened Division
  import opened Framing

  ghost predicate Blocks<S>(c: Cipher<S>, n: int) {
    c.size > 0 && n >= 0 && n % c.size == 0
  }

  lemma NextBlock<S>(c: Cipher<S>, n: int)
    requires Blocks(c, n) && n > 0
    ensures n >= c.size && Blocks(c, n - c.size)
  {
    if n < c.size { SumRemainder(0, n, c.size); }
    RemainderShift(n, c.size);
  }

  lemma Onward(b: seq<Byte>, s: nat, first: seq<Byte>, rest: seq<Byte>)
    requires s <= |b| && b[s..] == first + rest
    ensures s + |first| <= |b| && b[s + |first|..] == rest && b[..s + |first|] == b[..s] + first
  {
    assert b == b[..s] + (first + rest);
  }

  /** What a buffer looks like around a piece copied into it. */
  lemma Spliced(before: seq<Byte>, after: seq<Byte>, s: nat, out: seq<Byte>, n: nat)
    requires s + |out| <= n <= |before| && after == before[..s] + out + before[s + |out|..]
    ensures |after| == |before|
    ensures after[s + |out|..n] == before[s..n][|out|..]
    ensures after[..s + |out|] == before[..s] + out
    ensures after[n..] == before[n..]
  {
  }

  /** One block of a longer run. */
  lemma EncryptStep<S(!new)>(c: Cipher<S>, s: S, b: seq<Byte>)
    requires Lawful(c) && Blocks(c, |b|) && b != []
    ensures |b| >= c.size && Blocks(c, |b| - c.size)
    ensures var (t, first) := c.encrypt(s, b[..c.size]);
            var (u, rest) := EncryptAll(c, t, b[c.size..]);
            EncryptAll(c, s, b) == (u, first + rest) && |first| == c.size && |rest| == |b| - c.size
  {
    NextBlock(c, |b|);
    DecryptUndoesEncrypt(c, s, b);
  }

  lemma DecryptStep<S(!new)>(c: Cipher<S>, s: S, b: seq<Byte>)
    requires Lawful(c) && Blocks(c, |b|) && b != []
    ensures |b| >= c.size && Blocks(c, |b| - c.size)
    ensures var (t, first) := c.decrypt(s, b[..c.size]);
            var (u, rest) := DecryptAll(c, t, b[c.size..]);
            DecryptAll(c, s, b) == (u, first + rest) && |first| == c.size && |rest| == |b| - c.size
  {
    NextBlock(c, |b|);
    DecryptedSize(c, s, b);
  }

  /** What a read must come to once the packet's n bytes and the MAC are there. */
  lemma OpenWhole<S(!new)>(c: Cipher<S>, m: Mac, s: S, seqno: U32, wire: seq<Byte>, length: U32, padding: Byte,
                           n: nat, all: (S, seq<Byte>))
    requires Lawful(c) && LawfulMac(m) && |wire| >= n + m.size && |wire| >= c.size
    requires var head := c.decrypt(s, wire[..c.size]).1; Get32(head, 0) == length && head[4] == padding
    requires Sane(length, c.size) && n == 4 + length && n >= 8 && all == DecryptAll(c, s, wire[..n]) && |all.1| == n
    ensures var payload := all.1[5..];
            Open(c, m, s, seqno, wire) == Opened(
              if padding > |payload| then Overrun
              else Packet(payload[..|payload| - padding], payload[0],
                          StrnEqual(wire[n..n + m.size], m.hash(seqno, all.1[..5] + payload))),
              all.0, Add32(seqno, 1), wire[n + m.size..])
  {
    assert all.1[..5] + all.1[5..] == all.1;
    if padding < length {
      assert all.1[5..][..length - 1 - padding] == all.1[5..4 + length - padding];
    }
  }

  /** memcpy into a buffer. */
  method Copy(to: array<Byte>, at: nat, from: seq<Byte>)
    requires at + |from| <= to.Length
    modifies to
    ensures to[..] == old(to[..at]) + from + old(to[at + |from|..])
  {
    forall i | 0 <= i < |from| {
      to[at + i] := from[i];
    }
  }

  class Writer<S(!new)> {
    const cipher: Cipher<S>
    const mac: Mac
    var state: S
    var seqno: U32
    var wire: seq<Byte>

    constructor (cipher: Cipher<S>, mac: Mac, state: S, seqno: U32)
      ensures this.cipher == cipher && this.mac == mac && this.state == state && this.seqno == seqno && wire == []
    {
      this.cipher, this.mac, this.state, this.seqno, wire := cipher, mac, state, seqno, [];
    }

    /** How much padding a payload of `len` bytes gets. */
    method Padding(len: nat) returns (padding: nat)
      requires cipher.size > 0
      ensures padding == PadLength(len, cipher.size)
    {
      var length, block := len + 1, cipher.size;
      padding := block - (length + 4) % block;
      if padding < 4 { padding := padding + block; }
    }

    /** Lays out the packet and, behind it, its MAC. */
    method Assemble(data: seq<Byte>, random: seq<Byte>) returns (encbuf: array<Byte>, n: nat)
      requires Lawful(cipher) && LawfulMac(mac) && |data| + 64 < WORD
      requires |random| == PadLength(|data|, cipher.size)
      ensures fresh(encbuf) && |random| < 64
      ensures n == 5 + |data| + |random| && encbuf.Length == n + mac.size && Blocks(cipher, n)
      ensures encbuf[..n] == Plain(data, random) && encbuf[n..] == mac.hash(seqno, Plain(data, random))
    {
      PadLengthShortest(|data|, cipher.size);
      var padding := Padding(|data|);
      n := 4 + |data| + 1 + padding;
      assert Blocks(cipher, n);
      encbuf := LayOut(data, random);
      PlainHeader(data, random);
      Copy(encbuf, n, mac.hash(seqno, encbuf[..n]));
    }

    method LayOut(data: seq<Byte>, random: seq<Byte>) returns (encbuf: array<Byte>)
      requires |data| + 64 < WORD && |random| < 64
      ensures fresh(encbuf) && encbuf.Length == 5 + |data| + |random| + mac.size
      ensures encbuf[..5 + |data| + |random|] == Plain(data, random)
    {
      encbuf := new Byte[5 + |data| + |random| + mac.size];
      Copy(encbuf, 0, Put32(|data| + 1 + |random|) + [|random|]);
      Copy(encbuf, 5, data);
      Copy(encbuf, 5 + |data|, random);
    }

    /** `random` are the bytes that RAND_bytes yields, `accepted` how much of the packet send takes. */
    method PacketWrite(data: seq<Byte>, random: seq<Byte>, accepted: nat) returns (ok: bool)
      requires Lawful(cipher) && LawfulMac(mac) && |data| + 64 < WORD
      requires |random| == PadLength(|data|, cipher.size)
      modifies this
      ensures |random| < 64
      ensures var (t, sealed) := Seal(cipher, mac, old(state), old(seqno), data, random);
              && state == t && seqno == Add32(old(seqno), 1)
              && ok == (accepted >= |sealed|)
              && wire == old(wire) + if ok then sealed else sealed[..accepted]
    {
      var encbuf, n := Assemble(data, random);
      EncryptInPlace(encbuf, n);
      seqno := Add32(seqno, 1);
      assert encbuf[..] == encbuf[..n] + encbuf[n..];
      ok := accepted >= encbuf.Length;
      wire := wire + if ok then encbuf[..] else encbuf[..accepted];
    }

    /** Encrypts the first n bytes of the buffer block by block. */
    method EncryptInPlace(encbuf: array<Byte>, n: nat)
      requires Lawful(cipher) && n <= encbuf.Length && Blocks(cipher, n)
      modifies encbuf, `state
      ensures (state, encbuf[..n]) == EncryptAll(cipher, old(state), old(encbuf[..n]))
      ensures encbuf[n..] == old(encbuf[n..])
    {
      ghost var plain := encbuf[..n];
      ghost var all := EncryptAll(cipher, state, plain);
      DecryptUndoesEncrypt(cipher, state, plain);
      var s := 0;
      assert encbuf[0..n] == encbuf[..n];
      while s < n
        invariant s <= n && Blocks(cipher, n - s) && |all.1| == n
        invariant EncryptAll(cipher, state, encbuf[s..n]) == (all.0, all.1[s..])
        invariant encbuf[..s] == all.1[..s]
        invariant encbuf[n..] == old(encbuf[n..])
      {
        s := EncryptBlock(encbuf, s, n, all);
      }
      assert encbuf[s..n] == [] && all.1[..n] == all.1;
      assert (state, []) == EncryptAll(cipher, state, encbuf[s..n]);
    }

    method EncryptBlock(encbuf: array<Byte>, s: nat, n: nat, ghost all: (S, seq<Byte>)) returns (next: nat)
      requires Lawful(cipher) && s < n <= encbuf.Length && Blocks(cipher, n - s) && |all.1| == n
      requires EncryptAll(cipher, state, encbuf[s..n]) == (all.0, all.1[s..])
      requires encbuf[..s] == all.1[..s]
      modifies encbuf, `state
      ensures s < next <= n && Blocks(cipher, n - next)
      ensures EncryptAll(cipher, state, encbuf[next..n]) == (all.0, all.1[next..])
      ensures encbuf[..next] == all.1[..next]
      ensures encbuf[n..] == old(encbuf[n..])
    {
      var block := cipher.size;
      ghost var before := encbuf[..];
      ghost var tail := before[s..n];
      assert encbuf[s..n] == tail && encbuf[..s] == before[..s] && encbuf[n..] == before[n..];
      EncryptStep(cipher, state, tail);
      ghost var rest := EncryptAll(cipher, cipher.encrypt(state, tail[..block]).0, tail[block..]).1;
      assert encbuf[s..s + block] == tail[..block];
      var (t, out) := cipher.encrypt(state, encbuf[s..s + block]);
      Onward(all.1, s, out, rest);
      state := t;
      Copy(encbuf, s, out);
      next := s + block;
      Spliced(before, encbuf[..], s, out, n);
      assert encbuf[next..n] == encbuf[..][next..n];
      assert encbuf[..next] == encbuf[..][..next] && encbuf[n..] == encbuf[..][n..];
    }
  }

  class Reader<S(!new)> {
    const cipher: Cipher<S>
    const mac: Mac
    var state: S
    var seqno: U32
    var socket: seq<Byte>
    var connected: bool

    constructor (cipher: Cipher<S>, mac: Mac, state: S, seqno: U32)
      ensures this.cipher == cipher && this.mac == mac && this.state == state && this.seqno == seqno
      ensures socket == [] && connected
    {
      this.cipher, this.mac, this.state, this.seqno, socket, connected := cipher, mac, state, seqno, [], true;
    }

    /** The payload is filled up to s and what is left of the packet's n bytes will fill the rest. */
    ghost predicate Filling(payload: array<Byte>, s: nat, wire: seq<Byte>, n: nat, all: (S, seq<Byte>))
      reads this, payload
    {
      && n == payload.Length + 5 && s <= payload.Length && s + 5 <= |wire|
      && Blocks(cipher, n - s - 5) && socket == wire[s + 5..]
      && (|wire| >= n ==>
           && |all.1| == n && payload[..s] == all.1[5..s + 5]
           && DecryptAll(cipher, state, wire[s + 5..n]) == (all.0, all.1[s + 5..]))
    }

    method FillBlock(payload: array<Byte>, s: nat, ghost wire: seq<Byte>, ghost n: nat, ghost all: (S, seq<Byte>))
      returns (next: nat)
      requires Lawful(cipher) && Filling(payload, s, wire, n, all) && s < payload.Length && |socket| >= cipher.size
      modifies payload, `state, `socket
      ensures Filling(payload, next, wire, n, all) && next > s
    {
      var block := cipher.size;
      NextBlock(cipher, n - s - 5);
      var (u, out) := cipher.decrypt(state, socket[..block]);
      next := s + block;
      if |wire| >= n {
        ghost var tail := wire[s + 5..n];
        DecryptStep(cipher, state, tail);
        assert tail[..block] == socket[..block] && tail[block..] == wire[next + 5..n];
        ghost var rest := DecryptAll(cipher, u, tail[block..]).1;
        assert all.1[s + 5..] == out + rest;
        assert all.1[next + 5..] == rest && all.1[5..next + 5] == all.1[5..s + 5] + out;
      }
      state, socket := u, socket[block..];
      Copy(payload, s, out);
      assert payload[..next] == payload[..s] + out;
    }

    /** Reads blocks until the payload is full; false when the bytes run out first. */
    method Fill(payload: array<Byte>, from: nat, ghost wire: seq<Byte>, ghost n: nat, ghost all: (S, seq<Byte>))
      returns (ok: bool)
      requires Lawful(cipher) && Filling(payload, from, wire, n, all)
      modifies payload, `state, `socket
      ensures ok == (|wire| >= n)
      ensures ok ==> state == all.0 && payload[..] == all.1[5..] && socket == wire[n..]
    {
      var s := from;
      while s < payload.Length
        invariant Filling(payload, s, wire, n, all)
        decreases payload.Length - s
      {
        if |socket| < cipher.size {
          NextBlock(cipher, n - s - 5);
          return false;
        }
        s := FillBlock(payload, s, wire, n, all);
      }
      assert wire[s + 5..n] == [] && payload[..s] == payload[..];
      ok := true;
    }

    /** The header of a packet: what it says, and the bytes of the first block beyond it. */
    lemma HeaderRead(s: S, wire: seq<Byte>, n: nat)
      requires Lawful(cipher) && |wire| >= n >= cipher.size && Blocks(cipher, n)
      ensures var (t, head) := cipher.decrypt(s, wire[..cipher.size]);
              var all := DecryptAll(cipher, s, wire[..n]);
              && |all.1| == n && all.1[..cipher.size] == head
              && DecryptAll(cipher, t, wire[cipher.size..n]) == (all.0, all.1[cipher.size..])
    {
      DecryptStep(cipher, s, wire[..n]);
      assert wire[..n][..cipher.size] == wire[..cipher.size] && wire[..n][cipher.size..] == wire[cipher.size..n];
    }

    /** Reads one packet from the bytes that have arrived.  The buffer for the payload is filled exactly. */
    method PacketRead() returns (o: Outcome)
      requires Lawful(cipher) && LawfulMac(mac)
      modifies this
      ensures var expected := Open(cipher, mac, old(state), old(seqno), old(socket));
              && o == expected.outcome
              && (o.Packet? || o.Overrun? ==>
                    state == expected.state && seqno == expected.seqno && socket == expected.rest)
              && (o.Refused? ==> !connected && state == cipher.decrypt(old(state), old(socket)[..cipher.size]).0
                                 && socket == old(socket)[cipher.size..])
              && (o.Refused? || o.Incomplete? ==> seqno == old(seqno))
    {
      var block := cipher.size;
      ghost var wire := socket;
      if |socket| < block { return Incomplete; }
      var (t, head) := cipher.decrypt(state, socket[..block]);
      state, socket := t, socket[block..];
      var length := Get32(head, 0);
      var payloadLength := Sub32(length, 1);
      if payloadLength > MAX_PAYLOAD || Add32(length, 4) % block != 0 {
        connected := false;
        return Refused;
      }
      o := ReadBody(head, old(state), wire);
    }

    /** Reads the rest of the payload of a packet of n bytes whose first block has been decrypted. */
    method ReadPayload(head: seq<Byte>, ghost start: S, ghost wire: seq<Byte>, ghost n: nat, ghost all: (S, seq<Byte>))
      returns (ok: bool, payload: seq<Byte>)
      requires Lawful(cipher) && |head| == cipher.size <= |wire| && socket == wire[cipher.size..]
      requires n == 4 + Get32(head, 0) && n >= cipher.size && Blocks(cipher, n)
      requires |wire| >= n ==>
        |all.1| == n && all.1[..cipher.size] == head &&
        DecryptAll(cipher, state, wire[cipher.size..n]) == (all.0, all.1[cipher.size..])
      modifies `state, `socket
      ensures ok == (|wire| >= n)
      ensures ok ==> state == all.0 && payload == all.1[5..] && socket == wire[n..]
    {
      NextBlock(cipher, n);
      var buffer := StartPayload(head);
      FirstFilled(buffer, head, wire, n, all);
      ok := Fill(buffer, cipher.size - 5, wire, n, all);
      payload := buffer[..];
    }

    /** The buffer for the payload, with what the first block holds of it. */
    method StartPayload(head: seq<Byte>) returns (buffer: array<Byte>)
      requires |head| >= 5 && Get32(head, 0) >= |head| - 4
      ensures fresh(buffer) && buffer.Length == Get32(head, 0) - 1 && buffer[..|head| - 5] == head[5..]
    {
      buffer := new Byte[Get32(head, 0) - 1];
      Copy(buffer, 0, head[5..]);
    }

    lemma {:induction false} FirstFilled(buffer: array<Byte>, head: seq<Byte>, wire: seq<Byte>, n: nat,
                                         all: (S, seq<Byte>))
      requires 5 <= |head| == cipher.size <= |wire| && socket == wire[cipher.size..]
      requires n == buffer.Length + 5 >= cipher.size && Blocks(cipher, n - cipher.size)
      requires buffer[..cipher.size - 5] == head[5..]
      requires |wire| >= n ==>
        |all.1| == n && all.1[..cipher.size] == head &&
        DecryptAll(cipher, state, wire[cipher.size..n]) == (all.0, all.1[cipher.size..])
      ensures Filling(buffer, cipher.size - 5, wire, n, all)
    {
      if |wire| >= n { assert head[5..] == all.1[..cipher.size][5..] == all.1[5..cipher.size]; }
    }

    method ReadBody(head: seq<Byte>, ghost start: S, ghost wire: seq<Byte>) returns (o: Outcome)
      requires Lawful(cipher) && LawfulMac(mac)
      requires |wire| >= cipher.size && (state, head) == cipher.decrypt(start, wire[..cipher.size])
      requires Sane(Get32(head, 0), cipher.size) && socket == wire[cipher.size..]
      modifies `state, `seqno, `socket
      ensures o == Open(cipher, mac, start, old(seqno), wire).outcome
      ensures if o.Incomplete? then seqno == old(seqno)
              else Opened(o, state, seqno, socket) == Open(cipher, mac, start, old(seqno), wire)
    {
      SaneLength(Get32(head, 0), cipher.size);
      ghost var n: nat := 4 + Get32(head, 0);
      ghost var all := DecryptAll(cipher, start, if |wire| >= n then wire[..n] else []);
      if |wire| >= n { HeaderRead(start, wire, n); }
      var ok, payload := ReadPayload(head, start, wire, n, all);
      if !ok || |socket| < mac.size { return Incomplete; }
      o := ReadTail(head, payload, start, wire, n, all);
    }

    /** The MAC behind a payload that has been read. */
    method ReadTail(head: seq<Byte>, payload: seq<Byte>, ghost start: S, ghost wire: seq<Byte>, ghost n: nat,
                    ghost all: (S, seq<Byte>)) returns (o: Outcome)
      requires Lawful(cipher) && LawfulMac(mac) && |wire| >= n + mac.size && |wire| >= cipher.size
      requires head == cipher.decrypt(start, wire[..cipher.size]).1 && |head| == cipher.size
      requires Sane(Get32(head, 0), cipher.size) && n == 4 + Get32(head, 0) && n >= 8
      requires all == DecryptAll(cipher, start, wire[..n]) && |all.1| == n && head[..5] == all.1[..5]
      requires state == all.0 && payload == all.1[5..] && socket == wire[n..]
      modifies `seqno, `socket
      ensures !o.Incomplete? && Opened(o, state, seqno, socket) == Open(cipher, mac, start, old(seqno), wire)
    {
      OpenWhole(cipher, mac, start, seqno, wire, Get32(head, 0), head[4], n, all);
      assert wire[n..][..mac.size] == wire[n..n + mac.size] && wire[n..][mac.size..] == wire[n + mac.size..];
      o := Finish(payload, head[..5], head[4]);
    }

    /** Checks the MAC and strips the padding. */
    method Finish(payload: seq<Byte>, tmp: seq<Byte>, padding: Byte) returns (o: Outcome)
      requires LawfulMac(mac) && |socket| >= mac.size && payload != []
      modifies `seqno, `socket
      ensures seqno == Add32(old(seqno), 1) && socket == old(socket)[mac.size..]
      ensures o == if padding > |payload| then Overrun
                   else Packet(payload[..|payload| - padding], payload[0],
                               StrnEqual(old(socket)[..mac.size], mac.hash(old(seqno), tmp + payload)))
    {
      var sent := socket[..mac.size];
      socket := socket[mac.size..];
      var confirmed := StrnEqual(sent, HashPieces(mac, seqno, tmp, payload));
      seqno := Add32(seqno, 1);
      if padding > |payload| { return Overrun; }
      o := Packet(payload[..|payload| - padding], payload[0], confirmed);
    }
  }

  /** One packet from end to end: when all of it is sent the payload arrives, confirmed, and both ends are
      again in step; when a send takes less the writer has moved on all the same, and the ends are no longer
      in step. */
  method Exchange<S(!new)>(w: Writer<S>, r: Reader<S>, data: seq<Byte>, random: seq<Byte>, accepted: nat)
    returns (ok: bool, o: Outcome)
    requires Lawful(w.cipher) && LawfulMac(w.mac) && r.cipher == w.cipher && r.mac == w.mac
    requires r.state == w.state && r.seqno == w.seqno && r.socket == []
    requires |random| == PadLength(|data|, w.cipher.size) && |data| + |random| <= MAX_PAYLOAD
    modifies w, r
    ensures ok == (accepted >= 5 + |data| + |random| + w.mac.size)
    ensures ok <==> o.Packet? && o.data == data && o.confirmed
    ensures ok <==> r.state == w.state && r.seqno == w.seqno && r.socket == []
    ensures !ok ==> o.Incomplete? && r.seqno == old(r.seqno) && w.seqno == Add32(r.seqno, 1)
  {
    ghost var sealed := Seal(w.cipher, w.mac, w.state, w.seqno, data, random).1;
    OpenOfSeal(w.cipher, w.mac, w.state, w.seqno, data, random, []);
    PiecesOfSeal(w.cipher, w.mac, w.state, w.seqno, data, random, []);
    var start := |w.wire|;
    if accepted < |sealed| { CutIsIncomplete(w.cipher, w.mac, w.state, w.seqno, data, random, accepted); }
    ok := w.PacketWrite(data, random, accepted);
    r.socket := w.wire[start..];
    assert r.socket == if ok then sealed + [] else sealed[..accepted];
    o := r.PacketRead();
  }
}
