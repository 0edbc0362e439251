/** The books of a receiving channel in every mode: how far each operation moves what `Held` counts,
    and exactly when it does not move it.  All sums are of unsigned 32-bit words that may wrap. */
module Refunds {
  import opened Bytes
  import opened Endpoints
  import opened Accounting
  import opened Conservation

  /** A grant moves the books by its amount, less a multiple of the word size. */
  lemma {:induction false} AdjustBooks(e: Endpoint, id: U32, amount: U32, force: bool) returns (wraps: nat)
    requires id in e.channels
    ensures Held(WindowAdjust(e, id, amount, force), id) == Held(e, id) + amount - wraps * WORD
  {
    var c := e.channels[id];
    var f := WindowAdjust(e, id, amount, force);
    var total := Add32(amount, c.adjustQueue);
    wraps := if total < amount then 1 else 0;
    if f.channels[id].remote.window != c.remote.window && c.remote.window + total >= WORD { wraps := wraps + 1; }
  }

  lemma {:induction false} AdjustAllBooks(e: Endpoint, id: U32, amounts: seq<U32>) returns (wraps: nat)
    requires id in e.channels
    ensures Held(AdjustAll(e, id, amounts), id) == Held(e, id) + SumOf(amounts) - wraps * WORD
    decreases |amounts|
  {
    if amounts == [] {
      wraps := 0;
    } else {
      var first := AdjustBooks(e, id, amounts[0], false);
      var rest := AdjustAllBooks(WindowAdjust(e, id, amounts[0], false), id, amounts[1..]);
      wraps := first + rest;
    }
  }

  /** A drift smaller than a word cannot vanish by wrapping. */
  lemma DriftShows(before: nat, after: nat, drift: nat, wraps: nat)
    requires before < WORD && drift < WORD && after == before + drift - wraps * WORD
    ensures after == before <==> drift == 0
  {
  }

  // ---------- receiving ----------

  /** Extended data that a channel ignores. */
  predicate Ignored(c: Channel, m: Message) {
    c.mode == Ignore && m.Extended?
  }

  /** packet_add gets the books wrong when it refunds ignored data that it never charged, and when it
      cuts a message to the window without charging for the part it keeps. */
  predicate Miscounted(c: Channel, m: Message)
    requires CarriesData(m)
  {
    if Ignored(c, m) then m.bytes != []
    else 0 < c.remote.window < |m.bytes| && c.remote.window < c.remote.packet
  }

  lemma {:induction false} ReceiveKeepsBooksIff(e: Endpoint, m: Message)
    requires CarriesData(m) && m.channel in e.channels && Held(e, m.channel) < WORD
    ensures Held(PacketAdd(e, m), m.channel) == Held(e, m.channel) <==> !Miscounted(e.channels[m.channel], m)
  {
    var id, c := m.channel, e.channels[m.channel];
    if Ignored(c, m) {
      var wraps := AdjustBooks(e, id, |m.bytes|, false);
      DriftShows(Held(e, id), Held(WindowAdjust(e, id, |m.bytes|, false), id), |m.bytes|, wraps);
    } else if c.remote.window > 0 {
      var p: Packet := RawPacket(Truncated(m, KeptSize(c, m)), 0);
      QueuedAppend(e.packets, p, id);
      assert DataSize(p.data, id) == KeptSize(c, m);
    }
  }

  // ---------- reading ----------

  /** Extended packets that a read of stream 0 empties, which only merging lets it do. */
  function MergedCount(ps: seq<Packet>, id: U32, stream: U32, mode: Mode, want: nat): nat {
    if ps == [] || want == 0 then 0
    else if !Readable(ps[0], id, stream, mode) then MergedCount(ps[1..], id, stream, mode, want)
    else
      var left := |ps[0].data.bytes| - ps[0].taken;
      if want >= left then
        MergedCount(ps[1..], id, stream, mode, want - left) + if stream == 0 && ps[0].data.Extended? then 1 else 0
      else 0
  }

  /** Each of them is refunded four bytes too many. */
  lemma {:induction false} ReadListBooks(ps: seq<Packet>, id: U32, stream: U32, mode: Mode, want: nat)
    ensures var scan := ReadList(ps, id, stream, mode, want);
            Queued(scan.packets, id) + SumOf(scan.refunds) == Queued(ps, id)
              + 4 * MergedCount(ps, id, stream, mode, want)
    ensures MergedCount(ps, id, stream, mode, want) <= |ps|
  {
    if ps == [] || want == 0 {
    } else {
      var p, tail := ps[0], ps[1..];
      if !Readable(p, id, stream, mode) {
        ReadListBooks(tail, id, stream, mode, want);
        var rest := ReadList(tail, id, stream, mode, want);
        assert ([p] + rest.packets)[1..] == rest.packets;
      } else if want >= |p.data.bytes| - p.taken {
        var left := |p.data.bytes| - p.taken;
        ReadListBooks(tail, id, stream, mode, want - left);
        var scan, rest := ReadList(ps, id, stream, mode, want), ReadList(tail, id, stream, mode, want - left);
        assert scan.refunds[0] == Refund(p.data, stream) && scan.refunds[1..] == rest.refunds;
      } else {
        var q: Packet := p.(taken := p.taken + want);
        assert ([q] + tail)[1..] == tail;
      }
    }
  }

  /** A read keeps the books exactly when it empties no extended packet as plain data. */
  lemma {:induction false} ReadKeepsBooksIff(e: Endpoint, id: U32, stream: U32, want: nat)
    requires id in e.channels && Held(e, id) < WORD && |e.packets| < 0x4000_0000
    ensures Held(ReadScan(e, id, stream, want).0, id) == Held(e, id)
            <==> MergedCount(e.packets, id, stream, e.channels[id].mode, want) == 0
  {
    var mode := e.channels[id].mode;
    var scan := ReadList(e.packets, id, stream, mode, want);
    var s := e.(packets := scan.packets);
    ReadListBooks(e.packets, id, stream, mode, want);
    var wraps := AdjustAllBooks(s, id, scan.refunds);
    DriftShows(Held(e, id), Held(AdjustAll(s, id, scan.refunds), id),
               4 * MergedCount(e.packets, id, stream, mode, want), wraps);
  }

  // ---------- flushing ----------

  /** Plain data packets that a flush drops. */
  function PlainCount(ps: seq<Packet>, id: U32, what: FlushWhat): nat {
    if ps == [] then 0
    else
      var p := ps[|ps| - 1];
      PlainCount(ps[..|ps| - 1], id, what) + if Flushable(p, id, what) && p.data.Data? then 1 else 0
  }

  /** Each of them is refunded four bytes too few. */
  lemma {:induction false} FlushBooks(ps: seq<Packet>, id: U32, what: FlushWhat) returns (wraps: int)
    ensures Queued(FlushList(ps, id, what), id) + FlushRefund(ps, id, what)
         == Queued(ps, id) - 4 * PlainCount(ps, id, what) - wraps * WORD
    ensures PlainCount(ps, id, what) <= |ps|
    decreases |ps|
  {
    if ps == [] {
      wraps := 0;
    } else {
      var front, p := ps[..|ps| - 1], ps[|ps| - 1];
      assert ps == front + [p];
      wraps := FlushBooks(front, id, what);
      QueuedAppend(front, p, id);
      FlushListAppend(front, p, id, what);
      if Flushable(p, id, what) {
        assert FlushList(ps, id, what) == FlushList(front, id, what);
        var back := Sub32(Length(p.data), 13);
        if p.data.Data? && |p.data.bytes| < 4 { wraps := wraps - 1; }
        if FlushRefund(front, id, what) + back >= WORD { wraps := wraps + 1; }
      } else {
        QueuedAppend(FlushList(front, id, what), p, id);
      }
    }
  }

  /** A flush keeps the books exactly when it drops no plain data packet. */
  lemma {:induction false} FlushKeepsBooksIff(e: Endpoint, id: U32, what: FlushWhat)
    requires id in e.channels && Held(e, id) < WORD && |e.packets| < 0x4000_0000
    ensures Held(Flush(e, id, what), id) == Held(e, id) <==> PlainCount(e.packets, id, what) == 0
  {
    var s := e.(packets := FlushList(e.packets, id, what));
    var refund := FlushRefund(e.packets, id, what);
    var wraps := FlushBooks(e.packets, id, what);
    var more := 0;
    if refund != 0 { more := AdjustBooks(s, id, refund, false); }
    assert Held(Flush(e, id, what), id)
        == Held(e, id) - 4 * PlainCount(e.packets, id, what) - (wraps + more) * WORD;
    if PlainCount(e.packets, id, what) == 0 { FlushWithoutPlain(e, id, what); }
  }

  /** Without plain packets nothing wraps. */
  lemma {:induction false} PlainFreeRefund(ps: seq<Packet>, id: U32, what: FlushWhat)
    requires PlainCount(ps, id, what) == 0 && Queued(ps, id) < WORD
    ensures Queued(FlushList(ps, id, what), id) + FlushRefund(ps, id, what) == Queued(ps, id)
    decreases |ps|
  {
    if ps != [] {
      var front, p := ps[..|ps| - 1], ps[|ps| - 1];
      assert ps == front + [p];
      QueuedAppend(front, p, id);
      PlainFreeRefund(front, id, what);
      FlushListAppend(front, p, id, what);
      if Flushable(p, id, what) {
        assert FlushList(ps, id, what) == FlushList(front, id, what);
      } else {
        QueuedAppend(FlushList(front, id, what), p, id);
      }
    }
  }

  lemma {:induction false} AdjustWithoutWrap(e: Endpoint, id: U32, amount: U32)
    requires id in e.channels && Held(e, id) + amount < WORD
    ensures Held(WindowAdjust(e, id, amount, false), id) == Held(e, id) + amount
  {
    var wraps := AdjustBooks(e, id, amount, false);
  }

  lemma {:induction false} HeldWithPackets(e: Endpoint, id: U32, ps: seq<Packet>)
    requires id in e.channels
    ensures Held(e.(packets := ps), id) == Held(e, id) - Queued(e.packets, id) + Queued(ps, id)
  {
  }

  lemma {:induction false} FlushWithoutPlain(e: Endpoint, id: U32, what: FlushWhat)
    requires id in e.channels && Held(e, id) < WORD && PlainCount(e.packets, id, what) == 0
    ensures Held(Flush(e, id, what), id) == Held(e, id)
  {
    var s := e.(packets := FlushList(e.packets, id, what));
    QueuedIsHeld(e, id);
    PlainFreeRefund(e.packets, id, what);
    HeldWithPackets(e, id, s.packets);
    AdjustWithoutWrap(s, id, FlushRefund(e.packets, id, what));
  }

  lemma {:induction false} QueuedIsHeld(e: Endpoint, id: U32)
    requires id in e.channels
    ensures Queued(e.packets, id) <= Held(e, id)
  {
  }
}
