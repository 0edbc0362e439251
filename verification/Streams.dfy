/** What every operation does to the bytes of each stream: which it takes in, which it hands out,
    and that all others stay where they are, in order. */
module Streams {
  import opened Bytes
  import opened Endpoints
  import opened Accounting
  import opened Conservation

  /** The bytes of a stream that have reached this side and are not yet read. */
  function Arrived(e: Endpoint, id: U32, stream: U32): seq<Byte> {
    Pending(e.packets, id, stream) + BytesIn(e.inbox, id, stream)
  }

  ghost predicate SameArrived(e: Endpoint, f: Endpoint) {
    forall id: U32, s: U32 :: id in e.channels ==> Arrived(f, id, s) == Arrived(e, id, s)
  }

  ghost predicate SameSent(e: Endpoint, f: Endpoint) {
    && (forall id: U32, s: U32 :: BytesIn(f.outbox, id, s) == BytesIn(e.outbox, id, s))
    && (forall id: U32 :: Marks(f.outbox, id) == Marks(e.outbox, id))
  }

  /** A message that becomes a packet moves its bytes from the socket to the end of the brigade. */
  lemma QueuedKeepsBytes(e: Endpoint, f: Endpoint, m: Message, id: U32, s: U32)
    requires e.inbox != [] && e.inbox[0] == m && f.inbox == e.inbox[1..]
    requires f.packets == e.packets + [RawPacket(m, 0)]
    ensures Arrived(f, id, s) == Arrived(e, id, s)
  {
    var p: Packet := RawPacket(m, 0);
    PendingAppend(e.packets, p, id, s);
    Regroup(Pending(e.packets, id, s), Unread(p, id, s), BytesIn(f.inbox, id, s));
  }

  /** A message without bytes for a stream leaves it alone. */
  lemma DroppedKeepsBytes(e: Endpoint, f: Endpoint, id: U32, s: U32)
    requires e.inbox != [] && f.inbox == e.inbox[1..] && f.packets == e.packets
    requires StreamPart(e.inbox[0], id, s) == []
    ensures Arrived(f, id, s) == Arrived(e, id, s)
  {
  }

  /** Under `Sound` a delivery either queues the whole message or has nothing to queue for a known channel. */
  lemma DeliverQueuesAll(e: Endpoint)
    requires Sound(e) && e.inbox != []
    ensures var m, f := e.inbox[0], Deliver(e);
            && f.outbox == e.outbox
            && (f.packets == e.packets + [RawPacket(m, 0)]
                || (f.packets == e.packets &&
                    (CarriesData(m) && m.channel in e.channels ==> m.bytes == [])))
  {
    var m := e.inbox[0];
    if CarriesData(m) {
      NothingCut(e);
      if m.channel in e.channels {
        assert ChannelSound(e, m.channel);
      }
    }
  }

  /** The local half of a channel, apart from its window, and the end-of-file flag of the remote half. */
  ghost predicate SameFlags(e: Endpoint, f: Endpoint) {
    forall id: U32 :: id in e.channels && id in f.channels ==>
      && f.channels[id].remote.id == e.channels[id].remote.id
      && f.channels[id].local.eof == e.channels[id].local.eof
      && f.channels[id].remote.eof == e.channels[id].remote.eof
  }

  lemma DeliverKeepsBytes(e: Endpoint)
    requires Sound(e) && e.inbox != []
    ensures SameArrived(e, Deliver(e)) && SameSent(e, Deliver(e))
  {
    var m, f := e.inbox[0], Deliver(e);
    DeliverQueuesAll(e);
    forall id: U32, s: U32 | id in e.channels ensures Arrived(f, id, s) == Arrived(e, id, s) {
      if f.packets == e.packets {
        DroppedKeepsBytes(e, f, id, s);
      } else {
        QueuedKeepsBytes(e, f, m, id, s);
      }
    }
  }

  /** A chunk puts exactly its bytes at the end of its own stream. */
  lemma SendChunkAppends(e: Endpoint, id: U32, stream: U32, buf: Chunk)
    requires id in e.channels
    ensures var (f, sent) := SendChunk(e, id, stream, buf);
            && f.packets == e.packets && f.inbox == e.inbox
            && forall x: U32, t: U32 ::
                 BytesIn(f.outbox, x, t) == BytesIn(e.outbox, x, t) +
                   if sent && x == e.channels[id].remote.id && t == stream
                   then buf[..ChunkSize(e.channels[id], |buf|)] else []
    ensures var (f, sent) := SendChunk(e, id, stream, buf);
            forall x: U32 :: Marks(f.outbox, x) == Marks(e.outbox, x) +
              if sent && x == e.channels[id].remote.id then [false] else []
  {
    var c := e.channels[id];
    var piece := buf[..ChunkSize(c, |buf|)];
    var m := DataMessage(c.remote.id, stream, piece);
    forall x: U32, t: U32
      ensures BytesIn(e.outbox + [m], x, t) == BytesIn(e.outbox, x, t) + StreamPart(m, x, t)
    {
      BytesInAppend(e.outbox, m, x, t);
    }
    forall x: U32 ensures Marks(e.outbox + [m], x) == Marks(e.outbox, x) + Mark(m, x) {
      MarksAppend(e.outbox, m, x);
    }
  }

  lemma PlainKeepsSent(e: Endpoint, f: Endpoint, m: Message)
    requires !CarriesData(m) && f.outbox == e.outbox + [m]
    ensures forall id: U32, s: U32 :: BytesIn(f.outbox, id, s) == BytesIn(e.outbox, id, s)
    ensures !m.Eof? ==> SameSent(e, f)
  {
    forall id: U32, s: U32 ensures BytesIn(f.outbox, id, s) == BytesIn(e.outbox, id, s) {
      BytesInAppend(e.outbox, m, id, s);
    }
    forall id: U32 ensures !m.Eof? ==> Marks(f.outbox, id) == Marks(e.outbox, id) {
      MarksAppend(e.outbox, m, id);
    }
  }

  lemma SendEofKeepsBytes(e: Endpoint, id: U32)
    requires id in e.channels
    ensures var f := SendEof(e, id);
            && (forall x: U32, t: U32 :: BytesIn(f.outbox, x, t) == BytesIn(e.outbox, x, t))
            && f.packets == e.packets && f.inbox == e.inbox
            && f.channels == e.channels[id := f.channels[id]]
            && forall x: U32 :: Marks(f.outbox, x) == Marks(e.outbox, x) +
                 if f.outbox != e.outbox && x == e.channels[id].remote.id then [true] else []
  {
    var f, m := SendEof(e, id), Eof(e.channels[id].remote.id);
    if f.outbox != e.outbox {
      PlainKeepsSent(e, f, m);
      forall x: U32 ensures Marks(f.outbox, x) == Marks(e.outbox, x) + Mark(m, x) { MarksAppend(e.outbox, m, x); }
    }
  }

  lemma SendCloseKeepsBytes(e: Endpoint, id: U32)
    requires id in e.channels
    ensures var f := SendClose(e, id); SameSent(e, f) && f.packets == e.packets && f.inbox == e.inbox
  {
    var f, m := SendClose(e, id), Close(e.channels[id].remote.id);
    if f.outbox != e.outbox { PlainKeepsSent(e, f, m); }
  }

  /** Window credit carries no stream bytes and leaves both message queues' data alone. */
  lemma WindowAdjustKeepsBytes(e: Endpoint, id: U32, amount: U32, force: bool)
    requires id in e.channels
    ensures var f := WindowAdjust(e, id, amount, force);
            SameSent(e, f) && f.packets == e.packets && f.inbox == e.inbox && SameFlags(e, f)
  {
    var c, f := e.channels[id], WindowAdjust(e, id, amount, force);
    if f.outbox != e.outbox {
      PlainKeepsSent(e, f, Adjust(c.remote.id, Add32(amount, c.adjustQueue)));
    }
  }

  lemma {:induction false} AdjustAllKeepsBytes(e: Endpoint, id: U32, amounts: seq<U32>)
    requires id in e.channels
    ensures var f := AdjustAll(e, id, amounts);
            SameSent(e, f) && f.packets == e.packets && f.inbox == e.inbox && SameFlags(e, f)
    decreases |amounts|
  {
    if amounts != [] {
      WindowAdjustKeepsBytes(e, id, amounts[0], false);
      AdjustAllKeepsBytes(WindowAdjust(e, id, amounts[0], false), id, amounts[1..]);
    }
  }

  /** The bytes of a scan are the front of its stream, and a scan with room left has emptied it. */
  ghost predicate TakesFront(ps: seq<Packet>, scan: Scan, id: U32, stream: U32, want: nat) {
    && Pending(ps, id, stream) == scan.bytes + Pending(scan.packets, id, stream)
    && |scan.bytes| <= want
    && (|scan.bytes| < want ==> Pending(scan.packets, id, stream) == [])
  }

  lemma SkipsOne(p: Packet, ps: seq<Packet>, scan: Scan, id: U32, stream: U32, want: nat)
    requires TakesFront(ps, scan, id, stream, want) && !OnStream(p.data, id, stream)
    ensures TakesFront([p] + ps, scan.(packets := [p] + scan.packets), id, stream, want)
  {
    PendingCons(p, ps, id, stream);
    PendingCons(p, scan.packets, id, stream);
  }

  lemma TakesWhole(p: Packet, ps: seq<Packet>, scan: Scan, id: U32, stream: U32, want: nat, refunds: seq<U32>)
    requires OnStream(p.data, id, stream) && |p.data.bytes| - p.taken <= want
    requires TakesFront(ps, scan, id, stream, want - (|p.data.bytes| - p.taken))
    ensures TakesFront([p] + ps, Scan(scan.packets, p.data.bytes[p.taken..] + scan.bytes, refunds), id, stream, want)
  {
    PendingCons(p, ps, id, stream);
    Regroup(p.data.bytes[p.taken..], scan.bytes, Pending(scan.packets, id, stream));
  }

  lemma TakesPart(p: Packet, ps: seq<Packet>, id: U32, stream: U32, want: nat)
    requires OnStream(p.data, id, stream) && p.taken + want <= |p.data.bytes|
    ensures var q: Packet := p.(taken := p.taken + want);
            TakesFront([p] + ps, Scan([q] + ps, p.data.bytes[p.taken..][..want], []), id, stream, want)
  {
    var q: Packet := p.(taken := p.taken + want);
    PendingCons(p, ps, id, stream);
    PendingCons(q, ps, id, stream);
    assert p.data.bytes[p.taken..] == p.data.bytes[p.taken..][..want] + p.data.bytes[p.taken + want..];
    Regroup(p.data.bytes[p.taken..][..want], p.data.bytes[p.taken + want..], Pending(ps, id, stream));
  }

  /** The three ways a scan goes at its first packet. */
  lemma {:induction false} ReadListSkips(p: Packet, tail: seq<Packet>, id: U32, stream: U32, mode: Mode, want: nat)
    requires want > 0 && !Readable(p, id, stream, mode)
    ensures var rest := ReadList(tail, id, stream, mode, want);
            ReadList([p] + tail, id, stream, mode, want) == rest.(packets := [p] + rest.packets)
  {
    assert ([p] + tail)[1..] == tail;
  }

  lemma {:induction false} ReadListEmpties(p: Packet, tail: seq<Packet>, id: U32, stream: U32, mode: Mode, want: nat)
    requires want > 0 && Readable(p, id, stream, mode) && |p.data.bytes| - p.taken <= want
    ensures var left := p.data.bytes[p.taken..];
            var rest := ReadList(tail, id, stream, mode, want - |left|);
            ReadList([p] + tail, id, stream, mode, want)
              == Scan(rest.packets, left + rest.bytes, [Refund(p.data, stream)] + rest.refunds)
  {
    assert ([p] + tail)[1..] == tail;
  }

  lemma {:induction false} ReadListStops(p: Packet, tail: seq<Packet>, id: U32, stream: U32, mode: Mode, want: nat)
    requires 0 < want && Readable(p, id, stream, mode) && want < |p.data.bytes| - p.taken
    ensures var q: Packet := p.(taken := p.taken + want);
            ReadList([p] + tail, id, stream, mode, want) == Scan([q] + tail, p.data.bytes[p.taken..][..want], [])
  {
    assert ([p] + tail)[1..] == tail;
  }

  lemma {:induction false} ReadListTakesFront(ps: seq<Packet>, id: U32, stream: U32, want: nat)
    ensures TakesFront(ps, ReadList(ps, id, stream, Normal, want), id, stream, want)
  {
    if ps != [] && want > 0 {
      var p, tail := ps[0], ps[1..];
      assert ps == [p] + tail;
      if !Readable(p, id, stream, Normal) {
        ReadListTakesFront(tail, id, stream, want);
        ReadListSkips(p, tail, id, stream, Normal, want);
        SkipsOne(p, tail, ReadList(tail, id, stream, Normal, want), id, stream, want);
      } else if want >= |p.data.bytes| - p.taken {
        var rest := ReadList(tail, id, stream, Normal, want - (|p.data.bytes| - p.taken));
        ReadListTakesFront(tail, id, stream, want - (|p.data.bytes| - p.taken));
        ReadListEmpties(p, tail, id, stream, Normal, want);
        TakesWhole(p, tail, rest, id, stream, want, [Refund(p.data, stream)] + rest.refunds);
      } else {
        ReadListStops(p, tail, id, stream, Normal, want);
        TakesPart(p, tail, id, stream, want);
      }
    }
  }

  lemma {:induction false} SparedCons(p: Packet, q: Packet, tail: seq<Packet>, rest: seq<Packet>, x: U32, t: U32)
    requires Unread(q, x, t) == Unread(p, x, t) && Pending(rest, x, t) == Pending(tail, x, t)
    ensures Pending([q] + rest, x, t) == Pending([p] + tail, x, t)
  {
    PendingCons(p, tail, x, t);
    PendingCons(q, rest, x, t);
  }

  lemma {:induction false} SparedDrop(p: Packet, tail: seq<Packet>, rest: seq<Packet>, x: U32, t: U32)
    requires Unread(p, x, t) == [] && Pending(rest, x, t) == Pending(tail, x, t)
    ensures Pending(rest, x, t) == Pending([p] + tail, x, t)
  {
    PendingCons(p, tail, x, t);
  }

  lemma {:induction false} OtherStream(p: Packet, id: U32, stream: U32, x: U32, t: U32)
    requires (x != id || t != stream) && Readable(p, id, stream, Normal)
    ensures Unread(p, x, t) == []
  {
  }

  /** No other stream moves. */
  lemma {:induction false} ReadListSparesOthers(ps: seq<Packet>, id: U32, stream: U32, want: nat, x: U32, t: U32)
    requires x != id || t != stream
    ensures Pending(ReadList(ps, id, stream, Normal, want).packets, x, t) == Pending(ps, x, t)
  {
    if ps != [] && want > 0 {
      var p, tail := ps[0], ps[1..];
      assert ps == [p] + tail;
      if !Readable(p, id, stream, Normal) {
        ReadListSparesOthers(tail, id, stream, want, x, t);
        ReadListSkips(p, tail, id, stream, Normal, want);
        SparedCons(p, p, tail, ReadList(tail, id, stream, Normal, want).packets, x, t);
      } else if want >= |p.data.bytes| - p.taken {
        var left := |p.data.bytes| - p.taken;
        ReadListSparesOthers(tail, id, stream, want - left, x, t);
        ReadListEmpties(p, tail, id, stream, Normal, want);
        OtherStream(p, id, stream, x, t);
        SparedDrop(p, tail, ReadList(tail, id, stream, Normal, want - left).packets, x, t);
      } else {
        var q: Packet := p.(taken := p.taken + want);
        ReadListStops(p, tail, id, stream, Normal, want);
        OtherStream(p, id, stream, x, t);
        OtherStream(q, id, stream, x, t);
        SparedCons(p, q, tail, tail, x, t);
      }
    }
  }

  lemma ReadScanTakesFront(e: Endpoint, id: U32, stream: U32, want: nat)
    requires id in e.channels && e.channels[id].mode == Normal
    ensures var (f, bytes) := ReadScan(e, id, stream, want);
            && SameSent(e, f) && SameFlags(e, f) && f.inbox == e.inbox
            && Arrived(e, id, stream) == bytes + Arrived(f, id, stream)
            && |bytes| <= want
            && (|bytes| < want ==> Pending(f.packets, id, stream) == [])
  {
    var scan := ReadList(e.packets, id, stream, Normal, want);
    ReadListTakesFront(e.packets, id, stream, want);
    AdjustAllKeepsBytes(e.(packets := scan.packets), id, scan.refunds);
    Regroup(scan.bytes, Pending(scan.packets, id, stream), BytesIn(e.inbox, id, stream));
  }

  lemma ReadScanSparesOthers(e: Endpoint, id: U32, stream: U32, want: nat, x: U32, t: U32)
    requires id in e.channels && e.channels[id].mode == Normal && (x != id || t != stream)
    ensures Arrived(ReadScan(e, id, stream, want).0, x, t) == Arrived(e, x, t)
  {
    var scan := ReadList(e.packets, id, stream, Normal, want);
    ReadListSparesOthers(e.packets, id, stream, want, x, t);
    AdjustAllKeepsBytes(e.(packets := scan.packets), id, scan.refunds);
  }

  predicate Covers(what: FlushWhat, stream: U32) {
    match what
    case FlushAll => true
    case FlushExtended => stream != 0
    case FlushStream(s) => stream == s
  }

  /** A flush empties the streams it covers and leaves every other one alone. */
  lemma {:induction false} FlushListDrops(ps: seq<Packet>, id: U32, what: FlushWhat)
    requires SparesData(what)
    ensures forall x: U32, t: U32 :: Pending(FlushList(ps, id, what), x, t)
              == if x == id && Covers(what, t) then [] else Pending(ps, x, t)
  {
    if ps != [] {
      FlushListDrops(ps[1..], id, what);
      var rest := FlushList(ps[1..], id, what);
      if Flushable(ps[0], id, what) {
        assert FlushList(ps, id, what) == rest;
      } else {
        assert FlushList(ps, id, what)[1..] == rest;
      }
    }
  }

  lemma FlushDrops(e: Endpoint, id: U32, what: FlushWhat)
    requires id in e.channels && SparesData(what)
    ensures var f := Flush(e, id, what);
            && SameSent(e, f) && SameFlags(e, f) && f.inbox == e.inbox
            && forall x: U32, t: U32 :: Pending(f.packets, x, t)
                 == if x == id && Covers(what, t) then [] else Pending(e.packets, x, t)
  {
    FlushListDrops(e.packets, id, what);
    var s := e.(packets := FlushList(e.packets, id, what));
    WindowAdjustKeepsBytes(s, id, FlushRefund(e.packets, id, what), false);
  }
}
