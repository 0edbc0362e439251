/** When calls fail and what they return, told from the endpoint before the call and the endpoint after it. */
module Outcomes {
  import opened Bytes
  import opened Endpoints
  import opened Accounting
  import opened Conservation
  import opened Streams
  import opened FlowControl
  import opened Calls

  // ---------- sends that were tried ----------

  /** The sends between e and f fared as the first of e's faults say, the rest is still to come. */
  ghost predicate Spent(e: Endpoint, f: Endpoint) {
    |f.faults| <= |e.faults| && f.faults == e.faults[|e.faults| - |f.faults|..]
  }

  /** One of them failed. */
  ghost predicate SomeFailed(e: Endpoint, f: Endpoint)
    requires Spent(e, f)
  {
    true in e.faults[..|e.faults| - |f.faults|]
  }

  /** The last of them failed. */
  ghost predicate LastFailed(e: Endpoint, f: Endpoint) {
    |f.faults| < |e.faults| && e.faults[|e.faults| - |f.faults| - 1]
  }

  ghost predicate NoneIgnored(e: Endpoint) {
    forall id: U32 :: id in e.channels ==> e.channels[id].mode != Ignore
  }

  lemma {:induction false} SpentTwice(e: Endpoint, s: Endpoint, f: Endpoint)
    requires Spent(e, s) && Spent(s, f)
    ensures Spent(e, f) && (SomeFailed(e, f) <==> SomeFailed(e, s) || SomeFailed(s, f))
    ensures LastFailed(s, f) ==> LastFailed(e, f)
  {
    var m, n := |e.faults| - |s.faults|, |s.faults| - |f.faults|;
    assert e.faults[m..][n..] == e.faults[m + n..];
    assert e.faults[..m + n] == e.faults[..m] + e.faults[m..][..n];
  }

  /** A send is tried with the next fault, if there is one, and then either the message is on the wire or
      nothing is. */
  lemma {:induction false} SendIs(e: Endpoint, m: Message)
    ensures var (f, sent) := Send(e, m);
            && Spent(e, f) && |e.faults| - |f.faults| == (if e.faults == [] then 0 else 1)
            && (sent <==> e.faults == [] || !e.faults[0])
            && f.outbox == (if sent then e.outbox + [m] else e.outbox)
            && f.inbox == e.inbox && f.packets == e.packets && f.channels == e.channels
  {
    if e.faults != [] { assert e.faults[|e.faults| - |e.faults[1..]|..] == e.faults[1..]; }
    assert e.faults[0..] == e.faults;
  }

  lemma {:induction false} AdjustSpends(e: Endpoint, id: U32, amount: U32, force: bool)
    requires id in e.channels
    ensures Spent(e, WindowAdjust(e, id, amount, force))
  {
    SendIs(e, Adjust(e.channels[id].remote.id, Add32(amount, e.channels[id].adjustQueue)));
    assert e.faults[0..] == e.faults;
  }

  /** Taking in a message sends nothing, unless extended data is ignored and refunded. */
  lemma {:induction false} DeliverSpends(e: Endpoint)
    requires e.inbox != []
    ensures Spent(e, Deliver(e))
    ensures NoneIgnored(e) ==> NoneIgnored(Deliver(e)) && Deliver(e).faults == e.faults && !SomeFailed(e, Deliver(e))
  {
    var m, s := e.inbox[0], e.(inbox := e.inbox[1..]);
    assert e.faults[0..] == e.faults && e.faults[..0] == [];
    if CarriesData(m) && m.channel in s.channels && s.channels[m.channel].mode == Ignore && m.Extended? {
      AdjustSpends(s, m.channel, |m.bytes|, false);
    }
  }

  /** The piece sent is as large as the buffer, the window and the packet size allow. */
  lemma {:induction false} ChunkSizeIs(c: Channel, n: nat)
    ensures var k := ChunkSize(c, n);
            && k <= n && k <= c.local.window && k <= c.local.packet
            && (k == n || k == c.local.window || k == c.local.packet)
  {
  }

  lemma {:induction false} ChunkSpends(e: Endpoint, id: U32, stream: U32, buf: Chunk)
    requires id in e.channels
    ensures var (s, sent) := SendChunk(e, id, stream, buf);
            && Spent(e, s) && (NoneIgnored(e) ==> NoneIgnored(s))
            && (sent ==> !SomeFailed(e, s))
            && (!sent ==> SomeFailed(e, s) && LastFailed(e, s) && s.channels == e.channels && s.outbox == e.outbox)
            && (sent <==> e.faults == [] || !e.faults[0])
            && s.inbox == e.inbox
  {
    SendIs(e, DataMessage(e.channels[id].remote.id, stream, buf[..ChunkSize(e.channels[id], |buf|)]));
    assert e.faults[..0] == [];
    if e.faults != [] { assert e.faults[..1] == [e.faults[0]]; }
  }

  // ---------- writing ----------

  /** How a write on a channel that blocks ends, with `left` bytes of the buffer not sent: it fails exactly when
      some are left, and then either nothing more arrives to open the window, or the last send failed. */
  ghost predicate Ends(e: Endpoint, f: Endpoint, id: U32, r: int, left: int)
    requires id in f.channels
  {
    && Spent(e, f)
    && (r == -1 <==> left > 0)
    && (left > 0 ==> if f.channels[id].local.window == 0 then f.inbox == [] else LastFailed(e, f))
    && (NoneIgnored(e) ==> (SomeFailed(e, f) <==> left > 0 && f.channels[id].local.window > 0))
  }

  lemma {:induction false} EndsAfterArrival(e: Endpoint, f: Endpoint, id: U32, r: int, left: int)
    requires id in f.channels && e.inbox != [] && Ends(Deliver(e), f, id, r, left)
    ensures Ends(e, f, id, r, left)
  {
    DeliverSpends(e);
    SpentTwice(e, Deliver(e), f);
  }

  lemma {:induction false} EndsHere(e: Endpoint, id: U32, r: int, left: int)
    requires id in e.channels && (r == -1 <==> left > 0)
    requires left > 0 ==> e.channels[id].local.window == 0 && e.inbox == []
    ensures Ends(e, e, id, r, left)
  {
    assert e.faults[0..] == e.faults && e.faults[..0] == [];
  }

  lemma {:induction false} EndsFailed(e: Endpoint, id: U32, stream: U32, buf: Chunk)
    requires id in e.channels && buf != [] && e.channels[id].local.window > 0
    requires !SendChunk(e, id, stream, buf).1
    ensures Ends(e, SendChunk(e, id, stream, buf).0, id, -1, |buf|)
  {
    ChunkSpends(e, id, stream, buf);
  }

  /** A write loop on a channel that blocks has this buffer to send, and comes to `goal`. */
  ghost predicate Loops(e: Endpoint, id: U32, stream: U32, buf: Chunk, wrote: nat, goal: (Endpoint, int)) {
    && id in e.channels && e.channels[id].blocking && e.channels[id].local.packet > 0
    && WriteLoop(e, id, stream, buf, wrote) == goal
  }

  /** What it has come to, with k bytes sent. */
  ghost predicate Done(e: Endpoint, id: U32, stream: U32, buf: Chunk, wrote: nat, k: nat, goal: (Endpoint, int)) {
    && id in e.channels && id in goal.0.channels
    && Sent(e, goal.0, e.channels[id].remote.id, stream, buf, k)
    && (goal.1 == -1 || goal.1 == wrote + k)
    && Ends(e, goal.0, id, goal.1, |buf| - k)
  }

  /** The first n bytes of the buffer have gone out. */
  ghost predicate Pieced(e: Endpoint, s: Endpoint, id: U32, stream: U32, buf: Chunk, n: nat) {
    && id in e.channels && id in s.channels && s.channels[id].remote.id == e.channels[id].remote.id
    && 0 < n <= |buf| && Sent(e, s, e.channels[id].remote.id, stream, buf, n)
    && Spent(e, s) && (NoneIgnored(e) ==> NoneIgnored(s)) && !SomeFailed(e, s)
  }

  lemma {:induction false} PieceIs(e: Endpoint, s: Endpoint, id: U32, stream: U32, buf: Chunk, n: nat)
    requires id in e.channels && SendChunk(e, id, stream, buf) == (s, true) && buf != []
    requires e.channels[id].local.window > 0 && e.channels[id].local.packet > 0 && n == ChunkSize(e.channels[id], |buf|)
    ensures Pieced(e, s, id, stream, buf, n)
  {
    ChunkSizeIs(e.channels[id], |buf|);
    SendChunkSends(e, id, stream, buf);
    ChunkSpends(e, id, stream, buf);
  }

  lemma {:induction false} PieceLoops(e: Endpoint, s: Endpoint, id: U32, stream: U32, buf: Chunk, wrote: nat, n: nat,
                                      goal: (Endpoint, int))
    requires Loops(e, id, stream, buf, wrote, goal) && buf != [] && e.channels[id].local.window > 0
    requires SendChunk(e, id, stream, buf) == (s, true) && n == ChunkSize(e.channels[id], |buf|)
    ensures n <= |buf| && Loops(s, id, stream, buf[n..], wrote + n, goal)
  {
    WriteLoopTurn(e, id, stream, buf, wrote);
  }

  lemma {:induction false} PieceSent(e: Endpoint, id: U32, stream: U32, buf: Chunk, wrote: nat, goal: (Endpoint, int))
    returns (s: Endpoint, n: nat)
    requires Loops(e, id, stream, buf, wrote, goal) && buf != [] && e.channels[id].local.window > 0
    requires SendChunk(e, id, stream, buf).1
    ensures Pieced(e, s, id, stream, buf, n) && 0 < n <= |buf| && Loops(s, id, stream, buf[n..], wrote + n, goal)
  {
    s, n := SendChunk(e, id, stream, buf).0, ChunkSize(e.channels[id], |buf|);
    PieceIs(e, s, id, stream, buf, n);
    PieceLoops(e, s, id, stream, buf, wrote, n, goal);
  }

  lemma {:induction false} DoneAfterPiece(e: Endpoint, s: Endpoint, id: U32, stream: U32, buf: Chunk, wrote: nat,
                                          n: nat, more: nat, goal: (Endpoint, int))
    requires Pieced(e, s, id, stream, buf, n) && Done(s, id, stream, buf[n..], wrote + n, more, goal)
    ensures Done(e, id, stream, buf, wrote, n + more, goal)
  {
    SentTwice(e, s, goal.0, e.channels[id].remote.id, stream, buf, n, more);
    SpentTwice(e, s, goal.0);
  }

  lemma {:induction false} DoneAfterArrival(e: Endpoint, id: U32, stream: U32, buf: Chunk, wrote: nat, k: nat,
                                            goal: (Endpoint, int))
    requires id in e.channels && e.inbox != [] && Done(Deliver(e), id, stream, buf, wrote, k, goal)
    ensures Done(e, id, stream, buf, wrote, k, goal)
  {
    DeliverSendsNoBytes(e, e.channels[id].remote.id, stream);
    EndsAfterArrival(e, goal.0, id, goal.1, |buf| - k);
  }

  lemma {:induction false} LoopFails(e: Endpoint, id: U32, stream: U32, buf: Chunk, wrote: nat, goal: (Endpoint, int))
    requires Loops(e, id, stream, buf, wrote, goal) && buf != [] && e.channels[id].local.window > 0
    requires !SendChunk(e, id, stream, buf).1
    ensures Done(e, id, stream, buf, wrote, 0, goal)
  {
    WriteLoopTurn(e, id, stream, buf, wrote);
    SendChunkSends(e, id, stream, buf);
    EndsFailed(e, id, stream, buf);
  }

  lemma {:induction false} LoopStops(e: Endpoint, id: U32, stream: U32, buf: Chunk, wrote: nat, goal: (Endpoint, int))
    requires Loops(e, id, stream, buf, wrote, goal)
    requires buf == [] || (e.channels[id].local.window == 0 && e.inbox == [])
    ensures Done(e, id, stream, buf, wrote, 0, goal)
  {
    EndsHere(e, id, if buf == [] then wrote else -1, |buf|);
  }

  lemma {:induction false} LoopWaits(e: Endpoint, id: U32, stream: U32, buf: Chunk, wrote: nat, goal: (Endpoint, int))
    requires Loops(e, id, stream, buf, wrote, goal) && buf != [] && e.channels[id].local.window == 0 && e.inbox != []
    ensures Loops(Deliver(e), id, stream, buf, wrote, goal)
  {
    KeepsSettings(e, id);
  }

  lemma {:induction false} WriteLoopEnds(e: Endpoint, id: U32, stream: U32, buf: Chunk, wrote: nat,
                                         goal: (Endpoint, int))
    returns (k: nat)
    requires Loops(e, id, stream, buf, wrote, goal)
    ensures Done(e, id, stream, buf, wrote, k, goal)
    decreases |buf|, |e.inbox|, 1
  {
    k := 0;
    if buf == [] || (e.channels[id].local.window == 0 && e.inbox == []) {
      LoopStops(e, id, stream, buf, wrote, goal);
    } else if e.channels[id].local.window == 0 {
      LoopWaits(e, id, stream, buf, wrote, goal);
      k := WriteLoopEnds(Deliver(e), id, stream, buf, wrote, goal);
      DoneAfterArrival(e, id, stream, buf, wrote, k, goal);
    } else if SendChunk(e, id, stream, buf).1 {
      k := PieceEnds(e, id, stream, buf, wrote, goal);
    } else {
      LoopFails(e, id, stream, buf, wrote, goal);
    }
  }

  lemma {:induction false} PieceEnds(e: Endpoint, id: U32, stream: U32, buf: Chunk, wrote: nat, goal: (Endpoint, int))
    returns (k: nat)
    requires Loops(e, id, stream, buf, wrote, goal) && buf != [] && e.channels[id].local.window > 0
    requires SendChunk(e, id, stream, buf).1
    ensures Done(e, id, stream, buf, wrote, k, goal)
    decreases |buf|, |e.inbox|, 0
  {
    var s, n := PieceSent(e, id, stream, buf, wrote, goal);
    var more := WriteLoopEnds(s, id, stream, buf[n..], wrote + n, goal);
    DoneAfterPiece(e, s, id, stream, buf, wrote, n, more, goal);
    k := n + more;
  }

  /** A closed channel takes nothing. */
  lemma {:induction false} WriteOnClosed(e: Endpoint, id: U32, stream: U32, buf: Chunk)
    requires id in e.channels && e.channels[id].local.close
    requires e.channels[id].blocking ==> e.channels[id].local.packet > 0
    ensures WriteEx(e, id, stream, buf) == (e, -1)
  {
  }

  /** On an open channel that blocks, a write puts k bytes of the buffer on the wire and returns that many if
      they are all, and -1 if not.  They are not all exactly when there is no window in the end and nothing more
      arrives, or when the last send has failed. */
  lemma {:induction false} BlockingWriteEnds(e: Endpoint, id: U32, stream: U32, buf: Chunk) returns (k: nat)
    requires id in e.channels && !e.channels[id].local.close
    requires e.channels[id].blocking && e.channels[id].local.packet > 0
    ensures var (f, r) := WriteEx(e, id, stream, buf);
            && Sent(e, f, e.channels[id].remote.id, stream, buf, k)
            && r == (if k == |buf| then |buf| else -1)
            && Spent(e, f)
            && (k < |buf| ==> if f.channels[id].local.window == 0 then f.inbox == [] else LastFailed(e, f))
            && (NoneIgnored(e) ==>
                  (r == -1 <==> SomeFailed(e, f) || (f.channels[id].local.window == 0 && f.inbox == [] && k < |buf|)))
  {
    k := WriteLoopEnds(e, id, stream, buf, 0, WriteLoop(e, id, stream, buf, 0));
  }

  /** On an open channel that does not block a write never waits: without window it returns 0, and otherwise it
      sends one piece, as large as buffer, window and packet size allow, and returns its size or, if that send
      failed, -1. */
  lemma {:induction false} NonBlockingWriteEnds(e: Endpoint, id: U32, stream: U32, buf: Chunk)
    requires id in e.channels && !e.channels[id].local.close && !e.channels[id].blocking
    ensures var (f, r) := WriteEx(e, id, stream, buf);
            var h := e.channels[id].local;
            && f.inbox == e.inbox && f.packets == e.packets
            && (buf == [] || h.window == 0 ==> f == e && r == 0)
            && (buf != [] && h.window > 0 ==>
                  && (r == -1 <==> e.faults != [] && e.faults[0])
                  && (r != -1 ==>
                        && 0 <= r <= |buf| && r <= h.window && r <= h.packet
                        && (r == |buf| || r == h.window || r == h.packet)
                        && Sent(e, f, e.channels[id].remote.id, stream, buf, r)))
            && (r == -1 ==> f.outbox == e.outbox && f.channels == e.channels)
  {
    if buf != [] && e.channels[id].local.window > 0 {
      ChunkSpends(e, id, stream, buf);
      ChunkSizeIs(e.channels[id], |buf|);
      WriteLoopTurn(e, id, stream, buf, 0);
      SendChunkSends(e, id, stream, buf);
      SendIs(e, DataMessage(e.channels[id].remote.id, stream, buf[..ChunkSize(e.channels[id], |buf|)]));
    }
  }

  /** A write of some bytes on an open channel returns 0 only when the channel does not block and has no window,
      or takes no packets at all. */
  lemma {:induction false} WriteOfNothing(e: Endpoint, id: U32, stream: U32, buf: Chunk)
    requires id in e.channels && !e.channels[id].local.close && buf != []
    requires e.channels[id].blocking ==> e.channels[id].local.packet > 0
    ensures WriteEx(e, id, stream, buf).1 == 0 ==>
              !e.channels[id].blocking && (e.channels[id].local.window == 0 || e.channels[id].local.packet == 0)
  {
    if e.channels[id].blocking {
      var k := BlockingWriteEnds(e, id, stream, buf);
    } else {
      NonBlockingWriteEnds(e, id, stream, buf);
    }
  }

  // ---------- single operations ----------

  /** An end of file is sent and noted, or neither. */
  lemma {:induction false} SendEofIs(e: Endpoint, id: U32)
    requires id in e.channels
    ensures var f, c := SendEof(e, id), e.channels[id];
            && f.outbox == (if e.faults == [] || !e.faults[0] then e.outbox + [Eof(c.remote.id)] else e.outbox)
            && f.channels[id].local.eof == (c.local.eof || e.faults == [] || !e.faults[0])
            && f.inbox == e.inbox && f.packets == e.packets
            && f.channels == e.channels[id := c.(local := c.local.(eof := f.channels[id].local.eof))]
  {
    SendIs(e, Eof(e.channels[id].remote.id));
  }

  /** A close is noted in any case, and sent the first time, if the send succeeds. */
  lemma {:induction false} SendCloseIs(e: Endpoint, id: U32)
    requires id in e.channels
    ensures var f, c := SendClose(e, id), e.channels[id];
            && f.outbox == (if !c.local.close && (e.faults == [] || !e.faults[0]) then e.outbox + [Close(c.remote.id)]
                            else e.outbox)
            && f.inbox == e.inbox && f.packets == e.packets
            && f.channels == e.channels[id := c.(local := c.local.(close := true))]
  {
    var c := e.channels[id];
    SendIs(WithChannel(e, id, c.(local := c.local.(close := true))), Close(c.remote.id));
    if c.local.close { assert c.(local := c.local.(close := true)) == c; }
  }

  /** A grant is tried on the wire when it is forced or there are 1024 bytes and more to grant, and then all at
      once; otherwise, and when that send fails, all of it is queued. */
  lemma {:induction false} AdjustIs(e: Endpoint, id: U32, amount: U32, force: bool)
    requires id in e.channels && amount + e.channels[id].adjustQueue < WORD
    ensures var f, c := WindowAdjust(e, id, amount, force), e.channels[id];
            var total := amount + c.adjustQueue;
            if total > 0 && (force || total >= 1024) && (e.faults == [] || !e.faults[0]) then
              && f.outbox == e.outbox + [Adjust(c.remote.id, total)] && f.channels[id].adjustQueue == 0
              && (c.remote.window + total < WORD ==> f.channels[id].remote.window == c.remote.window + total)
            else
              && f.outbox == e.outbox && f.channels[id].adjustQueue == total
              && f.channels[id].remote.window == c.remote.window
    ensures WindowAdjust(e, id, amount, force).inbox == e.inbox
            && WindowAdjust(e, id, amount, force).packets == e.packets
  {
    SendIs(e, Adjust(e.channels[id].remote.id, amount + e.channels[id].adjustQueue));
  }

  /** A data message for a channel that takes it is kept, cut to packet size and window, at the end of the brigade,
      and takes back an end of file; the window shrinks by it unless it was cut to the window. */
  lemma {:induction false} DataTakenIn(e: Endpoint, m: Message)
    requires CarriesData(m) && m.channel in e.channels && !(e.channels[m.channel].mode == Ignore && m.Extended?)
    requires e.channels[m.channel].remote.window > 0
    ensures var f, c := PacketAdd(e, m), e.channels[m.channel];
            var n := if c.remote.packet < |m.bytes| then c.remote.packet else |m.bytes|;
            var k := if c.remote.window < n then c.remote.window else n;
            var kept := if m.Data? then Data(m.channel, m.bytes[..k]) else Extended(m.channel, m.stream, m.bytes[..k]);
            && f.packets == e.packets + [RawPacket(kept, 0)]
            && f.outbox == e.outbox && f.inbox == e.inbox
            && f.channels == e.channels[m.channel := c.(remote := c.remote.(eof := false,
                 window := if c.remote.window < n then c.remote.window else c.remote.window - n))]
  {
  }

  /** Without window it is dropped, and so is data for a channel that is not there; extended data that is ignored
      is dropped and refunded. */
  lemma {:induction false} DataDropped(e: Endpoint, m: Message)
    requires CarriesData(m)
    ensures m.channel !in e.channels ==> PacketAdd(e, m) == e
    ensures m.channel in e.channels && e.channels[m.channel].mode == Ignore && m.Extended? ==>
              PacketAdd(e, m) == WindowAdjust(e, m.channel, |m.bytes|, false)
    ensures m.channel in e.channels && e.channels[m.channel].remote.window == 0 ==>
              PacketAdd(e, m) == e || (e.channels[m.channel].mode == Ignore && m.Extended?)
  {
  }

  /** The other messages: end of file and close set a flag, an adjustment raises the window, and what is not about
      a channel is kept. */
  lemma {:induction false} OthersTakenIn(e: Endpoint, id: U32, amount: U32, kind: Byte)
    ensures PacketAdd(e, Other(kind)) == e.(packets := e.packets + [RawPacket(Other(kind), 0)])
    ensures id in e.channels ==>
              var c := e.channels[id];
              && PacketAdd(e, Eof(id)) == e.(channels := e.channels[id := c.(remote := c.remote.(eof := true))])
              && PacketAdd(e, Close(id)) == e.(channels := e.channels[id := c.(remote := c.remote.(close := true))])
              && PacketAdd(e, Adjust(id, amount))
                 == e.(channels := e.channels[id := c.(local := c.local.(window := (c.local.window + amount) % WORD))])
    ensures id !in e.channels ==>
              PacketAdd(e, Eof(id)) == e && PacketAdd(e, Close(id)) == e && PacketAdd(e, Adjust(id, amount)) == e
  {
  }

  // ---------- reading in every mode ----------

  /** The unread bytes that a reader of a stream sees: those of the stream and, when extended data is merged, for
      stream 0 those of every stream of the channel, in the order of their arrival. */
  function Visible(ps: seq<Packet>, id: U32, stream: U32, mode: Mode): seq<Byte> {
    if ps == [] then [] else VisibleIn(ps[0], id, stream, mode) + Visible(ps[1..], id, stream, mode)
  }

  function VisibleIn(p: Packet, id: U32, stream: U32, mode: Mode): seq<Byte> {
    match p.data
    case Data(channel, bytes) => if channel == id && stream == 0 then bytes[p.taken..] else []
    case Extended(channel, code, bytes) =>
      if channel == id && (if stream == 0 then mode == Merge else code == stream) then bytes[p.taken..] else []
    case _ => []
  }

  lemma {:induction false} VisibleCons(p: Packet, ps: seq<Packet>, id: U32, stream: U32, mode: Mode)
    ensures Visible([p] + ps, id, stream, mode) == VisibleIn(p, id, stream, mode) + Visible(ps, id, stream, mode)
  {
    assert ([p] + ps)[1..] == ps;
  }

  lemma {:induction false} VisibleIffReadable(p: Packet, id: U32, stream: U32, mode: Mode)
    ensures Readable(p, id, stream, mode) ==> VisibleIn(p, id, stream, mode) == p.data.bytes[p.taken..]
    ensures !Readable(p, id, stream, mode) ==> VisibleIn(p, id, stream, mode) == []
  {
  }

  /** A scan is the front of what is visible, as much as is wanted and there, and leaves the rest. */
  ghost predicate Scanned(ps: seq<Packet>, scan: Scan, id: U32, stream: U32, mode: Mode, want: nat) {
    && Visible(ps, id, stream, mode) == scan.bytes + Visible(scan.packets, id, stream, mode)
    && |scan.bytes| <= want
    && (|scan.bytes| < want ==> Visible(scan.packets, id, stream, mode) == [])
  }

  lemma {:induction false} ScannedSkip(p: Packet, ps: seq<Packet>, scan: Scan, id: U32, stream: U32, mode: Mode,
                                       want: nat)
    requires Scanned(ps, scan, id, stream, mode, want) && !Readable(p, id, stream, mode)
    ensures Scanned([p] + ps, scan.(packets := [p] + scan.packets), id, stream, mode, want)
  {
    VisibleCons(p, ps, id, stream, mode);
    VisibleCons(p, scan.packets, id, stream, mode);
    VisibleIffReadable(p, id, stream, mode);
  }

  lemma {:induction false} ScannedWhole(p: Packet, ps: seq<Packet>, scan: Scan, id: U32, stream: U32, mode: Mode,
                                        want: nat, refunds: seq<U32>)
    requires Readable(p, id, stream, mode) && |p.data.bytes| - p.taken <= want
    requires Scanned(ps, scan, id, stream, mode, want - (|p.data.bytes| - p.taken))
    ensures Scanned([p] + ps, Scan(scan.packets, p.data.bytes[p.taken..] + scan.bytes, refunds), id, stream, mode, want)
  {
    VisibleCons(p, ps, id, stream, mode);
    VisibleIffReadable(p, id, stream, mode);
    Regroup(p.data.bytes[p.taken..], scan.bytes, Visible(scan.packets, id, stream, mode));
  }

  lemma {:induction false} ScannedPart(p: Packet, q: Packet, ps: seq<Packet>, front: seq<Byte>, id: U32, stream: U32,
                                       mode: Mode, want: nat)
    requires Readable(p, id, stream, mode) && p.taken + want <= |p.data.bytes| && q == p.(taken := p.taken + want)
    requires front == p.data.bytes[p.taken..][..want]
    ensures Scanned([p] + ps, Scan([q] + ps, front, []), id, stream, mode, want)
  {
    VisibleCons(p, ps, id, stream, mode);
    VisibleCons(q, ps, id, stream, mode);
    VisibleIffReadable(p, id, stream, mode);
    VisibleIffReadable(q, id, stream, mode);
    TakenFront(p.data.bytes, p.taken, want);
    Regroup(front, p.data.bytes[q.taken..], Visible(ps, id, stream, mode));
  }

  lemma {:induction false} TakenFront(bytes: seq<Byte>, taken: nat, want: nat)
    requires taken + want <= |bytes|
    ensures bytes[taken..] == bytes[taken..][..want] + bytes[taken + want..]
  {
  }

  lemma {:induction false} ReadListScans(ps: seq<Packet>, id: U32, stream: U32, mode: Mode, want: nat)
    ensures Scanned(ps, ReadList(ps, id, stream, mode, want), id, stream, mode, want)
  {
    if ps != [] && want > 0 {
      var p, tail := ps[0], ps[1..];
      assert ps == [p] + tail;
      if !Readable(p, id, stream, mode) {
        ReadListScans(tail, id, stream, mode, want);
        ReadListSkips(p, tail, id, stream, mode, want);
        ScannedSkip(p, tail, ReadList(tail, id, stream, mode, want), id, stream, mode, want);
      } else if want >= |p.data.bytes| - p.taken {
        var rest := ReadList(tail, id, stream, mode, want - (|p.data.bytes| - p.taken));
        ReadListScans(tail, id, stream, mode, want - (|p.data.bytes| - p.taken));
        ReadListEmpties(p, tail, id, stream, mode, want);
        ScannedWhole(p, tail, rest, id, stream, mode, want, [Refund(p.data, stream)] + rest.refunds);
      } else {
        var q: Packet := p.(taken := p.taken + want);
        ReadListStops(p, tail, id, stream, mode, want);
        ScannedPart(p, q, tail, p.data.bytes[p.taken..][..want], id, stream, mode, want);
      }
    }
  }

  /** In every mode one pass over the brigade returns the first bytes that its reader sees, as many as wanted and
      there, and leaves the others. */
  lemma {:induction false} ScanReturnsVisible(e: Endpoint, id: U32, stream: U32, want: nat)
    requires id in e.channels
    ensures var (f, bytes) := ReadScan(e, id, stream, want);
            var mode := e.channels[id].mode;
            var all := Visible(e.packets, id, stream, mode);
            var k := if want <= |all| then want else |all|;
            bytes == all[..k] && Visible(f.packets, id, stream, mode) == all[k..]
  {
    var mode := e.channels[id].mode;
    var scan := ReadList(e.packets, id, stream, mode, want);
    ReadListScans(e.packets, id, stream, mode, want);
    AdjustAllKeepsPackets(e.(packets := scan.packets), id, scan.refunds);
  }

  lemma {:induction false} AdjustAllKeepsPackets(e: Endpoint, id: U32, amounts: seq<U32>)
    requires id in e.channels
    ensures AdjustAll(e, id, amounts).packets == e.packets
    decreases |amounts|
  {
    if amounts != [] { AdjustAllKeepsPackets(WindowAdjust(e, id, amounts[0], false), id, amounts[1..]); }
  }

  // ---------- flushing ----------

  lemma {:induction false} FlushCons(p: Packet, ps: seq<Packet>, id: U32, what: FlushWhat)
    ensures FlushList([p] + ps, id, what) == FlushList([p], id, what) + FlushList(ps, id, what)
  {
    assert ([p] + ps)[1..] == ps && [p][1..] == [];
  }

  lemma {:induction false} FlushConcat(a: seq<Packet>, b: seq<Packet>, id: U32, what: FlushWhat)
    ensures FlushList(a + b, id, what) == FlushList(a, id, what) + FlushList(b, id, what)
  {
    if a == [] {
      assert a + b == b;
    } else {
      var p, tail := a[0], a[1..];
      assert a == [p] + tail && a + b == [p] + (tail + b);
      FlushCons(p, tail, id, what);
      FlushCons(p, tail + b, id, what);
      FlushConcat(tail, b, id, what);
      Grouped(FlushList([p], id, what), FlushList(tail, id, what), FlushList(b, id, what));
    }
  }

  lemma {:induction false} Grouped(a: seq<Packet>, b: seq<Packet>, c: seq<Packet>)
    ensures a + (b + c) == a + b + c
  {
  }

  /** Of one packet: a flush of all streams drops all data of the channel, one of the extended streams all its
      extended data, and one of a single stream the data of that stream. */
  lemma {:induction false} FlushOne(p: Packet, id: U32, what: FlushWhat)
    ensures var dropped := match what
              case FlushAll => (p.data.Data? || p.data.Extended?) && p.data.channel == id
              case FlushExtended => p.data.Extended? && p.data.channel == id
              case FlushStream(s) => (p.data.Data? && p.data.channel == id && s == 0)
                                     || (p.data.Extended? && p.data.channel == id && p.data.stream == s);
            FlushList([p], id, what) == if dropped then [] else [p]
  {
    assert [p][1..] == [];
  }

  /** A flush leaves what FlushOne and FlushConcat say and touches no other channel. */
  lemma {:induction false} FlushTakesOut(e: Endpoint, id: U32, what: FlushWhat)
    requires id in e.channels
    ensures var f := Flush(e, id, what);
            && f.packets == FlushList(e.packets, id, what) && f.inbox == e.inbox
            && f.channels == e.channels[id := f.channels[id]]
  {
  }

  /** How much is still to be read of a channel. */
  function Left(ps: seq<Packet>, id: U32): nat {
    if ps == [] then 0 else Left(ps[..|ps| - 1], id) + LeftIn(ps[|ps| - 1], id)
  }

  function LeftIn(p: Packet, id: U32): nat {
    match p.data
    case Data(channel, bytes) => if channel == id then |bytes| - p.taken else 0
    case Extended(channel, _, bytes) => if channel == id then |bytes| - p.taken else 0
    case _ => 0
  }

  lemma {:induction false} LeftAppend(ps: seq<Packet>, p: Packet, id: U32)
    ensures Left(ps + [p], id) == Left(ps, id) + LeftIn(p, id)
  {
    assert (ps + [p])[..|ps|] == ps;
  }

  lemma {:induction false} FlushedAppend(ps: seq<Packet>, p: Packet, id: U32, what: FlushWhat)
    ensures FlushedSize(ps + [p], id, what)
         == FlushedSize(ps, id, what) + if FlushList([p], id, what) == [] then LeftIn(p, id) else 0
  {
    assert (ps + [p])[..|ps|] == ps && [p][1..] == [];
  }

  /** What a flush reports is what it keeps its caller from reading. */
  lemma {:induction false} FlushReports(ps: seq<Packet>, id: U32, what: FlushWhat)
    ensures FlushedSize(ps, id, what) == Left(ps, id) - Left(FlushList(ps, id, what), id)
  {
    if ps != [] {
      var front, p := ps[..|ps| - 1], ps[|ps| - 1];
      assert front + [p] == ps;
      var kept := FlushList(front, id, what);
      FlushReports(front, id, what);
      FlushConcat(front, [p], id, what);
      FlushedAppend(front, p, id, what);
      LeftAppend(front, p, id);
      LeftBehind(kept, p, id, what);
    }
  }

  lemma {:induction false} LeftBehind(kept: seq<Packet>, p: Packet, id: U32, what: FlushWhat)
    ensures Left(kept + FlushList([p], id, what), id)
         == Left(kept, id) + if FlushList([p], id, what) == [] then 0 else LeftIn(p, id)
  {
    FlushOne(p, id, what);
    LeftAppend(kept, p, id);
    assert kept + [] == kept;
  }
}
