/** Two endpoints joined by reliable FIFO links, each both writing and reading on any number of
    channels, with their operations interleaved in any order and any of their sends failing. */
module FlowControl {
  import opened Bytes
  import opened Endpoints
  import opened Accounting
  import opened Conservation
  import opened Streams

  // ---------- the history of one direction ----------

  /** A stream of one direction, named by the receiver's channel id. */
  type Key = (U32, U32)

  /** What happened in one direction: bytes that writes put on the wire, bytes that the link carried
      over, bytes taken out of the receiver's brigade and bytes that reads returned; the streams the
      receiver flushed, the channels written to after their end of file, and those whose end of file
      the link has carried over. */
  datatype Log = Log(accepted: History, moved: History, consumed: History, returned: History,
                     flushed: Key -> bool, late: set<U32>, ended: set<U32>)
  type History = Key -> seq<Byte>

  function Extend(h: History, k: Key, bytes: seq<Byte>): History {
    (j: Key) => if j == k then h(j) + bytes else h(j)
  }

  // ---------- what an endpoint does on its own ----------

  datatype Event =
    | Arrive
    | Write(id: U32, stream: U32, buf: Chunk)
    | Read(id: U32, stream: U32, want: nat)
    | Discard(id: U32, what: FlushWhat)
    | Grant(id: U32, force: bool)
    | End(id: U32)
    | Shut(id: U32)

  ghost predicate Enabled(e: Endpoint, ev: Event) {
    match ev
    case Arrive => e.inbox != []
    case Write(id, _, buf) =>
      id in e.channels && buf != [] && e.channels[id].local.window > 0 && !e.channels[id].local.close
    case Discard(id, what) => id in e.channels && SparesData(what)
    case _ => ev.id in e.channels
  }

  function NextEndpoint(e: Endpoint, ev: Event): Endpoint
    requires Enabled(e, ev)
  {
    match ev
    case Arrive => Deliver(e)
    case Write(id, stream, buf) => SendChunk(e, id, stream, buf).0
    case Read(id, stream, want) => ReadScan(e, id, stream, want).0
    case Discard(id, what) => Flush(e, id, what)
    case Grant(id, force) => WindowAdjust(e, id, 0, force)
    case End(id) => SendEof(e, id)
    case Shut(id) => SendClose(e, id)
  }

  /** How the history of what `e` sends grows. */
  ghost function NextSent(e: Endpoint, log: Log, ev: Event): Log
    requires Enabled(e, ev)
  {
    if ev.Write? && SendChunk(e, ev.id, ev.stream, ev.buf).1 then
      var c := e.channels[ev.id];
      log.(accepted := Extend(log.accepted, (c.remote.id, ev.stream), ev.buf[..ChunkSize(c, |ev.buf|)]),
           late := log.late + if c.local.eof then {c.remote.id} else {})
    else log
  }

  /** How the history of what `e` receives grows. */
  ghost function NextReceived(e: Endpoint, log: Log, ev: Event): Log
    requires Enabled(e, ev)
  {
    match ev
    case Read(id, stream, want) =>
      var bytes := ReadScan(e, id, stream, want).1;
      log.(consumed := Extend(log.consumed, (id, stream), bytes), returned := Extend(log.returned, (id, stream), bytes))
    case Discard(id, what) =>
      log.(consumed := (k: Key) =>
             log.consumed(k) + if k.0 == id && Covers(what, k.1) then Pending(e.packets, id, k.1) else [],
           flushed := (k: Key) => log.flushed(k) || (k.0 == id && Covers(what, k.1)))
    case _ => log
  }

  // ---------- what holds of the two roles of an endpoint ----------

  /** Once an end of file is on its way no data follows it. */
  ghost predicate DataFirst(marks: seq<bool>) {
    forall i, j :: 0 <= i < j < |marks| ==> (marks[i] ==> marks[j])
  }

  ghost predicate EndSent(e: Endpoint, id: U32, log: Log)
    requires id in e.channels
  {
    var c := e.channels[id];
    var marks := Marks(e.outbox, c.remote.id);
    c.remote.id !in log.late ==>
      && DataFirst(marks)
      && (c.remote.id in log.ended ==> false !in marks)
      && (c.local.eof <==> true in marks || c.remote.id in log.ended)
  }

  ghost predicate EndSeen(e: Endpoint, id: U32, log: Log)
    requires id in e.channels
  {
    var c := e.channels[id];
    var marks := Marks(e.inbox, id);
    id !in log.late ==>
      && DataFirst(marks)
      && (true in marks || c.remote.eof <==> id in log.ended)
      && (c.remote.eof ==> false !in marks)
  }

  /** The history agrees with what waits to leave. */
  ghost predicate SenderTrack(e: Endpoint, log: Log) {
    && (forall id: U32, s: U32 :: id in e.channels ==>
          log.accepted((e.channels[id].remote.id, s))
            == log.moved((e.channels[id].remote.id, s)) + BytesIn(e.outbox, e.channels[id].remote.id, s))
    && (forall id: U32 :: id in e.channels ==> EndSent(e, id, log))
  }

  /** The history agrees with what has arrived. */
  ghost predicate ReceiverTrack(e: Endpoint, log: Log) {
    && (forall id: U32, s: U32 :: id in e.channels ==>
          log.moved((id, s)) == log.consumed((id, s)) + Arrived(e, id, s))
    && (forall k: Key :: !log.flushed(k) ==> log.returned(k) == log.consumed(k))
    && (forall id: U32 :: id in e.channels ==> EndSeen(e, id, log))
  }

  ghost predicate SenderFrame(e: Endpoint, f: Endpoint) {
    f.channels.Keys == e.channels.Keys && SameSent(e, f) &&
    forall id: U32 :: id in e.channels ==>
      f.channels[id].remote.id == e.channels[id].remote.id && f.channels[id].local.eof == e.channels[id].local.eof
  }

  ghost predicate ReceiverFrame(e: Endpoint, f: Endpoint) {
    f.channels.Keys == e.channels.Keys && f.packets == e.packets && f.inbox == e.inbox &&
    forall id: U32 :: id in e.channels ==> f.channels[id].remote.eof == e.channels[id].remote.eof
  }

  lemma SenderFramed(e: Endpoint, f: Endpoint, log: Log)
    requires SenderTrack(e, log) && SenderFrame(e, f)
    ensures SenderTrack(f, log)
  {
    forall id: U32 | id in f.channels ensures EndSent(f, id, log) {
      assert EndSent(e, id, log);
    }
  }

  lemma ReceiverFramed(e: Endpoint, f: Endpoint, log: Log)
    requires ReceiverTrack(e, log) && ReceiverFrame(e, f)
    ensures ReceiverTrack(f, log)
  {
    forall id: U32 | id in f.channels ensures EndSeen(f, id, log) {
      assert EndSeen(e, id, log);
    }
  }

  // ---------- each event keeps both roles on track ----------

  lemma ArriveTracks(e: Endpoint, snd: Log, rcv: Log)
    requires Sound(e) && e.inbox != [] && SenderTrack(e, snd) && ReceiverTrack(e, rcv)
    ensures SenderTrack(Deliver(e), snd) && ReceiverTrack(Deliver(e), rcv)
  {
    var f, m := Deliver(e), e.inbox[0];
    DeliverKeepsBytes(e);
    DeliverConserves(e);
    DeliverKeepsEof(e);
    SenderFramed(e, f, snd);
    forall id: U32 | id in f.channels ensures EndSeen(f, id, rcv) {
      assert EndSeen(e, id, rcv);
      DeliverEnds(e, id, rcv);
    }
  }

  lemma DeliverKeepsEof(e: Endpoint)
    requires e.inbox != []
    ensures forall id: U32 :: id in e.channels ==> Deliver(e).channels[id].local.eof == e.channels[id].local.eof
  {
  }

  lemma DeliverEnds(e: Endpoint, id: U32, log: Log)
    requires e.inbox != [] && id in e.channels && EndSeen(e, id, log)
    requires Deliver(e).channels.Keys == e.channels.Keys
    ensures EndSeen(Deliver(e), id, log)
  {
    var f, m := Deliver(e), e.inbox[0];
    var marks, rest := Marks(e.inbox, id), Marks(e.inbox[1..], id);
    assert marks == Mark(m, id) + rest;
    assert forall i :: 0 <= i < |rest| ==> rest[i] == marks[i + |Mark(m, id)|];
    if id !in log.late {
      assert DataFirst(rest);
      if Mark(m, id) == [true] {
        assert marks[0];
        assert false !in rest;
      } else if Mark(m, id) == [false] {
        assert false == marks[0];
        assert !e.channels[id].remote.eof;
      }
      assert f.channels[id].remote.eof ==> Mark(m, id) == [true] || e.channels[id].remote.eof;
    }
  }

  lemma WriteKeepsBytes(e: Endpoint, log: Log, ev: Event, id: U32, s: U32)
    requires ev.Write? && Enabled(e, ev) && SenderTrack(e, log) && DistinctPeers(e) && id in e.channels
    ensures var f, next := NextEndpoint(e, ev), NextSent(e, log, ev);
            var k := (e.channels[id].remote.id, s);
            next.accepted(k) == next.moved(k) + BytesIn(f.outbox, k.0, s)
  {
    SendChunkAppends(e, ev.id, ev.stream, ev.buf);
    var k := (e.channels[id].remote.id, s);
    assert log.accepted(k) == log.moved(k) + BytesIn(e.outbox, k.0, s);
    if SendChunk(e, ev.id, ev.stream, ev.buf).1 && k == (e.channels[ev.id].remote.id, ev.stream) {
      Regroup(log.moved(k), BytesIn(e.outbox, k.0, s), ev.buf[..ChunkSize(e.channels[ev.id], |ev.buf|)]);
    }
  }

  lemma WriteKeepsEnd(e: Endpoint, log: Log, ev: Event, id: U32)
    requires ev.Write? && Enabled(e, ev) && SenderTrack(e, log) && DistinctPeers(e) && id in e.channels
    ensures EndSent(NextEndpoint(e, ev), id, NextSent(e, log, ev))
  {
    assert EndSent(e, id, log);
    SendChunkAppends(e, ev.id, ev.stream, ev.buf);
  }

  lemma WriteTracks(e: Endpoint, snd: Log, rcv: Log, ev: Event)
    requires Sound(e) && ev.Write? && Enabled(e, ev) && SenderTrack(e, snd) && ReceiverTrack(e, rcv)
    ensures SenderTrack(NextEndpoint(e, ev), NextSent(e, snd, ev)) && ReceiverTrack(NextEndpoint(e, ev), rcv)
  {
    var f, log := NextEndpoint(e, ev), NextSent(e, snd, ev);
    SendChunkAppends(e, ev.id, ev.stream, ev.buf);
    ReceiverFramed(e, f, rcv);
    forall id: U32 | id in f.channels ensures EndSent(f, id, log) { WriteKeepsEnd(e, snd, ev, id); }
    forall id: U32, s: U32 | id in f.channels
      ensures log.accepted((f.channels[id].remote.id, s))
           == log.moved((f.channels[id].remote.id, s)) + BytesIn(f.outbox, f.channels[id].remote.id, s)
    {
      WriteKeepsBytes(e, snd, ev, id, s);
    }
  }

  lemma EndTracks(e: Endpoint, snd: Log, rcv: Log, id: U32)
    requires Sound(e) && id in e.channels && SenderTrack(e, snd) && ReceiverTrack(e, rcv)
    ensures SenderTrack(SendEof(e, id), snd) && ReceiverTrack(SendEof(e, id), rcv)
  {
    var f := SendEof(e, id);
    SendEofKeepsBytes(e, id);
    ReceiverFramed(e, f, rcv);
    forall x: U32 | x in f.channels ensures EndSent(f, x, snd) {
      EndKeepsMarks(e, id, snd, x);
    }
  }

  lemma {:induction false} EndKeepsMarks(e: Endpoint, id: U32, log: Log, x: U32)
    requires DistinctPeers(e) && id in e.channels && x in e.channels && EndSent(e, x, log)
    ensures EndSent(SendEof(e, id), x, log)
  {
    SendEofKeepsBytes(e, id);
  }

  lemma ReadKeepsBytes(e: Endpoint, log: Log, ev: Event, id: U32, s: U32)
    requires Sound(e) && ev.Read? && Enabled(e, ev) && ReceiverTrack(e, log) && id in e.channels
    ensures var f, next := NextEndpoint(e, ev), NextReceived(e, log, ev);
            next.moved((id, s)) == next.consumed((id, s)) + Arrived(f, id, s)
  {
    assert ChannelSound(e, ev.id);
    var f := NextEndpoint(e, ev);
    if id == ev.id && s == ev.stream {
      ReadScanTakesFront(e, ev.id, ev.stream, ev.want);
      Regroup(log.consumed((id, s)), ReadScan(e, ev.id, ev.stream, ev.want).1, Arrived(f, id, s));
    } else {
      ReadScanSparesOthers(e, ev.id, ev.stream, ev.want, id, s);
    }
  }

  lemma ReadTracks(e: Endpoint, snd: Log, rcv: Log, ev: Event)
    requires Sound(e) && ev.Read? && Enabled(e, ev) && SenderTrack(e, snd) && ReceiverTrack(e, rcv)
    ensures SenderTrack(NextEndpoint(e, ev), snd) && ReceiverTrack(NextEndpoint(e, ev), NextReceived(e, rcv, ev))
  {
    var f, log := NextEndpoint(e, ev), NextReceived(e, rcv, ev);
    assert ChannelSound(e, ev.id);
    ReadScanTakesFront(e, ev.id, ev.stream, ev.want);
    SenderFramed(e, f, snd);
    forall id: U32 | id in f.channels ensures EndSeen(f, id, log) { assert EndSeen(e, id, rcv); }
    forall id: U32, s: U32 | id in f.channels
      ensures log.moved((id, s)) == log.consumed((id, s)) + Arrived(f, id, s)
    {
      ReadKeepsBytes(e, rcv, ev, id, s);
    }
  }

  lemma DiscardTracks(e: Endpoint, snd: Log, rcv: Log, ev: Event)
    requires ev.Discard? && Enabled(e, ev) && SenderTrack(e, snd) && ReceiverTrack(e, rcv)
    ensures SenderTrack(NextEndpoint(e, ev), snd) && ReceiverTrack(NextEndpoint(e, ev), NextReceived(e, rcv, ev))
  {
    var f, log := NextEndpoint(e, ev), NextReceived(e, rcv, ev);
    FlushDrops(e, ev.id, ev.what);
    SenderFramed(e, f, snd);
    forall id: U32 | id in f.channels ensures EndSeen(f, id, log) { assert EndSeen(e, id, rcv); }
    forall id: U32, s: U32 | id in f.channels
      ensures log.moved((id, s)) == log.consumed((id, s)) + Arrived(f, id, s)
    {
      if id == ev.id && Covers(ev.what, s) {
        Regroup(rcv.consumed((id, s)), Pending(e.packets, id, s), BytesIn(e.inbox, id, s));
      }
    }
  }

  lemma QuietTracks(e: Endpoint, snd: Log, rcv: Log, ev: Event)
    requires (ev.Grant? || ev.Shut?) && Enabled(e, ev) && SenderTrack(e, snd) && ReceiverTrack(e, rcv)
    ensures SenderTrack(NextEndpoint(e, ev), snd) && ReceiverTrack(NextEndpoint(e, ev), rcv)
  {
    if ev.Grant? {
      WindowAdjustKeepsBytes(e, ev.id, 0, ev.force);
    } else {
      SendCloseKeepsBytes(e, ev.id);
    }
    SenderFramed(e, NextEndpoint(e, ev), snd);
    ReceiverFramed(e, NextEndpoint(e, ev), rcv);
  }

  lemma EventTracks(e: Endpoint, snd: Log, rcv: Log, ev: Event)
    requires Sound(e) && Enabled(e, ev) && SenderTrack(e, snd) && ReceiverTrack(e, rcv)
    ensures SenderTrack(NextEndpoint(e, ev), NextSent(e, snd, ev))
    ensures ReceiverTrack(NextEndpoint(e, ev), NextReceived(e, rcv, ev))
  {
    match ev
    case Arrive => ArriveTracks(e, snd, rcv);
    case Write(_, _, _) => WriteTracks(e, snd, rcv, ev);
    case Read(_, _, _) => ReadTracks(e, snd, rcv, ev);
    case Discard(_, _) => DiscardTracks(e, snd, rcv, ev);
    case End(id) => EndTracks(e, snd, rcv, id);
    case _ => QuietTracks(e, snd, rcv, ev);
  }

  lemma EventConserves(e: Endpoint, ev: Event)
    requires Sound(e) && Enabled(e, ev)
    ensures var f := NextEndpoint(e, ev); Sound(f) && KeepsCredit(e, f) && KeepsHeld(e, f)
  {
    match ev
    case Arrive => DeliverConserves(e);
    case Write(id, stream, buf) => SendChunkConserves(e, id, stream, buf);
    case Read(id, stream, want) => ReadScanConserves(e, id, stream, want);
    case Discard(id, what) => FlushConserves(e, id, what);
    case Grant(id, force) => ForceAdjustConserves(e, id, force);
    case End(id) => SendEofConserves(e, id);
    case Shut(id) => SendCloseConserves(e, id);
  }

  // ---------- the two endpoints and the links between them ----------

  datatype World = World(left: Endpoint, right: Endpoint, toRight: Log, toLeft: Log)

  function Mirror(w: World): World {
    World(w.right, w.left, w.toLeft, w.toRight)
  }

  datatype Action =
    | AtLeft(event: Event)
    | AtRight(event: Event)
    | LinkRight
    | LinkLeft

  /** The left endpoint acts; an event that is not enabled changes nothing. */
  ghost function ActLeft(w: World, ev: Event): World {
    if Enabled(w.left, ev) then
      World(NextEndpoint(w.left, ev), w.right, NextSent(w.left, w.toRight, ev), NextReceived(w.left, w.toLeft, ev))
    else w
  }

  /** The link carries the oldest message of the left endpoint into the right one's socket. */
  ghost function CarryRight(w: World): World {
    if w.left.outbox == [] then w
    else
      var m := w.left.outbox[0];
      w.(left := w.left.(outbox := w.left.outbox[1..]),
         right := w.right.(inbox := w.right.inbox + [m]),
         toRight := w.toRight.(
           moved := (k: Key) => w.toRight.moved(k) + StreamPart(m, k.0, k.1),
           ended := w.toRight.ended + if m.Eof? then {m.channel} else {}))
  }

  ghost function ActRight(w: World, ev: Event): World {
    Mirror(ActLeft(Mirror(w), ev))
  }

  ghost function CarryLeft(w: World): World {
    Mirror(CarryRight(Mirror(w)))
  }

  ghost function Next(w: World, a: Action): World {
    match a
    case AtLeft(ev) => ActLeft(w, ev)
    case AtRight(ev) => ActRight(w, ev)
    case LinkRight => CarryRight(w)
    case LinkLeft => CarryLeft(w)
  }

  ghost function Run(w: World, actions: seq<Action>): World
    decreases |actions|
  {
    if actions == [] then w else Run(Next(w, actions[0]), actions[1..])
  }

  // ---------- the invariant ----------

  /** Every channel of `e` has a partner in `f` that knows it and offers packets at least as large. */
  ghost predicate Paired(e: Endpoint, f: Endpoint) {
    forall id: U32 :: id in e.channels ==>
      var peer := e.channels[id].remote.id;
      peer in f.channels && f.channels[peer].remote.id == id
        && e.channels[id].local.packet <= f.channels[peer].remote.packet
  }

  /** The sender's credit is the receiver's, channel by channel. */
  ghost predicate Balanced(snd: Endpoint, rcv: Endpoint)
    requires Paired(snd, rcv)
  {
    forall id: U32 :: id in snd.channels ==> SendCredit(snd, id) == RecvCredit(rcv, snd.channels[id].remote.id)
  }

  ghost predicate Inv(w: World) {
    && Sound(w.left) && Sound(w.right)
    && Paired(w.left, w.right) && Paired(w.right, w.left)
    && Balanced(w.left, w.right) && Balanced(w.right, w.left)
    && SenderTrack(w.left, w.toRight) && ReceiverTrack(w.right, w.toRight)
    && SenderTrack(w.right, w.toLeft) && ReceiverTrack(w.left, w.toLeft)
  }

  lemma MirrorInv(w: World)
    requires Inv(w)
    ensures Inv(Mirror(w))
  {
  }

  /** What the left side does leaves the other side's part of the histories alone. */
  ghost predicate OwnSideOnly(w: World, snd: Log, rcv: Log) {
    && snd.moved == w.toRight.moved && snd.consumed == w.toRight.consumed && snd.returned == w.toRight.returned
    && snd.flushed == w.toRight.flushed && snd.ended == w.toRight.ended && w.toRight.late <= snd.late
    && rcv.accepted == w.toLeft.accepted && rcv.moved == w.toLeft.moved
    && rcv.late == w.toLeft.late && rcv.ended == w.toLeft.ended
  }

  lemma EventLogs(w: World, ev: Event)
    requires Enabled(w.left, ev)
    ensures OwnSideOnly(w, NextSent(w.left, w.toRight, ev), NextReceived(w.left, w.toLeft, ev))
  {
  }

  lemma RightTracksKept(w: World, snd: Log, rcv: Log)
    requires Inv(w) && OwnSideOnly(w, snd, rcv)
    ensures ReceiverTrack(w.right, snd) && SenderTrack(w.right, rcv)
  {
    forall id: U32 | id in w.right.channels ensures EndSeen(w.right, id, snd) && EndSent(w.right, id, rcv) {
      assert EndSeen(w.right, id, w.toRight) && EndSent(w.right, id, w.toLeft);
    }
    forall id: U32, s: U32 | id in w.right.channels
      ensures snd.moved((id, s)) == snd.consumed((id, s)) + Arrived(w.right, id, s)
    {
      assert w.toRight.moved((id, s)) == w.toRight.consumed((id, s)) + Arrived(w.right, id, s);
    }
    assert ReceiverTrack(w.right, snd);
    assert SenderTrack(w.right, rcv);
  }

  /** What pairing and balance say of one channel of `e`. */
  ghost predicate Matched(e: Endpoint, r: Endpoint, id: U32)
    requires id in e.channels
  {
    var c, peer := e.channels[id], e.channels[id].remote.id;
    && peer in r.channels && r.channels[peer].remote.id == id && c.local.packet <= r.channels[peer].remote.packet
    && SendCredit(e, id) == RecvCredit(r, peer)
  }

  lemma {:induction false} StaysMatched(e: Endpoint, f: Endpoint, r: Endpoint, id: U32)
    requires KeepsCredit(e, f) && id in e.channels && Matched(e, r, id)
    ensures Matched(f, r, id)
  {
  }

  lemma {:induction false} StaysMatchedBack(e: Endpoint, f: Endpoint, r: Endpoint, id: U32)
    requires KeepsCredit(e, f) && id in r.channels && Matched(r, e, id)
    ensures Matched(r, f, id)
  {
  }

  lemma {:induction false} StaysBalanced(e: Endpoint, f: Endpoint, r: Endpoint)
    requires Paired(e, r) && Paired(r, e) && Balanced(e, r) && Balanced(r, e) && KeepsCredit(e, f)
    ensures Paired(f, r) && Paired(r, f) && Balanced(f, r) && Balanced(r, f)
  {
    forall id: U32 | id in f.channels ensures Matched(f, r, id) {
      assert Matched(e, r, id);
      StaysMatched(e, f, r, id);
    }
    forall id: U32 | id in r.channels ensures Matched(r, f, id) {
      assert Matched(r, e, id);
      StaysMatchedBack(e, f, r, id);
    }
  }

  /** The left endpoint is replaced by one with the same credits, and its histories grow on its own side only. */
  lemma LeftReplaced(w: World, f: Endpoint, snd: Log, rcv: Log)
    requires Inv(w) && Sound(f) && KeepsCredit(w.left, f)
    requires SenderTrack(f, snd) && ReceiverTrack(f, rcv)
    requires OwnSideOnly(w, snd, rcv)
    ensures Inv(World(f, w.right, snd, rcv))
  {
    RightTracksKept(w, snd, rcv);
    StaysBalanced(w.left, f, w.right);
  }

  lemma ActLeftKeeps(w: World, ev: Event)
    requires Inv(w)
    ensures Inv(ActLeft(w, ev))
  {
    if Enabled(w.left, ev) {
      EventConserves(w.left, ev);
      EventTracks(w.left, w.toRight, w.toLeft, ev);
      EventLogs(w, ev);
      LeftReplaced(w, NextEndpoint(w.left, ev), NextSent(w.left, w.toRight, ev), NextReceived(w.left, w.toLeft, ev));
    }
  }

  // ---------- the link ----------

  /** A message that crosses the link leaves the sender's credits by as much as it enters the receiver's. */
  lemma CarriedCredit(w: World, id: U32)
    requires w.left.outbox != [] && id in w.left.channels
    ensures var m, v := w.left.outbox[0], CarryRight(w);
            && SendCredit(v.left, id) == SendCredit(w.left, id) - DataSize(m, w.left.channels[id].remote.id)
            && RecvCredit(v.left, id) == RecvCredit(w.left, id) + CreditSize(m, w.left.channels[id].remote.id)
  {
  }

  lemma CarriedDebit(w: World, id: U32)
    requires w.left.outbox != [] && id in w.right.channels
    ensures var m, v := w.left.outbox[0], CarryRight(w);
            && RecvCredit(v.right, id) == RecvCredit(w.right, id) - DataSize(m, id)
            && SendCredit(v.right, id) == SendCredit(w.right, id) + CreditSize(m, id)
  {
    DataInAppend(w.right.inbox, w.left.outbox[0], id);
    CreditInAppend(w.right.inbox, w.left.outbox[0], id);
  }

  lemma CarriedPairs(w: World)
    requires Paired(w.left, w.right) && Paired(w.right, w.left) && w.left.outbox != []
    ensures Paired(CarryRight(w).left, CarryRight(w).right) && Paired(CarryRight(w).right, CarryRight(w).left)
  {
    var v := CarryRight(w);
    assert v.left.channels == w.left.channels && v.right.channels == w.right.channels;
  }

  lemma CarriedForward(w: World, id: U32)
    requires Paired(w.left, w.right) && Balanced(w.left, w.right) && w.left.outbox != [] && id in w.left.channels
    ensures SendCredit(CarryRight(w).left, id) == RecvCredit(CarryRight(w).right, w.left.channels[id].remote.id)
  {
    CarriedCredit(w, id);
    CarriedDebit(w, w.left.channels[id].remote.id);
  }

  lemma CarriedBack(w: World, id: U32)
    requires Paired(w.right, w.left) && Balanced(w.right, w.left) && w.left.outbox != [] && id in w.right.channels
    ensures SendCredit(CarryRight(w).right, id) == RecvCredit(CarryRight(w).left, w.right.channels[id].remote.id)
  {
    CarriedDebit(w, id);
    CarriedCredit(w, w.right.channels[id].remote.id);
  }

  lemma CarriedBalance(w: World)
    requires Paired(w.left, w.right) && Balanced(w.left, w.right) && w.left.outbox != []
    requires Paired(w.right, w.left) && Balanced(w.right, w.left)
    requires Paired(CarryRight(w).left, CarryRight(w).right) && Paired(CarryRight(w).right, CarryRight(w).left)
    ensures Balanced(CarryRight(w).left, CarryRight(w).right) && Balanced(CarryRight(w).right, CarryRight(w).left)
  {
    var v := CarryRight(w);
    forall id: U32 | id in v.left.channels
      ensures SendCredit(v.left, id) == RecvCredit(v.right, v.left.channels[id].remote.id)
    {
      CarriedForward(w, id);
    }
    forall id: U32 | id in v.right.channels
      ensures SendCredit(v.right, id) == RecvCredit(v.left, v.right.channels[id].remote.id)
    {
      CarriedBack(w, id);
    }
  }

  lemma CarriedLeftChannel(w: World, id: U32)
    requires Inv(w) && w.left.outbox != [] && id in w.left.channels
    ensures ChannelSound(CarryRight(w).left, id)
  {
    CarriedCredit(w, id);
    assert ChannelSound(w.left, id);
  }

  lemma CarriedRightChannel(w: World, id: U32)
    requires Inv(w) && w.left.outbox != [] && id in w.right.channels
    ensures ChannelSound(CarryRight(w).right, id)
  {
    var v, peer := CarryRight(w), w.right.channels[id].remote.id;
    CarriedDebit(w, id);
    CarriedBack(w, id);
    CarriedForward(w, peer);
    assert ChannelSound(w.right, id);
    assert RecvCredit(v.left, peer) <= v.left.channels[peer].remote.window;
  }

  lemma CarriedSoundLeft(w: World)
    requires Inv(w) && w.left.outbox != []
    ensures Sound(CarryRight(w).left)
  {
    var e := CarryRight(w).left;
    assert WellFiled(e) && DistinctPeers(e);
    forall id: U32 | id in e.channels ensures ChannelSound(e, id) { CarriedLeftChannel(w, id); }
    assert forall n :: n in e.outbox ==> n in w.left.outbox;
  }

  lemma CarriedSoundRight(w: World)
    requires Inv(w) && w.left.outbox != []
    ensures Sound(CarryRight(w).right)
  {
    var e := CarryRight(w).right;
    assert WellFiled(e) && DistinctPeers(e);
    forall id: U32 | id in e.channels ensures ChannelSound(e, id) { CarriedRightChannel(w, id); }
    forall n | n in e.inbox ensures FitsReceiver(e.channels, n) { CarriedFits(w, n); }
  }

  lemma {:induction false} CarriedFits(w: World, n: Message)
    requires Inv(w) && w.left.outbox != [] && n in CarryRight(w).right.inbox
    ensures FitsReceiver(w.right.channels, n)
  {
    var m := w.left.outbox[0];
    assert m in w.left.outbox && (n in w.right.inbox || n == m);
    SentFits(w.left, w.right, m);
  }

  lemma SentFits(snd: Endpoint, rcv: Endpoint, m: Message)
    requires Paired(snd, rcv) && Paired(rcv, snd) && FitsSender(snd.channels, m)
    ensures FitsReceiver(rcv.channels, m)
  {
    if CarriesData(m) && m.channel in rcv.channels {
      var id := rcv.channels[m.channel].remote.id;
      assert id in snd.channels && snd.channels[id].remote.id == m.channel;
    }
  }

  lemma CarriedSender(w: World)
    requires Inv(w) && w.left.outbox != []
    ensures SenderTrack(CarryRight(w).left, CarryRight(w).toRight)
  {
    var v, m := CarryRight(w), w.left.outbox[0];
    forall id: U32, s: U32 | id in w.left.channels
      ensures var k := (w.left.channels[id].remote.id, s);
              v.toRight.accepted(k) == v.toRight.moved(k) + BytesIn(v.left.outbox, k.0, s)
    {
      var k := (w.left.channels[id].remote.id, s);
      assert w.toRight.accepted(k) == w.toRight.moved(k) + BytesIn(w.left.outbox, k.0, s);
      Regroup(w.toRight.moved(k), StreamPart(m, k.0, s), BytesIn(v.left.outbox, k.0, s));
    }
    forall id: U32 | id in w.left.channels ensures EndSent(v.left, id, v.toRight) {
      assert EndSent(w.left, id, w.toRight);
      var peer := w.left.channels[id].remote.id;
      var marks, rest := Marks(w.left.outbox, peer), Marks(v.left.outbox, peer);
      assert marks == Mark(m, peer) + rest;
      assert forall i :: 0 <= i < |rest| ==> rest[i] == marks[i + |Mark(m, peer)|];
      if Mark(m, peer) == [true] { assert marks[0]; }
    }
  }

  lemma CarriedReceiver(w: World)
    requires Inv(w) && w.left.outbox != []
    ensures ReceiverTrack(CarryRight(w).right, CarryRight(w).toRight)
  {
    var v, m := CarryRight(w), w.left.outbox[0];
    forall id: U32, s: U32 | id in w.right.channels
      ensures v.toRight.moved((id, s)) == v.toRight.consumed((id, s)) + Arrived(v.right, id, s)
    {
      BytesInAppend(w.right.inbox, m, id, s);
      Regroup(Pending(w.right.packets, id, s), BytesIn(w.right.inbox, id, s), StreamPart(m, id, s));
      Regroup(w.toRight.consumed((id, s)), Arrived(w.right, id, s), StreamPart(m, id, s));
    }
    forall id: U32 | id in w.right.channels ensures EndSeen(v.right, id, v.toRight) {
      var peer := w.right.channels[id].remote.id;
      assert EndSeen(w.right, id, w.toRight) && EndSent(w.left, peer, w.toRight);
      MarksAppend(w.right.inbox, m, id);
      assert Marks(w.left.outbox, id) == Mark(m, id) + Marks(v.left.outbox, id);
      if Mark(m, id) == [false] { assert false in Marks(w.left.outbox, id); }
    }
  }

  /** The other direction's histories and flags do not notice. */
  lemma CarriedOtherLeft(w: World)
    requires w.left.outbox != [] && ReceiverTrack(w.left, w.toLeft)
    ensures ReceiverTrack(CarryRight(w).left, CarryRight(w).toLeft)
  {
    ReceiverFramed(w.left, CarryRight(w).left, w.toLeft);
  }

  lemma CarriedOtherRight(w: World)
    requires w.left.outbox != [] && SenderTrack(w.right, w.toLeft)
    ensures SenderTrack(CarryRight(w).right, CarryRight(w).toLeft)
  {
    SenderFramed(w.right, CarryRight(w).right, w.toLeft);
  }

  lemma CarryRightKeeps(w: World)
    requires Inv(w)
    ensures Inv(CarryRight(w))
  {
    if w.left.outbox != [] {
      CarriedPairs(w);
      CarriedBalance(w);
      CarriedSoundLeft(w);
      CarriedSoundRight(w);
      CarriedSender(w);
      CarriedReceiver(w);
      CarriedOtherLeft(w);
      CarriedOtherRight(w);
    }
  }

  lemma ActRightKeeps(w: World, ev: Event)
    requires Inv(w)
    ensures Inv(ActRight(w, ev))
  {
    MirrorInv(w);
    ActLeftKeeps(Mirror(w), ev);
    MirrorInv(ActLeft(Mirror(w), ev));
  }

  lemma CarryLeftKeeps(w: World)
    requires Inv(w)
    ensures Inv(CarryLeft(w))
  {
    MirrorInv(w);
    CarryRightKeeps(Mirror(w));
    MirrorInv(CarryRight(Mirror(w)));
  }

  lemma NextKeeps(w: World, a: Action)
    requires Inv(w)
    ensures Inv(Next(w, a))
  {
    if a.AtLeft? {
      ActLeftKeeps(w, a.event);
    } else if a.AtRight? {
      ActRightKeeps(w, a.event);
    } else if a.LinkRight? {
      CarryRightKeeps(w);
    } else {
      CarryLeftKeeps(w);
    }
  }

  lemma {:induction false} RunKeeps(w: World, actions: seq<Action>)
    requires Inv(w)
    ensures Inv(Run(w, actions))
    decreases |actions|
  {
    if actions != [] {
      NextKeeps(w, actions[0]);
      RunKeeps(Next(w, actions[0]), actions[1..]);
    }
  }

  // ---------- connections just opened ----------

  ghost predicate Idle(e: Endpoint) {
    && WellFiled(e) && DistinctPeers(e)
    && e.packets == [] && e.inbox == [] && e.outbox == []
    && forall id: U32 :: id in e.channels ==>
         var c := e.channels[id];
         && c.mode == Normal && c.adjustQueue == 0 && c.remote.window == c.remote.initial
         && !c.local.eof && !c.remote.eof && !c.local.close && !c.remote.close
  }

  ghost predicate Untouched(log: Log) {
    && (forall k: Key :: log.accepted(k) == [] && log.moved(k) == [] && log.consumed(k) == [] && log.returned(k) == [])
    && (forall k: Key :: !log.flushed(k))
    && log.late == {} && log.ended == {}
  }

  /** Each side starts with the window its peer offered in the open or the confirmation. */
  ghost predicate SameWindows(snd: Endpoint, rcv: Endpoint)
    requires Paired(snd, rcv)
  {
    forall id: U32 :: id in snd.channels ==>
      snd.channels[id].local.window == rcv.channels[snd.channels[id].remote.id].remote.window
  }

  ghost predicate Opened(w: World) {
    && Idle(w.left) && Idle(w.right)
    && Paired(w.left, w.right) && Paired(w.right, w.left)
    && SameWindows(w.left, w.right) && SameWindows(w.right, w.left)
    && Untouched(w.toRight) && Untouched(w.toLeft)
  }

  lemma IdleSound(e: Endpoint)
    requires Idle(e)
    ensures Sound(e)
    ensures forall id: U32 :: id in e.channels ==>
              SendCredit(e, id) == e.channels[id].local.window && RecvCredit(e, id) == e.channels[id].remote.window
  {
    forall id: U32 | id in e.channels ensures ChannelSound(e, id) {}
  }

  lemma IdleTracks(e: Endpoint, snd: Log, rcv: Log)
    requires Idle(e) && Untouched(snd) && Untouched(rcv)
    ensures SenderTrack(e, snd) && ReceiverTrack(e, rcv)
  {
  }

  lemma OpenedInv(w: World)
    requires Opened(w)
    ensures Inv(w)
  {
    IdleSound(w.left);
    IdleSound(w.right);
    IdleTracks(w.left, w.toRight, w.toLeft);
    IdleTracks(w.right, w.toLeft, w.toRight);
  }

  /** Some run of a connection just opened ends in this state. */
  ghost predicate Reachable(v: World) {
    exists w: World, actions: seq<Action> :: Opened(w) && Run(w, actions) == v
  }

  lemma {:induction false} ReachableInv(v: World)
    requires Reachable(v)
    ensures Inv(v)
  {
    var w: World, actions: seq<Action> :| Opened(w) && Run(w, actions) == v;
    OpenedInv(w);
    RunKeeps(w, actions);
  }

  // ---------- main results ----------
  // Each is stated for what the left side writes and the right side reads; `Mirror` turns a reachable
  // state into one with the roles exchanged.

  lemma {:induction false} MirroredRun(w: World, actions: seq<Action>) returns (mirrored: seq<Action>)
    ensures Mirror(Run(w, actions)) == Run(Mirror(w), mirrored)
    decreases |actions|
  {
    if actions == [] {
      mirrored := [];
    } else {
      var rest := MirroredRun(Next(w, actions[0]), actions[1..]);
      var a := match actions[0]
        case AtLeft(ev) => AtRight(ev)
        case AtRight(ev) => AtLeft(ev)
        case LinkRight => LinkLeft
        case LinkLeft => LinkRight;
      mirrored := [a] + rest;
      assert mirrored[1..] == rest;
    }
  }

  lemma {:induction false} MirrorReachable(v: World)
    requires Reachable(v)
    ensures Reachable(Mirror(v))
  {
    var w: World, actions: seq<Action> :| Opened(w) && Run(w, actions) == v;
    var mirrored := MirroredRun(w, actions);
    assert Opened(Mirror(w));
  }

  /** In every reachable state the window that the receiver keeps is the sender's window plus the data
      and the credit still under way, and the receiver's books add up to the initial window. */
  lemma {:induction false} WindowsAgree(v: World, id: U32)
    requires Reachable(v) && id in v.left.channels
    ensures var c := v.left.channels[id];
            var peer := c.remote.id;
            && peer in v.right.channels && v.right.channels[peer].remote.id == id
            && v.right.channels[peer].remote.window
               == c.local.window + DataIn(v.left.outbox, peer) + DataIn(v.right.inbox, peer)
                  + CreditIn(v.right.outbox, id) + CreditIn(v.left.inbox, id)
            && v.right.channels[peer].remote.window + v.right.channels[peer].adjustQueue + Queued(v.right.packets, peer)
               == v.right.channels[peer].remote.initial
  {
    ReachableInv(v);
    var peer := v.left.channels[id].remote.id;
    assert SendCredit(v.left, id) == RecvCredit(v.right, peer);
    assert ChannelSound(v.right, peer);
  }

  /** No reachable delivery truncates a message or loses a byte of it. */
  lemma {:induction false} NothingEverCut(v: World)
    requires Reachable(v) && v.right.inbox != [] && CarriesData(v.right.inbox[0])
    ensures var m := v.right.inbox[0];
            m.channel in v.right.channels ==>
              var c := v.right.channels[m.channel];
              && KeptSize(c, m) == |m.bytes|
              && ChargedWindow(c, m) == c.remote.window - |m.bytes|
              && (c.remote.window == 0 ==> m.bytes == [])
  {
    ReachableInv(v);
    NothingCut(v.right);
  }

  lemma BytesAccounted(v: World, id: U32, stream: U32)
    requires SenderTrack(v.left, v.toRight) && ReceiverTrack(v.right, v.toRight)
    requires id in v.left.channels && v.left.channels[id].remote.id in v.right.channels
    ensures var peer := v.left.channels[id].remote.id;
            v.toRight.accepted((peer, stream))
              == v.toRight.consumed((peer, stream)) + Pending(v.right.packets, peer, stream)
                 + BytesIn(v.right.inbox, peer, stream) + BytesIn(v.left.outbox, peer, stream)
  {
    var peer := v.left.channels[id].remote.id;
    assert v.toRight.moved((peer, stream)) == v.toRight.consumed((peer, stream)) + Arrived(v.right, peer, stream);
    Regroup(v.toRight.consumed((peer, stream)), Pending(v.right.packets, peer, stream),
            BytesIn(v.right.inbox, peer, stream));
  }

  /** Everything a writer got onto a stream has been taken out by the reader, waits in its brigade or
      socket, or waits in the writer's socket, in that order; and unless the stream was flushed, what was
      taken out is what the reads returned.  So reads return a prefix of what writes accepted. */
  lemma {:induction false} ReadsReturnPrefixOfWrites(v: World, id: U32, stream: U32)
    requires Reachable(v) && id in v.left.channels
    ensures var peer := v.left.channels[id].remote.id;
            var k := (peer, stream);
            && v.toRight.accepted(k)
               == v.toRight.consumed(k) + Pending(v.right.packets, peer, stream)
                  + BytesIn(v.right.inbox, peer, stream) + BytesIn(v.left.outbox, peer, stream)
            && (!v.toRight.flushed(k) ==> v.toRight.returned(k) <= v.toRight.accepted(k))
  {
    ReachableInv(v);
    BytesAccounted(v, id, stream);
    var k: Key := (v.left.channels[id].remote.id, stream);
    assert !v.toRight.flushed(k) ==> v.toRight.returned(k) == v.toRight.consumed(k);
  }

  /** `libssh2_channel_eof`: data that waits to be read masks the flag. */
  predicate ChannelEof(e: Endpoint, id: U32)
    requires id in e.channels
  {
    e.channels[id].remote.eof && forall p :: p in e.packets ==> !IsDataFor(p.data, id)
  }

  /** Every packet of data of the channel masks it, and nothing else does. */
  lemma {:induction false} ChannelEofIff(e: Endpoint, id: U32)
    requires id in e.channels
    ensures ChannelEof(e, id) <==>
              && e.channels[id].remote.eof
              && forall k :: 0 <= k < |e.packets| ==>
                   !((e.packets[k].data.Data? || e.packets[k].data.Extended?) && e.packets[k].data.channel == id)
  {
    if ChannelEof(e, id) {
      assert forall k :: 0 <= k < |e.packets| ==> e.packets[k] in e.packets;
    }
  }

  lemma {:induction false} NoPacketsNoBytes(ps: seq<Packet>, id: U32, stream: U32)
    requires forall p :: p in ps ==> !IsDataFor(p.data, id)
    ensures Pending(ps, id, stream) == []
  {
    if ps != [] {
      assert ps[0] in ps;
      NoPacketsNoBytes(ps[1..], id, stream);
    }
  }

  /** When the reader sees end of file, and the writer kept silent after sending it, every byte of every
      stream of the channel has been taken out, and all of it was returned if nothing was flushed. */
  lemma {:induction false} EofMeansEverythingRead(v: World, id: U32, stream: U32)
    requires Reachable(v) && id in v.left.channels
    requires v.left.channels[id].remote.id in v.right.channels
    requires ChannelEof(v.right, v.left.channels[id].remote.id)
    requires v.left.channels[id].remote.id !in v.toRight.late
    ensures var k := (v.left.channels[id].remote.id, stream);
            && v.toRight.consumed(k) == v.toRight.accepted(k)
            && (!v.toRight.flushed(k) ==> v.toRight.returned(k) == v.toRight.accepted(k))
  {
    ReachableInv(v);
    BytesAccounted(v, id, stream);
    var peer := v.left.channels[id].remote.id;
    assert EndSeen(v.right, peer, v.toRight) && EndSent(v.left, id, v.toRight);
    NoMarkNoBytes(v.right.inbox, peer, stream);
    NoMarkNoBytes(v.left.outbox, peer, stream);
    NoPacketsNoBytes(v.right.packets, peer, stream);
    var k: Key := (peer, stream);
    assert !v.toRight.flushed(k) ==> v.toRight.returned(k) == v.toRight.consumed(k);
  }

  /** In any case, when the reader sees end of file, everything has been taken out exactly when nothing of the
      stream is still under way. */
  lemma {:induction false} EofMeansEverythingReadIff(v: World, id: U32, stream: U32)
    requires Reachable(v) && id in v.left.channels
    requires v.left.channels[id].remote.id in v.right.channels
    requires ChannelEof(v.right, v.left.channels[id].remote.id)
    ensures var peer := v.left.channels[id].remote.id;
            v.toRight.consumed((peer, stream)) == v.toRight.accepted((peer, stream))
            <==> BytesIn(v.right.inbox, peer, stream) == [] && BytesIn(v.left.outbox, peer, stream) == []
  {
    ReachableInv(v);
    BytesAccounted(v, id, stream);
    NoPacketsNoBytes(v.right.packets, v.left.channels[id].remote.id, stream);
  }

  /** A writer that keeps silent after its end of file: it has sent one exactly when the reader sees it or it is
      still under way. */
  lemma {:induction false} EofIsSeenIff(v: World, id: U32)
    requires Reachable(v) && id in v.left.channels
    requires v.left.channels[id].remote.id in v.right.channels && v.left.channels[id].remote.id !in v.toRight.late
    ensures var peer := v.left.channels[id].remote.id;
            v.left.channels[id].local.eof <==>
              v.right.channels[peer].remote.eof || Eof(peer) in v.left.outbox || Eof(peer) in v.right.inbox
  {
    ReachableInv(v);
    var peer := v.left.channels[id].remote.id;
    assert EndSeen(v.right, peer, v.toRight) && EndSent(v.left, id, v.toRight);
    MarksHaveEof(v.left.outbox, peer);
    MarksHaveEof(v.right.inbox, peer);
  }

  // ---------- stalling ----------

  /** Nothing of the channel is under way and the reader has emptied its packets. */
  predicate Quiet(w: World, id: U32)
    requires id in w.left.channels
  {
    var peer := w.left.channels[id].remote.id;
    && DataIn(w.left.outbox, peer) == 0 && DataIn(w.right.inbox, peer) == 0
    && CreditIn(w.right.outbox, id) == 0 && CreditIn(w.left.inbox, id) == 0
    && Queued(w.right.packets, peer) == 0
  }

  /** In a quiet state the only credit the writer lacks is what the reader has queued: the writer is
      stuck exactly when the whole initial window sits in the queue. */
  lemma {:induction false} StalledIffAllQueued(v: World, id: U32)
    requires Reachable(v) && id in v.left.channels && Quiet(v, id)
    ensures var peer := v.left.channels[id].remote.id;
            && peer in v.right.channels
            && v.left.channels[id].local.window + v.right.channels[peer].adjustQueue
              == v.right.channels[peer].remote.initial
            && (v.left.channels[id].local.window == 0 <==>
                  v.right.channels[peer].adjustQueue == v.right.channels[peer].remote.initial)
  {
    WindowsAgree(v, id);
  }

  /** An endpoint whose sends do not fail keeps less than the threshold queued. */
  ghost predicate Prompt(e: Endpoint) {
    e.faults == [] && forall id: U32 :: id in e.channels ==> e.channels[id].adjustQueue < MIN_ADJUST
  }

  lemma {:induction false} AdjustAllPrompt(e: Endpoint, id: U32, amounts: seq<U32>)
    requires id in e.channels && Prompt(e)
    ensures Prompt(AdjustAll(e, id, amounts))
    decreases |amounts|
  {
    if amounts != [] { AdjustAllPrompt(WindowAdjust(e, id, amounts[0], false), id, amounts[1..]); }
  }

  lemma EventPrompt(e: Endpoint, ev: Event)
    requires Enabled(e, ev) && Prompt(e)
    ensures Prompt(NextEndpoint(e, ev))
  {
    if ev.Read? {
      var scan := ReadList(e.packets, ev.id, ev.stream, e.channels[ev.id].mode, ev.want);
      AdjustAllPrompt(e.(packets := scan.packets), ev.id, scan.refunds);
    }
  }

  lemma {:induction false} RunPrompt(w: World, actions: seq<Action>)
    requires Prompt(w.right)
    ensures Prompt(Run(w, actions).right)
    decreases |actions|
  {
    if actions != [] {
      var a := actions[0];
      if a.AtRight? && Enabled(w.right, a.event) { EventPrompt(w.right, a.event); }
      RunPrompt(Next(w, a), actions[1..]);
    }
  }

  /** With an initial window of at least the threshold and a reader whose sends succeed, no quiet
      state leaves the writer without window. */
  lemma {:induction false} NoStall(w: World, actions: seq<Action>, v: World, id: U32)
    requires Opened(w) && Prompt(w.right) && v == Run(w, actions)
    requires id in v.left.channels && Quiet(v, id)
    ensures var peer := v.left.channels[id].remote.id;
            && peer in v.right.channels
            && (v.right.channels[peer].remote.initial >= 1024 ==> v.left.channels[id].local.window > 0)
  {
    StalledIffAllQueued(v, id);
    RunPrompt(w, actions);
  }
}
