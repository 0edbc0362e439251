/** The same operations as they are in the source: methods that update a session and its channels in place.
    Each is proved to do to the session's value what the function of the same name in Endpoints says. */
module Sessions {
  import opened Bytes
  import opened Endpoints

  class OpenChannel {
    var local: Half
    var remote: Half
    var mode: Mode
    var adjustQueue: U32
    var blocking: bool

    constructor (local: Half, remote: Half, mode: Mode, blocking: bool)
      ensures Value() == Channel(local, remote, mode, 0, blocking)
    {
      this.local, this.remote, this.mode, this.adjustQueue, this.blocking := local, remote, mode, 0, blocking;
    }

    function Value(): Channel
      reads this
    {
      Channel(local, remote, mode, adjustQueue, blocking)
    }
  }

  /** Refunding one packet leaves the refunds that follow; what the brigade holds does not matter to them. */
  lemma Refunded(e: Endpoint, ps: seq<Packet>, end: seq<Packet>, id: U32, refunds: seq<U32>)
    requires id in e.channels && refunds != []
    ensures AdjustAll(WindowAdjust(e.(packets := ps), id, refunds[0], false).(packets := end), id, refunds[1..])
         == AdjustAll(e.(packets := end), id, refunds)
  {
    assert WindowAdjust(e.(packets := ps), id, refunds[0], false).(packets := end)
        == WindowAdjust(e.(packets := end), id, refunds[0], false);
  }

  lemma FlushListStep(ps: seq<Packet>, i: nat, id: U32, what: FlushWhat)
    requires i < |ps|
    ensures FlushList(ps[i..], id, what)
         == (if Flushable(ps[i], id, what) then [] else [ps[i]]) + FlushList(ps[i + 1..], id, what)
    ensures FlushRefund(ps[..i + 1], id, what)
         == if Flushable(ps[i], id, what)
            then Add32(FlushRefund(ps[..i], id, what), Sub32(Length(ps[i].data), 13))
            else FlushRefund(ps[..i], id, what)
    ensures FlushedSize(ps[..i + 1], id, what)
         == FlushedSize(ps[..i], id, what)
            + if Flushable(ps[i], id, what) then |ps[i].data.bytes| - ps[i].taken else 0
  {
    assert ps[i..][1..] == ps[i + 1..];
    assert ps[..i + 1][..i] == ps[..i];
  }

  /** What the sending of an adjust packet leaves. */
  function Adjusted(e: Endpoint, id: U32, total: U32): Endpoint
    requires id in e.channels
  {
    var c := e.channels[id];
    var (s, sent) := Send(e, Adjust(c.remote.id, total));
    if sent then
      WithChannel(s, id, c.(adjustQueue := 0, remote := c.remote.(window := Add32(c.remote.window, total))))
    else
      WithChannel(s, id, c.(adjustQueue := total))
  }

  /** What keeping a data message leaves. */
  function Kept(e: Endpoint, m: Message): Endpoint
    requires CarriesData(m) && m.channel in e.channels
  {
    var c := e.channels[m.channel];
    WithChannel(e, m.channel, c.(remote := c.remote.(eof := false, window := ChargedWindow(c, m))))
      .(packets := e.packets + [RawPacket(Truncated(m, KeptSize(c, m)), 0)])
  }

  /** What a sweep has come to before packet i. */
  ghost predicate Swept(ps: seq<Packet>, i: nat, id: U32, what: FlushWhat, kept: seq<Packet>, refund: U32,
                        flushed: nat) {
    && i <= |ps| && kept + FlushList(ps[i..], id, what) == FlushList(ps, id, what)
    && refund == FlushRefund(ps[..i], id, what) && flushed == FlushedSize(ps[..i], id, what)
  }

  lemma {:induction false} SweepStarts(ps: seq<Packet>, id: U32, what: FlushWhat)
    ensures Swept(ps, 0, id, what, [], 0, 0)
  {
    assert ps[0..] == ps && ps[..0] == [];
  }

  lemma {:induction false} SweepStep(ps: seq<Packet>, i: nat, id: U32, what: FlushWhat, kept: seq<Packet>,
                                     refund: U32, flushed: nat)
    requires i < |ps| && Swept(ps, i, id, what, kept, refund, flushed)
    ensures Flushable(ps[i], id, what) ==>
              Swept(ps, i + 1, id, what, kept, Add32(refund, Sub32(Length(ps[i].data), 13)),
                    flushed + |ps[i].data.bytes| - ps[i].taken)
    ensures !Flushable(ps[i], id, what) ==> Swept(ps, i + 1, id, what, kept + [ps[i]], refund, flushed)
  {
    FlushListStep(ps, i, id, what);
  }

  lemma {:induction false} SweepEnds(ps: seq<Packet>, id: U32, what: FlushWhat, kept: seq<Packet>, refund: U32,
                                     flushed: nat)
    requires Swept(ps, |ps|, id, what, kept, refund, flushed)
    ensures kept == FlushList(ps, id, what) && refund == FlushRefund(ps, id, what)
            && flushed == FlushedSize(ps, id, what)
  {
    assert ps[..|ps|] == ps && ps[|ps|..] == [] && kept + [] == kept;
  }

  /** A write loop has `rest` still to send, and what that leads to is `end`. */
  ghost predicate Writing(e: Endpoint, id: U32, stream: U32, rest: Chunk, wrote: nat, end: (Endpoint, int)) {
    && id in e.channels && (e.channels[id].blocking ==> e.channels[id].local.packet > 0)
    && WriteLoop(e, id, stream, rest, wrote) == end
  }

  lemma WriteWaits(e: Endpoint, id: U32, stream: U32, rest: Chunk, wrote: nat, end: (Endpoint, int))
    requires Writing(e, id, stream, rest, wrote, end) && rest != [] && e.channels[id].local.window == 0
    ensures if e.inbox == [] then end == (e, -1)
            else
              && Writing(Deliver(e), id, stream, rest, wrote, end)
              && Deliver(e).channels[id].local.id == e.channels[id].local.id
  {
    if e.inbox != [] { KeepsSettings(e, id); }
  }

  lemma {:induction false} WriteSends(e: Endpoint, f: Endpoint, sent: bool, n: nat, id: U32, stream: U32, rest: Chunk,
                                      wrote: nat, end: (Endpoint, int))
    requires Writing(e, id, stream, rest, wrote, end) && rest != [] && e.channels[id].local.window > 0
    requires (f, sent) == Endpoints.SendChunk(e, id, stream, rest) && n == ChunkSize(e.channels[id], |rest|)
    ensures n <= |rest|
    ensures !sent ==> end == (f, -1)
    ensures sent && !e.channels[id].blocking ==> end == (f, wrote + n)
    ensures sent && e.channels[id].blocking ==> n > 0 && Writing(f, id, stream, rest[n..], wrote + n, end)
  {
  }

  lemma WriteEnds(e: Endpoint, id: U32, stream: U32, wrote: nat, end: (Endpoint, int))
    requires Writing(e, id, stream, [], wrote, end)
    ensures end == (e, wrote)
  {
  }

  /** A scan has come as far as packet i and has collected `bytes`; what is left of it leads to `scan`
      and, with its refunds, to `goal`. */
  ghost predicate Scanning(e: Endpoint, i: nat, bytes: seq<Byte>, id: U32, stream: U32, mode: Mode, buflen: nat,
                           scan: Scan, goal: Endpoint)
  {
    && i <= |e.packets| && |bytes| <= buflen && id in e.channels
    && var rest := ReadList(e.packets[i..], id, stream, mode, buflen - |bytes|);
       && scan.packets == e.packets[..i] + rest.packets
       && scan.bytes == bytes + rest.bytes
       && AdjustAll(e.(packets := scan.packets), id, rest.refunds) == goal
  }

  lemma ScanStarts(e: Endpoint, id: U32, stream: U32, mode: Mode, buflen: nat)
    requires id in e.channels
    ensures var scan := ReadList(e.packets, id, stream, mode, buflen);
            Scanning(e, 0, [], id, stream, mode, buflen, scan, AdjustAll(e.(packets := scan.packets), id, scan.refunds))
  {
    assert e.packets[0..] == e.packets;
  }

  lemma ScanSkips(e: Endpoint, i: nat, bytes: seq<Byte>, id: U32, stream: U32, mode: Mode, buflen: nat,
                  scan: Scan, goal: Endpoint)
    requires Scanning(e, i, bytes, id, stream, mode, buflen, scan, goal) && |bytes| < buflen
    requires i < |e.packets| && !Readable(e.packets[i], id, stream, mode)
    ensures Scanning(e, i + 1, bytes, id, stream, mode, buflen, scan, goal)
  {
    assert e.packets[i..][1..] == e.packets[i + 1..];
  }

  /** How a scan that empties packet i goes on. */
  lemma {:induction false} ReadListEmpties(ps: seq<Packet>, i: nat, id: U32, stream: U32, mode: Mode, want: nat)
    requires i < |ps| && want > 0 && Readable(ps[i], id, stream, mode)
    requires want >= |ps[i].data.bytes| - ps[i].taken
    ensures var left := ps[i].data.bytes[ps[i].taken..];
            var rest := ReadList((ps[..i] + ps[i + 1..])[i..], id, stream, mode, want - |left|);
            ReadList(ps[i..], id, stream, mode, want)
              == Scan(rest.packets, left + rest.bytes, [Refund(ps[i].data, stream)] + rest.refunds)
  {
    assert ps[i..][1..] == ps[i + 1..] == (ps[..i] + ps[i + 1..])[i..];
  }

  lemma {:induction false} ScanEmpties(e: Endpoint, f: Endpoint, i: nat, bytes: seq<Byte>, id: U32, stream: U32,
                                       mode: Mode, buflen: nat, scan: Scan, goal: Endpoint)
    requires Scanning(e, i, bytes, id, stream, mode, buflen, scan, goal) && |bytes| < buflen
    requires i < |e.packets| && Readable(e.packets[i], id, stream, mode)
    requires buflen - |bytes| >= |e.packets[i].data.bytes| - e.packets[i].taken
    requires f == WindowAdjust(e.(packets := e.packets[..i] + e.packets[i + 1..]), id,
                               Refund(e.packets[i].data, stream), false)
    ensures Scanning(f, i, bytes + e.packets[i].data.bytes[e.packets[i].taken..], id, stream, mode, buflen, scan, goal)
  {
    var left := e.packets[i].data.bytes[e.packets[i].taken..];
    var ps := e.packets[..i] + e.packets[i + 1..];
    assert ps[..i] == e.packets[..i] && f.packets == ps;
    ReadListEmpties(e.packets, i, id, stream, mode, buflen - |bytes|);
    var rest := ReadList(ps[i..], id, stream, mode, buflen - |bytes + left|);
    AdjustFirst(e, ps, scan.packets, id, Refund(e.packets[i].data, stream), rest.refunds);
    Regroup(bytes, left, rest.bytes);
  }

  lemma {:induction false} AdjustFirst(e: Endpoint, ps: seq<Packet>, qs: seq<Packet>, id: U32, refund: U32,
                                       others: seq<U32>)
    requires id in e.channels
    ensures AdjustAll(e.(packets := qs), id, [refund] + others)
            == AdjustAll(WindowAdjust(e.(packets := ps), id, refund, false).(packets := qs), id, others)
  {
    Refunded(e, ps, qs, id, [refund] + others);
    assert ([refund] + others)[1..] == others;
  }

  lemma ScanStops(e: Endpoint, f: Endpoint, i: nat, bytes: seq<Byte>, id: U32, stream: U32, mode: Mode, buflen: nat,
                  scan: Scan, goal: Endpoint)
    requires Scanning(e, i, bytes, id, stream, mode, buflen, scan, goal) && |bytes| < buflen
    requires i < |e.packets| && Readable(e.packets[i], id, stream, mode)
    requires buflen - |bytes| < |e.packets[i].data.bytes| - e.packets[i].taken
    requires f == e.(packets := e.packets[i := e.packets[i].(taken := e.packets[i].taken + (buflen - |bytes|))])
    ensures Scanning(f, i + 1, bytes + e.packets[i].data.bytes[e.packets[i].taken..][..buflen - |bytes|],
                     id, stream, mode, buflen, scan, goal)
  {
    assert e.packets[i..][1..] == e.packets[i + 1..] == f.packets[i + 1..];
    assert f.packets[..i + 1] == e.packets[..i] + [f.packets[i]];
    assert ReadList(f.packets[i + 1..], id, stream, mode, 0) == Scan(f.packets[i + 1..], [], []);
  }

  /** A packet that is read from is either emptied and taken out or, with less asked for, kept. */
  lemma {:induction false} ScanConsumes(e: Endpoint, f: Endpoint, i: nat, bytes: seq<Byte>, part: seq<Byte>, id: U32,
                                        stream: U32, mode: Mode, buflen: nat, scan: Scan, goal: Endpoint)
    requires Scanning(e, i, bytes, id, stream, mode, buflen, scan, goal) && |bytes| < buflen
    requires i < |e.packets| && Readable(e.packets[i], id, stream, mode)
    requires Consumed(e, f, i, part, id, stream, buflen - |bytes|)
    ensures Scanning(f, if Empties(e, i, buflen - |bytes|) then i else i + 1, bytes + part, id, stream, mode, buflen,
                     scan, goal)
    ensures |f.packets| == if Empties(e, i, buflen - |bytes|) then |e.packets| - 1 else |e.packets|
  {
    if Empties(e, i, buflen - |bytes|) {
      ScanEmpties(e, f, i, bytes, id, stream, mode, buflen, scan, goal);
    } else {
      ScanStops(e, f, i, bytes, id, stream, mode, buflen, scan, goal);
    }
  }

  /** The packet has no more bytes than are wanted. */
  ghost predicate Empties(e: Endpoint, i: nat, want: nat)
    requires i < |e.packets| && CarriesData(e.packets[i].data)
  {
    want >= |e.packets[i].data.bytes| - e.packets[i].taken
  }

  /** What reading from packet i leaves and yields. */
  ghost predicate Consumed(e: Endpoint, f: Endpoint, i: nat, part: seq<Byte>, id: U32, stream: U32, want: nat)
    requires i < |e.packets| && CarriesData(e.packets[i].data) && id in e.channels
  {
    var p := e.packets[i];
    if Empties(e, i, want) then
      && part == p.data.bytes[p.taken..]
      && f == WindowAdjust(e.(packets := e.packets[..i] + e.packets[i + 1..]), id, Refund(p.data, stream), false)
    else
      && part == p.data.bytes[p.taken..][..want]
      && f == e.(packets := e.packets[i := p.(taken := p.taken + want)])
  }

  lemma ScanEnds(e: Endpoint, i: nat, bytes: seq<Byte>, id: U32, stream: U32, mode: Mode, buflen: nat,
                 scan: Scan, goal: Endpoint)
    requires Scanning(e, i, bytes, id, stream, mode, buflen, scan, goal)
    requires i == |e.packets| || |bytes| == buflen
    ensures e == goal && bytes == scan.bytes
  {
    assert e.packets[..i] + e.packets[i..] == e.packets;
    assert ReadList(e.packets[i..], id, stream, mode, buflen - |bytes|) == Scan(e.packets[i..], [], []);
    assert e.(packets := e.packets) == e;
  }

  /** A turn of a read has left e and yielded these bytes; with what arrives later the read comes to `goal`. */
  ghost predicate Waits(e: Endpoint, id: U32, stream: U32, want: nat, bytes: seq<Byte>, later: seq<seq<Message>>,
                        goal: (Endpoint, seq<Byte>, bool))
  {
    && id in e.channels
    && goal == if !e.channels[id].blocking || bytes != [] || e.channels[id].remote.close then (e, bytes, true)
               else if later == [] then (e, [], false)
               else Endpoints.ReadEx(e.(inbox := e.inbox + later[0]), id, stream, want, later[1..])
  }

  class Session {
    var channels: map<U32, OpenChannel>
    var packets: seq<Packet>
    var inbox: seq<Message>
    var outbox: seq<Message>
    var faults: seq<bool>

    constructor ()
      ensures Valid() && View() == Endpoint(map[], [], [], [], [])
    {
      channels, packets, inbox, outbox, faults := map[], [], [], [], [];
    }

    ghost predicate Valid()
      reads `channels, channels.Values
    {
      forall id :: id in channels ==> channels[id].local.id == id
    }

    ghost function Table(): map<U32, Channel>
      reads `channels, channels.Values
    {
      map id | id in channels :: channels[id].Value()
    }

    ghost function View(): Endpoint
      reads this, channels.Values
    {
      Endpoint(Table(), packets, inbox, outbox, faults)
    }

    ghost predicate Owns(c: OpenChannel)
      reads `channels, c
    {
      c.local.id in channels && channels[c.local.id] == c
    }

    method PacketWrite(m: Message) returns (sent: bool)
      requires Valid()
      modifies `outbox, `faults
      ensures (View(), sent) == Send(old(View()), m)
    {
      sent := !(faults != [] && faults[0]);
      if sent { outbox := outbox + [m]; }
      faults := if faults == [] then [] else faults[1..];
    }

    method ReceiveWindowAdjust(c: OpenChannel, amount: U32, force: bool) returns (window: U32)
      requires Valid() && Owns(c)
      modifies `outbox, `faults, c`remote, c`adjustQueue
      ensures Valid() && Owns(c) && c.remote.id == old(c.remote.id)
      ensures View() == WindowAdjust(old(View()), c.local.id, amount, force)
      ensures window == c.remote.window
    {
      if !force && Add32(amount, c.adjustQueue) < MIN_ADJUST {
        c.adjustQueue := Add32(c.adjustQueue, amount);
        ViewAfter(c);
        return c.remote.window;
      }
      if amount == 0 && c.adjustQueue == 0 {
        return c.remote.window;
      }
      assert View().channels[c.local.id] == c.Value();
      SendAdjust(c, Add32(amount, c.adjustQueue));
      window := c.remote.window;
    }

    /** The adjust packet; what it could not grant is queued. */
    method SendAdjust(c: OpenChannel, total: U32)
      requires Valid() && Owns(c)
      modifies `outbox, `faults, c`remote, c`adjustQueue
      ensures Valid() && Owns(c) && c.remote.id == old(c.remote.id)
      ensures View() == Adjusted(old(View()), c.local.id, total)
    {
      assert View().channels[c.local.id] == c.Value();
      c.adjustQueue := 0;
      var sent := PacketWrite(Adjust(c.remote.id, total));
      if !sent {
        c.adjustQueue := total;
      } else {
        c.remote := c.remote.(window := Add32(c.remote.window, total));
      }
      ViewAfter(c);
    }

    /** Changing one channel object changes one entry of the value. */
    twostate lemma ViewAfter(c: OpenChannel)
      requires old(Valid()) && channels == old(channels) && c in channels.Values
      requires c.local.id == old(c.local.id)
      requires forall d :: d in channels.Values && d != c ==> unchanged(d)
      ensures Valid() && Owns(c)
      ensures Table() == old(Table())[c.local.id := c.Value()]
    {
      var id :| id in channels && channels[id] == c;
      forall x | x in channels ensures Table()[x] == old(Table())[c.local.id := c.Value()][x] {
        if channels[x] == c {
          assert old(channels[x].local.id) == x;
        } else {
          assert channels[x] in channels.Values && unchanged(channels[x]);
        }
      }
    }

    method AddData(m: Message)
      requires Valid() && CarriesData(m)
      modifies `packets, `outbox, `faults, channels.Values
      ensures Valid()
      ensures View() == Endpoints.AddData(old(View()), m)
    {
      if m.channel !in channels { return; }
      var c := channels[m.channel];
      if c.mode == Ignore && m.Extended? {
        var _ := ReceiveWindowAdjust(c, |m.bytes|, false);
        return;
      }
      if c.remote.window == 0 { return; }
      assert View().channels[c.local.id] == c.Value();
      KeepData(c, m);
    }

    /** Charges for a data message, cut to packet and window size, and keeps it. */
    method KeepData(c: OpenChannel, m: Message)
      requires Valid() && Owns(c) && CarriesData(m) && c.local.id == m.channel
      modifies `packets, c`remote
      ensures Valid()
      ensures View() == Kept(old(View()), m)
    {
      assert View().channels[c.local.id] == c.Value();
      var size := |m.bytes|;
      if c.remote.packet < size { size := c.remote.packet; }
      c.remote := c.remote.(eof := false);
      if size > c.remote.window {
        size := c.remote.window;
      } else {
        c.remote := c.remote.(window := c.remote.window - size);
      }
      packets := packets + [RawPacket(Truncated(m, size), 0)];
      ViewAfter(c);
    }

    method PacketAdd(m: Message)
      requires Valid()
      modifies `packets, `outbox, `faults, channels.Values
      ensures Valid()
      ensures View() == Endpoints.PacketAdd(old(View()), m)
    {
      if CarriesData(m) {
        AddData(m);
      } else if m.Other? {
        packets := packets + [RawPacket(m, 0)];
      } else if m.channel in channels {
        var c := channels[m.channel];
        match m
        case Eof(_) => c.remote := c.remote.(eof := true);
        case Close(_) => c.remote := c.remote.(close := true);
        case Adjust(_, amount) =>
          if amount != 0 { c.local := c.local.(window := Add32(c.local.window, amount)); }
        ViewAfter(c);
      }
    }

    method PacketRead()
      requires Valid() && inbox != []
      modifies `inbox, `packets, `outbox, `faults, channels.Values
      ensures Valid()
      ensures View() == Deliver(old(View()))
    {
      var m := inbox[0];
      inbox := inbox[1..];
      assert View() == old(View()).(inbox := old(View()).inbox[1..]);
      PacketAdd(m);
    }

    method SendEof(c: OpenChannel) returns (ok: bool)
      requires Valid() && Owns(c)
      modifies `outbox, `faults, c`local
      ensures Valid() && Owns(c)
      ensures View() == Endpoints.SendEof(old(View()), c.local.id)
      ensures ok == (old(faults) == [] || !old(faults)[0]) && c.local.eof == (old(c.local.eof) || ok)
    {
      ok := PacketWrite(Eof(c.remote.id));
      if ok {
        c.local := c.local.(eof := true);
        ViewAfter(c);
      }
    }

    /** `libssh2_channel_eof`: data that waits to be read masks the flag. */
    method ChannelEof(c: OpenChannel) returns (eof: bool)
      requires Valid() && Owns(c)
      ensures eof <==>
                && c.remote.eof
                && forall k :: 0 <= k < |packets| ==>
                     !((packets[k].data.Data? || packets[k].data.Extended?) && packets[k].data.channel == c.local.id)
    {
      for k := 0 to |packets|
        invariant forall j :: 0 <= j < k ==> !(CarriesData(packets[j].data) && packets[j].data.channel == c.local.id)
      {
        if CarriesData(packets[k].data) && packets[k].data.channel == c.local.id { return false; }
      }
      eof := c.remote.eof;
    }

    method Close(c: OpenChannel) returns (ok: bool)
      requires Valid() && Owns(c)
      modifies `outbox, `faults, c`local
      ensures Valid() && Owns(c) && c.local.close
      ensures View() == SendClose(old(View()), c.local.id)
      ensures ok == (old(c.local.close) || old(faults) == [] || !old(faults)[0])
    {
      if c.local.close { return true; }
      c.local := c.local.(close := true);
      ViewAfter(c);
      ok := PacketWrite(Message.Close(c.remote.id));
    }

    /** One round of the write loop. */
    method SendChunk(c: OpenChannel, stream: U32, buf: Chunk) returns (size: nat, sent: bool)
      requires Valid() && Owns(c)
      modifies `outbox, `faults, c`local
      ensures Valid() && Owns(c) && c.local.id == old(c.local.id)
      ensures (View(), sent) == Endpoints.SendChunk(old(View()), c.local.id, stream, buf)
      ensures size == ChunkSize(old(c.Value()), |buf|)
    {
      size := |buf|;
      if size > c.local.window { size := c.local.window; }
      if size > c.local.packet { size := c.local.packet; }
      sent := PacketWrite(DataMessage(c.remote.id, stream, buf[..size]));
      if sent {
        c.local := c.local.(window := c.local.window - size);
        ViewAfter(c);
      }
    }

    /** Takes messages in until there is window; false when nothing more arrives. */
    method AwaitWindow(c: OpenChannel, stream: U32, rest: Chunk, wrote: nat, ghost end: (Endpoint, int))
      returns (ok: bool)
      requires Valid() && Owns(c) && rest != [] && Writing(View(), c.local.id, stream, rest, wrote, end)
      modifies this, channels.Values
      ensures Valid() && Owns(c) && channels == old(channels) && c.local.id == old(c.local.id)
      ensures ok ==> c.local.window > 0 && Writing(View(), c.local.id, stream, rest, wrote, end)
      ensures !ok ==> end == (View(), -1)
    {
      while c.local.window == 0
        invariant Valid() && Owns(c) && channels == old(channels) && c.local.id == old(c.local.id)
        invariant Writing(View(), c.local.id, stream, rest, wrote, end)
        decreases |inbox|
      {
        assert View().channels[c.local.id] == c.Value();
        WriteWaits(View(), c.local.id, stream, rest, wrote, end);
        if inbox == [] { return false; }
        ghost var id := c.local.id;
        PacketRead();
        assert View().channels[id] == c.Value();
      }
      ok := true;
    }

    /** Sends the next piece, and tells what is left, whether that was the last one, and with what result. */
    method SendRound(c: OpenChannel, stream: U32, rest: Chunk, wrote: nat, ghost end: (Endpoint, int))
      returns (left: Chunk, last: bool, r: int)
      requires Valid() && Owns(c) && rest != [] && c.local.window > 0
      requires Writing(View(), c.local.id, stream, rest, wrote, end)
      modifies `outbox, `faults, c`local
      ensures Valid() && Owns(c) && c.local.id == old(c.local.id)
      ensures last ==> (View(), r) == end
      ensures !last ==> r >= 0 && |left| < |rest| && Writing(View(), c.local.id, stream, left, r, end)
    {
      ghost var e := View();
      assert e.channels[c.local.id] == c.Value();
      var size, sent := SendChunk(c, stream, rest);
      WriteSends(e, View(), sent, size, c.local.id, stream, rest, wrote, end);
      left, last := rest[size..], !sent || !c.blocking;
      r := if sent then wrote + size else -1;
    }

    method WriteRound(c: OpenChannel, stream: U32, rest: Chunk, wrote: nat, ghost end: (Endpoint, int))
      returns (left: Chunk, last: bool, r: int)
      requires Valid() && Owns(c) && rest != [] && Writing(View(), c.local.id, stream, rest, wrote, end)
      modifies this, channels.Values
      ensures Valid() && Owns(c) && channels == old(channels)
      ensures last ==> (View(), r) == end
      ensures !last ==> r >= 0 && |left| < |rest| && Writing(View(), c.local.id, stream, left, r, end)
    {
      var ready := AwaitWindow(c, stream, rest, wrote, end);
      if ready {
        left, last, r := SendRound(c, stream, rest, wrote, end);
      } else {
        left, last, r := rest, true, -1;
      }
    }

    /** Writes until the buffer is out, a send fails, a wait comes to nothing or, on a channel that does
        not block, one piece is out. */
    method WriteRounds(c: OpenChannel, stream: U32, buf: Chunk, ghost end: (Endpoint, int)) returns (r: int)
      requires Valid() && Owns(c) && Writing(View(), c.local.id, stream, buf, 0, end)
      modifies this, channels.Values
      ensures Valid() && channels == old(channels)
      ensures (View(), r) == end
    {
      var rest: Chunk, wrote: nat := buf, 0;
      while rest != []
        invariant Valid() && Owns(c) && channels == old(channels)
        invariant Writing(View(), c.local.id, stream, rest, wrote, end)
        decreases |rest|
      {
        var left, last;
        left, last, r := WriteRound(c, stream, rest, wrote, end);
        if last { return r; }
        rest, wrote := left, r;
      }
      WriteEnds(View(), c.local.id, stream, wrote, end);
      r := wrote;
    }

    method WriteEx(c: OpenChannel, stream: U32, buf: Chunk) returns (r: int)
      requires Valid() && Owns(c)
      requires c.blocking ==> c.local.packet > 0
      modifies this, channels.Values
      ensures Valid() && channels == old(channels)
      ensures (View(), r) == Endpoints.WriteEx(old(View()), old(c.local.id), stream, buf)
    {
      if c.local.close { return -1; }
      if !c.blocking && c.local.window == 0 { return 0; }
      assert View().channels[c.local.id] == c.Value();
      r := WriteRounds(c, stream, buf, WriteLoop(View(), c.local.id, stream, buf, 0));
    }

    /** Takes in what has arrived, then hands out what the brigade holds of the stream, oldest first.
        It is one turn of a read. */
    method ReadTurn(c: OpenChannel, stream: U32, buflen: nat) returns (bytes: seq<Byte>)
      requires Valid() && Owns(c)
      modifies this, channels.Values
      ensures Valid() && channels == old(channels)
      ensures (View(), bytes) == Endpoints.ReadTurn(old(View()), old(c.local.id), stream, buflen)
    {
      var id := c.local.id;
      while inbox != []
        invariant Valid() && Owns(c) && c.local.id == id && channels == old(channels)
        invariant Drain(View()) == Drain(old(View()))
        decreases |inbox|
      {
        PacketRead();
        assert View().channels[id] == c.Value();
      }
      bytes := ReadScan(c, stream, buflen);
    }

    /** What arrives while a read waits. */
    method Arrives(c: OpenChannel, ms: seq<Message>)
      requires Valid() && Owns(c)
      modifies `inbox
      ensures Valid() && Owns(c)
      ensures View() == old(View()).(inbox := old(inbox) + ms)
    {
      inbox := inbox + ms;
    }

    /** Another turn of a read that waits. */
    method WaitTurn(c: OpenChannel, stream: U32, buflen: nat, later: seq<seq<Message>>,
                    ghost goal: (Endpoint, seq<Byte>, bool))
      returns (bytes: seq<Byte>)
      requires Valid() && Owns(c) && c.blocking && !c.remote.close && later != []
      requires Waits(View(), c.local.id, stream, buflen, [], later, goal)
      modifies this, channels.Values
      ensures Valid() && Owns(c) && channels == old(channels) && c.local.id == old(c.local.id)
      ensures Waits(View(), c.local.id, stream, buflen, bytes, later[1..], goal)
    {
      assert View().channels[c.local.id] == c.Value();
      Arrives(c, later[0]);
      bytes := ReadFirst(c, stream, buflen, later[1..]);
    }

    /** A turn of a read, and what it leaves to do. */
    method ReadFirst(c: OpenChannel, stream: U32, buflen: nat, ghost later: seq<seq<Message>>)
      returns (bytes: seq<Byte>)
      requires Valid() && Owns(c)
      modifies this, channels.Values
      ensures Valid() && Owns(c) && channels == old(channels) && c.local.id == old(c.local.id)
      ensures Waits(View(), c.local.id, stream, buflen, bytes, later,
                    Endpoints.ReadEx(old(View()), old(c.local.id), stream, buflen, later))
    {
      bytes := ReadTurn(c, stream, buflen);
      assert View().channels[c.local.id] == c.Value();
    }

    /** The loop of a read: it ends with bytes, when the channel does not block, or when the peer has closed. */
    method ReadEx(c: OpenChannel, stream: U32, buflen: nat, later: seq<seq<Message>>)
      returns (bytes: seq<Byte>, done: bool)
      requires Valid() && Owns(c)
      modifies this, channels.Values
      ensures Valid() && channels == old(channels)
      ensures (View(), bytes, done) == Endpoints.ReadEx(old(View()), old(c.local.id), stream, buflen, later)
    {
      ghost var goal := Endpoints.ReadEx(View(), c.local.id, stream, buflen, later);
      bytes := ReadFirst(c, stream, buflen, later);
      var left := later;
      while c.blocking && bytes == [] && !c.remote.close
        invariant Valid() && Owns(c) && channels == old(channels) && c.local.id == old(c.local.id)
        invariant Waits(View(), c.local.id, stream, buflen, bytes, left, goal)
        decreases |left|
      {
        assert View().channels[c.local.id] == c.Value();
        if left == [] { return [], false; }
        bytes := WaitTurn(c, stream, buflen, left, goal);
        left := left[1..];
      }
      assert View().channels[c.local.id] == c.Value();
      done := true;
    }

    /** Copies out of one packet up to `want` bytes, and unlinks and refunds it when that empties it. */
    method Consume(c: OpenChannel, stream: U32, i: nat, want: nat) returns (part: seq<Byte>, emptied: bool)
      requires Valid() && Owns(c) && i < |packets| && Readable(packets[i], c.local.id, stream, c.mode)
      modifies `packets, `outbox, `faults, c`remote, c`adjustQueue
      ensures Valid() && Owns(c)
      ensures emptied == Empties(old(View()), i, want)
      ensures Consumed(old(View()), View(), i, part, c.local.id, stream, want)
    {
      var p, size := packets[i], want;
      emptied := false;
      if size >= |p.data.bytes| - p.taken {
        size, emptied := |p.data.bytes| - p.taken, true;
      }
      part := p.data.bytes[p.taken..][..size];
      if emptied {
        packets := packets[..i] + packets[i + 1..];
        var _ := ReceiveWindowAdjust(c, Refund(p.data, stream), false);
      } else {
        packets := packets[i := p.(taken := p.taken + size)];
      }
    }

    /** One packet that is read from. */
    method ScanConsume(c: OpenChannel, stream: U32, i: nat, bytes: seq<Byte>, buflen: nat, ghost scan: Scan,
                       ghost goal: Endpoint)
      returns (next: nat, more: seq<Byte>)
      requires Valid() && Owns(c) && i < |packets| && |bytes| < buflen
               && Readable(packets[i], c.local.id, stream, c.mode)
      requires Scanning(View(), i, bytes, c.local.id, stream, c.mode, buflen, scan, goal)
      modifies `packets, `outbox, `faults, c`remote, c`adjustQueue
      ensures Valid() && Owns(c)
      ensures Scanning(View(), next, more, c.local.id, stream, c.mode, buflen, scan, goal)
      ensures |packets| - next < old(|packets|) - i
    {
      ghost var e := View();
      var part, emptied := Consume(c, stream, i, buflen - |bytes|);
      ScanConsumes(e, View(), i, bytes, part, c.local.id, stream, c.mode, buflen, scan, goal);
      more, next := bytes + part, if emptied then i else i + 1;
    }

    /** One packet of the scan. */
    method ScanRound(c: OpenChannel, stream: U32, i: nat, bytes: seq<Byte>, buflen: nat, ghost scan: Scan,
                     ghost goal: Endpoint)
      returns (next: nat, more: seq<Byte>)
      requires Valid() && Owns(c) && i < |packets| && |bytes| < buflen
      requires Scanning(View(), i, bytes, c.local.id, stream, c.mode, buflen, scan, goal)
      modifies `packets, `outbox, `faults, c`remote, c`adjustQueue
      ensures Valid() && Owns(c)
      ensures Scanning(View(), next, more, c.local.id, stream, c.mode, buflen, scan, goal)
      ensures |packets| - next < old(|packets|) - i
    {
      if Readable(packets[i], c.local.id, stream, c.mode) {
        next, more := ScanConsume(c, stream, i, bytes, buflen, scan, goal);
      } else {
        ScanSkips(View(), i, bytes, c.local.id, stream, c.mode, buflen, scan, goal);
        next, more := i + 1, bytes;
      }
    }

    method ScanRounds(c: OpenChannel, stream: U32, buflen: nat, ghost scan: Scan, ghost goal: Endpoint)
      returns (bytes: seq<Byte>)
      requires Valid() && Owns(c) && Scanning(View(), 0, [], c.local.id, stream, c.mode, buflen, scan, goal)
      modifies `packets, `outbox, `faults, c`remote, c`adjustQueue
      ensures Valid() && View() == goal && bytes == scan.bytes
    {
      bytes := [];
      var i: nat := 0;
      while i < |packets| && |bytes| < buflen
        invariant Valid() && Owns(c)
        invariant Scanning(View(), i, bytes, c.local.id, stream, c.mode, buflen, scan, goal)
        decreases |packets| - i
      {
        i, bytes := ScanRound(c, stream, i, bytes, buflen, scan, goal);
      }
      ScanEnds(View(), i, bytes, c.local.id, stream, c.mode, buflen, scan, goal);
    }

    method ReadScan(c: OpenChannel, stream: U32, buflen: nat) returns (bytes: seq<Byte>)
      requires Valid() && Owns(c)
      modifies `packets, `outbox, `faults, c`remote, c`adjustQueue
      ensures Valid()
      ensures (View(), bytes) == Endpoints.ReadScan(old(View()), c.local.id, stream, buflen)
    {
      ghost var e := View();
      assert e.channels[c.local.id] == c.Value();
      ghost var scan := ReadList(e.packets, c.local.id, stream, c.mode, buflen);
      ScanStarts(e, c.local.id, stream, c.mode, buflen);
      bytes := ScanRounds(c, stream, buflen, scan, AdjustAll(e.(packets := scan.packets), c.local.id, scan.refunds));
    }

    /** The sweep of a flush: what stays, what is refunded, and how much is lost to the reader. */
    static method Sweep(ps: seq<Packet>, id: U32, what: FlushWhat)
      returns (kept: seq<Packet>, refund: U32, flushed: nat)
      ensures kept == FlushList(ps, id, what)
      ensures refund == FlushRefund(ps, id, what)
      ensures flushed == FlushedSize(ps, id, what)
    {
      kept, refund, flushed := [], 0, 0;
      var i := 0;
      SweepStarts(ps, id, what);
      while i < |ps|
        invariant Swept(ps, i, id, what, kept, refund, flushed)
      {
        SweepStep(ps, i, id, what, kept, refund, flushed);
        if Flushable(ps[i], id, what) {
          refund := Add32(refund, Sub32(Length(ps[i].data), 13));
          flushed := flushed + |ps[i].data.bytes| - ps[i].taken;
        } else {
          kept := kept + [ps[i]];
        }
        i := i + 1;
      }
      SweepEnds(ps, id, what, kept, refund, flushed);
    }

    /** Drops the packets of the streams asked for, and refunds for them. */
    method FlushEx(c: OpenChannel, what: FlushWhat) returns (flushed: nat)
      requires Valid() && Owns(c)
      modifies `packets, `outbox, `faults, c`remote, c`adjustQueue
      ensures Valid()
      ensures View() == Flush(old(View()), c.local.id, what)
      ensures flushed == FlushedSize(old(packets), c.local.id, what)
    {
      assert View().channels[c.local.id] == c.Value();
      var kept, refund, n := Sweep(packets, c.local.id, what);
      packets := kept;
      assert View() == old(View()).(packets := kept);
      if refund != 0 {
        var _ := ReceiveWindowAdjust(c, refund, false);
      }
      flushed := n;
    }
  }
}
