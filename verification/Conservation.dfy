/** In normal mode every operation of an endpoint keeps both of its credits and everything it holds. */
module Conservation {
  import opened Bytes
  import opened Endpoints
  import opened Accounting

  predicate SameSettings(c: Channel, d: Channel) {
    && d.mode == c.mode && d.blocking == c.blocking
    && d.local.id == c.local.id && d.local.initial == c.local.initial && d.local.packet == c.local.packet
    && d.remote.id == c.remote.id && d.remote.initial == c.remote.initial && d.remote.packet == c.remote.packet
  }

  ghost predicate DistinctPeers(e: Endpoint) {
    forall x: U32, y: U32 :: x in e.channels && y in e.channels && x != y ==>
      e.channels[x].remote.id != e.channels[y].remote.id
  }

  ghost predicate ChannelSound(e: Endpoint, id: U32)
    requires id in e.channels
  {
    && e.channels[id].mode == Normal
    && Held(e, id) == e.channels[id].remote.initial
    && RecvCredit(e, id) >= 0
    && SendCredit(e, id) < WORD
  }

  /** A data message is no larger than its receiver takes, or than its sender may send. */
  predicate FitsReceiver(channels: map<U32, Channel>, m: Message) {
    CarriesData(m) && m.channel in channels ==> |m.bytes| <= channels[m.channel].remote.packet
  }

  ghost predicate FitsSender(channels: map<U32, Channel>, m: Message) {
    CarriesData(m) ==>
      forall id: U32 :: id in channels && channels[id].remote.id == m.channel ==> |m.bytes| <= channels[id].local.packet
  }

  /** What an endpoint can rely on while its peer follows the protocol. */
  ghost predicate Sound(e: Endpoint) {
    && WellFiled(e)
    && DistinctPeers(e)
    && (forall id: U32 :: id in e.channels ==> ChannelSound(e, id))
    && (forall m :: m in e.inbox ==> FitsReceiver(e.channels, m))
    && (forall m :: m in e.outbox ==> FitsSender(e.channels, m))
  }

  /** Settings and credits agree, channel by channel. */
  ghost predicate KeepsCredit(e: Endpoint, f: Endpoint) {
    && f.channels.Keys == e.channels.Keys
    && forall id: U32 :: id in e.channels ==>
         && SameSettings(e.channels[id], f.channels[id])
         && SendCredit(f, id) == SendCredit(e, id)
         && RecvCredit(f, id) == RecvCredit(e, id)
  }

  ghost predicate KeepsHeld(e: Endpoint, f: Endpoint)
    requires f.channels.Keys == e.channels.Keys
  {
    forall id: U32 :: id in e.channels ==> Held(f, id) == Held(e, id)
  }

  /** Only the messages of `f` that `e` did not have still need to be checked. */
  lemma StaysSound(e: Endpoint, f: Endpoint)
    requires Sound(e) && KeepsCredit(e, f) && KeepsHeld(e, f)
    requires forall m :: m in f.inbox ==> m in e.inbox
    requires forall m :: m in f.outbox && CarriesData(m) ==> m in e.outbox || FitsSender(f.channels, m)
    ensures Sound(f)
  {
    forall m | m in f.outbox ensures FitsSender(f.channels, m) {
      if CarriesData(m) && m in e.outbox { assert FitsSender(e.channels, m); }
    }
    forall m | m in f.inbox ensures FitsReceiver(f.channels, m) {
      assert FitsReceiver(e.channels, m);
    }
  }

  // ---------- sending ----------

  /** How putting one message on the wire moves the credits of one channel. */
  lemma Emitted(e: Endpoint, f: Endpoint, m: Message, x: U32)
    requires x in e.channels && x in f.channels
    requires f.outbox == e.outbox + [m] && f.inbox == e.inbox
    requires f.channels[x].remote.id == e.channels[x].remote.id
    ensures SendCredit(f, x) - f.channels[x].local.window
         == SendCredit(e, x) - e.channels[x].local.window + DataSize(m, e.channels[x].remote.id)
    ensures RecvCredit(f, x) - f.channels[x].remote.window
         == RecvCredit(e, x) - e.channels[x].remote.window - CreditSize(m, e.channels[x].remote.id)
  {
    DataInAppend(e.outbox, m, e.channels[x].remote.id);
    CreditInAppend(e.outbox, m, e.channels[x].remote.id);
  }

  /** A data message leaves and the window shrinks by its size. */
  lemma EmitData(e: Endpoint, f: Endpoint, id: U32, m: Message)
    requires Sound(e) && id in e.channels
    requires IsDataFor(m, e.channels[id].remote.id)
    requires var n := |m.bytes|;
             && n <= e.channels[id].local.window && n <= e.channels[id].local.packet
             && var half := e.channels[id].local;
                f.channels == e.channels[id := e.channels[id].(local := half.(window := half.window - n))]
    requires f.outbox == e.outbox + [m] && f.inbox == e.inbox && f.packets == e.packets
    ensures Sound(f) && KeepsCredit(e, f) && KeepsHeld(e, f)
  {
    forall x: U32 | x in e.channels
      ensures SendCredit(f, x) == SendCredit(e, x) && RecvCredit(f, x) == RecvCredit(e, x)
    {
      Emitted(e, f, m, x);
    }
    StaysSound(e, f);
  }

  /** A message without data or credit leaves. */
  lemma EmitFlag(e: Endpoint, f: Endpoint, id: U32, m: Message)
    requires Sound(e) && id in e.channels && (m.Eof? || m.Close?)
    requires f.channels.Keys == e.channels.Keys && f.channels == e.channels[id := f.channels[id]]
    requires SameSettings(e.channels[id], f.channels[id]) && f.channels[id].adjustQueue == e.channels[id].adjustQueue
    requires f.channels[id].local.window == e.channels[id].local.window
    requires f.channels[id].remote.window == e.channels[id].remote.window
    requires (f.outbox == e.outbox + [m] || f.outbox == e.outbox) && f.inbox == e.inbox && f.packets == e.packets
    ensures Sound(f) && KeepsCredit(e, f) && KeepsHeld(e, f)
  {
    if f.outbox == e.outbox + [m] {
      forall x: U32 | x in e.channels
        ensures SendCredit(f, x) == SendCredit(e, x) && RecvCredit(f, x) == RecvCredit(e, x)
      {
        Emitted(e, f, m, x);
      }
    }
    StaysSound(e, f);
  }

  lemma SendChunkConserves(e: Endpoint, id: U32, stream: U32, buf: Chunk)
    requires Sound(e) && id in e.channels
    ensures var f := SendChunk(e, id, stream, buf).0;
            Sound(f) && KeepsCredit(e, f) && KeepsHeld(e, f)
  {
    var c := e.channels[id];
    var piece := buf[..ChunkSize(c, |buf|)];
    var f := SendChunk(e, id, stream, buf).0;
    if SendChunk(e, id, stream, buf).1 {
      EmitData(e, f, id, DataMessage(c.remote.id, stream, piece));
    } else {
      StaysSound(e, f);
    }
  }

  lemma SendEofConserves(e: Endpoint, id: U32)
    requires Sound(e) && id in e.channels
    ensures var f := SendEof(e, id); Sound(f) && KeepsCredit(e, f) && KeepsHeld(e, f)
  {
    EmitFlag(e, SendEof(e, id), id, Eof(e.channels[id].remote.id));
  }

  lemma SendCloseConserves(e: Endpoint, id: U32)
    requires Sound(e) && id in e.channels
    ensures var f := SendClose(e, id); Sound(f) && KeepsCredit(e, f) && KeepsHeld(e, f)
  {
    EmitFlag(e, SendClose(e, id), id, Close(e.channels[id].remote.id));
  }

  // ---------- adjusting ----------

  /** A credit message leaves and the window grows by its amount. */
  lemma EmitCredit(e: Endpoint, f: Endpoint, id: U32, m: Message, n: U32)
    requires id in e.channels && DistinctPeers(e)
    requires m == Adjust(e.channels[id].remote.id, n)
    requires f.channels.Keys == e.channels.Keys && f.channels == e.channels[id := f.channels[id]]
    requires SameSettings(e.channels[id], f.channels[id])
    requires f.channels[id].local.window == e.channels[id].local.window
    requires f.channels[id].remote.window == e.channels[id].remote.window + n
    requires f.outbox == e.outbox + [m] && f.inbox == e.inbox
    ensures KeepsCredit(e, f)
  {
    forall x: U32 | x in e.channels
      ensures SendCredit(f, x) == SendCredit(e, x) && RecvCredit(f, x) == RecvCredit(e, x)
    {
      Emitted(e, f, m, x);
    }
  }

  /** `f` is `e` with `amount` more in the window or the queue of one channel, and with what went into
      the window also put on the wire. */
  ghost predicate Granted(e: Endpoint, f: Endpoint, id: U32, amount: nat)
    requires id in e.channels
  {
    && KeepsCredit(e, f)
    && (forall x: U32 :: x in e.channels && x != id ==> f.channels[x] == e.channels[x])
    && f.channels[id].remote.window + f.channels[id].adjustQueue
       == e.channels[id].remote.window + e.channels[id].adjustQueue + amount
    && f.packets == e.packets && f.inbox == e.inbox
    && (forall m :: m in f.outbox && CarriesData(m) ==> m in e.outbox)
  }

  lemma UnsentKeepsCredit(e: Endpoint, f: Endpoint, id: U32)
    requires id in e.channels && f.channels.Keys == e.channels.Keys && f.outbox == e.outbox && f.inbox == e.inbox
    requires forall x: U32 :: x in e.channels && x != id ==> f.channels[x] == e.channels[x]
    requires SameSettings(e.channels[id], f.channels[id])
    requires f.channels[id].local.window == e.channels[id].local.window
    requires f.channels[id].remote.window == e.channels[id].remote.window
    ensures KeepsCredit(e, f)
  {
  }

  /** An adjust that cannot overflow moves exactly `amount` into the window or the queue. */
  lemma WindowAdjustExact(e: Endpoint, id: U32, amount: U32, force: bool)
    requires id in e.channels && DistinctPeers(e)
    requires e.channels[id].remote.window + e.channels[id].adjustQueue + amount < WORD
    ensures Granted(e, WindowAdjust(e, id, amount, force), id, amount)
  {
    var c := e.channels[id];
    var f := WindowAdjust(e, id, amount, force);
    var total := Add32(amount, c.adjustQueue);
    var m := Adjust(c.remote.id, total);
    if f.outbox == e.outbox + [m] {
      EmitCredit(e, f, id, m, total);
    } else {
      UnsentKeepsCredit(e, f, id);
    }
  }

  /** With a working socket less than the threshold stays queued. */
  lemma AdjustQueueBelowThreshold(e: Endpoint, id: U32, amount: U32, force: bool)
    requires id in e.channels && (e.faults == [] || !e.faults[0])
    ensures WindowAdjust(e, id, amount, force).channels[id].adjustQueue < 1024
  {
  }

  lemma GrantedTwice(e: Endpoint, f: Endpoint, g: Endpoint, id: U32, m: nat, n: nat)
    requires id in e.channels && Granted(e, f, id, m) && Granted(f, g, id, n)
    ensures Granted(e, g, id, m + n)
  {
  }

  /** Forcing out the queued credit, or asking with nothing to give. */
  lemma ForceAdjustConserves(e: Endpoint, id: U32, force: bool)
    requires Sound(e) && id in e.channels
    ensures var f := WindowAdjust(e, id, 0, force);
            Sound(f) && KeepsCredit(e, f) && KeepsHeld(e, f)
  {
    assert ChannelSound(e, id);
    WindowAdjustExact(e, id, 0, force);
    StaysSound(e, WindowAdjust(e, id, 0, force));
  }

  // ---------- receiving ----------

  /** The truncating branches of packet_add are dead under `Sound`, and the discarding one can only
      meet a message without data. */
  lemma NothingCut(e: Endpoint)
    requires Sound(e) && e.inbox != [] && CarriesData(e.inbox[0])
    ensures var m := e.inbox[0];
            m.channel in e.channels ==>
              var c := e.channels[m.channel];
              && |m.bytes| <= c.remote.window
              && KeptSize(c, m) == |m.bytes| && Truncated(m, |m.bytes|) == m
              && ChargedWindow(c, m) == c.remote.window - |m.bytes|
              && (c.remote.window == 0 ==> m.bytes == [])
  {
    var m := e.inbox[0];
    if m.channel in e.channels {
      assert ChannelSound(e, m.channel);
      assert FitsReceiver(e.channels, m);
      assert DataIn(e.inbox, m.channel) == DataSize(m, m.channel) + DataIn(e.inbox[1..], m.channel);
      assert m.bytes[..|m.bytes|] == m.bytes;
    }
  }

  /** Peer credit that arrives never overflows the window. */
  lemma CreditFits(e: Endpoint)
    requires Sound(e) && e.inbox != [] && e.inbox[0].Adjust?
    ensures var m := e.inbox[0];
            m.channel in e.channels ==>
              e.channels[m.channel].local.window + m.amount < WORD
  {
    var m := e.inbox[0];
    if m.channel in e.channels {
      assert ChannelSound(e, m.channel);
      assert CreditIn(e.inbox, m.channel) == CreditSize(m, m.channel) + CreditIn(e.inbox[1..], m.channel);
    }
  }

  /** How taking the first message out of the socket moves the credits of one channel. */
  lemma Taken(e: Endpoint, f: Endpoint, x: U32)
    requires x in e.channels && x in f.channels && e.inbox != []
    requires f.inbox == e.inbox[1..] && f.outbox == e.outbox
    requires f.channels[x].remote.id == e.channels[x].remote.id
    ensures SendCredit(f, x) - f.channels[x].local.window
         == SendCredit(e, x) - e.channels[x].local.window - CreditSize(e.inbox[0], x)
    ensures RecvCredit(f, x) - f.channels[x].remote.window
         == RecvCredit(e, x) - e.channels[x].remote.window + DataSize(e.inbox[0], x)
  {
  }

  lemma DeliverData(e: Endpoint)
    requires Sound(e) && e.inbox != [] && CarriesData(e.inbox[0])
    ensures var f := Deliver(e); KeepsCredit(e, f) && KeepsHeld(e, f) && f.outbox == e.outbox
  {
    var m, f := e.inbox[0], Deliver(e);
    NothingCut(e);
    if m.channel in e.channels {
      assert ChannelSound(e, m.channel);
    }
    forall x: U32 | x in e.channels
      ensures SendCredit(f, x) == SendCredit(e, x) && RecvCredit(f, x) == RecvCredit(e, x) && Held(f, x) == Held(e, x)
    {
      Taken(e, f, x);
      QueuedAppend(e.packets, RawPacket(m, 0), x);
    }
  }

  lemma DeliverRest(e: Endpoint)
    requires Sound(e) && e.inbox != [] && !CarriesData(e.inbox[0])
    ensures var f := Deliver(e); KeepsCredit(e, f) && KeepsHeld(e, f) && f.outbox == e.outbox
  {
    var m, f := e.inbox[0], Deliver(e);
    if m.Adjust? { CreditFits(e); }
    forall x: U32 | x in e.channels
      ensures SendCredit(f, x) == SendCredit(e, x) && RecvCredit(f, x) == RecvCredit(e, x) && Held(f, x) == Held(e, x)
    {
      Taken(e, f, x);
      QueuedAppend(e.packets, RawPacket(m, 0), x);
    }
  }

  lemma {:induction false} DeliverConserves(e: Endpoint)
    requires Sound(e) && e.inbox != []
    ensures var f := Deliver(e); Sound(f) && KeepsCredit(e, f) && KeepsHeld(e, f)
  {
    if CarriesData(e.inbox[0]) { DeliverData(e); } else { DeliverRest(e); }
    StaysSound(e, Deliver(e));
  }

  // ---------- reading and flushing ----------

  /** A scan refunds exactly what it takes off the books, unless it merges extended data. */
  lemma {:induction false} ReadListBalances(ps: seq<Packet>, id: U32, stream: U32, mode: Mode, want: nat)
    requires stream != 0 || mode != Merge
    ensures var scan := ReadList(ps, id, stream, mode, want);
            && Queued(scan.packets, id) + SumOf(scan.refunds) == Queued(ps, id)
            && forall x: U32 :: x != id ==> Queued(scan.packets, x) == Queued(ps, x)
  {
    if ps == [] || want == 0 {
    } else {
      var p := ps[0];
      if !Readable(p, id, stream, mode) {
        ReadListBalances(ps[1..], id, stream, mode, want);
      } else if want >= |p.data.bytes| - p.taken {
        var left := |p.data.bytes| - p.taken;
        ReadListBalances(ps[1..], id, stream, mode, want - left);
        var scan, rest := ReadList(ps, id, stream, mode, want), ReadList(ps[1..], id, stream, mode, want - left);
        assert scan.refunds[1..] == rest.refunds;
      } else {
        var q: Packet := p.(taken := p.taken + want);
        assert ([q] + ps[1..])[1..] == ps[1..];
      }
    }
  }

  /** Refunding what the books no longer charge. */
  lemma {:induction false} AdjustAllExact(e: Endpoint, id: U32, amounts: seq<U32>)
    requires id in e.channels && DistinctPeers(e)
    requires e.channels[id].remote.window + e.channels[id].adjustQueue + SumOf(amounts) < WORD
    ensures Granted(e, AdjustAll(e, id, amounts), id, SumOf(amounts))
    decreases |amounts|
  {
    if amounts != [] {
      var s := WindowAdjust(e, id, amounts[0], false);
      WindowAdjustExact(e, id, amounts[0], false);
      AdjustAllExact(s, id, amounts[1..]);
      GrantedTwice(e, s, AdjustAll(s, id, amounts[1..]), id, amounts[0], SumOf(amounts[1..]));
    }
  }

  /** Packets leave the brigade and exactly what they were charged for is granted again. */
  lemma RefundedConserves(e: Endpoint, ps: seq<Packet>, f: Endpoint, id: U32, amount: nat)
    requires Sound(e) && id in e.channels
    requires Queued(ps, id) + amount == Queued(e.packets, id)
    requires forall x: U32 :: x != id ==> Queued(ps, x) == Queued(e.packets, x)
    requires Granted(e.(packets := ps), f, id, amount)
    ensures Sound(f) && KeepsCredit(e, f) && KeepsHeld(e, f)
  {
    StaysSound(e, f);
  }

  lemma ReadScanConserves(e: Endpoint, id: U32, stream: U32, want: nat)
    requires Sound(e) && id in e.channels
    ensures var f := ReadScan(e, id, stream, want).0;
            Sound(f) && KeepsCredit(e, f) && KeepsHeld(e, f)
  {
    assert ChannelSound(e, id);
    var scan := ReadList(e.packets, id, stream, Normal, want);
    ReadListBalances(e.packets, id, stream, Normal, want);
    AdjustAllExact(e.(packets := scan.packets), id, scan.refunds);
    RefundedConserves(e, scan.packets, ReadScan(e, id, stream, want).0, id, SumOf(scan.refunds));
  }

  /** A flush that leaves stream 0 alone. */
  predicate SparesData(what: FlushWhat) {
    what.FlushExtended? || (what.FlushStream? && what.stream != 0)
  }

  lemma {:induction false} FlushListQueued(ps: seq<Packet>, id: U32, what: FlushWhat)
    ensures forall x: U32 :: x != id ==> Queued(FlushList(ps, id, what), x) == Queued(ps, x)
  {
    if ps != [] {
      FlushListQueued(ps[1..], id, what);
      var kept := FlushList(ps, id, what);
      if !Flushable(ps[0], id, what) {
        assert kept[1..] == FlushList(ps[1..], id, what);
      } else {
        assert kept == FlushList(ps[1..], id, what);
      }
    }
  }

  lemma {:induction false} FlushListAppend(ps: seq<Packet>, p: Packet, id: U32, what: FlushWhat)
    ensures FlushList(ps + [p], id, what)
         == FlushList(ps, id, what) + if Flushable(p, id, what) then [] else [p]
  {
    if ps != [] {
      assert (ps + [p])[1..] == ps[1..] + [p];
      FlushListAppend(ps[1..], p, id, what);
    }
  }

  /** Extended packets are refunded in full. */
  lemma {:induction false} FlushBalances(ps: seq<Packet>, id: U32, what: FlushWhat)
    requires SparesData(what) && Queued(ps, id) < WORD
    ensures Queued(FlushList(ps, id, what), id) + FlushRefund(ps, id, what) == Queued(ps, id)
    decreases |ps|
  {
    if ps != [] {
      var front, p := ps[..|ps| - 1], ps[|ps| - 1];
      assert ps == front + [p];
      QueuedAppend(front, p, id);
      FlushBalances(front, id, what);
      FlushListAppend(front, p, id, what);
      if !Flushable(p, id, what) {
        QueuedAppend(FlushList(front, id, what), p, id);
      } else {
        assert FlushList(ps, id, what) == FlushList(front, id, what);
      }
    }
  }

  lemma FlushConserves(e: Endpoint, id: U32, what: FlushWhat)
    requires Sound(e) && id in e.channels && SparesData(what)
    ensures var f := Flush(e, id, what);
            Sound(f) && KeepsCredit(e, f) && KeepsHeld(e, f)
  {
    assert ChannelSound(e, id);
    FlushBalances(e.packets, id, what);
    FlushListQueued(e.packets, id, what);
    var ps, refund := FlushList(e.packets, id, what), FlushRefund(e.packets, id, what);
    var s := e.(packets := ps);
    if refund != 0 {
      WindowAdjustExact(s, id, refund, false);
      RefundedConserves(e, ps, WindowAdjust(s, id, refund, false), id, refund);
    } else {
      UnsentKeepsCredit(e, s, id);
      RefundedConserves(e, ps, s, id, 0);
    }
  }
}
