/** Runs that go wrong: with a smaller window than the threshold a writer can be left waiting for good, and data
    behind an end of file is missed by a reader that asks for it. */
module Stall {
  import opened Bytes
  import opened Endpoints
  import opened FlowControl

  function Side(localWindow: U32, remoteWindow: U32): Endpoint {
    Endpoint(map[0 := Channel(Half(0, localWindow, localWindow, WORD - 1, false, false),
                              Half(0, remoteWindow, remoteWindow, WORD - 1, false, false), Normal, 0, false)],
             [], [], [], [])
  }

  function NoLog(): Log {
    Log((k: Key) => [], (k: Key) => [], (k: Key) => [], (k: Key) => [], (k: Key) => false, {}, {})
  }

  /** One channel on which the right side offers a window of n bytes. */
  function SmallWindow(n: U32): World {
    World(Side(n, 0), Side(0, n), NoLog(), NoLog())
  }

  function FillAndRead(buf: Chunk): seq<Action> {
    [AtLeft(Write(0, 0, buf)), LinkRight, AtRight(Arrive), AtRight(Read(0, 0, |buf|))]
  }

  /** The only packet of the brigade is read whole. */
  lemma ReadsWhole(p: Packet, n: nat)
    requires OnStream(p.data, 0, 0) && p.taken == 0 && |p.data.bytes| == n > 0
    ensures ReadList([p], 0, 0, Normal, n) == Scan([], p.data.bytes, [n])
  {
    var tail: seq<Packet> := [p][1..];
    assert tail == [];
    assert ReadList(tail, 0, 0, Normal, 0) == Scan([], [], []);
    assert p.data.bytes[0..] == p.data.bytes;
    assert [p][0] == p;
  }

  lemma OneRefund(e: Endpoint, n: U32)
    requires 0 in e.channels
    ensures AdjustAll(e, 0, [n]) == WindowAdjust(e, 0, n, false)
  {
    assert [n][1..] == [];
    assert AdjustAll(WindowAdjust(e, 0, n, false), 0, []) == WindowAdjust(e, 0, n, false);
  }

  /** What the right side looks like while the message moves through it. */
  function Waiting(n: U32, buf: Chunk): Endpoint {
    Side(0, n).(inbox := [Data(0, buf)])
  }

  lemma Arrives(n: U32, buf: Chunk)
    requires 0 < n == |buf|
    ensures var c := Side(0, n).channels[0];
            Deliver(Waiting(n, buf)) == Side(0, n).(packets := [RawPacket(Data(0, buf), 0)],
              channels := map[0 := c.(remote := c.remote.(window := 0))])
  {
    assert buf[..n] == buf;
    assert Waiting(n, buf).inbox[1..] == [];
  }

  /** The right side hands the bytes out and keeps all the credit to itself. */
  lemma CreditStaysQueued(n: U32, buf: Chunk)
    requires 0 < n == |buf| < 1024
    ensures var f := ReadScan(Deliver(Waiting(n, buf)), 0, 0, n).0;
            && 0 in f.channels && f.channels[0].adjustQueue == n
            && f.packets == [] && f.inbox == [] && f.outbox == []
  {
    Arrives(n, buf);
    ReadsWhole(RawPacket(Data(0, buf), 0), n);
    OneRefund(Deliver(Waiting(n, buf)).(packets := []), n);
  }

  lemma Sent(n: U32, buf: Chunk)
    requires 0 < n == |buf|
    ensures var w := Next(SmallWindow(n), AtLeft(Write(0, 0, buf)));
            && w.left == Side(n, 0).(outbox := [Data(0, buf)],
                channels := map[0 := Side(n, 0).channels[0].(local := Half(0, n, 0, WORD - 1, false, false))])
            && w.right == Side(0, n)
  {
    assert buf[..n] == buf;
  }

  lemma FourSteps(w: World, a: Action, b: Action, c: Action, d: Action)
    ensures Run(w, [a, b, c, d]) == Next(Next(Next(Next(w, a), b), c), d)
  {
    assert [a, b, c, d][1..] == [b, c, d] && [b, c, d][1..] == [c, d] && [c, d][1..] == [d] && [d][1..] == [];
    var w1, w2, w3 := Next(w, a), Next(Next(w, a), b), Next(Next(Next(w, a), b), c);
    assert Run(Next(w3, d), []) == Next(w3, d);
    assert Run(w3, [d]) == Next(w3, d);
    assert Run(w2, [c, d]) == Run(w3, [d]);
    assert Run(w1, [b, c, d]) == Run(w2, [c, d]);
  }

  lemma SmallWindowOpens(n: U32)
    ensures Opened(SmallWindow(n)) && Prompt(SmallWindow(n).right)
  {
    assert Idle(Side(n, 0)) && Idle(Side(0, n));
    assert Paired(Side(n, 0), Side(0, n)) && Paired(Side(0, n), Side(n, 0));
  }

  lemma Crosses(n: U32, buf: Chunk, w: World)
    requires w.left.outbox == [Data(0, buf)] && w.right == Side(0, n)
    ensures var v := Next(w, LinkRight);
            v.right == Waiting(n, buf) && v.left == w.left.(outbox := [])
  {
    assert [] + [Data(0, buf)] == [Data(0, buf)];
    assert w.left.outbox[1..] == [];
  }

  lemma TakesIn(w: World, n: U32, buf: Chunk)
    requires w.right == Waiting(n, buf) && 0 < n == |buf| < 1024
    ensures var v := Next(Next(w, AtRight(Arrive)), AtRight(Read(0, 0, n)));
            v.right == ReadScan(Deliver(w.right), 0, 0, n).0 && v.left == w.left
  {
    assert Next(w, AtRight(Arrive)).right == Deliver(w.right);
  }

  /** For every initial window below the threshold there is a run, with no failed send, after which
      nothing is under way, the reader has read everything, and the writer has no window. */
  lemma SmallWindowStalls(n: U32, buf: Chunk)
    requires 0 < n == |buf| < 1024
    ensures var v := Run(SmallWindow(n), FillAndRead(buf));
            && Opened(SmallWindow(n)) && Prompt(SmallWindow(n).right)
            && 0 in v.left.channels && Quiet(v, 0)
            && v.left.channels[0].local.window == 0
  {
    SmallWindowOpens(n);
    EndsStalled(n, buf);
  }

  /** Where the run ends. */
  lemma EndsStalled(n: U32, buf: Chunk)
    requires 0 < n == |buf| < 1024
    ensures var v := Run(SmallWindow(n), FillAndRead(buf));
            && 0 in v.left.channels && Quiet(v, 0) && v.left.channels[0].local.window == 0
  {
    var w := SmallWindow(n);
    FourSteps(w, AtLeft(Write(0, 0, buf)), LinkRight, AtRight(Arrive), AtRight(Read(0, 0, n)));
    Sent(n, buf);
    Crosses(n, buf, Next(w, AtLeft(Write(0, 0, buf))));
    TakesIn(Next(Next(w, AtLeft(Write(0, 0, buf))), LinkRight), n, buf);
    CreditStaysQueued(n, buf);
  }

  // ---------- data behind an end of file ----------

  function LateData(buf: Chunk): seq<Action> {
    [AtLeft(End(0)), AtLeft(Write(0, 0, buf)), LinkRight, AtRight(Arrive)]
  }

  /** The left side after it has sent its end of file, and data behind it. */
  lemma {:induction false} EndsThenWrites(n: U32, buf: Chunk)
    requires 0 < n == |buf|
    ensures var w := Next(Next(SmallWindow(n), AtLeft(End(0))), AtLeft(Write(0, 0, buf)));
            && w.left.outbox == [Eof(0), Data(0, buf)] && w.right == Side(0, n)
            && 0 in w.left.channels && w.left.channels[0].remote.id == 0
            && w.toRight.accepted((0, 0)) == buf && w.toRight.consumed((0, 0)) == []
  {
    assert buf[..n] == buf;
    var w := Next(SmallWindow(n), AtLeft(End(0)));
    assert w.left.outbox == [Eof(0)] && [Eof(0)] + [Data(0, buf)] == [Eof(0), Data(0, buf)];
  }

  lemma {:induction false} EofArrives(n: U32, buf: Chunk, w: World)
    requires w.left.outbox == [Eof(0), Data(0, buf)] && w.right == Side(0, n)
    ensures var v := Next(Next(w, LinkRight), AtRight(Arrive));
            && 0 in v.right.channels && ChannelEof(v.right, 0) && v.left == w.left.(outbox := [Data(0, buf)])
            && v.toRight.accepted == w.toRight.accepted && v.toRight.consumed == w.toRight.consumed
  {
    var u := Next(w, LinkRight);
    assert w.left.outbox[1..] == [Data(0, buf)] && u.right == Side(0, n).(inbox := [Eof(0)]);
    assert u.right.inbox[1..] == [];
  }

  /** The library lets a writer go on after its end of file, and then the reader can be told of end of file
      while bytes are under way. */
  lemma {:induction false} LateDataUnderEof(n: U32, buf: Chunk)
    requires 0 < n == |buf|
    ensures var v := Run(SmallWindow(n), LateData(buf));
            && Reachable(v) && 0 in v.left.channels && v.left.channels[0].remote.id == 0
            && 0 in v.right.channels && ChannelEof(v.right, 0)
            && v.toRight.accepted((0, 0)) == buf && v.toRight.consumed((0, 0)) == []
  {
    SmallWindowOpens(n);
    var w := SmallWindow(n);
    FourSteps(w, AtLeft(End(0)), AtLeft(Write(0, 0, buf)), LinkRight, AtRight(Arrive));
    EndsThenWrites(n, buf);
    EofArrives(n, buf, Next(Next(w, AtLeft(End(0))), AtLeft(Write(0, 0, buf))));
  }
}
