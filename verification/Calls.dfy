/** Whole calls of the library: what they return, and that each is a run of FlowControl that adds to the
    histories just what the call accepts or returns, so that everything proved of runs holds of calls. */
module Calls {
  import opened Bytes
  import opened Endpoints
  import opened Accounting
  import opened Conservation
  import opened Streams
  import opened FlowControl

  // ---------- runs of the world ----------

  lemma {:induction false} RunCons(w: World, a: Action, acts: seq<Action>)
    ensures Run(w, [a] + acts) == Run(Next(w, a), acts)
  {
    assert ([a] + acts)[1..] == acts;
  }

  lemma {:induction false} RunAppend(w: World, first: seq<Action>, second: seq<Action>)
    ensures Run(w, first + second) == Run(Run(w, first), second)
    decreases |first|
  {
    if first == [] {
      assert first + second == second;
    } else {
      assert (first + second)[1..] == first[1..] + second;
      RunAppend(Next(w, first[0]), first[1..], second);
    }
  }

  /** A run goes on from a reachable state to reachable states. */
  lemma {:induction false} StaysReachable(w: World, acts: seq<Action>)
    requires Reachable(w)
    ensures Reachable(Run(w, acts))
  {
    var start: World, before: seq<Action> :| Opened(start) && Run(start, before) == w;
    RunAppend(start, before, acts);
  }

  // ---------- writing ----------

  lemma DeliverSendsNoBytes(e: Endpoint, peer: U32, stream: U32)
    requires e.inbox != []
    ensures BytesIn(Deliver(e).outbox, peer, stream) == BytesIn(e.outbox, peer, stream)
    ensures forall id: U32 :: id in e.channels ==> Deliver(e).channels[id].remote.id == e.channels[id].remote.id
  {
    var m, s := e.inbox[0], e.(inbox := e.inbox[1..]);
    if CarriesData(m) && m.channel in s.channels && s.channels[m.channel].mode == Ignore && m.Extended? {
      WindowAdjustKeepsBytes(s, m.channel, |m.bytes|, false);
    }
  }

  /** Between e and f the first k bytes of the buffer went out on the stream, and nothing else did. */
  predicate Sent(e: Endpoint, f: Endpoint, peer: U32, stream: U32, buf: seq<Byte>, k: nat) {
    k <= |buf| && BytesIn(f.outbox, peer, stream) == BytesIn(e.outbox, peer, stream) + buf[..k]
  }

  lemma SentTwice(e: Endpoint, s: Endpoint, f: Endpoint, peer: U32, stream: U32, buf: seq<Byte>, n: nat, k: nat)
    requires Sent(e, s, peer, stream, buf, n) && Sent(s, f, peer, stream, buf[n..], k)
    ensures Sent(e, f, peer, stream, buf, n + k)
  {
    assert buf[..n] + buf[n..][..k] == buf[..n + k];
    Regroup(BytesIn(e.outbox, peer, stream), buf[..n], buf[n..][..k]);
  }

  lemma SendChunkSends(e: Endpoint, id: U32, stream: U32, buf: Chunk)
    requires id in e.channels
    ensures var (s, sent) := SendChunk(e, id, stream, buf);
            && Sent(e, s, e.channels[id].remote.id, stream, buf, if sent then ChunkSize(e.channels[id], |buf|) else 0)
            && s.channels[id].remote.id == e.channels[id].remote.id
            && s.channels[id].blocking == e.channels[id].blocking
            && s.channels[id].local.packet == e.channels[id].local.packet
  {
    SendChunkAppends(e, id, stream, buf);
  }

  /** What one turn of the loop with window leaves to do. */
  lemma {:induction false} WriteLoopTurn(e: Endpoint, id: U32, stream: U32, buf: Chunk, wrote: nat)
    requires id in e.channels && buf != [] && e.channels[id].local.window > 0
    requires e.channels[id].blocking ==> e.channels[id].local.packet > 0
    ensures var (s, sent) := SendChunk(e, id, stream, buf);
            var n := ChunkSize(e.channels[id], |buf|);
            n <= |buf| && WriteLoop(e, id, stream, buf, wrote)
              == if !sent then (s, -1)
                 else if !e.channels[id].blocking then (s, wrote + n)
                 else WriteLoop(s, id, stream, buf[n..], wrote + n)
  {
  }

  /** The loop puts the first k bytes of the buffer on the wire, in order; unless it fails it reports that many,
      and on a blocking channel that is all of them. */
  ghost predicate CountedAs(e: Endpoint, goal: (Endpoint, int), id: U32, stream: U32, buf: Chunk, wrote: nat, k: nat)
    requires id in e.channels
  {
    && Sent(e, goal.0, e.channels[id].remote.id, stream, buf, k)
    && (goal.1 == -1 || (goal.1 == wrote + k && (e.channels[id].blocking ==> k == |buf|)))
  }

  ghost predicate Counted(e: Endpoint, id: U32, stream: U32, buf: Chunk, wrote: nat, k: nat)
    requires id in e.channels
    requires e.channels[id].blocking ==> e.channels[id].local.packet > 0
  {
    CountedAs(e, WriteLoop(e, id, stream, buf, wrote), id, stream, buf, wrote, k)
  }

  lemma {:induction false} PieceGoesOut(e: Endpoint, s: Endpoint, id: U32, stream: U32, buf: Chunk, wrote: nat, n: nat)
    requires id in e.channels && buf != [] && e.channels[id].local.window > 0
    requires e.channels[id].blocking && e.channels[id].local.packet > 0 && n == ChunkSize(e.channels[id], |buf|)
    requires (s, true) == SendChunk(e, id, stream, buf)
    ensures n <= |buf| && id in s.channels && Sent(e, s, e.channels[id].remote.id, stream, buf, n)
    ensures var c, d := e.channels[id], s.channels[id];
            d.remote.id == c.remote.id && d.blocking && d.local.packet == c.local.packet
    ensures WriteLoop(e, id, stream, buf, wrote) == WriteLoop(s, id, stream, buf[n..], wrote + n)
  {
    SendChunkSends(e, id, stream, buf);
    WriteLoopTurn(e, id, stream, buf, wrote);
  }

  lemma {:induction false} CountedBoth(e: Endpoint, s: Endpoint, goal: (Endpoint, int), id: U32, stream: U32,
                                       buf: Chunk, wrote: nat, n: nat, more: nat)
    requires n <= |buf| && id in e.channels && id in s.channels && e.channels[id].blocking && s.channels[id].blocking
    requires s.channels[id].remote.id == e.channels[id].remote.id
    requires Sent(e, s, e.channels[id].remote.id, stream, buf, n)
    requires CountedAs(s, goal, id, stream, buf[n..], wrote + n, more)
    ensures CountedAs(e, goal, id, stream, buf, wrote, n + more)
  {
    SentTwice(e, s, goal.0, e.channels[id].remote.id, stream, buf, n, more);
  }

  lemma {:induction false} CountedAfterPiece(e: Endpoint, s: Endpoint, id: U32, stream: U32, buf: Chunk, wrote: nat,
                                             n: nat, more: nat)
    requires id in e.channels && buf != [] && e.channels[id].local.window > 0
    requires e.channels[id].blocking && e.channels[id].local.packet > 0 && n == ChunkSize(e.channels[id], |buf|)
    requires (s, true) == SendChunk(e, id, stream, buf) && s.channels[id].local.packet > 0
    requires Counted(s, id, stream, buf[n..], wrote + n, more)
    ensures Counted(e, id, stream, buf, wrote, n + more)
  {
    PieceGoesOut(e, s, id, stream, buf, wrote, n);
    CountedBoth(e, s, WriteLoop(s, id, stream, buf[n..], wrote + n), id, stream, buf, wrote, n, more);
  }

  lemma {:induction false} CountedAfterArrival(e: Endpoint, id: U32, stream: U32, buf: Chunk, wrote: nat, k: nat)
    requires id in e.channels && buf != [] && e.channels[id].local.window == 0 && e.inbox != []
    requires e.channels[id].blocking ==> e.channels[id].local.packet > 0
    requires Deliver(e).channels[id].blocking ==> Deliver(e).channels[id].local.packet > 0
    requires Counted(Deliver(e), id, stream, buf, wrote, k)
    ensures Counted(e, id, stream, buf, wrote, k)
  {
    KeepsSettings(e, id);
    DeliverSendsNoBytes(e, e.channels[id].remote.id, stream);
  }

  lemma {:induction false} CountedPiece(e: Endpoint, id: U32, stream: U32, buf: Chunk, wrote: nat)
    requires id in e.channels && buf != [] && e.channels[id].local.window > 0
    requires e.channels[id].blocking ==> e.channels[id].local.packet > 0
    ensures var sent := SendChunk(e, id, stream, buf).1;
            !sent || !e.channels[id].blocking ==>
              Counted(e, id, stream, buf, wrote, if sent then ChunkSize(e.channels[id], |buf|) else 0)
  {
    SendChunkSends(e, id, stream, buf);
    WriteLoopTurn(e, id, stream, buf, wrote);
  }

  lemma {:induction false} CountedNothing(e: Endpoint, id: U32, stream: U32, buf: Chunk, wrote: nat)
    requires id in e.channels && (buf == [] || (e.channels[id].local.window == 0 && e.inbox == []))
    requires e.channels[id].blocking ==> e.channels[id].local.packet > 0
    ensures Counted(e, id, stream, buf, wrote, 0)
  {
  }

  lemma {:induction false} WriteLoopCounts(e: Endpoint, id: U32, stream: U32, buf: Chunk, wrote: nat) returns (k: nat)
    requires id in e.channels
    requires e.channels[id].blocking ==> e.channels[id].local.packet > 0
    ensures Counted(e, id, stream, buf, wrote, k)
    decreases |buf|, |e.inbox|, 1
  {
    var c := e.channels[id];
    if buf == [] || (c.local.window == 0 && e.inbox == []) {
      CountedNothing(e, id, stream, buf, wrote);
      k := 0;
    } else if c.local.window == 0 {
      KeepsSettings(e, id);
      k := WriteLoopCounts(Deliver(e), id, stream, buf, wrote);
      CountedAfterArrival(e, id, stream, buf, wrote, k);
    } else if c.blocking && SendChunk(e, id, stream, buf).1 {
      k := PieceCounts(e, SendChunk(e, id, stream, buf).0, id, stream, buf, wrote);
    } else {
      CountedPiece(e, id, stream, buf, wrote);
      k := if SendChunk(e, id, stream, buf).1 then ChunkSize(c, |buf|) else 0;
    }
  }

  lemma {:induction false} PieceCounts(e: Endpoint, s: Endpoint, id: U32, stream: U32, buf: Chunk, wrote: nat)
    returns (k: nat)
    requires id in e.channels && buf != [] && e.channels[id].local.window > 0
    requires e.channels[id].blocking && e.channels[id].local.packet > 0
    requires (s, true) == SendChunk(e, id, stream, buf)
    ensures Counted(e, id, stream, buf, wrote, k)
    decreases |buf|, |e.inbox|, 0
  {
    var n := ChunkSize(e.channels[id], |buf|);
    PieceGoesOut(e, s, id, stream, buf, wrote, n);
    var more := WriteLoopCounts(s, id, stream, buf[n..], wrote + n);
    CountedAfterPiece(e, s, id, stream, buf, wrote, n, more);
    k := n + more;
  }

  /** What `libssh2_channel_write_ex` promises its caller. */
  lemma {:induction false} WriteExCounts(e: Endpoint, id: U32, stream: U32, buf: Chunk) returns (k: nat)
    requires id in e.channels
    requires e.channels[id].blocking ==> e.channels[id].local.packet > 0
    ensures var (f, r) := WriteEx(e, id, stream, buf);
            && Sent(e, f, e.channels[id].remote.id, stream, buf, k)
            && (r == -1 || (r == k && (e.channels[id].blocking ==> k == |buf|)))
  {
    var c := e.channels[id];
    k := 0;
    if !c.local.close && (c.blocking || c.local.window > 0) {
      k := WriteLoopCounts(e, id, stream, buf, 0);
    }
  }

  /** The left side of w has become f, and has put these bytes of the stream on the wire; of the histories only
      those of what it sends have grown. */
  ghost predicate Wrote(w: World, v: World, f: Endpoint, k: Key, bytes: seq<Byte>) {
    && v.left == f && v.right == w.right && v.toLeft == w.toLeft
    && v.toRight.moved == w.toRight.moved && v.toRight.consumed == w.toRight.consumed
    && v.toRight.returned == w.toRight.returned
    && forall j: Key :: v.toRight.accepted(j) == Extend(w.toRight.accepted, k, bytes)(j)
  }

  lemma {:induction false} WroteNothing(w: World, k: Key)
    ensures Wrote(w, w, w.left, k, [])
  {
  }

  lemma {:induction false} WroteTwice(w: World, u: World, v: World, f: Endpoint, k: Key, first: seq<Byte>,
                                      second: seq<Byte>)
    requires Wrote(w, u, u.left, k, first) && Wrote(u, v, f, k, second)
    ensures Wrote(w, v, f, k, first + second)
  {
    Regroup(w.toRight.accepted(k), first, second);
  }

  lemma {:induction false} WritesPiece(w: World, id: U32, stream: U32, buf: Chunk)
    requires Enabled(w.left, Write(id, stream, buf))
    ensures var (s, sent) := SendChunk(w.left, id, stream, buf);
            var c := w.left.channels[id];
            Wrote(w, Next(w, AtLeft(Write(id, stream, buf))), s, (c.remote.id, stream),
                  if sent then buf[..ChunkSize(c, |buf|)] else [])
  {
  }

  /** These actions are the write loop in the world: they put the first k bytes of the buffer on the wire and
      into the history of the stream, and unless the loop fails it reports that many. */
  ghost predicate Looped(w: World, acts: seq<Action>, id: U32, stream: U32, buf: Chunk, wrote: nat, k: nat)
    requires id in w.left.channels
    requires w.left.channels[id].blocking ==> w.left.channels[id].local.packet > 0
  {
    var (f, r) := WriteLoop(w.left, id, stream, buf, wrote);
    && k <= |buf|
    && Wrote(w, Run(w, acts), f, (w.left.channels[id].remote.id, stream), buf[..k])
    && (r == -1 || (r == wrote + k && (w.left.channels[id].blocking ==> k == |buf|)))
  }

  lemma {:induction false} LoopedNot(w: World, id: U32, stream: U32, buf: Chunk, wrote: nat)
    requires id in w.left.channels
    requires w.left.channels[id].blocking ==> w.left.channels[id].local.packet > 0
    requires buf == [] || (w.left.channels[id].local.window == 0 && w.left.inbox == [])
    ensures Looped(w, [], id, stream, buf, wrote, 0)
  {
    WroteNothing(w, (w.left.channels[id].remote.id, stream));
    assert buf[..0] == [] && Run(w, []) == w;
  }

  lemma {:induction false} ArrivalKeeps(w: World, id: U32, stream: U32)
    requires id in w.left.channels && w.left.inbox != []
    ensures var u, c := Next(w, AtLeft(Arrive)), w.left.channels[id];
            && u.left == Deliver(w.left) && Wrote(w, u, u.left, (c.remote.id, stream), [])
            && id in u.left.channels && u.left.channels[id].remote.id == c.remote.id
            && u.left.channels[id].blocking == c.blocking && u.left.channels[id].local.packet == c.local.packet
            && u.left.channels[id].local.close == c.local.close
  {
    KeepsSettings(w.left, id);
    DeliverSendsNoBytes(w.left, w.left.channels[id].remote.id, stream);
  }

  lemma {:induction false} LoopedAfterArrival(w: World, u: World, rest: seq<Action>, id: U32, stream: U32, buf: Chunk,
                                              wrote: nat, k: nat)
    requires id in w.left.channels && w.left.inbox != [] && u == Next(w, AtLeft(Arrive)) && buf != []
    requires w.left.channels[id].blocking ==> w.left.channels[id].local.packet > 0
    requires w.left.channels[id].local.window == 0 && id in u.left.channels
    requires u.left.channels[id].blocking ==> u.left.channels[id].local.packet > 0
    requires Looped(u, rest, id, stream, buf, wrote, k)
    ensures Looped(w, [AtLeft(Arrive)] + rest, id, stream, buf, wrote, k)
  {
    ArrivalKeeps(w, id, stream);
    RunCons(w, AtLeft(Arrive), rest);
    var key := (w.left.channels[id].remote.id, stream);
    var f := WriteLoop(u.left, id, stream, buf, wrote).0;
    WroteTwice(w, u, Run(u, rest), f, key, [], buf[..k]);
    assert [] + buf[..k] == buf[..k];
  }

  lemma {:induction false} LoopedPiece(w: World, id: U32, stream: U32, buf: Chunk, wrote: nat)
    requires Enabled(w.left, Write(id, stream, buf))
    requires w.left.channels[id].blocking ==> w.left.channels[id].local.packet > 0
    ensures var (_, sent) := SendChunk(w.left, id, stream, buf);
            var c := w.left.channels[id];
            !sent || !c.blocking ==>
              Looped(w, [AtLeft(Write(id, stream, buf))], id, stream, buf, wrote,
                     if sent then ChunkSize(c, |buf|) else 0)
  {
    var act := AtLeft(Write(id, stream, buf));
    WritesPiece(w, id, stream, buf);
    WriteLoopTurn(w.left, id, stream, buf, wrote);
    RunCons(w, act, []);
    assert [act] + [] == [act] && buf[..0] == [];
  }

  lemma {:induction false} PieceKeeps(w: World, id: U32, stream: U32, buf: Chunk)
    requires Enabled(w.left, Write(id, stream, buf)) && SendChunk(w.left, id, stream, buf).1
    ensures var u, c := Next(w, AtLeft(Write(id, stream, buf))), w.left.channels[id];
            var n := ChunkSize(c, |buf|);
            && n <= |buf| && u.left == SendChunk(w.left, id, stream, buf).0
            && Wrote(w, u, u.left, (c.remote.id, stream), buf[..n])
            && id in u.left.channels && u.left.channels[id].remote.id == c.remote.id
            && u.left.channels[id].blocking == c.blocking && u.left.channels[id].local.packet == c.local.packet
            && u.left.channels[id].local.close == c.local.close
            && (c.local.packet > 0 ==> n > 0)
  {
    WritesPiece(w, id, stream, buf);
  }

  lemma {:induction false} Split(buf: seq<Byte>, n: nat, k: nat)
    requires n <= |buf| && k <= |buf[n..]|
    ensures n + k <= |buf| && buf[..n] + buf[n..][..k] == buf[..n + k]
  {
  }

  lemma {:induction false} LoopedAfterPiece(w: World, u: World, rest: seq<Action>, id: U32, stream: U32, buf: Chunk,
                                            wrote: nat, n: nat, more: nat)
    requires Enabled(w.left, Write(id, stream, buf)) && u == Next(w, AtLeft(Write(id, stream, buf)))
    requires w.left.channels[id].blocking && w.left.channels[id].local.packet > 0
    requires SendChunk(w.left, id, stream, buf).1 && n == ChunkSize(w.left.channels[id], |buf|) && id in u.left.channels
    requires u.left.channels[id].blocking ==> u.left.channels[id].local.packet > 0
    requires Looped(u, rest, id, stream, buf[n..], wrote + n, more)
    ensures Looped(w, [AtLeft(Write(id, stream, buf))] + rest, id, stream, buf, wrote, n + more)
  {
    PieceKeeps(w, id, stream, buf);
    WriteLoopTurn(w.left, id, stream, buf, wrote);
    RunCons(w, AtLeft(Write(id, stream, buf)), rest);
    var key := (w.left.channels[id].remote.id, stream);
    var f := WriteLoop(u.left, id, stream, buf[n..], wrote + n).0;
    WroteTwice(w, u, Run(u, rest), f, key, buf[..n], buf[n..][..more]);
    Split(buf, n, more);
  }

  lemma {:induction false} WriteLoopIsRun(w: World, id: U32, stream: U32, buf: Chunk, wrote: nat)
    returns (acts: seq<Action>, k: nat)
    requires id in w.left.channels && !w.left.channels[id].local.close
    requires w.left.channels[id].blocking ==> w.left.channels[id].local.packet > 0
    ensures Looped(w, acts, id, stream, buf, wrote, k)
    decreases |buf|, |w.left.inbox|, 1
  {
    if buf == [] || (w.left.channels[id].local.window == 0 && w.left.inbox == []) {
      LoopedNot(w, id, stream, buf, wrote);
      acts, k := [], 0;
    } else if w.left.channels[id].local.window == 0 {
      var u := Next(w, AtLeft(Arrive));
      ArrivalKeeps(w, id, stream);
      var rest;
      rest, k := WriteLoopIsRun(u, id, stream, buf, wrote);
      LoopedAfterArrival(w, u, rest, id, stream, buf, wrote, k);
      acts := [AtLeft(Arrive)] + rest;
    } else {
      acts, k := PieceIsRun(w, id, stream, buf, wrote);
    }
  }

  lemma {:induction false} PieceIsRun(w: World, id: U32, stream: U32, buf: Chunk, wrote: nat)
    returns (acts: seq<Action>, k: nat)
    requires Enabled(w.left, Write(id, stream, buf))
    requires w.left.channels[id].blocking ==> w.left.channels[id].local.packet > 0
    ensures Looped(w, acts, id, stream, buf, wrote, k)
    decreases |buf|, |w.left.inbox|, 0
  {
    var act, sent, n := AtLeft(Write(id, stream, buf)), SendChunk(w.left, id, stream, buf).1,
      ChunkSize(w.left.channels[id], |buf|);
    if sent && w.left.channels[id].blocking {
      var u := Next(w, act);
      PieceKeeps(w, id, stream, buf);
      var rest, more := WriteLoopIsRun(u, id, stream, buf[n..], wrote + n);
      LoopedAfterPiece(w, u, rest, id, stream, buf, wrote, n, more);
      acts, k := [act] + rest, n + more;
    } else {
      LoopedPiece(w, id, stream, buf, wrote);
      acts, k := [act], if sent then n else 0;
    }
  }

  /** A write call is a run: what the run adds to the history of the stream is the front part of the buffer that
      the call reports. */
  lemma {:induction false} WriteExIsRun(w: World, id: U32, stream: U32, buf: Chunk) returns (acts: seq<Action>, k: nat)
    requires id in w.left.channels
    requires w.left.channels[id].blocking ==> w.left.channels[id].local.packet > 0
    ensures k <= |buf|
    ensures var (f, r) := WriteEx(w.left, id, stream, buf);
            && Wrote(w, Run(w, acts), f, (w.left.channels[id].remote.id, stream), buf[..k])
            && (r == -1 || (r == k && (w.left.channels[id].blocking ==> k == |buf|)))
  {
    var c := w.left.channels[id];
    acts, k := [], 0;
    WroteNothing(w, (c.remote.id, stream));
    assert buf[..0] == [] && Run(w, []) == w;
    if !c.local.close && (c.blocking || c.local.window > 0) {
      acts, k := WriteLoopIsRun(w, id, stream, buf, 0);
    }
  }

  // ---------- reading ----------

  /** The left side of w has become f and has handed out these bytes of the stream; its peer, but for what has
      left its outbox, and all other histories are as they were. */
  ghost predicate HandedOut(w: World, v: World, f: Endpoint, sent: nat, k: Key, bytes: seq<Byte>) {
    && v.left == f && sent <= |w.right.outbox| && v.right == w.right.(outbox := w.right.outbox[sent..])
    && v.toRight == w.toRight && v.toLeft.accepted == w.toLeft.accepted && v.toLeft.flushed == w.toLeft.flushed
    && forall j: Key ::
         && v.toLeft.returned(j) == Extend(w.toLeft.returned, k, bytes)(j)
         && v.toLeft.consumed(j) == Extend(w.toLeft.consumed, k, bytes)(j)
  }

  lemma {:induction false} HandedOutTwice(w: World, u: World, v: World, f: Endpoint, m: nat, n: nat, k: Key,
                                          first: seq<Byte>, second: seq<Byte>)
    requires HandedOut(w, u, u.left, m, k, first) && HandedOut(u, v, f, n, k, second)
    ensures HandedOut(w, v, f, m + n, k, first + second)
  {
    Regroup(w.toLeft.returned(k), first, second);
    Regroup(w.toLeft.consumed(k), first, second);
    assert w.right.outbox[m..][n..] == w.right.outbox[m + n..];
  }

  lemma {:induction false} HandsOutNothing(w: World, k: Key)
    ensures HandedOut(w, w, w.left, 0, k, [])
  {
    assert w.right.outbox[0..] == w.right.outbox;
  }

  /** Taking in all that has arrived is a run. */
  lemma {:induction false} DrainIsRun(w: World, k: Key) returns (acts: seq<Action>)
    ensures HandedOut(w, Run(w, acts), Drain(w.left), 0, k, [])
    decreases |w.left.inbox|
  {
    acts := [];
    HandsOutNothing(w, k);
    if w.left.inbox != [] {
      var u := Next(w, AtLeft(Arrive));
      var rest := DrainIsRun(u, k);
      acts := [AtLeft(Arrive)] + rest;
      RunCons(w, AtLeft(Arrive), rest);
      assert w.right.outbox[0..] == w.right.outbox;
      assert HandedOut(w, u, u.left, 0, k, []);
      HandedOutTwice(w, u, Run(u, rest), Drain(u.left), 0, 0, k, [], []);
    }
  }

  /** One turn of a read is a run. */
  lemma {:induction false} ReadTurnIsRun(w: World, id: U32, stream: U32, want: nat) returns (acts: seq<Action>)
    requires id in w.left.channels
    ensures var (f, bytes) := ReadTurn(w.left, id, stream, want);
            HandedOut(w, Run(w, acts), f, 0, (id, stream), bytes)
  {
    var first := DrainIsRun(w, (id, stream));
    var u := Run(w, first);
    var read := AtLeft(Read(id, stream, want));
    acts := first + [read];
    RunAppend(w, first, [read]);
    RunCons(u, read, []);
    assert [read] + [] == [read];
    var (f, bytes) := ReadScan(u.left, id, stream, want);
    assert u.right.outbox[0..] == u.right.outbox;
    assert HandedOut(u, Next(u, read), f, 0, (id, stream), bytes);
    HandedOutTwice(w, u, Next(u, read), f, 0, 0, (id, stream), [], bytes);
  }

  /** The link brings what the peer has sent. */
  lemma {:induction false} BatchIsRun(w: World, ms: seq<Message>, k: Key) returns (acts: seq<Action>)
    requires ms <= w.right.outbox
    ensures HandedOut(w, Run(w, acts), w.left.(inbox := w.left.inbox + ms), |ms|, k, [])
    decreases |ms|
  {
    acts := [];
    HandsOutNothing(w, k);
    if ms == [] {
      assert w.left.inbox + ms == w.left.inbox;
    } else {
      var u := Next(w, LinkLeft);
      assert u.left == w.left.(inbox := w.left.inbox + [ms[0]]) && u.right == w.right.(outbox := w.right.outbox[1..]);
      assert ms[1..] <= u.right.outbox;
      var rest := BatchIsRun(u, ms[1..], k);
      acts := [LinkLeft] + rest;
      RunCons(w, LinkLeft, rest);
      assert HandedOut(w, u, u.left, 1, k, []);
      assert w.left.inbox + [ms[0]] + ms[1..] == w.left.inbox + ms;
      HandedOutTwice(w, u, Run(u, rest), w.left.(inbox := w.left.inbox + ms), 1, |ms| - 1, k, [], []);
    }
  }

  function Flat(batches: seq<seq<Message>>): seq<Message> {
    if batches == [] then [] else batches[0] + Flat(batches[1..])
  }

  /** These actions are a read call in the world. */
  ghost predicate ReadOut(w: World, acts: seq<Action>, sent: nat, id: U32, stream: U32, want: nat,
                          later: seq<seq<Message>>)
    requires id in w.left.channels
  {
    var (f, bytes, _) := ReadEx(w.left, id, stream, want, later);
    HandedOut(w, Run(w, acts), f, sent, (id, stream), bytes)
  }

  lemma {:induction false} ReadGoesOn(w: World, turn: seq<Action>, batch: seq<Action>, rest: seq<Action>, more: nat,
                                      id: U32, stream: U32, want: nat, later: seq<seq<Message>>)
    requires id in w.left.channels && later != []
    requires var (f, bytes) := ReadTurn(w.left, id, stream, want);
             && HandedOut(w, Run(w, turn), f, 0, (id, stream), bytes)
             && f.channels[id].blocking && bytes == [] && !f.channels[id].remote.close
    requires var u := Run(w, turn);
             HandedOut(u, Run(u, batch), u.left.(inbox := u.left.inbox + later[0]), |later[0]|, (id, stream), [])
    requires var v := Run(Run(w, turn), batch);
             id in v.left.channels && ReadOut(v, rest, more, id, stream, want, later[1..])
    ensures ReadOut(w, turn + batch + rest, |later[0]| + more, id, stream, want, later)
  {
    var key, u := (id, stream), Run(w, turn);
    var v := Run(u, batch);
    RunAppend(w, turn, batch);
    RunAppend(w, turn + batch, rest);
    HandedOutTwice(w, u, v, v.left, 0, |later[0]|, key, [], []);
    var (g, got, _) := ReadEx(v.left, id, stream, want, later[1..]);
    HandedOutTwice(w, v, Run(v, rest), g, |later[0]|, more, key, [], got);
    assert [] + got == got;
  }

  /** A read call is a run, whatever of the peer's messages arrive while it waits: what the run adds to the
      history of the stream is what the call returns. */
  lemma {:induction false} ReadExIsRun(w: World, id: U32, stream: U32, want: nat, later: seq<seq<Message>>)
    returns (acts: seq<Action>, sent: nat)
    requires id in w.left.channels && Flat(later) <= w.right.outbox
    ensures ReadOut(w, acts, sent, id, stream, want, later)
    decreases |later|
  {
    acts := ReadTurnIsRun(w, id, stream, want);
    sent := 0;
    var u := Run(w, acts);
    var (f, bytes) := ReadTurn(w.left, id, stream, want);
    if f.channels[id].blocking && bytes == [] && !f.channels[id].remote.close && later != [] {
      var ms := later[0];
      assert u.right.outbox == w.right.outbox;
      FlatFits(later, u.right.outbox);
      var batch := BatchIsRun(u, ms, (id, stream));
      var v := Run(u, batch);
      var rest, more := ReadExIsRun(v, id, stream, want, later[1..]);
      ReadGoesOn(w, acts, batch, rest, more, id, stream, want, later);
      acts, sent := acts + batch + rest, |ms| + more;
    }
  }

  lemma {:induction false} FlatFits(later: seq<seq<Message>>, outbox: seq<Message>)
    requires later != [] && Flat(later) <= outbox
    ensures later[0] <= outbox && Flat(later[1..]) <= outbox[|later[0]|..]
  {
    var n := |later[0]|;
    assert Flat(later)[..n] == later[0] && Flat(later)[n..] == Flat(later[1..]);
    assert outbox[..|Flat(later)|][n..] == outbox[n..][..|Flat(later[1..])|];
  }

  lemma {:induction false} DrainKeepsBytes(e: Endpoint)
    requires Sound(e)
    ensures Sound(Drain(e)) && SameArrived(e, Drain(e))
    decreases |e.inbox|
  {
    if e.inbox != [] {
      DeliverConserves(e);
      DeliverKeepsBytes(e);
      DrainKeepsBytes(Deliver(e));
    }
  }

  /** What a turn of `libssh2_channel_read_ex` yields: the oldest bytes of the stream that had reached this side,
      as many as asked for or, if there are fewer, all of them. */
  lemma {:induction false} ReadTurnReturnsFront(e: Endpoint, id: U32, stream: U32, want: nat)
    requires Sound(e) && id in e.channels
    ensures var (f, bytes) := ReadTurn(e, id, stream, want);
            && Arrived(e, id, stream) == bytes + Arrived(f, id, stream)
            && (|bytes| == want || (|bytes| < want && Arrived(f, id, stream) == []))
  {
    DrainKeepsBytes(e);
    assert ChannelSound(Drain(e), id);
    ReadScanTakesFront(Drain(e), id, stream, want);
  }

  /** A read call comes back without bytes on a channel that blocks only when the peer has closed it; while it
      has not come back it has returned nothing. */
  lemma {:induction false} ReadExComesBack(e: Endpoint, id: U32, stream: U32, want: nat, later: seq<seq<Message>>)
    requires id in e.channels
    ensures var (f, bytes, done) := ReadEx(e, id, stream, want, later);
            var c := f.channels[id];
            && (done && c.blocking && bytes == [] ==> c.remote.close)
            && (!done ==> c.blocking && bytes == [] && !c.remote.close)
    decreases |later|
  {
    var (f, bytes) := ReadTurn(e, id, stream, want);
    if f.channels[id].blocking && bytes == [] && !f.channels[id].remote.close && later != [] {
      ReadExComesBack(f.(inbox := f.inbox + later[0]), id, stream, want, later[1..]);
    }
  }

  lemma {:induction false} PeerKnows(w: World, id: U32)
    requires Inv(w) && id in w.left.channels
    ensures var peer := w.left.channels[id].remote.id;
            peer in w.right.channels && w.right.channels[peer].remote.id == id
  {
  }

  /** The prefix property for what the right side writes and the left side reads. */
  lemma {:induction false} LeftReadsPrefix(v: World, id: U32, peer: U32, stream: U32)
    requires Reachable(v) && peer in v.right.channels && v.right.channels[peer].remote.id == id
    ensures !v.toLeft.flushed((id, stream)) ==> v.toLeft.returned((id, stream)) <= v.toLeft.accepted((id, stream))
  {
    MirrorReachable(v);
    ReadsReturnPrefixOfWrites(Mirror(v), peer, stream);
  }

  /** A run that does nothing but hand out bytes goes on with the peer's stream where earlier reads left off. */
  lemma {:induction false} HandedOutGoesOn(w: World, acts: seq<Action>, f: Endpoint, sent: nat, id: U32, stream: U32,
                                           bytes: seq<Byte>)
    requires Reachable(w) && id in w.left.channels && HandedOut(w, Run(w, acts), f, sent, (id, stream), bytes)
    ensures var k := (id, stream);
            !w.toLeft.flushed(k) ==> w.toLeft.returned(k) + bytes <= w.toLeft.accepted(k)
  {
    StaysReachable(w, acts);
    ReachableInv(w);
    PeerKnows(w, id);
    LeftReadsPrefix(Run(w, acts), id, w.left.channels[id].remote.id, stream);
  }

  /** Over all calls: what reads of a stream have returned, with what this one returns, is a prefix of what the
      peer's writes have put on it. */
  lemma {:induction false} CallsReturnPrefix(w: World, id: U32, stream: U32, want: nat, later: seq<seq<Message>>)
    requires Reachable(w) && id in w.left.channels && Flat(later) <= w.right.outbox
    ensures var k := (id, stream);
            !w.toLeft.flushed(k) ==>
              w.toLeft.returned(k) + ReadEx(w.left, id, stream, want, later).1 <= w.toLeft.accepted(k)
  {
    var acts, sent := ReadExIsRun(w, id, stream, want, later);
    var (f, bytes, _) := ReadEx(w.left, id, stream, want, later);
    HandedOutGoesOn(w, acts, f, sent, id, stream, bytes);
  }
}
