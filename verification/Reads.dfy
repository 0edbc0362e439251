/** Exactly what a read call returns, when it comes back, and what it takes for that of the messages that arrive
    while it waits. */
module Reads {
  import opened Bytes
  import opened Endpoints
  import opened Accounting
  import opened Conservation
  import opened Streams
  import opened FlowControl
  import opened Calls

  /** The endpoint when these messages have arrived as well. */
  function With(e: Endpoint, ms: seq<Message>): Endpoint {
    e.(inbox := e.inbox + ms)
  }

  predicate HasClose(ms: seq<Message>, id: U32) {
    Close(id) in ms
  }

  // ---------- messages that are not looked at yet change nothing ----------

  lemma {:induction false} AdjustWith(e: Endpoint, ms: seq<Message>, id: U32, amount: U32, force: bool)
    requires id in e.channels
    ensures WindowAdjust(With(e, ms), id, amount, force) == With(WindowAdjust(e, id, amount, force), ms)
  {
  }

  lemma {:induction false} DeliverWith(e: Endpoint, ms: seq<Message>)
    requires e.inbox != []
    ensures Deliver(With(e, ms)) == With(Deliver(e), ms)
  {
    var m, s := e.inbox[0], e.(inbox := e.inbox[1..]);
    assert (e.inbox + ms)[1..] == e.inbox[1..] + ms;
    assert With(e, ms).(inbox := With(e, ms).inbox[1..]) == With(s, ms);
    if CarriesData(m) && m.channel in s.channels && s.channels[m.channel].mode == Ignore && m.Extended? {
      AdjustWith(s, ms, m.channel, |m.bytes|, false);
    }
  }

  lemma {:induction false} AdjustAllWith(e: Endpoint, ms: seq<Message>, id: U32, amounts: seq<U32>)
    requires id in e.channels
    ensures AdjustAll(With(e, ms), id, amounts) == With(AdjustAll(e, id, amounts), ms)
    decreases |amounts|
  {
    if amounts != [] {
      AdjustWith(e, ms, id, amounts[0], false);
      AdjustAllWith(WindowAdjust(e, id, amounts[0], false), ms, id, amounts[1..]);
    }
  }

  lemma {:induction false} ScanWith(e: Endpoint, ms: seq<Message>, id: U32, stream: U32, want: nat)
    requires id in e.channels
    ensures var (f, bytes) := ReadScan(e, id, stream, want);
            ReadScan(With(e, ms), id, stream, want) == (With(f, ms), bytes)
  {
    var scan := ReadList(e.packets, id, stream, e.channels[id].mode, want);
    AdjustAllWith(e.(packets := scan.packets), ms, id, scan.refunds);
    assert With(e, ms).(packets := scan.packets) == With(e.(packets := scan.packets), ms);
  }

  lemma {:induction false} DataInWith(a: seq<Message>, b: seq<Message>, id: U32)
    ensures DataIn(a + b, id) == DataIn(a, id) + DataIn(b, id)
            && CreditIn(a + b, id) == CreditIn(a, id) + CreditIn(b, id)
  {
    if a == [] {
      assert a + b == b;
    } else {
      assert (a + b)[1..] == a[1..] + b;
      DataInWith(a[1..], b, id);
    }
  }

  lemma {:induction false} BytesInWith(a: seq<Message>, b: seq<Message>, id: U32, stream: U32)
    ensures BytesIn(a + b, id, stream) == BytesIn(a, id, stream) + BytesIn(b, id, stream)
  {
    if a == [] {
      assert a + b == b;
    } else {
      assert (a + b)[1..] == a[1..] + b;
      BytesInWith(a[1..], b, id, stream);
      Regroup(StreamPart(a[0], id, stream), BytesIn(a[1..], id, stream), BytesIn(b, id, stream));
    }
  }

  lemma {:induction false} ArrivedWith(e: Endpoint, ms: seq<Message>, id: U32, stream: U32)
    ensures Arrived(With(e, ms), id, stream) == Arrived(e, id, stream) + BytesIn(ms, id, stream)
  {
    BytesInWith(e.inbox, ms, id, stream);
    Regroup(Pending(e.packets, id, stream), BytesIn(e.inbox, id, stream), BytesIn(ms, id, stream));
  }

  /** What is sound with more in its socket is sound with less. */
  lemma {:induction false} SoundWithLess(e: Endpoint, ms: seq<Message>)
    requires Sound(With(e, ms))
    ensures Sound(e)
  {
    forall id: U32 | id in e.channels ensures ChannelSound(e, id) {
      assert ChannelSound(With(e, ms), id);
      DataInWith(e.inbox, ms, id);
      DataInWith(e.inbox, ms, e.channels[id].remote.id);
    }
    forall m | m in e.inbox ensures FitsReceiver(e.channels, m) {
      assert m in With(e, ms).inbox;
    }
  }

  // ---------- a turn ----------

  lemma {:induction false} DeliverNotesClose(e: Endpoint, id: U32)
    requires e.inbox != [] && id in e.channels
    ensures Deliver(e).channels[id].remote.close <==> e.channels[id].remote.close || e.inbox[0] == Close(id)
    ensures Deliver(e).channels[id].blocking == e.channels[id].blocking
  {
  }

  /** Draining takes in all that has arrived, and what has not yet arrived does not matter to it. */
  lemma {:induction false} DrainWith(e: Endpoint, ms: seq<Message>, id: U32)
    requires Sound(With(e, ms)) && id in e.channels
    ensures Sound(With(Drain(e), ms)) && SameArrived(With(e, ms), With(Drain(e), ms))
    ensures Drain(e).channels[id].remote.close <==> e.channels[id].remote.close || HasClose(e.inbox, id)
    ensures Drain(e).channels[id].blocking == e.channels[id].blocking
    decreases |e.inbox|
  {
    if e.inbox != [] {
      DeliverWith(e, ms);
      DeliverConserves(With(e, ms));
      DeliverKeepsBytes(With(e, ms));
      DeliverNotesClose(e, id);
      DrainWith(Deliver(e), ms, id);
    }
  }

  lemma {:induction false} ScanKeepsFlags(e: Endpoint, id: U32, stream: U32, want: nat)
    requires id in e.channels && e.channels[id].mode == Normal
    ensures var f := ReadScan(e, id, stream, want).0;
            f.channels[id].remote.close == e.channels[id].remote.close
              && f.channels[id].blocking == e.channels[id].blocking
    ensures ReadScan(e, id, stream, want).0.inbox == e.inbox
  {
    var scan := ReadList(e.packets, id, stream, Normal, want);
    AdjustAllKeepsFlags(e.(packets := scan.packets), id, scan.refunds);
  }

  lemma {:induction false} AdjustAllKeepsFlags(e: Endpoint, id: U32, amounts: seq<U32>)
    requires id in e.channels
    ensures var f := AdjustAll(e, id, amounts);
            && f.channels[id].remote.close == e.channels[id].remote.close
            && f.channels[id].blocking == e.channels[id].blocking && f.inbox == e.inbox
    decreases |amounts|
  {
    if amounts != [] { AdjustAllKeepsFlags(WindowAdjust(e, id, amounts[0], false), id, amounts[1..]); }
  }

  /** The first bytes of what has arrived, as many as wanted. */
  function Front(all: seq<Byte>, want: nat): seq<Byte> {
    if want <= |all| then all[..want] else all
  }

  function Behind(all: seq<Byte>, want: nat): seq<Byte> {
    if want <= |all| then all[want..] else []
  }

  lemma {:induction false} Cuts(all: seq<Byte>, want: nat, bytes: seq<Byte>, rest: seq<Byte>)
    requires all == bytes + rest && |bytes| <= want && (|bytes| < want ==> rest == [])
    ensures bytes == Front(all, want) && rest == Behind(all, want)
  {
  }

  /** A turn hands out the front of what has arrived, and leaves the rest and whatever arrives later. */
  lemma {:induction false} TurnIs(e: Endpoint, ms: seq<Message>, id: U32, stream: U32, want: nat)
    requires Sound(With(e, ms)) && id in e.channels
    ensures var (f, bytes) := ReadTurn(e, id, stream, want);
            && Sound(With(f, ms)) && f.inbox == []
            && bytes == Front(Arrived(e, id, stream), want)
            && Arrived(f, id, stream) == Behind(Arrived(e, id, stream), want)
            && (f.channels[id].remote.close <==> e.channels[id].remote.close || HasClose(e.inbox, id))
            && f.channels[id].blocking == e.channels[id].blocking
  {
    var d := Drain(e);
    DrainWith(e, ms, id);
    DrainAlone(e, ms, id, stream);
    assert ChannelSound(With(d, ms), id);
    ScanWith(d, ms, id, stream, want);
    ReadScanConserves(With(d, ms), id, stream, want);
    ReadScanTakesFront(d, id, stream, want);
    ScanKeepsFlags(d, id, stream, want);
    var (f, bytes) := ReadScan(d, id, stream, want);
    assert BytesIn([], id, stream) == [] && f.inbox == [];
    Cuts(Arrived(e, id, stream), want, bytes, Arrived(f, id, stream));
  }

  lemma {:induction false} DrainAlone(e: Endpoint, ms: seq<Message>, id: U32, stream: U32)
    requires Sound(With(e, ms)) && id in e.channels
    ensures Arrived(Drain(e), id, stream) == Arrived(e, id, stream)
  {
    SoundWithLess(e, ms);
    assert With(e, []) == e && With(Drain(e), []) == Drain(e);
    DrainWith(e, [], id);
  }

  // ---------- a call ----------

  /** With these messages arrived as well there is reason to come back: the channel does not block, or there are
      bytes for a reader who wants some, or the peer has closed. */
  predicate Ready(e: Endpoint, id: U32, stream: U32, want: nat, ms: seq<Message>)
    requires id in e.channels
  {
    || !e.channels[id].blocking
    || (want > 0 && Arrived(With(e, ms), id, stream) != [])
    || e.channels[id].remote.close || HasClose(e.inbox + ms, id)
  }

  /** What a call has come to that has taken in the first n batches. */
  ghost predicate Comes(e: Endpoint, id: U32, stream: U32, want: nat, later: seq<seq<Message>>, n: nat,
                        goal: (Endpoint, seq<Byte>, bool))
  {
    && n <= |later| && id in e.channels && id in goal.0.channels
    && var ms := Flat(later[..n]);
       && goal.1 == Front(Arrived(With(e, ms), id, stream), want)
       && Arrived(goal.0, id, stream) == Behind(Arrived(With(e, ms), id, stream), want)
       && (goal.2 <==> Ready(e, id, stream, want, ms))
       && (!goal.2 ==> n == |later|)
       && (goal.0.channels[id].remote.close <==> e.channels[id].remote.close || HasClose(e.inbox + ms, id))
  }

  /** Before that there was no reason to come back: see ReadyIff. */
  ghost predicate NotBefore(e: Endpoint, id: U32, stream: U32, want: nat, later: seq<seq<Message>>, n: nat)
    requires id in e.channels && n <= |later|
  {
    forall m :: 0 <= m < n ==> !Ready(e, id, stream, want, Flat(later[..m]))
  }

  lemma {:induction false} FlatNext(later: seq<seq<Message>>, m: nat)
    requires later != [] && m < |later|
    ensures Flat(later[..m + 1]) == later[0] + Flat(later[1..][..m])
  {
    assert later[..m + 1][1..] == later[1..][..m];
  }

  /** Waiting: a turn that has found nothing leaves an endpoint that, with the next batch, is ready just when
      the one before it is with that batch as well. */
  lemma {:induction false} WaitsOn(e: Endpoint, f: Endpoint, id: U32, stream: U32, want: nat, batch: seq<Message>,
                                   ms: seq<Message>)
    requires id in e.channels && id in f.channels && f.inbox == []
    requires Arrived(f, id, stream) == Arrived(e, id, stream)
    requires f.channels[id].remote.close <==> e.channels[id].remote.close || HasClose(e.inbox, id)
    requires f.channels[id].blocking == e.channels[id].blocking
    ensures var g := With(f, batch);
            && Arrived(With(g, ms), id, stream) == Arrived(With(e, batch + ms), id, stream)
            && (Ready(g, id, stream, want, ms) <==> Ready(e, id, stream, want, batch + ms))
            && (g.channels[id].remote.close || HasClose(g.inbox + ms, id)
                <==> e.channels[id].remote.close || HasClose(e.inbox + (batch + ms), id))
  {
    var g := With(f, batch);
    assert g.inbox == batch && With(g, ms) == With(f, batch + ms) by { assert [] + batch == batch; }
    ArrivedWith(f, batch + ms, id, stream);
    ArrivedWith(e, batch + ms, id, stream);
  }

  lemma {:induction false} ComesLater(e: Endpoint, f: Endpoint, id: U32, stream: U32, want: nat,
                                      later: seq<seq<Message>>, n: nat, goal: (Endpoint, seq<Byte>, bool))
    requires id in e.channels && id in f.channels && f.inbox == [] && later != []
    requires Arrived(f, id, stream) == Arrived(e, id, stream)
    requires f.channels[id].remote.close <==> e.channels[id].remote.close || HasClose(e.inbox, id)
    requires f.channels[id].blocking == e.channels[id].blocking
    requires Comes(With(f, later[0]), id, stream, want, later[1..], n, goal)
    requires NotBefore(With(f, later[0]), id, stream, want, later[1..], n)
    requires !Ready(e, id, stream, want, [])
    ensures Comes(e, id, stream, want, later, n + 1, goal) && NotBefore(e, id, stream, want, later, n + 1)
  {
    FlatNext(later, n);
    WaitsOn(e, f, id, stream, want, later[0], Flat(later[1..][..n]));
    forall m | 0 <= m < n + 1 ensures !Ready(e, id, stream, want, Flat(later[..m])) {
      if m > 0 {
        FlatNext(later, m - 1);
        WaitsOn(e, f, id, stream, want, later[0], Flat(later[1..][..m - 1]));
      } else {
        assert later[..0] == [];
      }
    }
  }

  lemma {:induction false} NothingYet(e: Endpoint, id: U32, stream: U32, want: nat, later: seq<seq<Message>>)
    requires id in e.channels
    ensures With(e, []) == e && e.inbox + [] == e.inbox && Flat(later[..0]) == []
    ensures NotBefore(e, id, stream, want, later, 0)
  {
    assert e.inbox + [] == e.inbox;
  }

  /** A read call, whatever arrives while it waits: it takes in n batches, the fewest with which there is reason
      to come back, or all of them without coming back; it returns the first of the bytes that have arrived by
      then, as many as are wanted, and leaves the others. */
  lemma {:induction false} ReadExIs(e: Endpoint, id: U32, stream: U32, want: nat, later: seq<seq<Message>>)
    returns (n: nat)
    requires Sound(With(e, Flat(later))) && id in e.channels
    ensures Comes(e, id, stream, want, later, n, ReadEx(e, id, stream, want, later))
    ensures NotBefore(e, id, stream, want, later, n)
    decreases |later|
  {
    var (f, bytes) := ReadTurn(e, id, stream, want);
    TurnIs(e, Flat(later), id, stream, want);
    NothingYet(e, id, stream, want, later);
    if !f.channels[id].blocking || bytes != [] || f.channels[id].remote.close || later == [] {
      n := 0;
    } else {
      var g := With(f, later[0]);
      assert With(f, Flat(later)) == With(g, Flat(later[1..])) by { assert [] + later[0] == later[0]; }
      n := ReadExIs(g, id, stream, want, later[1..]);
      ComesLater(e, f, id, stream, want, later, n, ReadEx(g, id, stream, want, later[1..]));
      n := n + 1;
    }
  }

  /** A call on a channel that does not block, or for which bytes have arrived, comes back at once with the first
      bytes of the stream, as many as wanted and there. */
  lemma {:induction false} ReadExReturnsAtOnce(e: Endpoint, id: U32, stream: U32, want: nat, later: seq<seq<Message>>)
    requires Sound(e) && id in e.channels
    requires !e.channels[id].blocking || (want > 0 && Arrived(e, id, stream) != [])
    ensures var (f, bytes, done) := ReadEx(e, id, stream, want, later);
            var all := Arrived(e, id, stream);
            var k := if want <= |all| then want else |all|;
            done && bytes == all[..k] && Arrived(f, id, stream) == all[k..]
  {
    assert With(e, []) == e;
    TurnIs(e, [], id, stream, want);
    FrontIs(Arrived(e, id, stream), want);
  }

  /** A call that waits comes back with the fewest batches that bring bytes of the stream to a reader who wants
      some, or the peer's close; it returns the first of the bytes that have arrived by then. */
  lemma {:induction false} ReadExReturns(e: Endpoint, id: U32, stream: U32, want: nat, later: seq<seq<Message>>)
    returns (n: nat)
    requires Sound(With(e, Flat(later))) && id in e.channels && e.channels[id].blocking
    ensures n <= |later|
    ensures var (f, bytes, done) := ReadEx(e, id, stream, want, later);
            var ms := Flat(later[..n]);
            var all := Arrived(e, id, stream) + BytesIn(ms, id, stream);
            var k := if want <= |all| then want else |all|;
            && bytes == all[..k] && Arrived(f, id, stream) == all[k..]
            && (done <==> (want > 0 && all != []) || e.channels[id].remote.close || Close(id) in e.inbox + ms)
            && (!done ==> n == |later|)
    ensures NotBefore(e, id, stream, want, later, n)
  {
    n := ReadExIs(e, id, stream, want, later);
    ComesMeans(e, id, stream, want, later, n, Flat(later[..n]), ReadEx(e, id, stream, want, later));
  }

  lemma {:induction false} ComesMeans(e: Endpoint, id: U32, stream: U32, want: nat, later: seq<seq<Message>>, n: nat,
                                      ms: seq<Message>, goal: (Endpoint, seq<Byte>, bool))
    requires Comes(e, id, stream, want, later, n, goal) && e.channels[id].blocking && ms == Flat(later[..n])
    ensures var all := Arrived(e, id, stream) + BytesIn(ms, id, stream);
            var k := if want <= |all| then want else |all|;
            && goal.1 == all[..k] && Arrived(goal.0, id, stream) == all[k..]
            && (goal.2 <==> (want > 0 && all != []) || e.channels[id].remote.close || Close(id) in e.inbox + ms)
            && (!goal.2 ==> n == |later|)
  {
    ArrivedWith(e, ms, id, stream);
    FrontIs(Arrived(e, id, stream) + BytesIn(ms, id, stream), want);
    ReadyIff(e, id, stream, want, ms);
  }

  lemma {:induction false} FrontIs(all: seq<Byte>, want: nat)
    ensures var k := if want <= |all| then want else |all|;
            Front(all, want) == all[..k] && Behind(all, want) == all[k..]
  {
    assert all[..|all|] == all && all[|all|..] == [];
  }

  lemma {:induction false} ReadyIff(e: Endpoint, id: U32, stream: U32, want: nat, ms: seq<Message>)
    requires id in e.channels && e.channels[id].blocking
    ensures Ready(e, id, stream, want, ms) <==>
              || (want > 0 && Arrived(e, id, stream) + BytesIn(ms, id, stream) != [])
              || e.channels[id].remote.close || Close(id) in e.inbox + ms
  {
    ArrivedWith(e, ms, id, stream);
  }

  /** In particular a call comes back when the peer's close has arrived or arrives while it waits. */
  lemma {:induction false} CloseBringsBack(e: Endpoint, id: U32, stream: U32, want: nat, later: seq<seq<Message>>)
    requires Sound(With(e, Flat(later))) && id in e.channels && Close(id) in e.inbox + Flat(later)
    ensures ReadEx(e, id, stream, want, later).2
  {
    var n := ReadExIs(e, id, stream, want, later);
    assert later[..|later|] == later;
  }

  /** In every reachable state all this holds of a call during which whatever its peer has sent arrives. */
  lemma {:induction false} SoundInRuns(w: World, id: U32, stream: U32, later: seq<seq<Message>>)
    requires Reachable(w) && Flat(later) <= w.right.outbox
    ensures Sound(With(w.left, Flat(later)))
  {
    var acts := BatchIsRun(w, Flat(later), (id, stream));
    StaysReachable(w, acts);
    ReachableInv(Run(w, acts));
  }
}
