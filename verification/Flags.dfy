/** End of file and close: what the flags of a channel say about the messages that have been sent, carried over and
    taken in, in every run and whatever a writer does. */
module Flags {
  import opened Bytes
  import opened Endpoints
  import opened Accounting
  import opened Conservation
  import opened FlowControl

  /** What the link carries to the right in a run. */
  ghost function Carried(w: World, actions: seq<Action>): seq<Message>
    decreases |actions|
  {
    if actions == [] then []
    else CarriedBy(w, actions[0]) + Carried(Next(w, actions[0]), actions[1..])
  }

  function CountClose(ms: seq<Message>, id: U32): nat {
    if ms == [] then 0 else CountClose(ms[..|ms| - 1], id) + if ms[|ms| - 1] == Close(id) then 1 else 0
  }

  /** An end of file has been taken in, and no data for the channel since. */
  predicate Ended(ms: seq<Message>, id: U32) {
    ms != [] && (ms[|ms| - 1] == Eof(id) || (!IsDataFor(ms[|ms| - 1], id) && Ended(ms[..|ms| - 1], id)))
  }

  /** The same, but data messages without bytes do not count. */
  predicate EndedButForEmpty(ms: seq<Message>, id: U32) {
    ms != [] && (ms[|ms| - 1] == Eof(id)
                 || (DataSize(ms[|ms| - 1], id) == 0 && EndedButForEmpty(ms[..|ms| - 1], id)))
  }

  lemma {:induction false} CloseAppend(ms: seq<Message>, m: Message, id: U32)
    ensures CountClose(ms + [m], id) == CountClose(ms, id) + if m == Close(id) then 1 else 0
  {
    assert (ms + [m])[..|ms|] == ms;
  }

  lemma {:induction false} CloseConcat(a: seq<Message>, b: seq<Message>, id: U32)
    ensures CountClose(a + b, id) == CountClose(a, id) + CountClose(b, id)
    decreases |b|
  {
    if b == [] {
      assert a + b == a;
    } else {
      var front := b[..|b| - 1];
      assert a + b == a + front + [b[|b| - 1]];
      CloseAppend(a + front, b[|b| - 1], id);
      CloseConcat(a, front, id);
    }
  }

  lemma {:induction false} CloseCounted(ms: seq<Message>, id: U32)
    ensures Close(id) in ms <==> CountClose(ms, id) > 0
  {
    if ms != [] { CloseCounted(ms[..|ms| - 1], id); }
  }

  lemma {:induction false} EndedAppend(ms: seq<Message>, m: Message, id: U32)
    ensures Ended(ms + [m], id) <==> m == Eof(id) || (!IsDataFor(m, id) && Ended(ms, id))
    ensures EndedButForEmpty(ms + [m], id) <==> m == Eof(id) || (DataSize(m, id) == 0 && EndedButForEmpty(ms, id))
  {
    assert (ms + [m])[..|ms|] == ms;
  }

  /** What an end of file among the messages comes to, when no data for the channel follows it. */
  lemma {:induction false} EndedIff(ms: seq<Message>, id: U32)
    ensures Ended(ms, id) <==>
              exists i :: 0 <= i < |ms| && ms[i] == Eof(id) && forall j :: i < j < |ms| ==> !IsDataFor(ms[j], id)
  {
    if ms != [] {
      var n := |ms| - 1;
      EndedIff(ms[..n], id);
      if Ended(ms, id) && ms[n] != Eof(id) {
        var i :| 0 <= i < n && ms[..n][i] == Eof(id) && forall j :: i < j < n ==> !IsDataFor(ms[..n][j], id);
        assert forall j :: i < j < |ms| ==> j == n || ms[j] == ms[..n][j];
      }
      if i :| 0 <= i < n && ms[i] == Eof(id) && forall j :: i < j < |ms| ==> !IsDataFor(ms[j], id) {
        assert ms[..n][i] == Eof(id) && forall j :: i < j < n ==> !IsDataFor(ms[..n][j], id);
      }
    }
  }

  lemma {:induction false} EndedButForEmptyIff(ms: seq<Message>, id: U32)
    ensures EndedButForEmpty(ms, id) <==>
              exists i :: 0 <= i < |ms| && ms[i] == Eof(id) && forall j :: i < j < |ms| ==> DataSize(ms[j], id) == 0
  {
    if ms != [] {
      var n := |ms| - 1;
      EndedButForEmptyIff(ms[..n], id);
      if EndedButForEmpty(ms, id) && ms[n] != Eof(id) {
        var i :| 0 <= i < n && ms[..n][i] == Eof(id) && forall j :: i < j < n ==> DataSize(ms[..n][j], id) == 0;
        assert forall j :: i < j < |ms| ==> j == n || ms[j] == ms[..n][j];
      }
      if i :| 0 <= i < n && ms[i] == Eof(id) && forall j :: i < j < |ms| ==> DataSize(ms[j], id) == 0 {
        assert ms[..n][i] == Eof(id) && forall j :: i < j < n ==> DataSize(ms[..n][j], id) == 0;
      }
    }
  }

  // ---------- what each endpoint keeps ----------

  /** The flags of a receiver agree with the messages it has taken in. */
  ghost predicate Reflects(e: Endpoint, taken: seq<Message>, id: U32)
    requires id in e.channels
  {
    && (e.channels[id].remote.close <==> CountClose(taken, id) > 0)
    && (Ended(taken, id) ==> e.channels[id].remote.eof)
    && (e.channels[id].remote.eof ==> EndedButForEmpty(taken, id))
  }

  /** The flags of a sender agree with the messages it has sent: it sends one close at most. */
  ghost predicate Announces(e: Endpoint, sent: seq<Message>, id: U32)
    requires id in e.channels
  {
    var c := e.channels[id];
    && (c.local.eof <==> Eof(c.remote.id) in sent)
    && CountClose(sent, c.remote.id) <= if c.local.close then 1 else 0
  }

  /** Taking in a message. */
  lemma {:induction false} TakesIn(e: Endpoint, taken: seq<Message>, id: U32)
    requires Sound(e) && e.inbox != [] && id in e.channels && Reflects(e, taken, id)
    ensures Reflects(Deliver(e), taken + [e.inbox[0]], id)
  {
    CloseAppend(taken, e.inbox[0], id);
    EndedAppend(taken, e.inbox[0], id);
    if IsDataFor(e.inbox[0], id) { HasWindow(e); }
    FlagsTakenIn(e, e.inbox[0], id);
  }

  /** What a message does to the flags: close is recorded, and so is end of file; data takes the latter back. */
  lemma {:induction false} FlagsTakenIn(e: Endpoint, m: Message, id: U32)
    requires e.inbox != [] && m == e.inbox[0] && id in e.channels
    requires IsDataFor(m, id) ==>
               e.channels[id].mode == Normal && (|m.bytes| > 0 ==> e.channels[id].remote.window > 0)
    ensures var c, d := e.channels[id], Deliver(e).channels[id];
            && (d.remote.close <==> c.remote.close || m == Close(id))
            && (m == Eof(id) ==> d.remote.eof)
            && (IsDataFor(m, id) && |m.bytes| > 0 ==> !d.remote.eof)
            && (m != Eof(id) && d.remote.eof ==> c.remote.eof)
            && (m != Eof(id) && !IsDataFor(m, id) ==> d.remote.eof == c.remote.eof)
  {
  }

  lemma {:induction false} HasWindow(e: Endpoint)
    requires Sound(e) && e.inbox != [] && CarriesData(e.inbox[0]) && e.inbox[0].channel in e.channels
    ensures |e.inbox[0].bytes| > 0 ==> e.channels[e.inbox[0].channel].remote.window > 0
    ensures e.channels[e.inbox[0].channel].mode == Normal
  {
    NothingCut(e);
    assert ChannelSound(e, e.inbox[0].channel);
  }

  lemma {:induction false} AdjustKeepsFlags(e: Endpoint, id: U32, amount: U32, force: bool)
    requires id in e.channels
    ensures KeepsFlags(e, WindowAdjust(e, id, amount, force))
  {
  }

  /** No flag changes, and nothing but adjustments is sent. */
  ghost predicate KeepsFlags(e: Endpoint, f: Endpoint) {
    && f.channels.Keys == e.channels.Keys && f.inbox == e.inbox
    && (forall x: U32 :: x in e.channels ==> SameEnds(e.channels[x], f.channels[x]))
    && |e.outbox| <= |f.outbox| && e.outbox == f.outbox[..|e.outbox|]
    && forall i :: |e.outbox| <= i < |f.outbox| ==> f.outbox[i].Adjust?
  }

  predicate SameEnds(c: Channel, d: Channel) {
    && d.local.eof == c.local.eof && d.local.close == c.local.close
    && d.remote.eof == c.remote.eof && d.remote.close == c.remote.close && d.remote.id == c.remote.id
  }

  lemma {:induction false} AdjustAllKeepsFlags(e: Endpoint, id: U32, amounts: seq<U32>)
    requires id in e.channels
    ensures KeepsFlags(e, AdjustAll(e, id, amounts))
    decreases |amounts|
  {
    if amounts != [] {
      var s := WindowAdjust(e, id, amounts[0], false);
      AdjustKeepsFlags(e, id, amounts[0], false);
      AdjustAllKeepsFlags(s, id, amounts[1..]);
      KeepsFlagsTwice(e, s, AdjustAll(s, id, amounts[1..]));
    }
  }

  lemma {:induction false} KeepsFlagsTwice(e: Endpoint, s: Endpoint, f: Endpoint)
    requires KeepsFlags(e, s) && KeepsFlags(s, f)
    ensures KeepsFlags(e, f)
  {
    assert f.outbox[..|s.outbox|][..|e.outbox|] == f.outbox[..|e.outbox|];
    forall i | |e.outbox| <= i < |f.outbox| ensures f.outbox[i].Adjust? {
      if i < |s.outbox| { assert f.outbox[i] == f.outbox[..|s.outbox|][i] == s.outbox[i]; }
    }
  }

  lemma {:induction false} QuietKeepsFlags(e: Endpoint, ev: Event)
    requires Enabled(e, ev) && (ev.Read? || ev.Discard? || ev.Grant?)
    ensures KeepsFlags(e, NextEndpoint(e, ev))
  {
    if ev.Read? {
      var scan := ReadList(e.packets, ev.id, ev.stream, e.channels[ev.id].mode, ev.want);
      AdjustAllKeepsFlags(e.(packets := scan.packets), ev.id, scan.refunds);
    } else if ev.Discard? {
      AdjustKeepsFlags(e.(packets := FlushList(e.packets, ev.id, ev.what)), ev.id,
                       FlushRefund(e.packets, ev.id, ev.what), false);
    } else {
      AdjustKeepsFlags(e, ev.id, 0, ev.force);
    }
  }

  // ---------- sending ----------

  lemma {:induction false} AnnouncesMore(e: Endpoint, f: Endpoint, before: seq<Message>, m: Message, id: U32)
    requires id in e.channels && id in f.channels && f.channels[id].remote.id == e.channels[id].remote.id
    requires Announces(e, before + e.outbox, id) && f.outbox == e.outbox + [m]
    requires var c, d, peer := e.channels[id].local, f.channels[id].local, e.channels[id].remote.id;
             (d.eof <==> c.eof || m == Eof(peer)) && (c.close ==> d.close) && (m == Close(peer) ==> !c.close && d.close)
    ensures Announces(f, before + f.outbox, id)
  {
    assert before + f.outbox == before + e.outbox + [m];
    CloseAppend(before + e.outbox, m, e.channels[id].remote.id);
  }

  lemma {:induction false} AdjustsAnnounceNothing(ms: seq<Message>, more: seq<Message>, id: U32)
    requires forall i :: 0 <= i < |more| ==> more[i].Adjust?
    ensures CountClose(ms + more, id) == CountClose(ms, id) && (Eof(id) in ms + more <==> Eof(id) in ms)
  {
    CloseConcat(ms, more, id);
    CloseCounted(more, id);
  }

  lemma {:induction false} AnnouncesStill(e: Endpoint, f: Endpoint, before: seq<Message>, id: U32)
    requires id in e.channels && KeepsFlags(e, f) && Announces(e, before + e.outbox, id)
    ensures Announces(f, before + f.outbox, id)
  {
    var more := f.outbox[|e.outbox|..];
    assert before + f.outbox == before + e.outbox + more;
    forall i | 0 <= i < |more| ensures more[i].Adjust? {
      assert more[i] == f.outbox[|e.outbox| + i];
    }
    AdjustsAnnounceNothing(before + e.outbox, more, e.channels[id].remote.id);
  }

  /** Taking in a message sends nothing and changes no flag of the sending half. */
  lemma {:induction false} ArrivalAnnounces(e: Endpoint, before: seq<Message>, id: U32)
    requires Sound(e) && e.inbox != [] && id in e.channels && Announces(e, before + e.outbox, id)
    ensures Announces(Deliver(e), before + Deliver(e).outbox, id)
  {
    if CarriesData(e.inbox[0]) && e.inbox[0].channel in e.channels { HasWindow(e); }
  }

  lemma {:induction false} WriteAnnounces(e: Endpoint, before: seq<Message>, ev: Event, id: U32)
    requires Enabled(e, ev) && ev.Write? && id in e.channels && Announces(e, before + e.outbox, id)
    ensures Announces(NextEndpoint(e, ev), before + NextEndpoint(e, ev).outbox, id)
  {
    var c, f := e.channels[ev.id], NextEndpoint(e, ev);
    if f.outbox != e.outbox {
      AnnouncesMore(e, f, before, DataMessage(c.remote.id, ev.stream, ev.buf[..ChunkSize(c, |ev.buf|)]), id);
    }
  }

  lemma {:induction false} EndAnnounces(e: Endpoint, before: seq<Message>, x: U32, id: U32)
    requires DistinctPeers(e) && x in e.channels && id in e.channels && Announces(e, before + e.outbox, id)
    ensures Announces(SendEof(e, x), before + SendEof(e, x).outbox, id)
  {
    var f := SendEof(e, x);
    if f.outbox != e.outbox { AnnouncesMore(e, f, before, Eof(e.channels[x].remote.id), id); }
  }

  lemma {:induction false} ShutAnnounces(e: Endpoint, before: seq<Message>, x: U32, id: U32)
    requires DistinctPeers(e) && x in e.channels && id in e.channels && Announces(e, before + e.outbox, id)
    ensures Announces(SendClose(e, x), before + SendClose(e, x).outbox, id)
  {
    var f := SendClose(e, x);
    if f.outbox != e.outbox { AnnouncesMore(e, f, before, Close(e.channels[x].remote.id), id); }
  }

  lemma {:induction false} EventAnnounces(e: Endpoint, before: seq<Message>, ev: Event, id: U32)
    requires Sound(e) && Enabled(e, ev) && id in e.channels && Announces(e, before + e.outbox, id)
    ensures id in NextEndpoint(e, ev).channels
    ensures Announces(NextEndpoint(e, ev), before + NextEndpoint(e, ev).outbox, id)
  {
    match ev
    case Arrive => ArrivalAnnounces(e, before, id);
    case Write(_, _, _) => WriteAnnounces(e, before, ev, id);
    case End(x) => EndAnnounces(e, before, x, id);
    case Shut(x) => ShutAnnounces(e, before, x, id);
    case _ =>
      QuietKeepsFlags(e, ev);
      AnnouncesStill(e, NextEndpoint(e, ev), before, id);
  }

  /** No event but an arrival changes what a receiver has taken in or its flags. */
  lemma {:induction false} EventReflects(e: Endpoint, taken: seq<Message>, ev: Event, id: U32)
    requires Enabled(e, ev) && !ev.Arrive? && id in e.channels && Reflects(e, taken, id)
    ensures id in NextEndpoint(e, ev).channels && Reflects(NextEndpoint(e, ev), taken, id)
    ensures NextEndpoint(e, ev).inbox == e.inbox
  {
    if ev.Read? || ev.Discard? || ev.Grant? { QuietKeepsFlags(e, ev); }
  }

  // ---------- over a run ----------

  /** What a receiver has taken in of what the link has carried. */
  ghost function Taken(e: Endpoint, carried: seq<Message>): seq<Message>
    requires |e.inbox| <= |carried|
  {
    carried[..|carried| - |e.inbox|]
  }

  ghost predicate SentTracks(e: Endpoint, carried: seq<Message>) {
    forall id: U32 :: id in e.channels ==> Announces(e, carried + e.outbox, id)
  }

  ghost predicate TakenTracks(e: Endpoint, carried: seq<Message>) {
    && |e.inbox| <= |carried| && carried[|carried| - |e.inbox|..] == e.inbox
    && forall id: U32 :: id in e.channels ==> Reflects(e, Taken(e, carried), id)
  }

  lemma {:induction false} EventSentTracks(e: Endpoint, carried: seq<Message>, ev: Event)
    requires Sound(e) && Enabled(e, ev) && SentTracks(e, carried)
    ensures SentTracks(NextEndpoint(e, ev), carried)
  {
    forall id: U32 | id in NextEndpoint(e, ev).channels
      ensures Announces(NextEndpoint(e, ev), carried + NextEndpoint(e, ev).outbox, id)
    {
      EventAnnounces(e, carried, ev, id);
    }
  }

  lemma {:induction false} EventTakenTracks(e: Endpoint, carried: seq<Message>, ev: Event)
    requires Sound(e) && Enabled(e, ev) && TakenTracks(e, carried)
    ensures TakenTracks(NextEndpoint(e, ev), carried)
  {
    if ev.Arrive? {
      ArrivalTaken(e, Deliver(e), carried);
      forall id: U32 | id in e.channels ensures Reflects(Deliver(e), Taken(Deliver(e), carried), id) {
        TakesIn(e, Taken(e, carried), id);
      }
    } else {
      InboxKept(e, ev);
      forall id: U32 | id in e.channels
        ensures id in NextEndpoint(e, ev).channels && Reflects(NextEndpoint(e, ev), Taken(e, carried), id)
      {
        EventReflects(e, Taken(e, carried), ev, id);
      }
    }
  }

  lemma {:induction false} InboxKept(e: Endpoint, ev: Event)
    requires Enabled(e, ev) && !ev.Arrive?
    ensures NextEndpoint(e, ev).inbox == e.inbox && NextEndpoint(e, ev).channels.Keys == e.channels.Keys
  {
    if ev.Read? || ev.Discard? || ev.Grant? { QuietKeepsFlags(e, ev); }
  }

  lemma {:induction false} ArrivalTaken(e: Endpoint, f: Endpoint, carried: seq<Message>)
    requires e.inbox != [] && f.inbox == e.inbox[1..]
    requires |e.inbox| <= |carried| && carried[|carried| - |e.inbox|..] == e.inbox
    ensures Taken(f, carried) == Taken(e, carried) + [e.inbox[0]]
    ensures carried[|carried| - |f.inbox|..] == f.inbox
  {
    var n := |carried| - |e.inbox|;
    assert carried[n] == carried[n..][0] && carried[n..][1..] == carried[n + 1..];
  }

  lemma {:induction false} LeavesTracked(e: Endpoint, carried: seq<Message>)
    requires e.outbox != [] && SentTracks(e, carried)
    ensures SentTracks(e.(outbox := e.outbox[1..]), carried + [e.outbox[0]])
  {
    var f := e.(outbox := e.outbox[1..]);
    assert carried + [e.outbox[0]] + f.outbox == carried + e.outbox;
    forall id: U32 | id in f.channels ensures Announces(f, carried + [e.outbox[0]] + f.outbox, id) {
      assert Announces(e, carried + e.outbox, id);
    }
  }

  lemma {:induction false} ReachesTracked(e: Endpoint, carried: seq<Message>, m: Message)
    requires TakenTracks(e, carried)
    ensures TakenTracks(e.(inbox := e.inbox + [m]), carried + [m])
  {
    var f, more := e.(inbox := e.inbox + [m]), carried + [m];
    assert more[|more| - |f.inbox|..] == carried[|carried| - |e.inbox|..] + [m];
    assert Taken(f, more) == Taken(e, carried);
    forall id: U32 | id in f.channels ensures Reflects(f, Taken(f, more), id) {
      assert Reflects(e, Taken(e, carried), id);
    }
  }

  /** The boxes of the other direction do not matter. */
  lemma {:induction false} OtherBoxes(e: Endpoint, f: Endpoint, carried: seq<Message>)
    requires f.channels == e.channels
    ensures SentTracks(e, carried) && f.outbox == e.outbox ==> SentTracks(f, carried)
    ensures TakenTracks(e, carried) && f.inbox == e.inbox ==> TakenTracks(f, carried)
  {
    if SentTracks(e, carried) && f.outbox == e.outbox {
      forall id: U32 | id in f.channels ensures Announces(f, carried + f.outbox, id) {
        assert Announces(e, carried + e.outbox, id);
      }
    }
    if TakenTracks(e, carried) && f.inbox == e.inbox {
      forall id: U32 | id in f.channels ensures Reflects(f, Taken(f, carried), id) {
        assert Reflects(e, Taken(e, carried), id);
      }
    }
  }

  /** What one action carries to the right. */
  ghost function CarriedBy(w: World, a: Action): seq<Message> {
    if a.LinkRight? && w.left.outbox != [] then [w.left.outbox[0]] else []
  }

  lemma {:induction false} SoundSides(w: World)
    requires Inv(w)
    ensures Sound(w.left) && Sound(w.right)
  {
  }

  lemma {:induction false} StepTracks(w: World, carried: seq<Message>, a: Action)
    requires Sound(w.left) && Sound(w.right) && SentTracks(w.left, carried) && TakenTracks(w.right, carried)
    ensures SentTracks(Next(w, a).left, carried + CarriedBy(w, a))
    ensures TakenTracks(Next(w, a).right, carried + CarriedBy(w, a))
  {
    assert carried + [] == carried;
    if a.AtLeft? {
      if Enabled(w.left, a.event) { EventSentTracks(w.left, carried, a.event); }
    } else if a.AtRight? {
      if Enabled(w.right, a.event) { EventTakenTracks(w.right, carried, a.event); }
    } else if a.LinkLeft? {
      OtherBoxes(w.left, Next(w, a).left, carried);
      OtherBoxes(w.right, Next(w, a).right, carried);
    } else if w.left.outbox != [] {
      LeavesTracked(w.left, carried);
      ReachesTracked(w.right, carried, w.left.outbox[0]);
    }
  }

  lemma {:induction false} CarriedStep(w: World, carried: seq<Message>, actions: seq<Action>, all: seq<Message>)
    requires actions != [] && all == carried + Carried(w, actions)
    ensures all == carried + CarriedBy(w, actions[0]) + Carried(Next(w, actions[0]), actions[1..])
    ensures Run(w, actions) == Run(Next(w, actions[0]), actions[1..])
  {
  }

  lemma {:induction false} RunTracks(w: World, carried: seq<Message>, actions: seq<Action>, all: seq<Message>, v: World)
    requires Inv(w) && SentTracks(w.left, carried) && TakenTracks(w.right, carried)
    requires all == carried + Carried(w, actions) && v == Run(w, actions)
    ensures SentTracks(v.left, all) && TakenTracks(v.right, all)
    decreases |actions|
  {
    if actions == [] {
      assert all == carried;
    } else {
      SoundSides(w);
      StepTracks(w, carried, actions[0]);
      NextKeeps(w, actions[0]);
      CarriedStep(w, carried, actions, all);
      RunTracks(Next(w, actions[0]), carried + CarriedBy(w, actions[0]), actions[1..], all, v);
    }
  }

  lemma {:induction false} IdleAnnounces(e: Endpoint)
    requires Idle(e)
    ensures SentTracks(e, [])
  {
    assert [] + e.outbox == [];
    forall id: U32 | id in e.channels ensures Announces(e, [] + e.outbox, id) {}
  }

  lemma {:induction false} IdleReflects(e: Endpoint)
    requires Idle(e)
    ensures TakenTracks(e, [])
  {
    assert Taken(e, []) == [];
    forall id: U32 | id in e.channels ensures Reflects(e, Taken(e, []), id) {}
  }

  lemma {:induction false} TracksFromHere(w: World, actions: seq<Action>, all: seq<Message>, v: World)
    requires Inv(w) && SentTracks(w.left, []) && TakenTracks(w.right, [])
    requires all == Carried(w, actions) && v == Run(w, actions)
    ensures SentTracks(v.left, all) && TakenTracks(v.right, all)
  {
    assert [] + all == all;
    RunTracks(w, [], actions, all, v);
  }

  lemma {:induction false} AllTracked(w: World, actions: seq<Action>, all: seq<Message>, v: World)
    requires Opened(w) && all == Carried(w, actions) && v == Run(w, actions)
    ensures SentTracks(v.left, all) && TakenTracks(v.right, all)
  {
    OpenedInv(w);
    IdleAnnounces(w.left);
    IdleReflects(w.right);
    TracksFromHere(w, actions, all, v);
  }

  lemma {:induction false} TakenMeans(e: Endpoint, carried: seq<Message>, id: U32)
    requires TakenTracks(e, carried) && id in e.channels
    ensures |e.inbox| <= |carried| && carried[|carried| - |e.inbox|..] == e.inbox
    ensures var taken := carried[..|carried| - |e.inbox|];
            && (e.channels[id].remote.close <==> Close(id) in taken)
            && (Ended(taken, id) ==> e.channels[id].remote.eof)
            && (e.channels[id].remote.eof ==> EndedButForEmpty(taken, id))
  {
    assert Reflects(e, Taken(e, carried), id);
    CloseCounted(Taken(e, carried), id);
  }

  /** In every run: the peer's close has been recorded exactly when the link has carried one and it has been taken
      in; and so for its end of file, as long as no data for the channel has been taken in since, where data without
      bytes may count either way. */
  lemma {:induction false} FlagsFollowMessages(w: World, actions: seq<Action>, v: World, carried: seq<Message>, id: U32)
    requires Opened(w) && v == Run(w, actions) && carried == Carried(w, actions) && id in v.right.channels
    ensures |v.right.inbox| <= |carried| && carried[|carried| - |v.right.inbox|..] == v.right.inbox
    ensures var taken := carried[..|carried| - |v.right.inbox|];
            && (v.right.channels[id].remote.close <==> Close(id) in taken)
            && (Ended(taken, id) ==> v.right.channels[id].remote.eof)
            && (v.right.channels[id].remote.eof ==> EndedButForEmpty(taken, id))
  {
    AllTracked(w, actions, carried, v);
    TakenMeans(v.right, carried, id);
  }

  /** A writer's end-of-file flag says whether it has sent one, and it sends one close at most, and only once it
      counts the channel as closed. */
  lemma {:induction false} FlagsTellWhatIsSent(w: World, actions: seq<Action>, v: World, carried: seq<Message>, id: U32)
    requires Opened(w) && v == Run(w, actions) && carried == Carried(w, actions) && id in v.left.channels
    ensures var c := v.left.channels[id];
            && (c.local.eof <==> Eof(c.remote.id) in carried + v.left.outbox)
            && CountClose(carried + v.left.outbox, c.remote.id) <= (if c.local.close then 1 else 0)
  {
    AllTracked(w, actions, carried, v);
    assert Announces(v.left, carried + v.left.outbox, id);
  }

  /** So a close that the link has carried is in the socket or has been recorded, and not both. */
  lemma {:induction false} CloseIsRecordedIff(w: World, actions: seq<Action>, v: World, carried: seq<Message>, id: U32,
                                              peer: U32)
    requires Opened(w) && v == Run(w, actions) && carried == Carried(w, actions) && id in v.left.channels
    requires peer == v.left.channels[id].remote.id && peer in v.right.channels
    ensures v.right.channels[peer].remote.close <==> Close(peer) in carried && Close(peer) !in v.right.inbox
  {
    FlagsFollowMessages(w, actions, v, carried, peer);
    FlagsTellWhatIsSent(w, actions, v, carried, id);
    OnceAtMost(carried, v.left.outbox, |carried| - |v.right.inbox|, peer);
  }

  lemma {:induction false} OnceAtMost(carried: seq<Message>, outbox: seq<Message>, n: nat, id: U32)
    requires n <= |carried| && CountClose(carried + outbox, id) <= 1
    ensures Close(id) in carried[..n] <==> Close(id) in carried && Close(id) !in carried[n..]
  {
    CloseConcat(carried, outbox, id);
    CloseConcat(carried[..n], carried[n..], id);
    assert carried[..n] + carried[n..] == carried;
    CloseCounted(carried[..n], id);
    CloseCounted(carried[n..], id);
    CloseCounted(carried, id);
  }
}
