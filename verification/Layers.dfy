/** The layers on top of each other: what a session side queues for its peer, encoded as payloads, sealed as
    packets and opened again, is what the peer's side takes in. */
module Layers {
  import opened Bytes
  import opened Endpoints
  import opened Conservation
  import opened FlowControl
  import opened Wire
  import opened Framing
  import opened Options

  /** The largest packet size of a peer with which everything fits what a reader accepts: 13 bytes of header
      and at most 35 of padding go with the data. */
  const FITTING: nat := MAX_PAYLOAD - 13 - 35

  predicate Sendable(m: Message) {
    !m.Other? && (CarriesData(m) ==> |m.bytes| <= FITTING)
  }

  predicate AllSendable(ms: seq<Message>) {
    forall i :: 0 <= i < |ms| ==> Sendable(ms[i])
  }

  /** What waits to leave can be sent, and what is queued later can as well. */
  ghost predicate Tame(e: Endpoint) {
    AllSendable(e.outbox) && forall id: U32 :: id in e.channels ==> e.channels[id].local.packet <= FITTING
  }

  // ---------- every run keeps to that ----------

  lemma {:induction false} AdjustTame(e: Endpoint, id: U32, amount: U32, force: bool)
    requires Tame(e) && id in e.channels
    ensures Tame(WindowAdjust(e, id, amount, force))
  {
  }

  lemma {:induction false} AdjustAllTame(e: Endpoint, id: U32, amounts: seq<U32>)
    requires Tame(e) && id in e.channels
    ensures Tame(AdjustAll(e, id, amounts))
    decreases |amounts|
  {
    if amounts != [] {
      AdjustTame(e, id, amounts[0], false);
      AdjustAllTame(WindowAdjust(e, id, amounts[0], false), id, amounts[1..]);
    }
  }

  lemma {:induction false} DeliverTame(e: Endpoint)
    requires Tame(e) && e.inbox != []
    ensures Tame(Deliver(e))
  {
    var m, s := e.inbox[0], e.(inbox := e.inbox[1..]);
    if CarriesData(m) && m.channel in e.channels && e.channels[m.channel].mode == Ignore && m.Extended? {
      AdjustTame(s, m.channel, |m.bytes|, false);
    }
  }

  lemma {:induction false} EventTame(e: Endpoint, ev: Event)
    requires Tame(e) && Enabled(e, ev)
    ensures Tame(NextEndpoint(e, ev))
  {
    match ev
    case Arrive => DeliverTame(e);
    case Write(_, _, _) =>
    case Read(id, stream, want) =>
      var scan := ReadList(e.packets, id, stream, e.channels[id].mode, want);
      AdjustAllTame(e.(packets := scan.packets), id, scan.refunds);
    case Discard(id, what) =>
      AdjustTame(e.(packets := FlushList(e.packets, id, what)), id, FlushRefund(e.packets, id, what), false);
    case Grant(id, force) => AdjustTame(e, id, 0, force);
    case End(_) =>
    case Shut(_) =>
  }

  lemma {:induction false} CarryTame(w: World)
    requires Tame(w.left) && Tame(w.right)
    ensures Tame(CarryRight(w).left) && Tame(CarryRight(w).right)
  {
    if w.left.outbox != [] {
      assert forall i :: 0 <= i < |w.left.outbox[1..]| ==> w.left.outbox[1..][i] == w.left.outbox[i + 1];
    }
  }

  lemma {:induction false} NextTame(w: World, a: Action)
    requires Tame(w.left) && Tame(w.right)
    ensures Tame(Next(w, a).left) && Tame(Next(w, a).right)
  {
    if a.AtLeft? {
      if Enabled(w.left, a.event) { EventTame(w.left, a.event); }
    } else if a.AtRight? {
      if Enabled(w.right, a.event) { EventTame(w.right, a.event); }
    } else if a.LinkRight? {
      CarryTame(w);
    } else {
      CarryTame(Mirror(w));
    }
  }

  /** In a run between sides with such packet sizes everything that is ever queued can be sent. */
  lemma {:induction false} RunTame(w: World, actions: seq<Action>)
    requires Tame(w.left) && Tame(w.right)
    ensures Tame(Run(w, actions).left) && Tame(Run(w, actions).right)
    decreases |actions|
  {
    if actions != [] {
      NextTame(w, actions[0]);
      RunTame(Next(w, actions[0]), actions[1..]);
    }
  }

  // ---------- crossing ----------

  /** Messages as payloads with the padding each is given. */
  function Items(ms: seq<Message>, pads: seq<seq<Byte>>): (items: seq<Item>)
    requires |pads| == |ms|
    ensures |items| == |ms|
  {
    if ms == [] then [] else [(Encode(ms[0]), pads[0])] + Items(ms[1..], pads[1..])
  }

  predicate PadsFit(ms: seq<Message>, pads: seq<seq<Byte>>, block: nat)
    requires block > 0
  {
    |pads| == |ms| && forall i :: 0 <= i < |ms| ==> |pads[i]| == PadLength(|Encode(ms[i])|, block)
  }

  /** What a reader's outcomes come to as messages. */
  function Messages(outcomes: seq<Outcome>): Option<seq<Message>> {
    if outcomes == [] then Some([])
    else if outcomes[0].Packet? && outcomes[0].confirmed && Complete(outcomes[0].data) then
      match Messages(outcomes[1..])
      case None => None
      case Some(ms) => Some([Decode(outcomes[0].data)] + ms)
    else None
  }

  lemma {:induction false} MessageFits(m: Message, pad: seq<Byte>, block: nat)
    requires Sendable(m) && 8 <= block <= 32 && |pad| == PadLength(|Encode(m)|, block)
    ensures Fits((Encode(m), pad), block)
  {
    PadLengthShortest(|Encode(m)|, block);
  }

  lemma {:induction false} ItemsFit(ms: seq<Message>, pads: seq<seq<Byte>>, block: nat)
    requires 8 <= block <= 32 && AllSendable(ms) && PadsFit(ms, pads, block)
    ensures AllFit(Items(ms, pads), block)
    decreases |ms|
  {
    if ms != [] {
      MessageFits(ms[0], pads[0], block);
      Rest(ms, pads, block);
      ItemsFit(ms[1..], pads[1..], block);
      var rest := Items(ms[1..], pads[1..]);
      forall i | 0 <= i < |ms| ensures Fits(Items(ms, pads)[i], block) {
        if i > 0 { assert Items(ms, pads)[i] == rest[i - 1]; }
      }
    }
  }

  lemma {:induction false} Rest(ms: seq<Message>, pads: seq<seq<Byte>>, block: nat)
    requires block > 0 && ms != [] && AllSendable(ms) && PadsFit(ms, pads, block)
    ensures AllSendable(ms[1..]) && PadsFit(ms[1..], pads[1..], block)
  {
    assert forall i :: 0 <= i < |ms[1..]| ==> ms[1..][i] == ms[i + 1] && pads[1..][i] == pads[i + 1];
  }

  lemma {:induction false} DeliveredDecode(ms: seq<Message>, pads: seq<seq<Byte>>)
    requires AllSendable(ms) && |pads| == |ms|
    ensures forall i :: 0 <= i < |ms| ==> Items(ms, pads)[i].0 + Items(ms, pads)[i].1 != []
    ensures Messages(Delivered(Items(ms, pads))) == Some(ms)
    decreases |ms|
  {
    var items := Items(ms, pads);
    if ms != [] {
      var tail, rest := ms[1..], Items(ms[1..], pads[1..]);
      assert forall i :: 0 <= i < |tail| ==> tail[i] == ms[i + 1];
      assert items[1..] == rest && items[0] == (Encode(ms[0]), pads[0]);
      DeliveredDecode(tail, pads[1..]);
      DecodeOfEncode(ms[0]);
      forall i | 0 <= i < |ms| ensures items[i].0 + items[i].1 != [] {
        if i > 0 { assert items[i] == rest[i - 1]; }
      }
      DeliveredCons(items);
      assert [ms[0]] + tail == ms;
    }
  }

  lemma {:induction false} DeliveredCons(items: seq<Item>)
    requires items != [] && forall i :: 0 <= i < |items| ==> items[i].0 + items[i].1 != []
    ensures var all := Delivered(items);
            && all != [] && all[1..] == Delivered(items[1..])
            && all[0] == Packet(items[0].0, (items[0].0 + items[0].1)[0], true)
  {
  }

  /** Messages written one after the other, whatever their padding, are read as the same messages, with reader
      and writer in step again and nothing left over. */
  lemma {:induction false} MessagesCross<S(!new)>(c: Cipher<S>, m: Mac, s: S, seqno: U32, ms: seq<Message>,
                                                  pads: seq<seq<Byte>>, after: seq<Byte>)
    requires Lawful(c) && LawfulMac(m) && AllSendable(ms) && PadsFit(ms, pads, c.size)
    ensures AllFit(Items(ms, pads), c.size)
    ensures var (t, n, wire) := SealAll(c, m, s, seqno, Items(ms, pads));
            var (u, k, outcomes, rest) := OpenAll(c, m, s, seqno, wire + after, |ms|);
            u == t && k == n && rest == after && Messages(outcomes) == Some(ms)
  {
    ItemsFit(ms, pads, c.size);
    DeliveredDecode(ms, pads);
    StreamRoundTrip(c, m, s, seqno, Items(ms, pads), after);
  }

  /** The link of the step system, as packets: whatever a side has queued at any point of a run arrives as
      those messages, in that order. */
  lemma {:induction false} OutboxCrosses<S(!new)>(w: World, actions: seq<Action>, c: Cipher<S>, m: Mac, s: S,
                                                  seqno: U32, pads: seq<seq<Byte>>)
    requires Tame(w.left) && Tame(w.right) && Lawful(c) && LawfulMac(m)
    requires PadsFit(Run(w, actions).left.outbox, pads, c.size)
    ensures var ms := Run(w, actions).left.outbox;
            && AllFit(Items(ms, pads), c.size)
            && var (t, n, wire) := SealAll(c, m, s, seqno, Items(ms, pads));
               var (u, k, outcomes, rest) := OpenAll(c, m, s, seqno, wire, |ms|);
               u == t && k == n && rest == [] && Messages(outcomes) == Some(ms)
  {
    RunTame(w, actions);
    var ms := Run(w, actions).left.outbox;
    MessagesCross(c, m, s, seqno, ms, pads, []);
    var wire := SealAll(c, m, s, seqno, Items(ms, pads)).2;
    assert wire + [] == wire;
  }
}
