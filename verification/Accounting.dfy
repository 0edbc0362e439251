/** Measures on queues of messages and packets, and the two credits that an endpoint keeps. */
module Accounting {
  import opened Bytes
  import opened Endpoints

  // ---------- what a message weighs for one channel ----------

  function DataSize(m: Message, id: U32): nat {
    if IsDataFor(m, id) then |m.bytes| else 0
  }

  function CreditSize(m: Message, id: U32): nat {
    if m.Adjust? && m.channel == id then m.amount else 0
  }

  function StreamPart(m: Message, id: U32, stream: U32): seq<Byte> {
    if OnStream(m, id, stream) then m.bytes else []
  }

  // ---------- queues of messages ----------

  function DataIn(ms: seq<Message>, id: U32): nat {
    if ms == [] then 0 else DataSize(ms[0], id) + DataIn(ms[1..], id)
  }

  function CreditIn(ms: seq<Message>, id: U32): nat {
    if ms == [] then 0 else CreditSize(ms[0], id) + CreditIn(ms[1..], id)
  }

  function BytesIn(ms: seq<Message>, id: U32, stream: U32): seq<Byte> {
    if ms == [] then [] else StreamPart(ms[0], id, stream) + BytesIn(ms[1..], id, stream)
  }

  lemma {:induction false} DataInAppend(ms: seq<Message>, m: Message, id: U32)
    ensures DataIn(ms + [m], id) == DataIn(ms, id) + DataSize(m, id)
  {
    if ms != [] {
      assert (ms + [m])[1..] == ms[1..] + [m];
      DataInAppend(ms[1..], m, id);
    }
  }

  lemma {:induction false} CreditInAppend(ms: seq<Message>, m: Message, id: U32)
    ensures CreditIn(ms + [m], id) == CreditIn(ms, id) + CreditSize(m, id)
  {
    if ms != [] {
      assert (ms + [m])[1..] == ms[1..] + [m];
      CreditInAppend(ms[1..], m, id);
    }
  }

  lemma {:induction false} BytesInAppend(ms: seq<Message>, m: Message, id: U32, stream: U32)
    ensures BytesIn(ms + [m], id, stream) == BytesIn(ms, id, stream) + StreamPart(m, id, stream)
  {
    if ms != [] {
      assert (ms + [m])[1..] == ms[1..] + [m];
      BytesInAppend(ms[1..], m, id, stream);
    }
  }

  /** The data messages (false) and end-of-file messages (true) of one channel, in order. */
  function Marks(ms: seq<Message>, id: U32): seq<bool> {
    if ms == [] then [] else Mark(ms[0], id) + Marks(ms[1..], id)
  }

  function Mark(m: Message, id: U32): seq<bool> {
    if IsDataFor(m, id) then [false] else if m == Eof(id) then [true] else []
  }

  lemma {:induction false} MarksAppend(ms: seq<Message>, m: Message, id: U32)
    ensures Marks(ms + [m], id) == Marks(ms, id) + Mark(m, id)
  {
    if ms != [] {
      assert (ms + [m])[1..] == ms[1..] + [m];
      MarksAppend(ms[1..], m, id);
    }
  }

  lemma {:induction false} MarksHaveEof(ms: seq<Message>, id: U32)
    ensures true in Marks(ms, id) <==> Eof(id) in ms
  {
    if ms != [] {
      MarksHaveEof(ms[1..], id);
      assert Marks(ms, id) == Mark(ms[0], id) + Marks(ms[1..], id);
    }
  }

  /** Which data is whose: plain data is on stream 0 of its channel, extended data on the stream of its code. */
  lemma {:induction false} OnStreamIff(m: Message, id: U32, stream: U32)
    ensures OnStream(m, id, stream) <==>
              || (m.Data? && m.channel == id && stream == 0)
              || (m.Extended? && m.channel == id && m.stream == stream && stream != 0)
  {
  }

  /** Without a data mark there are no bytes. */
  lemma {:induction false} NoMarkNoBytes(ms: seq<Message>, id: U32, stream: U32)
    requires false !in Marks(ms, id)
    ensures BytesIn(ms, id, stream) == []
  {
    if ms != [] {
      assert Marks(ms, id) == Mark(ms[0], id) + Marks(ms[1..], id);
      assert forall b :: b in Mark(ms[0], id) ==> b in Marks(ms, id);
      NoMarkNoBytes(ms[1..], id, stream);
    }
  }

  // ---------- the brigade ----------

  /** Window charged for the packets of one channel that are still in the brigade. */
  function Queued(ps: seq<Packet>, id: U32): nat {
    if ps == [] then 0 else DataSize(ps[0].data, id) + Queued(ps[1..], id)
  }

  function Unread(p: Packet, id: U32, stream: U32): seq<Byte> {
    if OnStream(p.data, id, stream) then p.data.bytes[p.taken..] else []
  }

  /** Bytes of one stream that are still to be read. */
  function Pending(ps: seq<Packet>, id: U32, stream: U32): seq<Byte> {
    if ps == [] then [] else Unread(ps[0], id, stream) + Pending(ps[1..], id, stream)
  }

  lemma PendingCons(p: Packet, ps: seq<Packet>, id: U32, stream: U32)
    ensures Pending([p] + ps, id, stream) == Unread(p, id, stream) + Pending(ps, id, stream)
  {
    assert ([p] + ps)[1..] == ps;
  }

  function SumOf(amounts: seq<U32>): nat {
    if amounts == [] then 0 else amounts[0] + SumOf(amounts[1..])
  }

  lemma {:induction false} QueuedAppend(ps: seq<Packet>, p: Packet, id: U32)
    ensures Queued(ps + [p], id) == Queued(ps, id) + DataSize(p.data, id)
  {
    if ps != [] {
      assert (ps + [p])[1..] == ps[1..] + [p];
      QueuedAppend(ps[1..], p, id);
    }
  }

  lemma {:induction false} PendingAppend(ps: seq<Packet>, p: Packet, id: U32, stream: U32)
    ensures Pending(ps + [p], id, stream)
         == Pending(ps, id, stream) + Unread(p, id, stream)
  {
    if ps != [] {
      assert (ps + [p])[1..] == ps[1..] + [p];
      PendingAppend(ps[1..], p, id, stream);
    }
  }

  // ---------- the credits of an endpoint ----------

  /** What this side may still send on a channel, with what it has sent but the socket still holds,
      and with the credit that waits in its socket. */
  function SendCredit(e: Endpoint, id: U32): nat
    requires id in e.channels
  {
    e.channels[id].local.window + DataIn(e.outbox, e.channels[id].remote.id) + CreditIn(e.inbox, id)
  }

  /** What this side is still ready to receive, less what already waits and what it has granted
      but not yet put on the wire. */
  function RecvCredit(e: Endpoint, id: U32): int
    requires id in e.channels
  {
    e.channels[id].remote.window - DataIn(e.inbox, id) - CreditIn(e.outbox, e.channels[id].remote.id)
  }

  /** All the credit of the receiving half: offered, waiting for an adjust, or held by queued packets. */
  function Held(e: Endpoint, id: U32): nat
    requires id in e.channels
  {
    e.channels[id].remote.window + e.channels[id].adjustQueue + Queued(e.packets, id)
  }
}
