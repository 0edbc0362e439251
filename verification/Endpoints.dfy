/** One side of an SSH connection as a value: its channels, its packet brigade, the
    messages waiting in its socket and the messages it has sent.  Every operation of
    `channel.c` and `packet.c` that moves channel data or window credit is a function
    from one such value to the next. */
module Endpoints {
  import opened Bytes

  const MIN_ADJUST: U32 := 1024

  // ---------- messages ----------

  /** Data that fits one message, whose length is an unsigned 32-bit number. */
  type Chunk = s: seq<Byte> | |s| + 13 < WORD

  /** The messages of the connection protocol that move data, credit and the state of a channel.
      `Other` stands for the packets that packet_add only appends to the brigade. */
  datatype Message =
    | Data(channel: U32, bytes: Chunk)
    | Extended(channel: U32, stream: U32, bytes: Chunk)
    | Adjust(channel: U32, amount: U32)
    | Eof(channel: U32)
    | Close(channel: U32)
    | Other(kind: Byte)

  predicate CarriesData(m: Message) {
    m.Data? || m.Extended?
  }

  /** Where the data of a message starts: `data_head` as packet_add computes it. */
  function HeaderLength(m: Message): nat {
    if m.Data? then 9 else if m.Extended? then 13 else 0
  }

  /** `data_len` of a data message, its header included. */
  function Length(m: Message): U32
    requires CarriesData(m)
  {
    HeaderLength(m) + |m.bytes|
  }

  predicate IsDataFor(m: Message, id: U32) {
    CarriesData(m) && m.channel == id
  }

  /** Stream 0 is plain data; every other stream is extended data with that code. */
  predicate OnStream(m: Message, id: U32, stream: U32) {
    && IsDataFor(m, id)
    && if stream == 0 then m.Data? else m.Extended? && m.stream == stream
  }

  function DataMessage(id: U32, stream: U32, payload: Chunk): Message {
    if stream == 0 then Data(id, payload) else Extended(id, stream, payload)
  }

  // ---------- state ----------

  /** One direction of a channel; `local` means that this side is the source of data. */
  datatype Half = Half(id: U32, initial: U32, window: U32, packet: U32, eof: bool, close: bool)

  datatype Mode = Normal | Ignore | Merge

  datatype Channel = Channel(local: Half, remote: Half, mode: Mode, adjustQueue: U32, blocking: bool)

  /** A packet in the brigade; `taken` is how much of its data has been consumed, which is
      `data_head` less the header. */
  datatype RawPacket = RawPacket(data: Message, taken: nat)
  type Packet = p: RawPacket | p.taken <= (if CarriesData(p.data) then |p.data.bytes| else 0)
    witness RawPacket(Eof(0), 0)

  /** `faults` decides the fate of the coming sends: true fails one, and none fails when it is used up. */
  datatype Endpoint = Endpoint(channels: map<U32, Channel>, packets: seq<Packet>,
                               inbox: seq<Message>, outbox: seq<Message>, faults: seq<bool>)

  /** A channel is filed under its own local id. */
  ghost predicate WellFiled(e: Endpoint) {
    forall id :: id in e.channels ==> e.channels[id].local.id == id
  }

  // ---------- sending ----------

  /** `libssh2_packet_write`, as far as the connection layer sees it. */
  function Send(e: Endpoint, m: Message): (Endpoint, bool) {
    if e.faults != [] && e.faults[0] then (e.(faults := e.faults[1..]), false)
    else (e.(outbox := e.outbox + [m], faults := if e.faults == [] then [] else e.faults[1..]), true)
  }

  function WithChannel(e: Endpoint, id: U32, c: Channel): Endpoint {
    e.(channels := e.channels[id := c])
  }

  /** `libssh2_channel_receive_window_adjust` */
  function WindowAdjust(e: Endpoint, id: U32, amount: U32, force: bool): (r: Endpoint)
    requires id in e.channels
    ensures r.channels.Keys == e.channels.Keys
  {
    var c := e.channels[id];
    if !force && Add32(amount, c.adjustQueue) < MIN_ADJUST then
      WithChannel(e, id, c.(adjustQueue := Add32(c.adjustQueue, amount)))
    else if amount == 0 && c.adjustQueue == 0 then
      e
    else
      var total := Add32(amount, c.adjustQueue);
      var (s, sent) := Send(e, Adjust(c.remote.id, total));
      if sent then
        WithChannel(s, id, c.(adjustQueue := 0, remote := c.remote.(window := Add32(c.remote.window, total))))
      else
        WithChannel(s, id, c.(adjustQueue := total))
  }

  /** The size of the piece that one round of `libssh2_channel_write_ex` sends. */
  function ChunkSize(c: Channel, buflen: nat): nat {
    var n := if buflen > c.local.window then c.local.window else buflen;
    if n > c.local.packet then c.local.packet else n
  }

  /** One round of the write loop, once there is window: the new state, and whether it went out. */
  function SendChunk(e: Endpoint, id: U32, stream: U32, buf: Chunk): (r: (Endpoint, bool))
    requires id in e.channels
    ensures r.0.channels.Keys == e.channels.Keys
  {
    var c := e.channels[id];
    var n := ChunkSize(c, |buf|);
    var (s, sent) := Send(e, DataMessage(c.remote.id, stream, buf[..n]));
    if sent then (WithChannel(s, id, c.(local := c.local.(window := c.local.window - n))), true)
    else (s, false)
  }

  /** `libssh2_channel_send_eof` */
  function SendEof(e: Endpoint, id: U32): (r: Endpoint)
    requires id in e.channels
    ensures r.channels.Keys == e.channels.Keys
  {
    var c := e.channels[id];
    var (s, sent) := Send(e, Eof(c.remote.id));
    if sent then WithChannel(s, id, c.(local := c.local.(eof := true))) else s
  }

  /** `libssh2_channel_close`: the flag is set before the message is tried. */
  function SendClose(e: Endpoint, id: U32): (r: Endpoint)
    requires id in e.channels
    ensures r.channels.Keys == e.channels.Keys
  {
    var c := e.channels[id];
    if c.local.close then e
    else Send(WithChannel(e, id, c.(local := c.local.(close := true))), Close(c.remote.id)).0
  }

  // ---------- receiving ----------

  /** How much of a data message packet_add keeps. */
  function KeptSize(c: Channel, m: Message): nat
    requires CarriesData(m)
    ensures KeptSize(c, m) <= |m.bytes|
  {
    var byPacket := if c.remote.packet < |m.bytes| then c.remote.packet else |m.bytes|;
    if byPacket > c.remote.window then c.remote.window else byPacket
  }

  /** The window that packet_add leaves: a message that it cuts to the window is not charged for. */
  function ChargedWindow(c: Channel, m: Message): U32
    requires CarriesData(m)
  {
    var byPacket := if c.remote.packet < |m.bytes| then c.remote.packet else |m.bytes|;
    if byPacket > c.remote.window then c.remote.window else c.remote.window - byPacket
  }

  function Truncated(m: Message, size: nat): Message
    requires CarriesData(m) && size <= |m.bytes|
  {
    if m.Data? then Data(m.channel, m.bytes[..size])
    else if m.Extended? then Extended(m.channel, m.stream, m.bytes[..size])
    else m
  }

  function AddData(e: Endpoint, m: Message): (r: Endpoint)
    requires CarriesData(m)
    ensures r.channels.Keys == e.channels.Keys
  {
    var id := m.channel;
    if id !in e.channels then e
    else
      var c := e.channels[id];
      if c.mode == Ignore && m.Extended? then WindowAdjust(e, id, |m.bytes|, false)
      else if c.remote.window == 0 then e
      else
        WithChannel(e, id, c.(remote := c.remote.(eof := false, window := ChargedWindow(c, m))))
          .(packets := e.packets + [RawPacket(Truncated(m, KeptSize(c, m)), 0)])
  }

  /** `libssh2_packet_add` for a message whose MAC was confirmed. */
  function PacketAdd(e: Endpoint, m: Message): (r: Endpoint)
    ensures r.channels.Keys == e.channels.Keys
  {
    if CarriesData(m) then AddData(e, m)
    else if m.Other? then e.(packets := e.packets + [RawPacket(m, 0)])
    else if m.channel !in e.channels then e
    else
      var c := e.channels[m.channel];
      match m
      case Eof(id) => WithChannel(e, id, c.(remote := c.remote.(eof := true)))
      case Close(id) => WithChannel(e, id, c.(remote := c.remote.(close := true)))
      case Adjust(id, amount) => WithChannel(e, id, c.(local := c.local.(window := Add32(c.local.window, amount))))
  }

  /** `libssh2_packet_read` when a message has arrived. */
  function Deliver(e: Endpoint): (r: Endpoint)
    requires e.inbox != []
    ensures r.channels.Keys == e.channels.Keys
    ensures r.inbox == e.inbox[1..]
  {
    PacketAdd(e.(inbox := e.inbox[1..]), e.inbox[0])
  }

  /** `while (libssh2_packet_read(session, 0) > 0);` */
  function Drain(e: Endpoint): (r: Endpoint)
    ensures r.channels.Keys == e.channels.Keys
    ensures r.inbox == []
    decreases |e.inbox|
  {
    if e.inbox == [] then e else Drain(Deliver(e))
  }

  // ---------- reading ----------

  /** The three ways a packet can match a read, in the source's order. */
  predicate Readable(p: Packet, id: U32, stream: U32, mode: Mode) {
    || OnStream(p.data, id, stream)
    || (stream == 0 && p.data.Extended? && p.data.channel == id && mode == Merge)
  }

  /** What the scan of `libssh2_channel_read_ex` leaves of the brigade, returns, and refunds. */
  datatype Scan = Scan(packets: seq<Packet>, bytes: seq<Byte>, refunds: seq<U32>)

  /** What a read refunds for a packet it has emptied: the header is taken to be that of the stream asked for. */
  function Refund(m: Message, stream: U32): U32
    requires CarriesData(m)
  {
    Sub32(Length(m), if stream != 0 then 13 else 9)
  }

  function ReadList(ps: seq<Packet>, id: U32, stream: U32, mode: Mode, want: nat): Scan {
    if ps == [] || want == 0 then Scan(ps, [], [])
    else
      var p := ps[0];
      if !Readable(p, id, stream, mode) then
        var rest := ReadList(ps[1..], id, stream, mode, want);
        rest.(packets := [p] + rest.packets)
      else
        var left := p.data.bytes[p.taken..];
        if want >= |left| then
          var rest := ReadList(ps[1..], id, stream, mode, want - |left|);
          Scan(rest.packets, left + rest.bytes, [Refund(p.data, stream)] + rest.refunds)
        else
          Scan([p.(taken := p.taken + want)] + ps[1..], left[..want], [])
  }

  function AdjustAll(e: Endpoint, id: U32, amounts: seq<U32>): (r: Endpoint)
    requires id in e.channels
    ensures r.channels.Keys == e.channels.Keys
    decreases |amounts|
  {
    if amounts == [] then e
    else AdjustAll(WindowAdjust(e, id, amounts[0], false), id, amounts[1..])
  }

  /** One pass of `libssh2_channel_read_ex` over the brigade: the new state and the bytes returned. */
  function ReadScan(e: Endpoint, id: U32, stream: U32, want: nat): (r: (Endpoint, seq<Byte>))
    requires id in e.channels
    ensures r.0.channels.Keys == e.channels.Keys
  {
    var scan := ReadList(e.packets, id, stream, e.channels[id].mode, want);
    (AdjustAll(e.(packets := scan.packets), id, scan.refunds), scan.bytes)
  }

  // ---------- flushing ----------

  datatype FlushWhat = FlushStream(stream: U32) | FlushExtended | FlushAll

  predicate Flushable(p: Packet, id: U32, what: FlushWhat) {
    && IsDataFor(p.data, id)
    && match what
       case FlushAll => true
       case FlushExtended => p.data.Extended?
       case FlushStream(s) => if p.data.Data? then s == 0 else s == p.data.stream
  }

  function FlushList(ps: seq<Packet>, id: U32, what: FlushWhat): seq<Packet> {
    if ps == [] then []
    else (if Flushable(ps[0], id, what) then [] else [ps[0]]) + FlushList(ps[1..], id, what)
  }

  /** `refund_bytes`: thirteen less than each packet's length, whatever its type. */
  function FlushRefund(ps: seq<Packet>, id: U32, what: FlushWhat): U32 {
    if ps == [] then 0
    else
      var rest := FlushRefund(ps[..|ps| - 1], id, what);
      var p := ps[|ps| - 1];
      if Flushable(p, id, what) then Add32(rest, Sub32(Length(p.data), 13)) else rest
  }

  /** `flush_bytes`: what the flush keeps its caller from reading. */
  function FlushedSize(ps: seq<Packet>, id: U32, what: FlushWhat): nat {
    if ps == [] then 0
    else
      var p := ps[|ps| - 1];
      FlushedSize(ps[..|ps| - 1], id, what) + if Flushable(p, id, what) then |p.data.bytes| - p.taken else 0
  }

  /** `libssh2_channel_flush_ex` */
  function Flush(e: Endpoint, id: U32, what: FlushWhat): (r: Endpoint)
    requires id in e.channels
    ensures r.channels.Keys == e.channels.Keys
  {
    var refund := FlushRefund(e.packets, id, what);
    var s := e.(packets := FlushList(e.packets, id, what));
    if refund != 0 then WindowAdjust(s, id, refund, false) else s
  }

  // ---------- whole calls ----------

  /** The write loop of `libssh2_channel_write_ex`.  While there is no window it takes in messages;
      -1 stands for a failed send or for a wait that nothing ends. */
  function WriteLoop(e: Endpoint, id: U32, stream: U32, buf: Chunk, wrote: nat): (r: (Endpoint, int))
    requires id in e.channels
    requires e.channels[id].blocking ==> e.channels[id].local.packet > 0
    ensures r.0.channels.Keys == e.channels.Keys
    decreases |buf|, |e.inbox|
  {
    if buf == [] then (e, wrote)
    else if e.channels[id].local.window == 0 then
      if e.inbox == [] then (e, -1)
      else
        KeepsSettings(e, id);
        WriteLoop(Deliver(e), id, stream, buf, wrote)
    else
      var (s, sent) := SendChunk(e, id, stream, buf);
      var n := ChunkSize(e.channels[id], |buf|);
      if !sent then (s, -1)
      else if !s.channels[id].blocking then (s, wrote + n)
      else WriteLoop(s, id, stream, buf[n..], wrote + n)
  }

  lemma KeepsSettings(e: Endpoint, id: U32)
    requires id in e.channels && e.inbox != []
    ensures var c, d := e.channels[id], Deliver(e).channels[id];
            d.blocking == c.blocking && d.mode == c.mode && d.local.packet == c.local.packet &&
            d.local.id == c.local.id && d.local.close == c.local.close
  {
  }

  function WriteEx(e: Endpoint, id: U32, stream: U32, buf: Chunk): (r: (Endpoint, int))
    requires id in e.channels
    requires e.channels[id].blocking ==> e.channels[id].local.packet > 0
    ensures r.0.channels.Keys == e.channels.Keys
  {
    var c := e.channels[id];
    if c.local.close then (e, -1)
    else if !c.blocking && c.local.window == 0 then (e, 0)
    else WriteLoop(e, id, stream, buf, 0)
  }

  /** One turn of the loop of `libssh2_channel_read_ex`: take in what has arrived, then scan. */
  function ReadTurn(e: Endpoint, id: U32, stream: U32, want: nat): (r: (Endpoint, seq<Byte>))
    requires id in e.channels
    ensures r.0.channels.Keys == e.channels.Keys
  {
    ReadScan(Drain(e), id, stream, want)
  }

  /** `libssh2_channel_read_ex`.  On a channel that blocks it goes on until there are bytes or the peer has
      closed; `later` is what arrives while it waits, turn by turn.  The flag tells whether it came back. */
  function ReadEx(e: Endpoint, id: U32, stream: U32, want: nat, later: seq<seq<Message>>)
    : (r: (Endpoint, seq<Byte>, bool))
    requires id in e.channels
    ensures r.0.channels.Keys == e.channels.Keys
    decreases |later|
  {
    var (f, bytes) := ReadTurn(e, id, stream, want);
    if !f.channels[id].blocking || bytes != [] || f.channels[id].remote.close then (f, bytes, true)
    else if later == [] then (f, [], false)
    else ReadEx(f.(inbox := f.inbox + later[0]), id, stream, want, later[1..])
  }
}
