# A verified model of the agent's SSH transport and of its smaller algorithms

The Windows agent carries a copy of libssh2 for its transfers.  This project models the hard core of that
library and of four smaller algorithms beside it in Dafny, and proves what they are for.

* **Channel flow control.**  `Endpoints` holds one side of a session as a value: channels with their windows,
  the brigade of unread packets, the bytes waiting in the socket and on the wire.  Its functions follow
  `channel.c` and `packet.c` branch by branch, with unsigned 32-bit arithmetic that wraps.  `Conservation` and
  `Streams` say what one operation keeps, `FlowControl` puts two endpoints and two links together and proves
  what holds over every run and interleaving, `Stall` shows that the limit in the no-stall theorem is needed,
  and `Refunds` states exactly when the books stay right in the modes and calls where the code miscounts.
  `Sessions` is the same in place: objects whose methods change fields, each proved equal to the value model;
  `Calls` shows that whole calls are runs of the step system that add to its histories just what they accept or
  return, `Outcomes` and `Reads` say exactly when they fail, wait and come back and what they return, and `Flags`
  ties the end-of-file and close flags to the messages that were carried.
* **Binary packets.**  `Framing` is the packet format over any block cipher with a left inverse and any MAC,
  with the round trip of whole streams.  `Transport` is the writer and the reader over buffers, `Cleartext` the
  branch used before keys are exchanged, `Wire` the byte layout of the channel messages, and `Layers` puts the
  link of the step system on top of all that.
* **Linked structures.**  `LinkedLists` is the doubly linked list with its pointer writes; `Brigade`,
  `ChannelIds` and `ChannelTables` are the packet brigade and the channel list on it.
* **Key exchange.**  `NameLists`, `KexInit`, `Negotiation` and `KexSessions` build, parse and settle a
  negotiation as in section 7.1 of RFC 4253; `KeyStretch` derives keys as in section 7.2.
* **Smaller algorithms.**  `Md5` over any block function, `Base64`, `ServiceTimer`, and `StrReplace`.

Properties that the code does not have are stated with the exact condition under which it does: no stall only
from a window of 1024 on (`Stall.SmallWindowStalls`), end of file with data behind it
(`FlowControl.EofMeansEverythingReadIff`, `Stall.LateDataUnderEof`), a poll into an empty brigade
(`Brigade.PolledIsMissedIff`), the refunds of merged, ignored and flushed packets
(`Refunds`), the read of a clear packet that may not block (`Cleartext.ClearRoundTripIff`), the comparison of
MACs as strings (`Framing.StrnEqualIff`), unknown names in a preference string (`Negotiation.PickFollowsRuleIff`,
`Negotiation.KexRuleIff`), ids past the wrap-around (`ChannelIds.NextIdFreshIff`, `ChannelIds.WrappedIdIsTaken`),
short sends (`Transport.Exchange`), waits of more than 2^32 ticks
(`ServiceTimer.WaitIsRightIff`), and stray bits at the end of base64 text (`Base64.EncodeOfDecodeIff`).

Where code and comment disagree the model follows the code.  The loop over default host keys tests its pointer at
`ssh/libssh2/kex.c:955` where the other loops test what it points to; it is modelled with the guard of
`ssh/libssh2/kex.c:1020`.  What sockets, clocks, random numbers and the functions of other libraries yield are
parameters: `Endpoint.faults` says which sends fail, `inbox` what arrives, `Turn` what the clock shows, and hashes,
ciphers and block functions are function values with no more than the laws stated.

`dafny verify dfyconfig.toml` checks everything.

## Model

| member | source | states |
|---|---|---|
| `FlowControl.WindowsAgree` | `ssh/libssh2/channel.c:812-1035` | In every reachable state of two endpoints and two links, the receiver's `remote.window_size` is the sender's `local.window_size` plus data and credit under way, and `remote.window_size + adjust_queue +` queued data is `window_size_initial` |
| `FlowControl.NothingEverCut` | `ssh/libssh2/packet.c:456-478` | No reachable delivery is truncated to packet or window size or dropped for lack of window, and each is charged in full |
| `FlowControl.ReadsReturnPrefixOfWrites` | `ssh/libssh2/channel.c:873-1040` | What writers got onto a stream is, in order, what was taken out, what waits in brigade and socket, and what waits on the wire; without a flush, what reads returned is a prefix of what was written |
| `FlowControl.EofMeansEverythingReadIff` | `ssh/libssh2/channel.c:1069-1085` | When `channel_eof` says end of file, everything written to a stream has been taken out if and only if nothing of the stream is still under way |
| `FlowControl.EofMeansEverythingRead` | `ssh/libssh2/channel.c:1069-1085` | In particular when the writer sent nothing after its end of file; and then it has been returned unless flushed |
| `FlowControl.EofIsSeenIff` | `ssh/libssh2/channel.c:1046-1063` | In every reachable state a writer that has sent nothing after its end of file has sent one if and only if the reader has recorded it or it is still under way |
| `FlowControl.ChannelEofIff` | `ssh/libssh2/channel.c:1069-1085` | `channel_eof` says end of file if and only if the peer's has been recorded and no packet of data for the channel waits |
| `Flags.FlagsFollowMessages` | `ssh/libssh2/packet.c:481-535` | In every run, whatever the writer does: `remote.close` is set if and only if the link has carried a close for the channel and it has been taken in, and `remote.eof` exactly so for an end of file with no data behind it (data without bytes may count either way) |
| `Flags.CloseIsRecordedIff` | `ssh/libssh2/packet.c:517-535` | In every run `remote.close` holds if and only if the link has carried a close for the channel and none is left in the socket |
| `Flags.FlagsTellWhatIsSent` | `ssh/libssh2/channel.c:1046-1119` | In every run `local.eof` holds if and only if an end of file has been sent, and one close at most is sent, only under `local.close` |
| `Flags.FlagsTakenIn` | `ssh/libssh2/packet.c:421-535` | Which message does what to the two flags: close and end of file are recorded, data takes end of file back, nothing else touches them |
| `Accounting.OnStreamIff` | `ssh/libssh2/channel.c:897-899` | Which messages carry bytes of a stream: data for stream 0, extended data for the other one it names |
| `Flags.EndedIff` | `ssh/libssh2/packet.c:481-516` | Ended means an end of file with no later data for the channel |
| `Stall.LateDataUnderEof` | `ssh/libssh2/channel.c:950-1063` | A writer may go on after its end of file, and then a run ends with end of file shown while bytes are under way |
| `FlowControl.StalledIffAllQueued` | `ssh/libssh2/channel.c:816-829` | With nothing under way and nothing left to read, the writer has no window exactly when the reader's whole initial window sits in its adjust queue |
| `FlowControl.NoStall` | `ssh/libssh2/channel.c:816-829` | With an initial window of at least 1024 and adjust packets that are sent, no such state leaves the writer without window |
| `Stall.SmallWindowStalls` | `ssh/libssh2/channel.c:816-829` | For every initial window from 1 to 1023 a run without failures ends with nothing under way, everything read, and no window for the writer |
| `FlowControl.RunKeeps` | `ssh/libssh2/channel.c:812-1035` | Every event of either side and every crossing of a link, in any order and number, keeps the invariant of the connection |
| `FlowControl.MirrorReachable` | `ssh/libssh2/channel.c:812-1035` | The two directions are alike: a reachable state with the sides exchanged is reachable |
| `Conservation.WindowAdjustExact` | `ssh/libssh2/channel.c:812-848` | Granting an amount raises window plus queue by exactly that amount, also when the adjust packet cannot be sent and is queued again, and puts on the wire what it takes off the books |
| `Conservation.AdjustQueueBelowThreshold` | `ssh/libssh2/channel.c:816-848` | Unless an adjust packet fails to be sent, less than the threshold stays queued |
| `Conservation.ForceAdjustConserves` | `ssh/libssh2/channel.c:812-848` | A forced adjustment by zero keeps sender and receiver credit and the receiver's books |
| `Conservation.SendChunkConserves` | `ssh/libssh2/channel.c:980-1035` | Sending one piece, or failing to, keeps all credits and the receiver's books |
| `Conservation.DeliverConserves` | `ssh/libssh2/packet.c:421-574` | Taking in one message keeps all credits and the books of every channel |
| `Conservation.ReadScanConserves` | `ssh/libssh2/channel.c:888-935` | A read of any stream with any buffer size keeps all credits and books: it refunds what it takes |
| `Conservation.FlushConserves` | `ssh/libssh2/channel.c:744-792` | A flush that spares stream 0 keeps all credits and books |
| `Streams.SendChunkAppends` | `ssh/libssh2/channel.c:1010-1032` | A piece that is sent appends exactly the front part of the buffer to its stream and nothing to any other |
| `Streams.DeliverKeepsBytes` | `ssh/libssh2/packet.c:421-600` | Taking in a message neither loses, duplicates nor reorders a byte of any stream |
| `Streams.ReadScanTakesFront` | `ssh/libssh2/channel.c:888-935` | A read returns the oldest bytes of its stream and leaves the others of it |
| `Streams.ReadScanSparesOthers` | `ssh/libssh2/channel.c:888-935` | A read leaves every other stream as it was |
| `Refunds.ReceiveKeepsBooksIff` | `ssh/libssh2/packet.c:444-479` | In every mode, receiving keeps the books if and only if it neither refunds ignored data nor cuts a packet to the window: the two ways in which the code deviates |
| `Refunds.ReadKeepsBooksIff` | `ssh/libssh2/channel.c:918-930` | A read keeps the books if and only if it empties no extended packet as part of stream 0, which only merging does |
| `Refunds.ReadListBooks` | `ssh/libssh2/channel.c:918-930` | Each such packet is refunded exactly four bytes too many |
| `Refunds.FlushKeepsBooksIff` | `ssh/libssh2/channel.c:757-788` | A flush keeps the books if and only if it drops no plain data packet |
| `Refunds.FlushBooks` | `ssh/libssh2/channel.c:757-788` | Each such packet is refunded exactly four bytes too few |
| `Sessions.Session.ReceiveWindowAdjust` | `ssh/libssh2/channel.c:812-848` | In place: queue below the threshold, otherwise send, and queue again on failure; the state is that of the value model |
| `Sessions.Session.AddData` | `ssh/libssh2/packet.c:421-479` | In place: the channel, eof flag, window and brigade after a data packet in every mode and size |
| `Sessions.Session.PacketAdd` | `ssh/libssh2/packet.c:421-574` | In place: data, end of file, close and window adjustment |
| `Sessions.Session.SendEof` | `ssh/libssh2/channel.c:1046-1063` | In place: the end-of-file message and flag, and a result that says whether the send succeeded |
| `Sessions.Session.ChannelEof` | `ssh/libssh2/channel.c:1069-1085` | In place: the loop over the brigade, with its result stated outright |
| `Sessions.Session.Close` | `ssh/libssh2/channel.c:1090-1119` | In place: close once, and the flag; fails exactly when a first close cannot be sent |
| `Sessions.Session.SendChunk` | `ssh/libssh2/channel.c:1001-1032` | In place: the piece is the least of what is left, the window and the packet size; the window shrinks only if it was sent |
| `Sessions.Session.WriteEx` | `ssh/libssh2/channel.c:950-1040` | In place: the whole loop with its waits, its piecewise sends and its result equals the value model |
| `Sessions.Session.ReadTurn` | `ssh/libssh2/channel.c:888-935` | In place: drain the socket, then one scan of the brigade |
| `Sessions.Session.ReadEx` | `ssh/libssh2/channel.c:873-944` | In place: turn after turn until there are bytes, the channel does not block, or the peer has closed |
| `Sessions.Session.ReadScan` | `ssh/libssh2/channel.c:888-935` | In place: the scan over the brigade, which shrinks under it, with its refunds packet by packet |
| `Sessions.Session.Sweep` | `ssh/libssh2/channel.c:757-782` | The sweep of a flush: what is kept in order, what is refunded, what is reported |
| `Sessions.Session.FlushEx` | `ssh/libssh2/channel.c:744-792` | In place: a flush of one stream, of the extended ones, or of all |
| `Calls.StaysReachable` | `ssh/libssh2/channel.c:873-1040` | Every run from a reachable state ends in one |
| `Calls.WriteExIsRun` | `ssh/libssh2/channel.c:950-1040` | A whole write call is a run of the step system, and what it adds to the history of the stream is the front part of the buffer that the call reports, and nothing else |
| `Calls.WriteExCounts` | `ssh/libssh2/channel.c:950-1040` | A write puts a front part of the buffer on the wire, in order; unless it fails it reports how much, and on a blocking channel that is all of it; `Outcomes.BlockingWriteEnds` says when it fails |
| `Calls.ReadExIsRun` | `ssh/libssh2/channel.c:873-944` | A whole read call, whatever of the peer's messages arrive while it waits, is a run, and what it adds to the history of the stream is exactly the bytes it returns |
| `Calls.CallsReturnPrefix` | `ssh/libssh2/channel.c:873-1040` | In every reachable state what read calls of a stream have returned, with what the next one returns, is a prefix of what the peer's write calls have put on it, unless it was flushed |
| `Calls.ReadExComesBack` | `ssh/libssh2/channel.c:887-943` | On a channel that blocks a read comes back without bytes only when the peer has closed it |
| `Calls.ReadTurnReturnsFront` | `ssh/libssh2/channel.c:888-935` | A turn of a read yields the oldest bytes that had reached this side, as many as asked for or else all |
| `Outcomes.BlockingWriteEnds` | `ssh/libssh2/channel.c:981-1040` | On an open blocking channel a write has put the first k bytes on the wire and returns k if they are all and -1 if not; -1 if and only if a send failed, or there is no window, nothing more arrives and bytes are left (where a channel ignores extended data and a refund may fail on the way, the last send counts) |
| `Outcomes.NonBlockingWriteEnds` | `ssh/libssh2/channel.c:968-1040` | On an open channel that does not block: 0 and nothing done without window or bytes, else one piece as large as buffer, window and packet size allow, and -1 if and only if that send fails |
| `Outcomes.WriteOfNothing` | `ssh/libssh2/channel.c:968-971` | A write of some bytes on an open channel returns 0 only if the channel does not block and has no window or no packet size |
| `Outcomes.WriteOnClosed` | `ssh/libssh2/channel.c:959-962` | On a closed channel a write returns -1 and changes nothing |
| `Reads.ReadExReturnsAtOnce` | `ssh/libssh2/channel.c:887-943` | A read that need not wait, since the channel does not block or bytes have arrived, comes back with the first min(want, arrived) bytes of its stream and leaves the rest |
| `Reads.ReadExReturns` | `ssh/libssh2/channel.c:887-943` | On a blocking channel a read takes in the fewest batches that bring bytes or the peer's close, returns the first bytes of what has arrived by then and leaves the rest; it comes back if and only if some batch does |
| `Reads.CloseBringsBack` | `ssh/libssh2/channel.c:937` | A read comes back when the peer's close has arrived or arrives while it waits |
| `Reads.SoundInRuns` | `ssh/libssh2/channel.c:873-944` | In every reachable state the assumptions of these results hold of what the peer has sent |
| `Outcomes.AdjustIs` | `ssh/libssh2/channel.c:812-848` | A grant is sent whole, with what was queued, when forced or 1024 and more, and queued whole otherwise or when the send fails |
| `Outcomes.SendEofIs` | `ssh/libssh2/channel.c:1046-1063` | The message and the flag, or neither |
| `Outcomes.SendCloseIs` | `ssh/libssh2/channel.c:1090-1119` | The flag in any case, the message the first time |
| `Outcomes.DataTakenIn` | `ssh/libssh2/packet.c:456-479` | Data is kept behind what waits, cut to packet size and window, takes back an end of file, and is charged to the window |
| `Outcomes.DataDropped` | `ssh/libssh2/packet.c:430-472` | Data without window or without a channel is dropped, ignored extended data is dropped and refunded |
| `Outcomes.OthersTakenIn` | `ssh/libssh2/packet.c:481-574` | End of file, close and adjustment change their one field, and a message that is not about a channel is kept |
| `Outcomes.ScanReturnsVisible` | `ssh/libssh2/channel.c:888-935` | In every mode, merging included, one pass returns the first bytes that the reader of the stream sees and leaves the others |
| `Outcomes.FlushOne` | `ssh/libssh2/channel.c:757-778` | Which packets a flush of one stream, of the extended ones and of all drops |
| `Outcomes.FlushConcat` | `ssh/libssh2/channel.c:757-778` | A flush decides packet by packet and keeps the order |
| `Outcomes.FlushTakesOut` | `ssh/libssh2/channel.c:744-792` | Its effect on brigade, socket and other channels |
| `Outcomes.FlushReports` | `ssh/libssh2/channel.c:757-792` | What a flush reports is what it keeps its caller from reading |
| `Wire.DecodeOfEncode` | `ssh/libssh2/packet.c:421-574` | Taking a channel message apart at the source's offsets undoes building it, and its length is what the books charge |
| `Wire.LayoutIs` | `ssh/libssh2/packet.c:421-574` | The bytes of each message, with the numbers of section 5 of RFC 4254 |
| `Wire.LengthFieldIgnored` | `ssh/libssh2/packet.c:421-479` | The source takes the length of data from the packet: what the length field says does not matter |
| `Layers.MessagesCross` | `ssh/libssh2/packet.c:757-823` | Channel messages written one after the other, encoded, padded, sealed and opened, are decoded as the same messages, both ends in step and nothing left over |
| `Layers.RunTame` | `ssh/libssh2/channel.c:980-1035` | Between peers with packet sizes up to 39952 every message that a run queues fits what the reader accepts |
| `Layers.OutboxCrosses` | `ssh/libssh2/packet.c:757-823` | So in every such run what a side has queued arrives, through the packet layer, as those messages in that order |
| `Framing.PadLengthShortest` | `ssh/libssh2/packet.c:1138-1147` | The padding is the shortest of at least four bytes that fills the last block, at most block size plus 3 |
| `Framing.OpenOfSeal` | `ssh/libssh2/packet.c:757-823` | Whatever follows on the wire, a written packet is read back with its MAC confirmed, and reader and writer agree again in cipher state and sequence number |
| `Framing.OpenIs` | `ssh/libssh2/packet.c:757-823` | For any bytes with a sane header: whole or not, and then payload, type, padding outcome, cipher state, next sequence number and rest; confirmed if and only if the MAC of sequence number and decrypted packet follows, or agrees up to a zero byte |
| `Framing.RefusedIff` | `ssh/libssh2/packet.c:774-782` | A first block is refused if and only if its length is 0, above 40001, or does not end with a block |
| `Framing.OpenOfLittle` | `ssh/libssh2/packet.c:757-771` | Without a whole first block nothing happens |
| `Framing.SealIs` | `ssh/libssh2/packet.c:1138-1194` | The encrypted packet, then the MAC of sequence number and packet before encryption |
| `Framing.EncryptsBlockAfter` | `ssh/libssh2/packet.c:1181-1189` | Every block is encrypted, from the state that the one before it has left |
| `Framing.DecryptsBlockAfter` | `ssh/libssh2/packet.c:784-807` | Every block is decrypted, from the state that the one before it has left |
| `Framing.OversizeRefused` | `ssh/libssh2/packet.c:774-782` | A written packet is refused if and only if payload and padding exceed 40000 bytes |
| `Framing.CutIsIncomplete` | `ssh/libssh2/packet.c:757-812` | A packet of which only a part was sent is never taken for a whole one |
| `Framing.StreamRoundTrip` | `ssh/libssh2/packet.c:757-823` | A whole stream of packets is read back: every payload in order, each confirmed, both ends in step, nothing left over |
| `Framing.StrnEqualIff` | `ssh/libssh2/packet.c:818` | The MAC comparison also accepts codes that agree only up to a zero byte in both, and nothing else |
| `Framing.DecryptUndoesEncrypt` | `ssh/libssh2/packet.c:1181-1189` | Block by block decryption undoes encryption from the same state and ends in the same state |
| `Transport.Writer.PacketWrite` | `ssh/libssh2/packet.c:1138-1194` | In a buffer: lay out, pad, compute the MAC, encrypt in place block by block, count, send |
| `Transport.Writer.EncryptInPlace` | `ssh/libssh2/packet.c:1181-1189` | The block loop encrypts exactly the packet and leaves the MAC behind it alone |
| `Transport.Reader.Fill` | `ssh/libssh2/packet.c:784-807` | The block loop ends with the payload buffer filled exactly, in cipher order, or for lack of bytes |
| `Transport.Reader.PacketRead` | `ssh/libssh2/packet.c:737-823` | In place, for every header and any bytes: the outcome; after a packet, cipher state, sequence number and unread bytes; after a refusal that only the first block has been used and the session is disconnected; the sequence number unchanged without a packet |
| `Transport.Exchange` | `ssh/libssh2/packet.c:737-1194` | A packet written by the one object is confirmed by the other, and they are in step again, if and only if all of it was sent; a short send still moves the writer on |
| `Cleartext.ClearRoundTripIff` | `ssh/libssh2/packet.c:868-918` | Before encryption a packet of any length is read back if and only if the read may block, but for one length whose header consists of equal bytes: the other branch puts the rest of the header over its first byte |
| `Cleartext.WriteClearIs` | `ssh/libssh2/packet.c:1138-1194` | A packet before encryption is length, padding length, payload and padding |
| `LinkedLists.LinkedList.Append` | `ssh/libssh2/packet.c:581-594` | The list stays well linked both ways, with the element at its end |
| `LinkedLists.LinkedList.PushFront` | `ssh/libssh2/channel.c:445-453` | The list stays well linked both ways, with the element at its front |
| `LinkedLists.LinkedList.Unlink` | `ssh/libssh2/packet.c:947-957` | The list stays well linked both ways; only this node is gone and the others keep their order |
| `Brigade.AskEx` | `ssh/libssh2/packet.c:927-965` | An answer has the type, the length and the bytes asked for and is taken out, and without one nothing changes |
| `Brigade.AskFindsOldest` | `ssh/libssh2/packet.c:938-957` | In bytes: the answer is the oldest packet with all three, and it alone is gone; without an answer no packet has all three |
| `Brigade.MatchesIff` | `ssh/libssh2/packet.c:940-944` | Type, length and, where given, the bytes at the offset |
| `Brigade.AskPolling` | `ssh/libssh2/packet.c:930-965` | With polling the scan starts from what was the head before the poll |
| `Brigade.PolledIsMissedIff` | `ssh/libssh2/packet.c:930-940` | A packet that the poll brings is missed if and only if the brigade was empty and it is the one asked for |
| `Brigade.DropChannel` | `ssh/libssh2/channel.c:1170-1174` | Freeing a channel takes out exactly the packets of type 94 or 95 that carry its id, and leaves the others |
| `Brigade.SparedOne` | `ssh/libssh2/channel.c:1170-1174` | In bytes: a packet goes if and only if its type is 94 or 95 and its bytes 1 to 5 are the id |
| `Brigade.SparedInOrder` | `ssh/libssh2/channel.c:1170-1174` | Those that stay keep their order |
| `Brigade.AskvEx` | `ssh/libssh2/packet.c:972-985` | Asks for the listed types in turn until one answers |
| `Brigade.AskAllPrefersEarlierTypes` | `ssh/libssh2/packet.c:972-985` | It fails if and only if no packet matches any type; otherwise it yields the oldest packet of the earliest type that has one, and takes out that one alone |
| `ChannelIds.NextIdFreshIff` | `ssh/libssh2/channel.c:47-72` | The id handed out is no live channel's if and only if all linked channels lie below `next_channel` and no channel waiting in a listener's queue has it |
| `ChannelIds.IdsStayDistinct` | `ssh/libssh2/channel.c:47-72` | Over every run of opening, listening, queueing, accepting and freeing with fewer than 2^32 allocations, live ids are distinct and below `next_channel`, and the next id is fresh |
| `ChannelIds.WrappedIdIsTaken` | `ssh/libssh2/channel.c:60-65` | Once `next_channel` has wrapped to zero the id handed out is that of a live channel |
| `ChannelIds.LocatedIsUnique` | `ssh/libssh2/channel.c:77-89` | While ids are distinct no two linked channels share one |
| `ChannelIds.ServedInOrder` | `ssh/libssh2/channel.c:430-460` | Over every run a listener's connections are accepted in the order in which they were queued |
| `ChannelIds.ListIs` | `ssh/libssh2/channel.c:91-102` | Opening links at the end, accepting at the front, and freeing takes out the first with the id |
| `ChannelTables.Channels.NextId` | `ssh/libssh2/channel.c:47-72` | The loop over the list, against its specification |
| `ChannelTables.Channels.Locate` | `ssh/libssh2/channel.c:77-89` | Finds the first linked channel with the id, and none exactly when there is none |
| `ChannelTables.Channels.OpenChannel` | `ssh/libssh2/channel.c:91-102` | A new id is linked at the end |
| `ChannelTables.Channels.QueueForward` | `ssh/libssh2/packet.c:138-175` | A forwarded connection takes an id and waits in its listener's queue |
| `ChannelTables.Channels.ForwardAccept` | `ssh/libssh2/channel.c:430-460` | The first waiting connection moves from the queue to the front of the list |
| `ChannelTables.Channels.FreeChannel` | `ssh/libssh2/channel.c:1181-1191` | The channel is unlinked and nothing else changes |
| `NameLists.FindDecides` | `ssh/libssh2/kex.c:868-897` | The search succeeds exactly for the names of the comma-separated list and yields the start of the first |
| `NameLists.AgreeInstr` | `ssh/libssh2/kex.c:868-897` | The source's search, with its shortcuts for short texts, equals that search on what string functions see of any list that a zero byte follows |
| `NameLists.CStringIs` | `ssh/libssh2/kex.c:868-897` | What they see is the whole list if it holds no zero, and else its front up to the first one |
| `NameLists.SplitOfJoin` | `ssh/libssh2/kex.c:733-750` | Names joined with commas are split into the same names |
| `NameLists.JoinOfSplit` | `ssh/libssh2/kex.c:868-897` | Every text is the join of its names |
| `KexInit.MethodStrlen` | `ssh/libssh2/kex.c:712-727` | The computed length is that of the joined names |
| `KexInit.MethodList` | `ssh/libssh2/kex.c:733-750` | The list is written with its length, one stray comma lies behind it unless it is empty, and the rest of the buffer is untouched |
| `KexInit.WriteLists` | `ssh/libssh2/kex.c:754-815` | Every stray comma is overwritten by the next field |
| `KexInit.PacketSize` | `ssh/libssh2/kex.c:772-792` | The computed size is the length of the packet |
| `KexInit.Build` | `ssh/libssh2/kex.c:767-828` | The buffer is filled to its computed size and holds the packet of section 7.1 of RFC 4253 |
| `KexInit.ReadOfPacket` | `ssh/libssh2/kex.c:1191-1212` | Reading the built packet recovers the ten name-lists and the guess byte |
| `KexInit.BuiltListIs` | `ssh/libssh2/kex.c:754-815` | What the reader finds in each place is the preference string that was set, or else a list that splits into the names of the table |
| `KexInit.PacketEnds` | `ssh/libssh2/kex.c:793-828` | The packet begins with its type and the cookie and ends with no guess and a reserved word of zero |
| `KexSessions.BuiltIsReadable` | `ssh/libssh2/kex.c:1191-1212` | A packet built by one side meets what the other side's reader asks for |
| `Negotiation.PickIsFirstDecisive` | `ssh/libssh2/kex.c:1046-1086` | The first candidate on the server's list that will do, or that is no method, decides |
| `Negotiation.PickPrefersClientOrder` | `ssh/libssh2/kex.c:1046-1176` | When every preferred name is a method, the client's first name on the server's list is picked, and there is none if and only if the search fails |
| `Negotiation.PickFollowsRuleIff` | `ssh/libssh2/kex.c:1056-1072` | Without that assumption the rule holds if and only if no unknown name that the server lists comes before the name to pick |
| `Negotiation.InOrderSupported` | `ssh/libssh2/kex.c:1019-1039` | Without a preference string every candidate is a method, so that the rule always holds |
| `Negotiation.PreferredSupported` | `ssh/libssh2/kex.c:995-999` | The assumption on a preference string is that each of its names is in the table |
| `Negotiation.KexRuleIff` | `ssh/libssh2/kex.c:918-1040` | With any names in the preference strings: the first client key exchange on the server's list with a suitable host key is picked if and only if no unknown name that the server lists comes before it, nor before its first suitable host key; and then that host key goes with it |
| `Negotiation.UnknownHostkeySinksAll` | `ssh/libssh2/kex.c:934-937` | One unknown host key name that the client prefers and the server lists leaves no agreement, although a key exchange and a host key would do |
| `Negotiation.KexRule` | `ssh/libssh2/kex.c:918-1040` | In particular the rule holds when every preferred name is a method |
| `Negotiation.PickedIsGood` | `ssh/libssh2/kex.c:918-1040` | Whatever is picked, with any names, is on the server's list and will do |
| `Negotiation.KexRuleFails` | `ssh/libssh2/kex.c:918-1040` | With any names, without a key exchange that some host key suits there is no agreement |
| `Negotiation.LookupIsFirst` | `ssh/libssh2/kex.c:902-912` | The lookup yields the entry of least index with the name, and none if and only if no entry has it |
| `Negotiation.PreferenceRule` | `ssh/libssh2/kex.c:1056-1072` | In split lists: the method agreed on is the first table entry of the first preferred name that the server lists and whose method will do, when no unknown listed name precedes it |
| `Negotiation.PreferenceRuleFails` | `ssh/libssh2/kex.c:1056-1072` | An unknown listed name that no name to pick precedes, or the end of the names, leaves no agreement |
| `Negotiation.LoadOrderRule` | `ssh/libssh2/kex.c:1074-1086` | Without a preference string it is the first entry of the table that the server lists and that will do |
| `Negotiation.TokensAreSplit` | `ssh/libssh2/kex.c:1049-1071` | The names the walk meets are those between the commas of the preference string, but for an empty one at its end |
| `Negotiation.SuitsIff` | `ssh/libssh2/kex.c:938-946` | A host key suits when it can encrypt if the key exchange needs that, and sign if it needs that |
| `KexSessions.GetMethodByName` | `ssh/libssh2/kex.c:902-912` | The entry of least index with the name, and none if and only if no entry has it |
| `KexSessions.Agree` | `ssh/libssh2/kex.c:1046-1176` | The loops over preference string or method table come to that choice |
| `KexSessions.KexSession.AgreeHostkey` | `ssh/libssh2/kex.c:918-974` | Stores the first host key on the server's list that can do what the key exchange needs |
| `KexSessions.KexSession.AgreeKexHostkey` | `ssh/libssh2/kex.c:980-1040` | Stores key exchange and host key, and keeps the burn flag if and only if the key exchange is not first on the server's list |
| `KexSessions.KexSession.AgreeMethods` | `ssh/libssh2/kex.c:1185-1239` | From the bytes of the server's message, zeros in its lists included: succeeds if and only if all seven agreements exist, each from its own list, and stores exactly those |
| `KeyStretch.Stretch` | `ssh/libssh2/kex.c:46-66` | The buffer holds K1 = HASH(K \|\| H \|\| letter \|\| session id) and every further part the hash of K, H and the parts before it, as in section 7.2 of RFC 4253, for every length, with no write beyond its end |
| `KeyStretch.LongerExtendsShorter` | `ssh/libssh2/kex.c:46-66` | A longer request extends the result of a shorter one |
| `Md5.State.Append` | `misc/md5.c:319-354` | However much was appended before, counter, registers and buffer stand for the longer message |
| `Md5.State.AppendEnd` | `misc/md5.c:368-374` | After pad and length the registers are those of the padded message |
| `Md5.State.Finish` | `misc/md5.c:357-377` | The digest is that of RFC 1321 of everything appended |
| `Md5.DigestOfParts` | `misc/md5.c:309-377` | For every way of cutting a message into parts the digest is that of the whole |
| `Md5.CountsAdd` | `misc/md5.c:324-333` | The two counter words hold 8 times the length modulo 2^64 through every carry |
| `Md5.OffsetIsTail` | `misc/md5.c:323` | The buffer offset and the pad length taken from the counter are those of the true length |
| `Md5.BlocksOfParts` | `misc/md5.c:335-353` | Processing whole blocks and then the rest is processing all |
| `Md5.BlocksOfLittle` | `misc/md5.c:347-353` | Less than a block is kept and not processed |
| `Md5.FinishText` | `misc/md5.c:368-374` | The pad and the length, both worked out from the two counter words, bring every message to the padded one of sections 3.1 and 3.2 of RFC 1321 |
| `Md5.PaddedIs` | `misc/md5.c:359-374` | Byte for byte: the message, 0x80, zeros, and eight bytes of the length in bits modulo 2^64, in as few blocks as that takes |
| `Md5.InitBytes` | `misc/md5.c:311-315` | The registers start as section 3.3 of RFC 1321 gives them |
| `Md5.OutputIs` | `misc/md5.c:375-376` | The digest is the four registers, each with its low-order byte first |
| `Base64.Decode` | `ssh/libssh2/misc.c:129-170` | The accumulator loop yields the complete octets of the alphabet characters, never writes beyond its buffer, and fails exactly on a count of 1 modulo 4 |
| `Base64.DecodeOfEncode` | `ssh/libssh2/misc.c:129-170` | Text whose alphabet characters are those of the encoding of b decodes to b |
| `Base64.NoiseIsDropped` | `ssh/libssh2/misc.c:142` | Bytes outside the alphabet, anywhere, do not matter |
| `Base64.EncodeOfDecodeIff` | `ssh/libssh2/misc.c:143-168` | Text that decodes is the encoding of its result if and only if no bits are left over at its end |
| `Base64.OctetsOfSextets` | `ssh/libssh2/misc.c:143-158` | Octets cut into sextets and joined again are the same octets |
| `Base64.CharOfValue` | `ssh/libssh2/misc.c:96-122` | Whatever the reverse table gives a value is that value's character in the alphabet |
| `Base64.ValueOfChar` | `ssh/libssh2/misc.c:96-122` | The reverse table gives every character of the alphabet its value |
| `Base64.AlphabetIs` | `ssh/libssh2/misc.c:96-122` | The alphabet is that of RFC 4648 |
| `Base64.GroupIs` | `ssh/libssh2/misc.c:143-158` | Three octets and their four sextets are the same 24 bits |
| `Base64.OctetGroupIs` | `ssh/libssh2/misc.c:143-158` | Four sextets and their three octets are the same 24 bits |
| `Base64.EncodeIs` | `ssh/libssh2/misc.c:96-122` | The encoding, character by character and with its padding |
| `Base64.ValuesOfOne` | `ssh/libssh2/misc.c:142-143` | Of one character: its value, or nothing outside the alphabet |
| `Base64.ValuesConcat` | `ssh/libssh2/misc.c:139-143` | The values of a text are those of its characters, in order |
| `Base64.DecodedIff` | `ssh/libssh2/misc.c:159-168` | Decoding fails if and only if one alphabet character more than a multiple of four is there, and otherwise every octet is the one of its group |
| `Bytes.Get32OfPut32` | `ssh/libssh2/misc.c:42-72` | A stored word is loaded again from any place |
| `Bytes.Put32OfGet32` | `ssh/libssh2/misc.c:42-72` | A loaded word is stored again as the same four bytes |
| `Bytes.HighByteFirst` | `ssh/libssh2/misc.c:42-72` | The bytes of a word, high-order byte first |
| `ServiceTimer.OnTimeIff` | `windows_service.cc:131-133` | The on-time branch is taken if and only if the ticks elapsed, modulo 2^32, are at most the interval |
| `ServiceTimer.BaseIsWhenWaitEnds` | `windows_service.cc:131-139` | In either branch the new base is the tick at which the wait ends, modulo 2^32 |
| `ServiceTimer.Service.ExecRunFunction` | `windows_service.cc:112-142` | The loop over any behaviour of the run function, the clock and the stop event equals its specification |
| `ServiceTimer.WaitIsRightIff` | `windows_service.cc:131-139` | Against a clock that does not wrap, the wait is right if and only if less than 2^32 ticks have passed or the remainder is at least the interval |
| `ServiceTimer.KeepsTime` | `windows_service.cc:112-142` | Whole runs agree with that clock in every wait and base |
| `ServiceTimer.NoDrift` | `windows_service.cc:129-134` | Without overruns turn n is due exactly n intervals after the first, however often the ticks wrap |
| `ServiceTimer.TurnGoesOn` | `windows_service.cc:119-140` | A turn with a positive interval waits, and the run goes on from the base that the wait leaves |
| `ServiceTimer.TurnEnds` | `windows_service.cc:122-140` | An interval of zero or less ends the run without a wait, a stop with it |
| `ServiceTimer.EndsIff` | `windows_service.cc:119-140` | A run ends if and only if some turn ends it, with one wait for every turn that comes to it |
| `ServiceTimer.ResetCounts` | `windows_service.cc:119-131` | Base ticks set by the run function count from that turn on |
| `StrReplace.StrReplace` | `pandora_strutils.cc:236-256` | The loop ends and yields the left-to-right replacement, also when the replacement holds the pattern |
| `StrReplace.ReplacedOfJoin` | `pandora_strutils.cc:246-253` | The replacement swaps the separators between the pieces of the text and nothing else |
| `StrReplace.CutExists` | `pandora_strutils.cc:246-253` | Every text has such pieces |
| `StrReplace.CutIsUnique` | `pandora_strutils.cc:246-253` | It has them in one way only |
| `StrReplace.CollapseUndoesDoubling` | `modules/pandora_module.cc:527-528` | Collapsing pairs of percent signs undoes their doubling |
| `StrReplace.DoublingIsInjective` | `modules/pandora_module.cc:527-528` | Different data stay different |

## Left out

- Sockets, `select`, timeouts and `errno`: links and oracles stand for them, and a wait that nothing ends is a result of its own.
- Channels opened or freed during a run of `FlowControl`: a run has the channels that are open at its start; `ChannelIds` covers opening and freeing. Each result is stated for one direction and holds for the other by `FlowControl.MirrorReachable`.
- Modes other than NORMAL, and flushes of stream 0, in runs of `FlowControl`: `Refunds` says exactly what they break.
- Adjustments of its own amount that an application grants: in runs only the forced adjustment by zero, and `Conservation.WindowAdjustExact` for every amount.
- FlowControl.EofMeansEverythingRead: assumes that the writer sent nothing after its end of file; `FlowControl.EofMeansEverythingReadIff` does not.
- A send that fails in `FlowControl` leaves no trace on the link and both ends in step: `Endpoint.faults` idealises this, since a real failure at the packet layer takes them out of step (`Transport.Exchange`).
- Sessions.Session.WriteEx: a blocking channel has a packet size above zero, since with zero the source loops for ever; its result -1 also stands for a wait that nothing ends.
- Sessions.Session.ReadEx: what arrives while it waits is a parameter; a wait that nothing ends is a result of its own.
- Sessions.Session.PacketAdd: of packets that are not about channel data (disconnect, ignore, debug, requests, opens, key exchange) only that they are appended; calling back for new keys is not modelled.
- ChannelTables.Channels.QueueForward: the listener's `queue_size` and its limit, refusing a connection, and `forward_cancel`; sessions and listeners are modelled by the ids of their channels.
- ChannelTables.Channels.FreeChannel: closing the channel first; `Brigade.DropChannel` drops its packets, without the polls in between.
- Brigade.AskPolling: a poll adds one packet or none; what else packet_add may do with it is not modelled here.
- Transport.Reader.PacketRead: what follows a read that ends for lack of bytes; padding that exceeds the packet is an outcome of its own, where the source's length wraps; decompression.
- Transport.Writer.PacketWrite: compression is "none".
- Cleartext.ClearRoundTripIff: the byte that the other branch leaves behind the header is a parameter.
- KexSessions.KexSession.AgreeMethods: every list but the first is shorter than 2^24 bytes, so that the first byte of its length ends the list before it; in a longer message the source would search on into the next list, and it checks the end of the packet nowhere. The ten straight-line reads are a loop here, the language lists are not looked at, and starting compression is left out.
- KexSessions.Agree: the loops for ciphers, MACs, compressions and host keys are one method with the test on a method as a parameter.
- Md5.State.Append: parts are shorter than 2^31 - 63 bytes, where the source's signed sum does not overflow; the rounds of the block function are a parameter, and the copy for alignment and byte order is not modelled.
- Base64.Decode: lengths whose triple fits an `int`; the reverse table is given by ranges of characters.
- StrReplace.StrReplace: the pattern is not empty, since with an empty one the source loops for ever; strings are shorter than 2^31.
- ServiceTimer.Service.ExecRunFunction: of the run function only the interval and base it leaves and the time it takes.
- KeyStretch.Stretch: a buffer that the caller brings; the macro's other branch allocates it.
- `libssh2_session_method_pref`, `libssh2_packet_burn`, `libssh2_ntohu64` and `libssh2_htonu64`: their code does not do what their names promise, and nothing modelled needs them.
- Diffie-Hellman arithmetic, signatures, host-key parsing and user authentication: calls into a big-number library.
- The agent's modules, configuration files, XML, WMI, `trim`, `stringtok` and the debug allocator: no reasoning beyond single loops.
