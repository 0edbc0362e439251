/** The payloads that carry the messages of Endpoints, byte for byte. */
module Wire {
  import opened Bytes
  import opened Endpoints

  const WINDOW_ADJUST: Byte := 93
  const DATA: Byte := 94
  const EXTENDED_DATA: Byte := 95
  const END_OF_FILE: Byte := 96
  const CLOSE: Byte := 97

  /** The bytes that the writing functions build for packet_write. */
  function Encode(m: Message): seq<Byte> {
    match m
    case Data(id, bytes) => [DATA] + Put32(id) + Put32(|bytes|) + bytes
    case Extended(id, stream, bytes) => [EXTENDED_DATA] + Put32(id) + Put32(stream) + Put32(|bytes|) + bytes
    case Adjust(id, amount) => [WINDOW_ADJUST] + Put32(id) + Put32(amount)
    case Eof(id) => [END_OF_FILE] + Put32(id)
    case Close(id) => [CLOSE] + Put32(id)
    case Other(kind) => [kind]
  }

  /** Payloads with every field that packet_add reads. */
  predicate Complete(b: seq<Byte>) {
    && 0 < |b| && |b| < WORD
    && (b[0] == DATA ==> 9 <= |b| && |b| + 4 < WORD)
    && (b[0] == WINDOW_ADJUST ==> 9 <= |b|)
    && (b[0] == EXTENDED_DATA ==> 13 <= |b|)
    && (b[0] == END_OF_FILE || b[0] == CLOSE ==> 5 <= |b|)
  }

  /** How packet_add and read_ex take a payload apart: the channel id at offset 1, a stream code or an
      amount at offset 5, and the data from `data_head` to the end.  The length field is not looked at. */
  function Decode(b: seq<Byte>): Message
    requires Complete(b)
  {
    if b[0] == DATA then Data(Get32(b, 1), b[9..])
    else if b[0] == EXTENDED_DATA then Extended(Get32(b, 1), Get32(b, 5), b[13..])
    else if b[0] == WINDOW_ADJUST then Adjust(Get32(b, 1), Get32(b, 5))
    else if b[0] == END_OF_FILE then Eof(Get32(b, 1))
    else if b[0] == CLOSE then Close(Get32(b, 1))
    else Other(b[0])
  }

  predicate Ordinary(m: Message) {
    m.Other? ==> !(WINDOW_ADJUST <= m.kind <= CLOSE)
  }

  lemma ReadsBack32(head: seq<Byte>, v: U32, tail: seq<Byte>, b: seq<Byte>)
    requires b == head + Put32(v) + tail
    ensures |head| + 4 <= |b| && Get32(b, |head|) == v
  {
    Get32OfPut32(v, head, tail);
  }

  /** Taking apart what was built gives the message back, and its length is what the books charge. */
  lemma {:induction false} DecodeOfEncode(m: Message)
    requires Ordinary(m)
    ensures Complete(Encode(m)) && Decode(Encode(m)) == m
    ensures CarriesData(m) ==> |Encode(m)| == Length(m) && Encode(m)[HeaderLength(m)..] == m.bytes
  {
    var b := Encode(m);
    match m
    case Data(id, bytes) => ReadsBack32([DATA], id, Put32(|bytes|) + bytes, b);
    case Extended(id, stream, bytes) =>
      ReadsBack32([EXTENDED_DATA], id, Put32(stream) + Put32(|bytes|) + bytes, b);
      ReadsBack32([EXTENDED_DATA] + Put32(id), stream, Put32(|bytes|) + bytes, b);
    case Adjust(id, amount) =>
      ReadsBack32([WINDOW_ADJUST], id, Put32(amount), b);
      ReadsBack32([WINDOW_ADJUST] + Put32(id), amount, [], b);
    case Eof(id) => ReadsBack32([END_OF_FILE], id, [], b);
    case Close(id) => ReadsBack32([CLOSE], id, [], b);
    case Other(_) =>
  }

  /** Byte for byte, with the numbers of section 5 of RFC 4254. */
  lemma {:induction false} LayoutIs(id: U32, stream: U32, amount: U32, bytes: Chunk)
    ensures Encode(Data(id, bytes)) == [94] + Put32(id) + Put32(|bytes|) + bytes
    ensures Encode(Extended(id, stream, bytes)) == [95] + Put32(id) + Put32(stream) + Put32(|bytes|) + bytes
    ensures Encode(Adjust(id, amount)) == [93] + Put32(id) + Put32(amount)
    ensures Encode(Eof(id)) == [96] + Put32(id)
    ensures Encode(Close(id)) == [97] + Put32(id)
  {
  }

  /** The length field of a data message is not looked at. */
  lemma {:induction false} LengthFieldIgnored(id: U32, length: seq<Byte>, bytes: Chunk)
    requires |length| == 4
    ensures Complete([94] + Put32(id) + length + bytes)
    ensures Decode([94] + Put32(id) + length + bytes) == Data(id, bytes)
  {
    var b := [94] + Put32(id) + length + bytes;
    assert b == [94] + Put32(id) + (length + bytes);
    ReadsBack32([94], id, length + bytes, b);
    assert b[9..] == bytes;
  }
}
