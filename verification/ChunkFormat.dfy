// The RTMP chunk stream (sections 5.3.1 and 5.4 of Adobe's RTMP 1.0
// specification) as pkg/rtmp/chunk_stream.go writes and reads it, stated on
// values.  The class in ChunkConn.dfy is proved against these functions.
module ChunkFormat {
  import opened Bytes

  const SET_CHUNK_SIZE := 1
  const ACKNOWLEDGEMENT := 3
  const WINDOW_ACK_SIZE := 5
  const SET_PEER_BANDWIDTH := 6
  const AUDIO := 8
  const VIDEO := 9
  const AMF3_DATA := 15
  const AMF0_DATA := 18

  const MAX24 := 0xff_ffff

  datatype Message = Message(csid: uint32, timeStamp: uint32, typeID: uint32, streamID: uint32, body: seq<byte>)

  function Min(x: int, y: int): int {
    if x < y then x else y
  }

  // --------------------------------------------------------------- writing

  datatype Written = Written(bytes: seq<byte>, ok: bool)

  // The writer moves audio and data messages to fixed chunk streams.
  function Remap(m: Message): Message {
    if m.typeID == AUDIO then m.(csid := 4)
    else if m.typeID == VIDEO || m.typeID == AMF3_DATA || m.typeID == AMF0_DATA then m.(csid := 6)
    else m
  }

  // One, two or three bytes; nothing at all for an id no form can carry.
  function BasicHeader(fmt: nat, csid: uint32): seq<byte>
    requires fmt < 4
  {
    if csid < 64 then [64 * fmt + csid]
    else if csid - 64 < 0x100 then [64 * fmt] + ToLE(csid - 64, 1)
    else if csid - 64 < 0x1_0000 then [64 * fmt + 1] + ToLE(csid - 64, 2)
    else []
  }

  // The timestamp is clamped to 24 bits, and the extended field follows only
  // when the value tested exceeds 24 bits: never after the clamp, but on a
  // fmt-3 chunk, where the clamp is skipped.
  function MessageHeader(fmt: nat, m: Message): Written
    requires fmt < 4
  {
    var ts := Min(m.timeStamp, MAX24);
    if fmt == 3 then Written(if m.timeStamp > MAX24 then ToBE(m.timeStamp, 4) else [], true)
    else if fmt == 2 then Written(ToBE(ts, 3), true)
    else if |m.body| > MAX24 then Written(ToBE(ts, 3), false)
    else
      Written(ToBE(ts, 3) + ToBE(|m.body|, 3) + ToBE(m.typeID, 1)
              + (if fmt == 1 then [] else ToLE(m.streamID, 4)), true)
  }

  // The chunks that carry m.body[start..].
  function Chunks(m: Message, chunkSize: nat, start: nat): (bytes: seq<byte>)
    requires chunkSize >= 1 && start <= |m.body|
    decreases |m.body| - start
  {
    if start == |m.body| then []
    else
      var fmt := if start == 0 then 0 else 3;
      var end := Min(start + chunkSize, |m.body|);
      BasicHeader(fmt, m.csid) + (MessageHeader(fmt, m).bytes + (m.body[start..end] + Chunks(m, chunkSize, end)))
  }

  // All the chunks of a message.  An over-long body fails inside the first
  // message header, after its timestamp.
  function WriteChunks(m: Message, chunkSize: nat): Written
    requires chunkSize >= 1
  {
    if m.body == [] then Written([], true)
    else if |m.body| > MAX24 then Written(BasicHeader(0, m.csid) + MessageHeader(0, m).bytes, false)
    else Written(Chunks(m, chunkSize, 0), true)
  }

  // What writeChunkStream puts on the wire.
  function WriteMessage(m: Message, chunkSize: nat): Written
    requires chunkSize >= 1
  {
    WriteChunks(Remap(m), chunkSize)
  }

  // An acknowledgement of the bytes received so far.
  function AckMessage(v: uint32): Message {
    Message(2, 0, ACKNOWLEDGEMENT, 0, ToBE(v, 4))
  }

  function AckBytes(acks: seq<uint32>, chunkSize: nat): seq<byte>
    requires chunkSize >= 1
  {
    if acks == [] then []
    else AckBytes(acks[..|acks| - 1], chunkSize) + WriteMessage(AckMessage(acks[|acks| - 1]), chunkSize).bytes
  }

  // --------------------------------------------------------------- reading

  // The persistent state of one chunk stream id.  fmt is the format of the
  // chunk that created the entry; the reader never changes it.
  datatype Entry = Entry(
    fmt: nat, timeStamp: uint32, msgLength: nat, typeID: uint32, streamID: uint32,
    extended: uint32, timeExtended: bool, full: bool,
    bodyIndex: nat, bodyRemain: nat, body: seq<byte>)

  function NewEntry(fmt: nat): Entry {
    Entry(fmt, 0, 0, 0, 0, 0, false, false, 0, 0, [])
  }

  // What holds of every entry between chunks.
  predicate EntryOk(e: Entry) {
    && e.fmt < 4
    && e.msgLength <= MAX24 && e.typeID < 0x100
    && e.bodyIndex + e.bodyRemain == e.msgLength
    && (e.bodyRemain > 0 ==> |e.body| == e.msgLength)
    && (e.full ==> e.bodyRemain == 0)
  }

  datatype Parsed<+T> = Short | Parsed(value: T, rest: seq<byte>)

  function ParseBasicHeader(input: seq<byte>): (p: Parsed<(nat, uint32)>)
    ensures p.Parsed? ==> p.value.0 < 4 && |p.rest| < |input|
    ensures p.Parsed? ==> 2 <= p.value.1 <= 65599
  {
    if |input| < 1 then Short
    else
      var fmt, csid := input[0] / 64, input[0] % 64;
      if csid == 0 then
        if |input| < 2 then Short
        else (ShortLE(input[1..2]); Parsed((fmt, FromLE(input[1..2]) + 64), input[2..]))
      else if csid == 1 then
        if |input| < 3 then Short
        else (ShortLE(input[1..3]); Parsed((fmt, FromLE(input[1..3]) + 64), input[3..]))
      else Parsed((fmt, csid), input[1..])
  }

  lemma ShortLE(s: seq<byte>)
    requires |s| <= 2
    ensures FromLE(s) < if |s| <= 1 then 0x100 else 0x1_0000
  {
    LEInverse(s);
    Widths();
  }

  function HeaderSize(fmt: nat): nat {
    if fmt == 0 then 11 else if fmt == 1 then 7 else if fmt == 2 then 3 else 0
  }

  // A fresh body buffer for a message of the entry's length.
  function Restart(e: Entry): Entry {
    e.(full := false, bodyIndex := 0, bodyRemain := e.msgLength, body := Zeros(e.msgLength))
  }

  // A chunk of format 0, 1 or 2 starts a message.  How its timestamp is taken
  // depends on the format that created the entry, not on this chunk's.
  function StartEntry(e: Entry, fmt: nat, h: seq<byte>): (e': Entry)
    requires fmt <= 2 && |h| == HeaderSize(fmt) && EntryOk(e)
    ensures EntryOk(e') && |e'.body| == e'.msgLength && e'.fmt == e.fmt
  {
    Narrow(h[0..3]); BEInverse(h[0..3]); Widths();
    var ext := FromBE(h[0..3]);
    var e1 := e.(extended := ext, timeExtended := ext >= MAX24);
    var e2 := if ext >= MAX24 || e.fmt == 3 then e1
              else if e.fmt == 0 then e1.(timeStamp := ext)
              else e1.(timeStamp := Wrap32(e.timeStamp + ext));
    if fmt == 2 then Restart(e2)
    else
      Narrow(h[3..6]); BEInverse(h[3..6]); Narrow(h[6..7]);
      var e3 := e2.(msgLength := FromBE(h[3..6]), typeID := FromBE(h[6..7]));
      if fmt == 1 then Restart(e3)
      else
        Narrow(h[7..11]);
        Restart(e3.(streamID := FromLE(h[7..11])))
  }

  // readUint on a stream that may have ended: a short read yields 0 and eats
  // what was left, because both callers drop its error.
  function TimeField(input: seq<byte>): (r: (uint32, seq<byte>))
    ensures |r.1| <= |input|
  {
    if |input| < 4 then (0, [])
    else (Narrow(input[..4]); (FromBE(input[..4]), input[4..]))
  }

  // A fmt-3 chunk on an idle entry repeats the last message header.
  function RepeatEntry(e: Entry, input: seq<byte>): (p: (Entry, seq<byte>))
    requires EntryOk(e)
    ensures EntryOk(p.0) && |p.0.body| == p.0.msgLength && |p.1| <= |input| && p.0.fmt == e.fmt
  {
    if e.fmt == 3 || (e.fmt == 0 && !e.timeExtended) then (Restart(e), input)
    else if e.fmt == 0 then
      var (ts, rest) := TimeField(input);
      (Restart(e.(timeStamp := ts)), rest)
    else
      var (delta, rest) := if e.timeExtended then TimeField(input) else (e.extended, input);
      (Restart(e.(timeStamp := Wrap32(e.timeStamp + delta))), rest)
  }

  function ParseMessageHeader(e: Entry, fmt: nat, input: seq<byte>): (p: Parsed<Entry>)
    requires fmt < 4 && EntryOk(e)
    ensures p.Parsed? ==> EntryOk(p.value) && |p.value.body| == p.value.msgLength
    ensures p.Parsed? ==> |p.rest| <= |input| && p.value.fmt == e.fmt
  {
    if fmt <= 2 then
      var n := HeaderSize(fmt);
      if |input| < n then Short
      else Parsed(StartEntry(e, fmt, input[..n]), input[n..])
    else if e.bodyRemain == 0 then
      var (e', rest) := RepeatEntry(e, input);
      Parsed(e', rest)
    else if !e.timeExtended then Parsed(e, input)
    else if |input| < 4 then Short
    else if FromBE(input[..4]) == e.timeStamp then Parsed(e, input[4..])
    else Parsed(e, input)
  }

  // At most one chunk's worth of the body that is still missing.
  function ParseBody(e: Entry, chunkSize: nat, input: seq<byte>): (p: Parsed<Entry>)
    requires EntryOk(e) && |e.body| == e.msgLength
    ensures p.Parsed? ==> EntryOk(p.value) && |p.value.body| == p.value.msgLength
    ensures p.Parsed? ==> (p.value.full <==> p.value.bodyRemain == 0)
    ensures p.Parsed? ==> |p.rest| <= |input| && p.value.fmt == e.fmt
  {
    var size := Min(e.bodyRemain, chunkSize);
    var i := e.bodyIndex;
    if |input| < size then Short
    else
      Parsed(e.(body := e.body[..i] + input[..size] + e.body[i + size..],
                bodyIndex := i + size,
                bodyRemain := e.bodyRemain - size,
                full := e.full || e.bodyRemain == size), input[size..])
  }

  // The connection state a reader keeps across messages; acks lists the
  // sequence numbers acknowledged so far.
  datatype Reader = Reader(
    table: map<int, Entry>, chunkSize: uint32, window: uint32,
    ackSeq: uint32, bytesRecv: uint32, resets: uint32, acks: seq<uint32>)

  predicate ReaderOk(r: Reader) {
    forall c :: c in r.table ==> 2 <= c <= 65599 && EntryOk(r.table[c])
  }

  // The first chunk of an id creates its entry, in that chunk's format.
  function EntryFor(r: Reader, csid: uint32, fmt: nat): (e: Entry)
    requires ReaderOk(r) && fmt < 4
    ensures EntryOk(e)
  {
    if csid in r.table then r.table[csid] else NewEntry(fmt)
  }

  // The message header and body part of one chunk.
  function ParseInto(e: Entry, fmt: nat, chunkSize: nat, input: seq<byte>): (p: Parsed<Entry>)
    requires fmt < 4 && EntryOk(e)
    ensures p.Parsed? ==> EntryOk(p.value) && |p.value.body| == p.value.msgLength
    ensures p.Parsed? ==> (p.value.full <==> p.value.bodyRemain == 0) && |p.rest| <= |input| && p.value.fmt == e.fmt
  {
    match ParseMessageHeader(e, fmt, input)
    case Short => Short
    case Parsed(e1, rest) => ParseBody(e1, chunkSize, rest)
  }

  // One turn of the loop in readChunkStream.
  datatype Turn = TurnShort | Turn(reader: Reader, csid: uint32, rest: seq<byte>)

  function ReadChunk(r: Reader, input: seq<byte>): (t: Turn)
    requires ReaderOk(r)
    ensures t.Turn? ==> ReaderOk(t.reader) && t.csid in t.reader.table && |t.rest| < |input|
    ensures t.Turn? ==> var e := t.reader.table[t.csid]; |e.body| == e.msgLength && (e.full <==> e.bodyRemain == 0)
  {
    match ParseBasicHeader(input)
    case Short => TurnShort
    case Parsed((fmt, csid), rest) =>
      match ParseInto(EntryFor(r, csid, fmt), fmt, r.chunkSize, rest)
      case Short => TurnShort
      case Parsed(e, rest1) => Turn(r.(table := r.table[csid := e]), csid, rest1)
  }

  function MessageOf(csid: uint32, e: Entry): Message {
    Message(csid, e.timeStamp, e.typeID, e.streamID, e.body)
  }

  // The acknowledgement counter, on wrapping 32-bit arithmetic.
  function Ack(r: Reader, size: nat): Reader {
    var b := Wrap32(r.bytesRecv + size);
    var r1 := if b >= 0xffff_ffff then r.(bytesRecv := 0, resets := Wrap32(r.resets + 1)) else r.(bytesRecv := b);
    var a := Wrap32(r.ackSeq + size);
    if a >= r.window then r1.(ackSeq := 0, acks := r.acks + [a]) else r1.(ackSeq := a)
  }

  // Reading the 4-byte value of these two control messages indexes past the
  // end of a shorter body.
  predicate Overruns(m: Message) {
    (m.typeID == SET_CHUNK_SIZE || m.typeID == WINDOW_ACK_SIZE) && |m.body| < 4
  }

  function Control(m: Message): uint32
    requires |m.body| >= 4
  {
    Narrow(m.body[..4]);
    FromBE(m.body[..4])
  }

  // What a completed message does to the connection.
  function Deliver(r: Reader, m: Message): Reader
    requires !Overruns(m)
  {
    var r1 := if m.typeID == SET_CHUNK_SIZE then r.(chunkSize := Control(m))
              else if m.typeID == WINDOW_ACK_SIZE then r.(window := Control(m))
              else r;
    Ack(r1, |m.body|)
  }

  // readChunkStream: turns until a message is complete.  Closed carries the
  // state and input from before the chunk that was cut short; Fault is the
  // run-time panic of the control overrun.
  datatype Read =
    | Closed(reader: Reader, rest: seq<byte>)
    | Fault(msg: Message)
    | Got(reader: Reader, msg: Message, rest: seq<byte>)

  function ReadMessage(r: Reader, input: seq<byte>): (res: Read)
    requires ReaderOk(r)
    ensures res.Got? ==> ReaderOk(res.reader) && |res.rest| < |input|
    decreases |input|
  {
    match ReadChunk(r, input)
    case TurnShort => Closed(r, input)
    case Turn(r', csid, rest) =>
      if !r'.table[csid].full then ReadMessage(r', rest)
      else
        var m := MessageOf(csid, r'.table[csid]);
        if Overruns(m) then Fault(m) else Got(Deliver(r', m), m, rest)
  }

  // Every message an input holds, and what is left when the reading stops.
  datatype Transcript = Transcript(msgs: seq<Message>, last: Read)

  function ReadAll(r: Reader, input: seq<byte>): (t: Transcript)
    requires ReaderOk(r)
    decreases |input|
  {
    match ReadMessage(r, input)
    case Got(r', m, rest) =>
      var t := ReadAll(r', rest);
      t.(msgs := [m] + t.msgs)
    case stopped => Transcript([], stopped)
  }

  function Prepend(msgs: seq<Message>, t: Transcript): Transcript {
    t.(msgs := msgs + t.msgs)
  }

  lemma ReadAllLast(r: Reader, input: seq<byte>)
    requires ReaderOk(r)
    ensures
      var res := ReadMessage(r, input);
      ReadAll(r, input) ==
        if res.Got? then Prepend([res.msg], ReadAll(res.reader, res.rest)) else Transcript([], res)
  {
    hide ReadMessage;
  }

  // A connection before its first chunk; 128 and 250000 are the defaults.
  function Fresh(chunkSize: uint32, window: uint32): Reader {
    Reader(map[], chunkSize, window, 0, 0, 0, [])
  }
}
