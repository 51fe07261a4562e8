// Reading what writeChunkStream wrote gives the messages back, up to the chunk
// stream ids the writer chooses itself.
module ChunkRoundTrip {
  import opened Bytes
  import opened ChunkFormat
  import opened ChunkDemux
  import opened ChunkSafety
  import opened ChunkWire

  // The writer cuts by its own chunk size and the reader by the size it last
  // heard.  They agree on a message when the sizes are equal or it fits both.
  predicate Agree(written: nat, read: nat, length: nat) {
    written == read || length <= Min(written, read)
  }

  // The sender of Demultiplexes after all of m has been sent.
  function Finished(s: Sender, m: Message): Sender
    requires !Overruns(m)
  {
    Sender(s.flights - {m.csid}, if m.typeID == SET_CHUNK_SIZE then Control(m) else s.chunkSize)
  }

  function StepFor(m: Message, start: nat): Step {
    if start == 0 then Start(m) else Continue(m.csid)
  }

  // start bytes of m are on the wire and no more.
  predicate AtStart(s: Sender, m: Message, start: nat) {
    && SenderOk(s) && WellFormed(m) && start < |m.body|
    && if start == 0 then m.csid !in s.flights else m.csid in s.flights && s.flights[m.csid] == Flight(m, start)
  }

  lemma ChunksByStep(s: Sender, m: Message, chunkSize: nat, start: nat)
    requires AtStart(s, m, start) && chunkSize >= 1 && Agree(chunkSize, s.chunkSize, |m.body|)
    ensures
      var step := StepFor(m, start);
      && Enabled(s, step) && Current(s, step) == Flight(m, start)
      && SentAfter(s, step) > start
      && Chunks(m, chunkSize, start) == StepBytes(s, step) + Chunks(m, chunkSize, SentAfter(s, step))
  {
    hide BasicHeader, MessageHeader;
    var step := StepFor(m, start);
    var end := SentAfter(s, step);
    assert end == Min(start + chunkSize, |m.body|);
    var fmt := if start == 0 then 0 else 3;
    Regroup(BasicHeader(fmt, m.csid), MessageHeader(fmt, m).bytes, m.body[start..end], Chunks(m, chunkSize, end));
  }

  // The rest of one written message, whatever else is under way.
  lemma {:induction false} MessageMatches(r: Reader, s: Sender, m: Message, chunkSize: nat, start: nat, tail: seq<byte>)
    returns (r': Reader)
    requires InStep(r, s) && AtStart(s, m, start) && !Overruns(m)
    requires chunkSize >= 1 && Agree(chunkSize, s.chunkSize, |m.body|)
    ensures InStep(r', Finished(s, m)) && ReaderOk(r') && SenderOk(Finished(s, m))
    ensures ReadMessage(r, Chunks(m, chunkSize, start) + tail) == Got(r', m, tail)
    decreases |m.body| - start
  {
    hide InStep, Completes, StepBytes, ReadMessage, Chunks, Control, WellFormed, After, Agree, Overruns;
    var step := StepFor(m, start);
    ChunksByStep(s, m, chunkSize, start);
    var end := SentAfter(s, step);
    var more := Chunks(m, chunkSize, end);
    Regroup(StepBytes(s, step), more, tail, []);
    var r1 := StepMatches(r, s, step, more + tail);
    NextState(s, m, chunkSize, start);
    if Completes(s, step) {
      assert more + tail == tail;
      r' := r1;
    } else {
      r' := MessageMatches(r1, After(s, step), m, chunkSize, end, tail);
    }
  }

  // Where one chunk of m leaves the sender.
  lemma NextState(s: Sender, m: Message, chunkSize: nat, start: nat)
    requires AtStart(s, m, start) && !Overruns(m)
    requires chunkSize >= 1 && Agree(chunkSize, s.chunkSize, |m.body|)
    requires SentAfter(s, StepFor(m, start)) > start
    ensures
      var step := StepFor(m, start);
      var end, s1 := SentAfter(s, step), After(s, step);
      if Completes(s, step) then s1 == Finished(s, m) && Chunks(m, chunkSize, end) == []
      else AtStart(s1, m, end) && end < |m.body| && Finished(s1, m) == Finished(s, m) && s1.chunkSize == s.chunkSize
  {
    hide Control, StepBytes;
    var step := StepFor(m, start);
    if !Completes(s, step) {
      assert After(s, step).flights - {m.csid} == s.flights - {m.csid};
    }
  }

  // ---------------------------------------------------- one message, exactly

  // What the writer can carry to a reader: the condition on the message alone.
  // Audio, video and data messages have no need of a chunk stream id.
  predicate Admissible(m: Message) {
    && (2 <= m.csid <= 65599 || m.typeID == 8 || m.typeID == 9 || m.typeID == 15 || m.typeID == 18)
    && m.timeStamp < 0xffffff && m.typeID < 0x100 && 1 <= |m.body| <= 0xffffff
    && (m.typeID == 1 || m.typeID == 5 ==> |m.body| >= 4)
  }

  lemma AdmissibleIs(m: Message)
    ensures Admissible(m) <==> WellFormed(Remap(m)) && !Overruns(m) && m.body != []
  {
  }

  // got is m, on the chunk stream the writer sends it on.
  predicate ReadAs(got: Message, m: Message) {
    && got.timeStamp == m.timeStamp && got.typeID == m.typeID && got.streamID == m.streamID && got.body == m.body
    && got.csid ==
      if m.typeID == 8 then 4
      else if m.typeID == 9 || m.typeID == 15 || m.typeID == 18 then 6
      else m.csid
  }

  lemma ReadAsRemap(got: Message, m: Message)
    ensures ReadAs(got, m) <==> got == Remap(m)
  {
    RemapIs(m);
  }

  // An entry made by a fmt-0 chunk takes no timestamp above 24 bits while a
  // message is under way.
  lemma StampOfHeader(e: Entry, fmt: nat, input: seq<byte>)
    requires EntryOk(e) && fmt < 4 && e.fmt == 0 && e.timeStamp < MAX24 && (fmt == 3 ==> e.bodyRemain > 0)
    ensures var p := ParseMessageHeader(e, fmt, input); p.Parsed? ==> p.value.fmt == 0 && p.value.timeStamp < MAX24
  {
    hide FromBE, FromLE;
  }

  predicate Tame(e: Entry) {
    e.fmt == 0 && e.timeStamp < MAX24 && e.bodyRemain > 0
  }

  lemma StampOfTurn(r: Reader, input: seq<byte>, c: uint32)
    requires ReaderOk(r)
    requires c in r.table ==> Tame(r.table[c])
    requires var p := ParseBasicHeader(input); c !in r.table && p.Parsed? ==> p.value == (0, c)
    ensures
      var t := ReadChunk(r, input);
      t.Turn? ==> c in t.reader.table && t.reader.table[c].fmt == 0 && t.reader.table[c].timeStamp < MAX24
                  && (t.csid != c ==> Tame(t.reader.table[c]))
  {
    var p := ParseBasicHeader(input);
    if p.Parsed? && p.value.1 == c {
      StampOfHeader(EntryFor(r, c, p.value.0), p.value.0, p.rest);
    }
    hide ParseBasicHeader, ParseMessageHeader;
  }

  lemma {:induction false} StampOfMessage(r: Reader, input: seq<byte>, c: uint32)
    requires ReaderOk(r)
    requires c in r.table ==> Tame(r.table[c])
    requires var p := ParseBasicHeader(input); c !in r.table && p.Parsed? ==> p.value == (0, c)
    ensures var res := ReadMessage(r, input); res.Got? && res.msg.csid == c ==> res.msg.timeStamp < MAX24
    decreases |input|
  {
    hide ParseBasicHeader, ReadChunk, Deliver, EntryOk, Overruns;
    StampOfTurn(r, input, c);
    var t := ReadChunk(r, input);
    if t.Turn? && !t.reader.table[t.csid].full {
      StampOfMessage(t.reader, t.rest, c);
    }
  }

  // One message between a writer and a fresh reader of the same chunk size:
  // it comes back, and nothing else does, if and only if it is admissible.
  lemma RoundTripExactly(m: Message, chunkSize: uint32, window: uint32)
    requires chunkSize >= 1
    ensures
      var w := WriteMessage(m, chunkSize);
      var res := ReadMessage(Fresh(chunkSize, window), w.bytes);
      (w.ok && res.Got? && ReadAs(res.msg, m) && res.rest == []) <==> Admissible(m)
  {
    hide ReadMessage, WriteMessage, Admissible, ReadAs, Remap;
    var w := WriteMessage(m, chunkSize);
    var res := ReadMessage(Fresh(chunkSize, window), w.bytes);
    if res.Got? {
      ReadAsRemap(res.msg, m);
    }
    if Admissible(m) {
      AdmissibleReturns(m, chunkSize, window);
    } else if w.ok && res.Got? && res.msg == Remap(m) {
      ReturnedIsAdmissible(m, chunkSize, window);
    }
  }

  lemma AdmissibleReturns(m: Message, chunkSize: uint32, window: uint32)
    requires chunkSize >= 1 && Admissible(m)
    ensures
      var w := WriteMessage(m, chunkSize);
      var res := ReadMessage(Fresh(chunkSize, window), w.bytes);
      w.ok && res.Got? && res.msg == Remap(m) && res.rest == []
  {
    hide ReadMessage, Chunks, Admissible;
    AdmissibleIs(m);
    var r' := MessageMatches(Fresh(chunkSize, window), Sender(map[], chunkSize), Remap(m), chunkSize, 0, []);
    assert WriteMessage(m, chunkSize).bytes + [] == WriteMessage(m, chunkSize).bytes;
  }

  lemma ReturnedIsAdmissible(m: Message, chunkSize: uint32, window: uint32)
    requires chunkSize >= 1 && WriteMessage(m, chunkSize).ok
    requires
      var res := ReadMessage(Fresh(chunkSize, window), WriteMessage(m, chunkSize).bytes);
      res.Got? && res.msg == Remap(m)
    ensures Admissible(m)
  {
    hide ReadMessage, ReadAll, Chunks, BasicHeader, MessageHeader, ParseBasicHeader, Admissible;
    AdmissibleIs(m);
    var bytes, r := WriteMessage(m, chunkSize).bytes, Fresh(chunkSize, window);
    AtEnd(r);
    ReadShape(r, bytes);
    StartsWithHeader(m, chunkSize);
    StampOfMessage(r, bytes, Remap(m).csid);
  }

  lemma StartsWithHeader(m: Message, chunkSize: uint32)
    requires chunkSize >= 1 && WriteMessage(m, chunkSize).ok && m.body != [] && 2 <= Remap(m).csid <= 65599
    ensures
      var p := ParseBasicHeader(WriteMessage(m, chunkSize).bytes);
      p.Parsed? && p.value == (0, Remap(m).csid)
  {
    var m', end := Remap(m), Min(chunkSize, |m.body|);
    var rest := MessageHeader(0, m').bytes + (m'.body[0..end] + Chunks(m', chunkSize, end));
    BasicHeaderParses(0, m'.csid, rest);
    assert WriteMessage(m, chunkSize).bytes == BasicHeader(0, m'.csid) + rest;
  }

  // ------------------------------------------------------ lists of messages

  function SizeAfter(m: Message, chunkSize: uint32): uint32
    requires !Overruns(m)
  {
    if m.typeID == SET_CHUNK_SIZE then Control(m) else chunkSize
  }

  // Every message is admissible, and the chunk sizes agree on it when its turn
  // comes: the reader moves to each Set Chunk Size it is sent.
  predicate Deliverable(msgs: seq<Message>, written: nat, read: uint32) {
    msgs == [] ||
    (Admissible(msgs[0]) && Agree(written, read, |msgs[0].body|)
     && Deliverable(msgs[1..], written, SizeAfter(msgs[0], read)))
  }

  function WriteAll(msgs: seq<Message>, chunkSize: nat): seq<byte>
    requires chunkSize >= 1
  {
    if msgs == [] then [] else WriteMessage(msgs[0], chunkSize).bytes + WriteAll(msgs[1..], chunkSize)
  }

  predicate ReadAllAs(got: seq<Message>, msgs: seq<Message>) {
    |got| == |msgs| && forall i :: 0 <= i < |msgs| ==> ReadAs(got[i], msgs[i])
  }

  lemma {:induction false} SequenceFrom(r: Reader, s: Sender, msgs: seq<Message>, chunkSize: nat)
    requires InStep(r, s) && ReaderOk(r) && SenderOk(s) && s.flights == map[]
    requires chunkSize >= 1 && Deliverable(msgs, chunkSize, s.chunkSize)
    ensures
      var t := ReadAll(r, WriteAll(msgs, chunkSize));
      ReadAllAs(t.msgs, msgs) && t.last.Closed? && t.last.rest == []
    decreases |msgs|
  {
    hide InStep, ReadMessage, ReadAll, Chunks, Agree, Control, Admissible, ReadAs;
    if msgs == [] {
      AtEnd(r);
    } else {
      var m := Remap(msgs[0]);
      var rest := WriteAll(msgs[1..], chunkSize);
      AdmissibleIs(msgs[0]);
      ReadAsRemap(m, msgs[0]);
      var r' := MessageMatches(r, s, m, chunkSize, 0, rest);
      ReadAllLast(r, WriteAll(msgs, chunkSize));
      SequenceFrom(r', Finished(s, m), msgs[1..], chunkSize);
    }
  }

  // Main result.  A deliverable list is read back whole, in order, to the last
  // byte, from a fresh connection whatever the chunk size it starts with.
  lemma SequenceRoundTrip(msgs: seq<Message>, written: nat, read: uint32, window: uint32)
    requires written >= 1 && Deliverable(msgs, written, read)
    ensures
      var t := ReadAll(Fresh(read, window), WriteAll(msgs, written));
      ReadAllAs(t.msgs, msgs) && t.last.Closed? && t.last.rest == []
  {
    SequenceFrom(Fresh(read, window), Sender(map[], read), msgs, written);
  }

  // The connect response: three control messages, the last of which announces
  // the writer's chunk size, then the command result of any length.
  function ProtocolControl(typeID: uint32, value: uint32, trailer: seq<byte>): Message {
    Message(2, 0, typeID, 0, ToBE(value, 4) + trailer)
  }

  function ConnectResponse(windowSize: uint32, chunkSize: uint32, result: Message): seq<Message> {
    [ProtocolControl(WINDOW_ACK_SIZE, windowSize, []),
     ProtocolControl(SET_PEER_BANDWIDTH, 2500000, [2]),
     ProtocolControl(SET_CHUNK_SIZE, chunkSize, []),
     result]
  }

  // A peer that starts with any chunk size of 5 or more reads it all: the
  // window by type 5, the bandwidth by type 6 with limit type 2, the chunk size
  // by type 1, which it then reads by, and the result.
  lemma ConnectResponseDelivered(windowSize: uint32, chunkSize: uint32, result: Message, peer: uint32, window: uint32)
    requires chunkSize >= 5 && peer >= 5 && Admissible(result)
    ensures
      var t := ReadAll(Fresh(peer, window), WriteAll(ConnectResponse(windowSize, chunkSize, result), chunkSize));
      && |t.msgs| == 4 && t.last.Closed? && t.last.rest == []
      && IsControl(t.msgs[0], 5, windowSize, []) && IsControl(t.msgs[1], 6, 2500000, [2])
      && IsControl(t.msgs[2], 1, chunkSize, []) && ReadAs(t.msgs[3], result)
  {
    var msgs := ConnectResponse(windowSize, chunkSize, result);
    Widths();
    Fits(chunkSize, 4);
    assert msgs[2].body[..4] == ToBE(chunkSize, 4);
    assert Control(msgs[2]) == chunkSize;
    assert Deliverable(msgs[3..], chunkSize, chunkSize) by { assert msgs[3..][1..] == []; }
    assert msgs[2..][1..] == msgs[3..] && msgs[1..][1..] == msgs[2..];
    assert Deliverable(msgs[2..], chunkSize, peer);
    assert Deliverable(msgs[1..], chunkSize, peer);
    SequenceRoundTrip(msgs, chunkSize, peer, window);
    ControlIs(5, windowSize, []);
    ControlIs(6, 2500000, [2]);
    ControlIs(1, chunkSize, []);
    var got := ReadAll(Fresh(peer, window), WriteAll(msgs, chunkSize)).msgs;
    ReadAsSame(got[0], msgs[0]);
    ReadAsSame(got[1], msgs[1]);
    ReadAsSame(got[2], msgs[2]);
  }

  // A protocol control message: on chunk stream 2 and message stream 0, with a
  // value in four bytes, most significant first, and what comes after it.
  predicate IsControl(m: Message, typeID: nat, value: nat, trailer: seq<byte>) {
    && m.csid == 2 && m.streamID == 0 && m.timeStamp == 0 && m.typeID == typeID
    && |m.body| == 4 + |trailer| && Value(m.body[..4]) == value && m.body[4..] == trailer
  }

  lemma ControlIs(typeID: uint32, value: uint32, trailer: seq<byte>)
    ensures IsControl(ProtocolControl(typeID, value, trailer), typeID, value, trailer)
  {
    var body := ToBE(value, 4) + trailer;
    Widths();
    Fits(value, 4);
    assert body[..4] == ToBE(value, 4) && body[4..] == trailer;
    ValueOf(body[..4]);
  }

  lemma ReadAsSame(got: Message, m: Message)
    requires ReadAs(got, m) && m.csid == 2 && (m.typeID == 1 || m.typeID == 3 || m.typeID == 5 || m.typeID == 6)
    ensures got == m
  {
  }
}
