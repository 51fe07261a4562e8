// Demultiplexing: whatever way a peer interleaves the chunks of its messages,
// readChunkStream hands out exactly those messages.
module ChunkDemux {
  import opened Bytes
  import opened ChunkFormat

  // The messages both sides agree on.
  predicate WellFormed(m: Message) {
    && 2 <= m.csid <= 65599
    && m.timeStamp < MAX24
    && m.typeID < 0x100
    && |m.body| <= MAX24
  }

  // ------------------------------------------------------- the sending side

  // A peer with any number of messages under way, at most one per chunk
  // stream id.  chunkSize is the size it last announced.
  datatype Flight = Flight(msg: Message, sent: nat)
  datatype Sender = Sender(flights: map<int, Flight>, chunkSize: uint32)

  // It begins a message with a fmt-0 chunk, or continues one with fmt 3.
  datatype Step = Start(msg: Message) | Continue(csid: uint32)

  predicate SenderOk(s: Sender) {
    forall c :: c in s.flights ==>
      var f := s.flights[c];
      WellFormed(f.msg) && f.msg.csid == c && f.sent < |f.msg.body|
  }

  predicate Enabled(s: Sender, step: Step) {
    match step
    case Start(m) => WellFormed(m) && m.csid !in s.flights
    case Continue(c) => c in s.flights
  }

  function Current(s: Sender, step: Step): Flight
    requires Enabled(s, step)
  {
    match step
    case Start(m) => Flight(m, 0)
    case Continue(c) => s.flights[c]
  }

  // How much of the message is sent once the step is taken.
  function SentAfter(s: Sender, step: Step): nat
    requires SenderOk(s) && Enabled(s, step)
  {
    var f := Current(s, step);
    Min(f.sent + s.chunkSize, |f.msg.body|)
  }

  function StepBytes(s: Sender, step: Step): seq<byte>
    requires SenderOk(s) && Enabled(s, step)
  {
    var f := Current(s, step);
    var fmt := if step.Start? then 0 else 3;
    BasicHeader(fmt, f.msg.csid) + (MessageHeader(fmt, f.msg).bytes + f.msg.body[f.sent..SentAfter(s, step)])
  }

  predicate Completes(s: Sender, step: Step)
    requires SenderOk(s) && Enabled(s, step)
  {
    SentAfter(s, step) == |Current(s, step).msg.body|
  }

  // The reader survives the step: it does not complete a control message that
  // is too short to hold its value.
  predicate Safe(s: Sender, step: Step)
    requires SenderOk(s) && Enabled(s, step)
  {
    Completes(s, step) ==> !Overruns(Current(s, step).msg)
  }

  // A completed Set Chunk Size takes effect on the sender's later chunks.
  function After(s: Sender, step: Step): (s': Sender)
    requires SenderOk(s) && Enabled(s, step) && Safe(s, step)
    ensures SenderOk(s')
  {
    var m := Current(s, step).msg;
    if Completes(s, step) then
      Sender(s.flights - {m.csid}, if m.typeID == SET_CHUNK_SIZE then Control(m) else s.chunkSize)
    else s.(flights := s.flights[m.csid := Flight(m, SentAfter(s, step))])
  }

  predicate EnabledRun(s: Sender, run: seq<Step>)
    requires SenderOk(s)
    decreases |run|
  {
    run == [] || (Enabled(s, run[0]) && Safe(s, run[0]) && EnabledRun(After(s, run[0]), run[1..]))
  }

  // What a run puts on the wire, and the messages it completes, in order.
  function RunBytes(s: Sender, run: seq<Step>): seq<byte>
    requires SenderOk(s) && EnabledRun(s, run)
    decreases |run|
  {
    if run == [] then [] else StepBytes(s, run[0]) + RunBytes(After(s, run[0]), run[1..])
  }

  function Completed(s: Sender, run: seq<Step>): seq<Message>
    requires SenderOk(s) && EnabledRun(s, run)
    decreases |run|
  {
    if run == [] then []
    else
      (if Completes(s, run[0]) then [Current(s, run[0]).msg] else []) + Completed(After(s, run[0]), run[1..])
  }

  function RunEnd(s: Sender, run: seq<Step>): (s': Sender)
    requires SenderOk(s) && EnabledRun(s, run)
    ensures SenderOk(s')
    decreases |run|
  {
    if run == [] then s else RunEnd(After(s, run[0]), run[1..])
  }

  // ----------------------------------------------- header fields round-trip

  lemma BasicHeaderParses(fmt: nat, csid: uint32, tail: seq<byte>)
    requires fmt < 4 && 2 <= csid <= 65599
    ensures ParseBasicHeader(BasicHeader(fmt, csid) + tail) == Parsed((fmt, csid), tail)
  {
    var input := BasicHeader(fmt, csid) + tail;
    Widths();
    if csid < 64 {
      assert input[1..] == tail;
    } else if csid - 64 < 0x100 {
      Fits(csid - 64, 1);
      assert input[1..2] == ToLE(csid - 64, 1) && input[2..] == tail;
    } else {
      Fits(csid - 64, 2);
      assert input[1..3] == ToLE(csid - 64, 2) && input[3..] == tail;
    }
  }

  // The entry of a message of which the first sent bytes have arrived.
  predicate Carries(e: Entry, m: Message, sent: nat) {
    && sent <= |m.body| == |e.body| == e.msgLength
    && e.timeStamp == m.timeStamp && e.typeID == m.typeID && e.streamID == m.streamID
    && !e.timeExtended
    && e.bodyIndex == sent && e.bodyRemain == |m.body| - sent
    && e.body[..sent] == m.body[..sent]
  }

  lemma StartParses(e: Entry, m: Message, tail: seq<byte>)
    requires WellFormed(m) && EntryOk(e) && e.fmt == 0
    ensures var p := ParseMessageHeader(e, 0, MessageHeader(0, m).bytes + tail);
      p.Parsed? && p.rest == tail && Carries(p.value, m, 0) && !p.value.full
  {
    Widths();
    Fits(m.timeStamp, 3);
    Fits(|m.body|, 3);
    Fits(m.typeID, 1);
    Fits(m.streamID, 4);
    var h := MessageHeader(0, m).bytes;
    assert h[0..3] == ToBE(m.timeStamp, 3);
    assert h[3..6] == ToBE(|m.body|, 3);
    assert h[6..7] == ToBE(m.typeID, 1);
    assert h[7..11] == ToLE(m.streamID, 4);
    assert (h + tail)[..11] == h && (h + tail)[11..] == tail;
  }

  lemma BodyParses(e: Entry, m: Message, sent: nat, end: nat, chunkSize: nat, tail: seq<byte>)
    requires EntryOk(e) && Carries(e, m, sent) && !e.full && |m.body| <= MAX24
    requires end == Min(sent + chunkSize, |m.body|)
    ensures var p := ParseBody(e, chunkSize, m.body[sent..end] + tail);
      && p.Parsed? && p.rest == tail && Carries(p.value, m, end) && (p.value.full <==> end == |m.body|)
      && p.value.fmt == e.fmt && p.value.extended == e.extended
  {
    var input := m.body[sent..end] + tail;
    var size := end - sent;
    assert input[..size] == m.body[sent..end] && input[size..] == tail;
    var e' := ParseBody(e, chunkSize, input).value;
    assert e'.body[..end] == e.body[..sent] + m.body[sent..end] == m.body[..end];
  }

  // ------------------------------------------------------- the simulation

  // The reader's table holds the sender's flights, and nothing else under way.
  predicate InStep(r: Reader, s: Sender) {
    && ReaderOk(r) && SenderOk(s)
    && r.chunkSize == s.chunkSize
    && s.flights.Keys <= r.table.Keys
    && forall c :: c in r.table ==> EntryMatches(r.table[c], s, c)
  }

  predicate EntryMatches(e: Entry, s: Sender, c: uint32) {
    && e.fmt == 0
    && if c in s.flights then !e.full && Carries(e, s.flights[c].msg, s.flights[c].sent) else e.bodyRemain == 0
  }

  lemma HeaderMatches(r: Reader, s: Sender, step: Step, tail: seq<byte>)
    requires InStep(r, s) && Enabled(s, step)
    ensures
      var f := Current(s, step);
      var fmt := if step.Start? then 0 else 3;
      var p := ParseMessageHeader(EntryFor(r, f.msg.csid, fmt), fmt, MessageHeader(fmt, f.msg).bytes + tail);
      && p.Parsed? && p.rest == tail && Carries(p.value, f.msg, f.sent) && !p.value.full
      && EntryOk(p.value) && p.value.fmt == 0
  {
    match step
    case Start(m) => StartParses(EntryFor(r, m.csid, 0), m, tail);
    case Continue(c) => assert MessageHeader(3, s.flights[c].msg).bytes + tail == tail;
  }

  lemma Regroup(a: seq<byte>, b: seq<byte>, c: seq<byte>, d: seq<byte>)
    ensures (a + (b + c)) + d == a + (b + (c + d))
    ensures (a + b) + c == a + (b + c)
  {
  }

  // Each step is one turn of the reader, whatever bytes come after it.
  lemma TurnMatches(r: Reader, s: Sender, step: Step, tail: seq<byte>) returns (e: Entry)
    requires InStep(r, s) && Enabled(s, step)
    ensures
      var m := Current(s, step).msg;
      && ReadChunk(r, StepBytes(s, step) + tail) == Turn(r.(table := r.table[m.csid := e]), m.csid, tail)
      && Carries(e, m, SentAfter(s, step)) && EntryOk(e) && e.fmt == 0
      && (e.full <==> Completes(s, step))
  {
    hide ParseBasicHeader, ParseMessageHeader, ParseBody, BasicHeader, MessageHeader;
    hide Carries, EntryOk, EntryFor, Overruns;
    var m, sent, end := Current(s, step).msg, Current(s, step).sent, SentAfter(s, step);
    var fmt := if step.Start? then 0 else 3;
    var body := m.body[sent..end] + tail;
    var h := MessageHeader(fmt, m).bytes;
    var input := StepBytes(s, step) + tail;
    Regroup(BasicHeader(fmt, m.csid), h, m.body[sent..end], tail);
    BasicHeaderParses(fmt, m.csid, h + body);
    HeaderMatches(r, s, step, body);
    var e1 := ParseMessageHeader(EntryFor(r, m.csid, fmt), fmt, h + body).value;
    BodyParses(e1, m, sent, end, r.chunkSize, tail);
    e := ParseBody(e1, r.chunkSize, body).value;
  }

  // What the reader does with the entry a turn leaves.
  lemma TurnInStep(r: Reader, s: Sender, step: Step, e: Entry)
    requires InStep(r, s) && Enabled(s, step) && EntryOk(e)
    requires Carries(e, Current(s, step).msg, SentAfter(s, step)) && e.fmt == 0
    requires e.full <==> Completes(s, step)
    requires Safe(s, step)
    ensures
      var m := Current(s, step).msg;
      var r1 := r.(table := r.table[m.csid := e]);
      InStep(if Completes(s, step) then Deliver(r1, m) else r1, After(s, step))
  {
    hide StepBytes, Deliver, EntryOk, WellFormed, Carries, Completes, SentAfter, EntryMatches;
    var m := Current(s, step).msg;
    var r1 := r.(table := r.table[m.csid := e]);
    EntriesFollow(r, s, step, e);
    if Completes(s, step) {
      DeliverFrame(r1, m);
    }
  }

  lemma EntriesFollow(r: Reader, s: Sender, step: Step, e: Entry)
    requires InStep(r, s) && Enabled(s, step) && Safe(s, step) && EntryOk(e)
    requires Carries(e, Current(s, step).msg, SentAfter(s, step)) && e.fmt == 0
    requires e.full <==> Completes(s, step)
    ensures
      var m, s' := Current(s, step).msg, After(s, step);
      && 2 <= m.csid <= 65599 && EntryMatches(e, s', m.csid)
      && forall c :: c in r.table && c != m.csid ==> EntryMatches(r.table[c], s', c)
  {
    hide StepBytes, Control;
    var m, s' := Current(s, step).msg, After(s, step);
    forall c | c in r.table && c != m.csid
      ensures EntryMatches(r.table[c], s', c)
    {
      assert EntryMatches(r.table[c], s, c);
    }
  }

  lemma DeliverFrame(r: Reader, m: Message)
    requires !Overruns(m)
    ensures Deliver(r, m).table == r.table
    ensures Deliver(r, m).chunkSize == if m.typeID == SET_CHUNK_SIZE then Control(m) else r.chunkSize
  {
  }

  lemma WholeBody(e: Entry, m: Message)
    requires Carries(e, m, |m.body|)
    ensures MessageOf(m.csid, e) == m
  {
    assert e.body == e.body[..|m.body|] == m.body[..|m.body|] == m.body;
  }

  // One step of the sender, seen from the reader's whole future.
  lemma StepMatches(r: Reader, s: Sender, step: Step, tail: seq<byte>) returns (r': Reader)
    requires InStep(r, s) && Enabled(s, step)
    ensures Safe(s, step) ==> InStep(r', After(s, step))
    ensures
      ReadMessage(r, StepBytes(s, step) + tail) ==
        if !Safe(s, step) then Fault(Current(s, step).msg)
        else if Completes(s, step) then Got(r', Current(s, step).msg, tail)
        else ReadMessage(r', tail)
  {
    var e := TurnMatches(r, s, step, tail);
    hide ReadChunk, StepBytes, Carries;
    var m := Current(s, step).msg;
    r' := r.(table := r.table[m.csid := e]);
    if Completes(s, step) {
      WholeBody(e, m);
    }
    if Safe(s, step) {
      TurnInStep(r, s, step, e);
      if Completes(s, step) {
        r' := Deliver(r', m);
      }
    }
  }

  // Main result.  Any run of the sender, from any matching state: the reader
  // hands out exactly the completed messages, in order of completion, each
  // with its own fields and body, and then goes on from the end of the run.
  lemma {:induction false} Demultiplexes(r: Reader, s: Sender, run: seq<Step>, tail: seq<byte>) returns (r': Reader)
    requires InStep(r, s) && EnabledRun(s, run)
    ensures InStep(r', RunEnd(s, run))
    ensures ReadAll(r, RunBytes(s, run) + tail) == Prepend(Completed(s, run), ReadAll(r', tail))
    decreases |run|
  {
    hide Carries, After, StepBytes, ReadMessage, ReadAll;
    if run == [] {
      assert RunBytes(s, run) + tail == tail;
      r' := r;
    } else {
      var s1, rest := After(s, run[0]), RunBytes(After(s, run[0]), run[1..]) + tail;
      Regroup(StepBytes(s, run[0]), RunBytes(s1, run[1..]), tail, []);
      var r1 := StepMatches(r, s, run[0], rest);
      r' := Demultiplexes(r1, s1, run[1..], tail);
      var out := if Completes(s, run[0]) then [Current(s, run[0]).msg] else [];
      ReadAllStep(r, StepBytes(s, run[0]) + rest, r1, rest, out);
    }
  }

  lemma ReadAllStep(r: Reader, input: seq<byte>, r1: Reader, rest: seq<byte>, out: seq<Message>)
    requires ReaderOk(r) && ReaderOk(r1) && |out| <= 1
    requires ReadMessage(r, input) == if out != [] then Got(r1, out[0], rest) else ReadMessage(r1, rest)
    ensures ReadAll(r, input) == Prepend(out, ReadAll(r1, rest))
  {
    hide ReadMessage;
    if out == [] {
      assert [] + ReadAll(r1, rest).msgs == ReadAll(r1, rest).msgs;
    }
  }

  // Exactly when reading fails: after any safe run, the next step makes the
  // reader fault if and only if it completes a control message that is too
  // short; otherwise the message is handed out like any other.
  lemma FaultsExactly(r: Reader, s: Sender, run: seq<Step>, step: Step)
    requires InStep(r, s) && EnabledRun(s, run) && Enabled(RunEnd(s, run), step)
    ensures
      var t := ReadAll(r, RunBytes(s, run) + StepBytes(RunEnd(s, run), step));
      var s' := RunEnd(s, run);
      && (t.last.Fault? <==> Completes(s', step) && Overruns(Current(s', step).msg))
      && t.msgs == Completed(s, run) + (if Completes(s', step) && Safe(s', step) then [Current(s', step).msg] else [])
  {
    hide EntryMatches, EntryOk, ReadMessage, ReadAll, StepBytes, After;
    hide RunBytes, Completed, RunEnd, SentAfter, Overruns;
    var s' := RunEnd(s, run);
    var bytes := StepBytes(s', step);
    var r' := Demultiplexes(r, s, run, bytes);
    var r1 := StepMatches(r', s', step, []);
    assert bytes + [] == bytes;
    if Safe(s', step) {
      AtEnd(r1);
    }
    ReadAllLast(r', bytes);
  }

  // The fault is real: a Set Chunk Size with a one-byte body, sent first.
  lemma ShortSetChunkSizeFaults(chunkSize: uint32, window: uint32)
    requires chunkSize >= 1
    ensures
      var m := Message(2, 0, SET_CHUNK_SIZE, 0, [7]);
      ReadMessage(Fresh(chunkSize, window), StepBytes(Sender(map[], chunkSize), Start(m))) == Fault(m)
  {
    hide ReadMessage, StepBytes;
    var s, step := Sender(map[], chunkSize), Start(Message(2, 0, SET_CHUNK_SIZE, 0, [7]));
    var r' := StepMatches(Fresh(chunkSize, window), s, step, []);
    assert StepBytes(s, step) + [] == StepBytes(s, step);
  }

  lemma AtEnd(r: Reader)
    requires ReaderOk(r)
    ensures ReadMessage(r, []) == Closed(r, []) && ReadAll(r, []) == Transcript([], Closed(r, []))
  {
  }

  // From a fresh connection, and nothing after the run: every byte is read.
  lemma FreshDemultiplexes(chunkSize: uint32, window: uint32, run: seq<Step>)
    requires EnabledRun(Sender(map[], chunkSize), run)
    ensures
      var s := Sender(map[], chunkSize);
      var t := ReadAll(Fresh(chunkSize, window), RunBytes(s, run));
      t.msgs == Completed(s, run) && t.last.Closed? && t.last.rest == []
  {
    var s, r := Sender(map[], chunkSize), Fresh(chunkSize, window);
    var r' := Demultiplexes(r, s, run, []);
    hide ReadAll, RunBytes;
    assert RunBytes(s, run) + [] == RunBytes(s, run);
    AtEnd(r');
  }
}
