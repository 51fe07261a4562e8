// Messages begun by a chunk of any format, on an entry made by any format:
// what the reader hands out, and with which timestamp.
module ChunkStart {
  import opened Bytes
  import opened ChunkFormat
  import opened ChunkDemux
  import opened ChunkRoundTrip
  import opened ChunkDelta

  // The message header of a chunk of each format, with a given first field.
  function Header(fmt: nat, m: Message, field: nat): (h: seq<byte>)
    requires fmt < 4
    ensures |h| == HeaderSize(fmt)
  {
    (if fmt <= 2 then ToBE(field, 3) else [])
    + (if fmt <= 1 then ToBE(|m.body|, 3) + ToBE(m.typeID, 1) else [])
    + (if fmt == 0 then ToLE(m.streamID, 4) else [])
  }

  // A message cut as the writer cuts it, but begun by a chunk of format fmt.
  function Begun(fmt: nat, m: Message, field: nat, chunkSize: nat): seq<byte>
    requires fmt < 4 && chunkSize >= 1
  {
    var end := Min(chunkSize, |m.body|);
    BasicHeader(fmt, m.csid) + (Header(fmt, m, field) + m.body[0..end]) + Continued(m, chunkSize, end)
  }

  // Its fmt-3 chunks from start on.
  function Continued(m: Message, chunkSize: nat, start: nat): (bytes: seq<byte>)
    requires chunkSize >= 1 && start <= |m.body|
    decreases |m.body| - start
  {
    if start == |m.body| then []
    else
      var end := Min(start + chunkSize, |m.body|);
      BasicHeader(3, m.csid) + m.body[start..end] + Continued(m, chunkSize, end)
  }

  // The timestamp such a message gets.  It is the field only where fmt 0 made
  // the entry; where fmt 1 or 2 did it is the sum with the one before, and where
  // fmt 3 did it stays.  A fmt-3 chunk leaves it, or adds the last field again.
  function StampOf(e: Entry, fmt: nat, field: nat): uint32 {
    if e.fmt == 3 then e.timeStamp
    else if e.fmt == 0 then if fmt == 3 then e.timeStamp else Wrap32(field)
    else Wrap32(e.timeStamp + if fmt == 3 then e.extended else field)
  }

  // m is what a chunk of format fmt can begin on e: what its header leaves out
  // is as in the message before.
  predicate Inherits(e: Entry, fmt: nat, field: nat, m: Message) {
    && field < MAX24 && m.typeID < 0x100 && |m.body| <= MAX24
    && m.timeStamp == StampOf(e, fmt, field)
    && (fmt >= 1 ==> m.streamID == e.streamID)
    && (fmt >= 2 ==> |m.body| == e.msgLength && m.typeID == e.typeID)
    && (fmt == 3 ==> e.bodyRemain == 0 && !e.timeExtended)
  }

  lemma HeaderBegins(e: Entry, fmt: nat, field: nat, m: Message, tail: seq<byte>)
    requires fmt < 4 && EntryOk(e) && Inherits(e, fmt, field, m)
    ensures
      var p := ParseMessageHeader(e, fmt, Header(fmt, m, field) + tail);
      && p.Parsed? && p.rest == tail && Carries(p.value, m, 0) && !p.value.full
      && p.value.fmt == e.fmt && p.value.extended == if fmt == 3 then e.extended else field
  {
    var h := Header(fmt, m, field);
    assert (h + tail)[..|h|] == h && (h + tail)[|h|..] == tail;
    if fmt <= 2 {
      FieldsOf(fmt, m, field);
      StartEntryTakes(e, fmt, field, m);
    } else {
      RepeatEntryTakes(e, m);
    }
  }

  // What the bytes of a header say, one by one.
  lemma FieldsOf(fmt: nat, m: Message, field: nat)
    requires fmt <= 2 && field < MAX24 && m.typeID < 0x100 && |m.body| <= MAX24
    ensures
      var h := Header(fmt, m, field);
      && FromBE(h[0..3]) == field
      && (fmt <= 1 ==> FromBE(h[3..6]) == |m.body| && FromBE(h[6..7]) == m.typeID)
      && (fmt == 0 ==> FromLE(h[7..11]) == m.streamID)
  {
    hide ToBE, ToLE, FromBE, FromLE;
    Widths();
    Fits(field, 3);
    Fits(|m.body|, 3);
    Fits(m.typeID, 1);
    Fits(m.streamID, 4);
    var h := Header(fmt, m, field);
    assert h[0..3] == ToBE(field, 3);
    if fmt <= 1 {
      assert h[3..6] == ToBE(|m.body|, 3) && h[6..7] == ToBE(m.typeID, 1);
    }
    if fmt == 0 {
      assert h[7..11] == ToLE(m.streamID, 4);
    }
  }

  lemma StartEntryTakes(e: Entry, fmt: nat, field: nat, m: Message)
    requires fmt <= 2 && EntryOk(e) && Inherits(e, fmt, field, m)
    requires
      var h := Header(fmt, m, field);
      && FromBE(h[0..3]) == field
      && (fmt <= 1 ==> FromBE(h[3..6]) == |m.body| && FromBE(h[6..7]) == m.typeID)
      && (fmt == 0 ==> FromLE(h[7..11]) == m.streamID)
    ensures
      var e' := StartEntry(e, fmt, Header(fmt, m, field));
      Carries(e', m, 0) && !e'.full && e'.extended == field
  {
    hide Header, FromBE, FromLE;
  }

  lemma RepeatEntryTakes(e: Entry, m: Message)
    requires EntryOk(e) && Inherits(e, 3, 0, m)
    ensures
      var e' := ParseMessageHeader(e, 3, []).value;
      ParseMessageHeader(e, 3, []).Parsed? && Carries(e', m, 0) && !e'.full && e'.extended == e.extended
    ensures forall tail :: ParseMessageHeader(e, 3, tail) == Parsed(ParseMessageHeader(e, 3, []).value, tail)
  {
  }

  // ------------------------------------------------------- whole messages

  // The entry of m when sent bytes of it have arrived, made by fmt and with
  // extended as its last field.
  predicate Under(e: Entry, m: Message, sent: nat, fmt: nat, extended: nat) {
    Carries(e, m, sent) && EntryOk(e) && (e.full <==> sent == |m.body|) && e.fmt == fmt && e.extended == extended
  }

  predicate CanArrive(r: Reader, m: Message, chunkSize: nat) {
    && ReaderOk(r) && 2 <= m.csid <= 65599 && !Overruns(m)
    && chunkSize >= 1 && Agree(chunkSize, r.chunkSize, |m.body|)
  }

  lemma FirstTurn(r: Reader, fmt: nat, field: nat, m: Message, tail: seq<byte>) returns (e: Entry)
    requires ReaderOk(r) && 2 <= m.csid <= 65599 && fmt < 4 && Inherits(EntryFor(r, m.csid, fmt), fmt, field, m)
    ensures
      var e0, end := EntryFor(r, m.csid, fmt), Min(r.chunkSize, |m.body|);
      var bytes := BasicHeader(fmt, m.csid) + (Header(fmt, m, field) + m.body[0..end]);
      && ReadChunk(r, bytes + tail) == Turn(r.(table := r.table[m.csid := e]), m.csid, tail)
      && Under(e, m, end, e0.fmt, if fmt == 3 then e0.extended else field)
  {
    hide ParseBasicHeader, ParseMessageHeader, ParseBody, BasicHeader, Header, Inherits, Carries, EntryFor, EntryOk;
    var e0, end := EntryFor(r, m.csid, fmt), Min(r.chunkSize, |m.body|);
    var h, rest := Header(fmt, m, field), m.body[0..end] + tail;
    Regroup(BasicHeader(fmt, m.csid), h, m.body[0..end], tail);
    BasicHeaderParses(fmt, m.csid, h + rest);
    HeaderBegins(e0, fmt, field, m, rest);
    var e1 := ParseMessageHeader(e0, fmt, h + rest).value;
    ShortBody(e0, fmt, field, m);
    BodyParses(e1, m, 0, end, r.chunkSize, tail);
    e := ParseBody(e1, r.chunkSize, rest).value;
  }

  lemma ShortBody(e: Entry, fmt: nat, field: nat, m: Message)
    requires Inherits(e, fmt, field, m)
    ensures |m.body| <= MAX24
  {
  }

  lemma NextTurn(r: Reader, m: Message, start: nat, tail: seq<byte>) returns (e: Entry)
    requires ReaderOk(r) && 2 <= m.csid <= 65599 && m.csid in r.table && start < |m.body| <= MAX24
    requires Under(r.table[m.csid], m, start, r.table[m.csid].fmt, r.table[m.csid].extended)
    ensures
      var e0, end := r.table[m.csid], Min(start + r.chunkSize, |m.body|);
      && ReadChunk(r, BasicHeader(3, m.csid) + m.body[start..end] + tail)
         == Turn(r.(table := r.table[m.csid := e]), m.csid, tail)
      && Under(e, m, end, e0.fmt, e0.extended)
  {
    hide ParseBasicHeader, ParseBody, BasicHeader;
    var e0, end := r.table[m.csid], Min(start + r.chunkSize, |m.body|);
    var rest := m.body[start..end] + tail;
    Regroup(BasicHeader(3, m.csid), m.body[start..end], tail, []);
    BasicHeaderParses(3, m.csid, rest);
    BodyParses(e0, m, start, end, r.chunkSize, tail);
    e := ParseBody(e0, r.chunkSize, rest).value;
  }

  // The message is handed out, and its entry is what the reader keeps of it.
  ghost predicate Arrived(r: Reader, r': Reader, m: Message, fmt: nat, extended: nat)
    requires !Overruns(m)
  {
    exists e :: Under(e, m, |m.body|, fmt, extended) && r' == Deliver(r.(table := r.table[m.csid := e]), m)
  }

  lemma {:induction false} RestArrives(r: Reader, m: Message, start: nat, chunkSize: nat, tail: seq<byte>)
    returns (r': Reader)
    requires CanArrive(r, m, chunkSize) && m.csid in r.table && start < |m.body| <= MAX24
    requires Under(r.table[m.csid], m, start, r.table[m.csid].fmt, r.table[m.csid].extended)
    ensures ReadMessage(r, Continued(m, chunkSize, start) + tail) == Got(r', m, tail)
    ensures Arrived(r, r', m, r.table[m.csid].fmt, r.table[m.csid].extended)
    decreases |m.body| - start
  {
    hide ReadChunk, BasicHeader, Under, Overruns, Deliver;
    var end := Min(start + chunkSize, |m.body|);
    var more := Continued(m, chunkSize, end) + tail;
    var first := BasicHeader(3, m.csid) + m.body[start..end];
    assert Continued(m, chunkSize, start) + tail == first + more;
    assert end == Min(start + r.chunkSize, |m.body|);
    var e := NextTurn(r, m, start, more);
    var r1 := r.(table := r.table[m.csid := e]);
    FullIsWhole(e, m, end, r.table[m.csid].fmt, r.table[m.csid].extended);
    if end == |m.body| {
      assert more == tail;
      r' := Deliver(r1, m);
    } else {
      r' := RestArrives(r1, m, end, chunkSize, tail);
      ArrivedAgain(r, r1, r', m, e);
    }
  }

  lemma FullIsWhole(e: Entry, m: Message, sent: nat, fmt: nat, extended: nat)
    requires Under(e, m, sent, fmt, extended)
    ensures EntryOk(e) && (e.full <==> sent == |m.body|) && e.fmt == fmt && e.extended == extended
    ensures sent == |m.body| ==> MessageOf(m.csid, e) == m
  {
    if sent == |m.body| {
      WholeBody(e, m);
    }
  }

  lemma ArrivedAgain(r: Reader, r1: Reader, r': Reader, m: Message, e: Entry)
    requires !Overruns(m) && r1 == r.(table := r.table[m.csid := e]) && Arrived(r1, r', m, e.fmt, e.extended)
    ensures Arrived(r, r', m, e.fmt, e.extended)
  {
    hide Under, Deliver;
    var e' :| Under(e', m, |m.body|, e.fmt, e.extended) && r' == Deliver(r1.(table := r1.table[m.csid := e']), m);
    assert r1.table[m.csid := e'] == r.table[m.csid := e'];
  }

  // Main result.  On any reader, whatever made the entry and whatever is under
  // way on other ids, a message begun by any format comes out whole, with the
  // fields its header leaves out as in the message before, and the timestamp
  // of StampOf.
  lemma AnyFormatBegins(r: Reader, fmt: nat, field: nat, m: Message, chunkSize: nat, tail: seq<byte>)
    returns (r': Reader)
    requires CanArrive(r, m, chunkSize) && fmt < 4 && Inherits(EntryFor(r, m.csid, fmt), fmt, field, m)
    ensures ReadMessage(r, Begun(fmt, m, field, chunkSize) + tail) == Got(r', m, tail)
    ensures
      var e := EntryFor(r, m.csid, fmt);
      Arrived(r, r', m, e.fmt, if fmt == 3 then e.extended else field)
  {
    hide ReadChunk, BasicHeader, Header, Under, Overruns, Deliver, Inherits, EntryFor, EntryOk;
    var e0, end := EntryFor(r, m.csid, fmt), Min(chunkSize, |m.body|);
    var more := Continued(m, chunkSize, end) + tail;
    var first := BasicHeader(fmt, m.csid) + (Header(fmt, m, field) + m.body[0..end]);
    assert Begun(fmt, m, field, chunkSize) + tail == first + more;
    assert end == Min(r.chunkSize, |m.body|);
    ShortBody(e0, fmt, field, m);
    var e := FirstTurn(r, fmt, field, m, more);
    var r1 := r.(table := r.table[m.csid := e]);
    FullIsWhole(e, m, end, e0.fmt, if fmt == 3 then e0.extended else field);
    if end == |m.body| {
      assert more == tail;
      r' := Deliver(r1, m);
    } else {
      r' := RestArrives(r1, m, end, chunkSize, tail);
      ArrivedAgain(r, r1, r', m, e);
    }
  }

  // ------------------------------------------------------ repeated headers

  // Messages that repeat the header of m, each step later than the one before.
  function Repeated(m: Message, bodies: seq<seq<byte>>, step: nat): seq<Message>
    decreases |bodies|
  {
    if bodies == [] then []
    else
      var next := m.(timeStamp := Wrap32(m.timeStamp + step), body := bodies[0]);
      [next] + Repeated(next, bodies[1..], step)
  }

  // Their chunks: fmt 3 throughout.
  function RepeatedBytes(m: Message, bodies: seq<seq<byte>>, chunkSize: nat): seq<byte>
    requires chunkSize >= 1
  {
    if bodies == [] then []
    else Begun(3, m.(body := bodies[0]), 0, chunkSize) + RepeatedBytes(m, bodies[1..], chunkSize)
  }

  // What is added on an entry each time.
  function StepOf(e: Entry): nat {
    if e.fmt == 1 || e.fmt == 2 then e.extended else 0
  }

  predicate Repeatable(r: Reader, m: Message, bodies: seq<seq<byte>>, chunkSize: nat) {
    && CanArrive(r, m, chunkSize) && m.typeID != SET_CHUNK_SIZE && |m.body| <= MAX24 && m.typeID < 0x100
    && forall i :: 0 <= i < |bodies| ==> |bodies[i]| == |m.body|
  }

  lemma {:induction false} RepeatsArrive(
      r: Reader, m: Message, bodies: seq<seq<byte>>, fmt: nat, extended: nat, chunkSize: nat, tail: seq<byte>)
    returns (r': Reader)
    requires Repeatable(r, m, bodies, chunkSize) && m.csid in r.table
    requires Under(r.table[m.csid], m, |m.body|, fmt, extended)
    ensures ReaderOk(r')
    ensures
      ReadAll(r, RepeatedBytes(m, bodies, chunkSize) + tail)
      == Prepend(Repeated(m, bodies, StepOf(r.table[m.csid])), ReadAll(r', tail))
    decreases |bodies|
  {
    hide ReadMessage, ReadAll, Begun, Arrived;
    var e := r.table[m.csid];
    if bodies == [] {
      r' := r;
      assert [] + tail == tail && [] + ReadAll(r, tail).msgs == ReadAll(r, tail).msgs;
    } else {
      var next := m.(timeStamp := Wrap32(m.timeStamp + StepOf(e)), body := bodies[0]);
      var rest := RepeatedBytes(m, bodies[1..], chunkSize) + tail;
      InheritsNext(e, m, next);
      SameHeader(m, next, chunkSize);
      assert RepeatedBytes(m, bodies, chunkSize) + tail == Begun(3, next, 0, chunkSize) + rest;
      var r1 := AnyFormatBegins(r, 3, 0, next, chunkSize, rest);
      ArrivedReady(r, r1, next, bodies[1..], fmt, extended, chunkSize);
      SameRepeats(m, next, bodies[1..], chunkSize);
      r' := RepeatsArrive(r1, next, bodies[1..], fmt, extended, chunkSize, tail);
      ReadAllLast(r, RepeatedBytes(m, bodies, chunkSize) + tail);
      var more := Repeated(next, bodies[1..], StepOf(e));
      assert [next] + (more + ReadAll(r', tail).msgs) == [next] + more + ReadAll(r', tail).msgs;
    }
  }

  lemma InheritsNext(e: Entry, m: Message, next: Message)
    requires Under(e, m, |m.body|, e.fmt, e.extended) && m.typeID < 0x100 && |next.body| == |m.body| <= MAX24
    requires next == m.(timeStamp := Wrap32(m.timeStamp + StepOf(e)), body := next.body)
    ensures Inherits(e, 3, 0, next)
  {
  }

  // The timestamp of a message is not in its fmt-3 chunks.
  lemma {:induction false} SameContinued(m: Message, next: Message, chunkSize: nat, start: nat)
    requires chunkSize >= 1 && m.csid == next.csid && m.body == next.body && start <= |m.body|
    ensures Continued(m, chunkSize, start) == Continued(next, chunkSize, start)
    decreases |m.body| - start
  {
    if start < |m.body| {
      SameContinued(m, next, chunkSize, Min(start + chunkSize, |m.body|));
    }
  }

  lemma SameHeader(m: Message, next: Message, chunkSize: nat)
    requires chunkSize >= 1 && m.csid == next.csid
    ensures Begun(3, m.(body := next.body), 0, chunkSize) == Begun(3, next, 0, chunkSize)
  {
    SameContinued(m.(body := next.body), next, chunkSize, Min(chunkSize, |next.body|));
  }

  lemma {:induction false} SameRepeats(m: Message, next: Message, bodies: seq<seq<byte>>, chunkSize: nat)
    requires chunkSize >= 1 && m.csid == next.csid
    ensures RepeatedBytes(m, bodies, chunkSize) == RepeatedBytes(next, bodies, chunkSize)
    decreases |bodies|
  {
    hide Begun;
    if bodies != [] {
      SameHeader(m, next.(body := bodies[0]), chunkSize);
      SameHeader(next, next.(body := bodies[0]), chunkSize);
      SameRepeats(m, next, bodies[1..], chunkSize);
    }
  }

  lemma ArrivedReady(r: Reader, r1: Reader, m: Message, bodies: seq<seq<byte>>, fmt: nat, extended: nat, chunkSize: nat)
    requires CanArrive(r, m, chunkSize) && m.typeID != SET_CHUNK_SIZE && |m.body| <= MAX24 && m.typeID < 0x100
    requires forall i :: 0 <= i < |bodies| ==> |bodies[i]| == |m.body|
    requires Arrived(r, r1, m, fmt, extended)
    ensures Repeatable(r1, m, bodies, chunkSize) && m.csid in r1.table
    ensures Under(r1.table[m.csid], m, |m.body|, fmt, extended)
  {
    hide Carries, Deliver, Overruns, Agree;
    var e :| Under(e, m, |m.body|, fmt, extended) && r1 == Deliver(r.(table := r.table[m.csid := e]), m);
    DeliverFrame(r.(table := r.table[m.csid := e]), m);
  }

  // Main result.  On a new connection, a message begun by fmt 0 and any number
  // that repeat its header by fmt 3 all have its timestamp; begun by fmt 1, the
  // first has its delta, and each that repeats it adds that once more.
  lemma FreshRepeats(read: uint32, window: uint32, fmt: nat, m: Message, bodies: seq<seq<byte>>, chunkSize: nat)
    requires Repeatable(Fresh(read, window), m, bodies, chunkSize)
    requires m.timeStamp < MAX24 && (fmt == 0 || (fmt == 1 && m.streamID == 0))
    ensures
      var input := Begun(fmt, m, m.timeStamp, chunkSize) + RepeatedBytes(m, bodies, chunkSize);
      var t := ReadAll(Fresh(read, window), input);
      && t.msgs == [m] + Repeated(m, bodies, if fmt == 1 then m.timeStamp else 0)
      && t.last.Closed? && t.last.rest == []
  {
    hide ReadMessage, ReadAll, Begun, Arrived, RepeatedBytes, Repeated, Overruns, Agree;
    hide Inherits, EntryFor, Carries;
    FreshInherits(read, window, fmt, m);
    var r, rest := Fresh(read, window), RepeatedBytes(m, bodies, chunkSize);
    var r1 := AnyFormatBegins(r, fmt, m.timeStamp, m, chunkSize, rest);
    ArrivedReady(r, r1, m, bodies, fmt, m.timeStamp, chunkSize);
    assert rest + [] == rest;
    var r2 := RepeatsArrive(r1, m, bodies, fmt, m.timeStamp, chunkSize, []);
    ReadAllLast(r, Begun(fmt, m, m.timeStamp, chunkSize) + rest);
    AtEnd(r2);
    var more := Repeated(m, bodies, if fmt == 1 then m.timeStamp else 0);
    assert more + [] == more;
  }

  // On a new connection, a message by fmt 0 and then one by fmt 1: the second
  // comes out stamped with its delta.  That is the sum only where the first was
  // stamped 0.
  lemma DeltaTakenAsStamp(written: nat, read: uint32, window: uint32, m: Message, next: Message)
    requires CanArrive(Fresh(read, window), m, written) && WellFormed(m)
    requires WellFormed(next) && !Overruns(next) && Agree(written, SizeAfter(m, read), |next.body|)
    requires next.csid == m.csid && next.streamID == m.streamID
    ensures
      var input := Begun(0, m, m.timeStamp, written) + Begun(1, next, next.timeStamp, written);
      ReadAll(Fresh(read, window), input).msgs == [m, next]
    ensures next.timeStamp == Wrap32(m.timeStamp + next.timeStamp) <==> m.timeStamp == 0
  {
    hide ReadMessage, ReadAll, Begun, Overruns, Agree, Deliver, Control, Wrap32;
    hide Inherits, EntryFor, Carries;
    FreshInherits(read, window, 0, m);
    var r, rest := Fresh(read, window), Begun(1, next, next.timeStamp, written);
    WrapCases(m.timeStamp, next.timeStamp);
    var r1 := AnyFormatBegins(r, 0, m.timeStamp, m, written, rest);
    var e :| Under(e, m, |m.body|, 0, m.timeStamp) && r1 == Deliver(r.(table := r.table[m.csid := e]), m);
    DeliverFrame(r.(table := r.table[m.csid := e]), m);
    DeltaInherits(e, m, next);
    EntryThere(r1, m.csid, 1);
    assert rest + [] == rest;
    var r2 := AnyFormatBegins(r1, 1, next.timeStamp, next, written, []);
    GotOk(r1, rest);
    ReadAllLast(r, Begun(0, m, m.timeStamp, written) + rest);
    ReadAllLast(r1, rest);
    AtEnd(r2);
  }

  lemma FreshInherits(read: uint32, window: uint32, fmt: nat, m: Message)
    requires m.timeStamp < MAX24 && m.typeID < 0x100 && |m.body| <= MAX24
    requires fmt == 0 || (fmt == 1 && m.streamID == 0)
    ensures
      var e := EntryFor(Fresh(read, window), m.csid, fmt);
      Inherits(e, fmt, m.timeStamp, m) && e.fmt == fmt
  {
    NewInherits(fmt, m);
  }

  lemma NewInherits(fmt: nat, m: Message)
    requires m.timeStamp < MAX24 && m.typeID < 0x100 && |m.body| <= MAX24
    requires fmt == 0 || (fmt == 1 && m.streamID == 0)
    ensures Inherits(NewEntry(fmt), fmt, m.timeStamp, m)
  {
    hide Wrap32;
    Unwrapped(m.timeStamp);
    assert 0 + m.timeStamp == m.timeStamp;
  }

  lemma DeltaInherits(e: Entry, m: Message, next: Message)
    requires Under(e, m, |m.body|, 0, m.timeStamp) && WellFormed(next) && next.streamID == m.streamID
    ensures Inherits(e, 1, next.timeStamp, next)
  {
    WrapCases(0, next.timeStamp);
  }

  lemma EntryThere(r: Reader, csid: uint32, fmt: nat)
    requires ReaderOk(r) && csid in r.table && fmt < 4
    ensures EntryFor(r, csid, fmt) == r.table[csid]
  {
  }

  lemma GotOk(r: Reader, input: seq<byte>)
    requires ReaderOk(r)
    ensures var res := ReadMessage(r, input); res.Got? ==> ReaderOk(res.reader)
  {
  }
}
