// The connection object of pkg/rtmp: reads chunks into per-stream buffers that
// it updates in place, writes messages, and acknowledges what it received.
// Every method is proved against ChunkFormat.
module ChunkConn {
  import opened Bytes
  import opened ChunkFormat

  class ChunkStream {
    var fmt: nat
    var csid: uint32
    var timeStamp: uint32
    var msgLength: nat
    var msgTypeID: uint32
    var msgStreamID: uint32
    var extendedTimeStamp: uint32
    var chunkBody: array<byte>
    var timeExtended: bool
    var gotBodyFull: bool
    var bodyIndex: nat
    var bodyRemain: nat

    ghost function Value(): Entry
      reads this, chunkBody
    {
      Entry(fmt, timeStamp, msgLength, msgTypeID, msgStreamID, extendedTimeStamp,
            timeExtended, gotBodyFull, bodyIndex, bodyRemain, chunkBody[..])
    }

    // This stream has value e.  A finished body is not ours any
    // more, it may have been handed out, so its contents are left open.
    ghost predicate Backs(e: Entry)
      reads this, chunkBody
    {
      && EntryOk(e)
      && fmt == e.fmt && timeStamp == e.timeStamp && msgLength == e.msgLength && msgTypeID == e.typeID
      && msgStreamID == e.streamID && extendedTimeStamp == e.extended && timeExtended == e.timeExtended
      && gotBodyFull == e.full && bodyIndex == e.bodyIndex && bodyRemain == e.bodyRemain
      && (e.bodyRemain > 0 ==> chunkBody[..] == e.body)
    }

    lemma BacksOwnValue()
      requires EntryOk(Value())
      ensures Backs(Value())
    {
    }

    // An idle entry's old body plays no part in what comes next.
    lemma StaleBody(e: Entry, fmt: nat, input: seq<byte>)
      requires fmt < 4 && Backs(e)
      ensures EntryOk(e) && EntryOk(Value())
      ensures ParseMessageHeader(Value(), fmt, input) == ParseMessageHeader(e, fmt, input)
    {
      hide FromBE, FromLE, StartEntry, RepeatEntry;
      assert Value() == e.(body := chunkBody[..]);
      if fmt <= 2 && |input| >= HeaderSize(fmt) {
        StaleStart(e, chunkBody[..], fmt, input[..HeaderSize(fmt)]);
      } else if fmt == 3 && bodyRemain == 0 {
        StaleRepeat(e, chunkBody[..], input);
      }
    }

    static lemma StaleStart(e: Entry, body: seq<byte>, fmt: nat, h: seq<byte>)
      requires fmt <= 2 && |h| == HeaderSize(fmt) && EntryOk(e) && EntryOk(e.(body := body))
      ensures StartEntry(e.(body := body), fmt, h) == StartEntry(e, fmt, h)
    {
      hide FromBE, FromLE;
    }

    static lemma StaleRepeat(e: Entry, body: seq<byte>, input: seq<byte>)
      requires EntryOk(e) && EntryOk(e.(body := body))
      ensures RepeatEntry(e.(body := body), input) == RepeatEntry(e, input)
    {
      hide FromBE;
    }

    ghost function Msg(): Message
      reads this, chunkBody
    {
      Message(csid, timeStamp, msgTypeID, msgStreamID, chunkBody[..])
    }

    constructor ForRead(fmt: nat, csid: uint32)
      requires fmt < 4
      ensures Value() == NewEntry(fmt) && EntryOk(Value()) && this.csid == csid && fresh(chunkBody)
    {
      this.fmt, this.csid := fmt, csid;
      timeStamp, msgLength, msgTypeID, msgStreamID, extendedTimeStamp := 0, 0, 0, 0, 0;
      timeExtended, gotBodyFull, bodyIndex, bodyRemain := false, false, 0, 0;
      chunkBody := new byte[0];
    }

    constructor ProtocolControl(typeID: uint32, length: uint32, value: uint32)
      requires length >= 4
      ensures Msg() == Message(2, 0, typeID, 0, ToBE(value, 4) + Zeros(length - 4))
      ensures msgLength == length == chunkBody.Length && fresh(chunkBody)
    {
      fmt, csid := 0, 2;
      timeStamp, msgLength, msgTypeID, msgStreamID, extendedTimeStamp := 0, length, typeID, 0, 0;
      timeExtended, gotBodyFull, bodyIndex, bodyRemain := false, false, 0, 0;
      var body := new byte[length](_ => 0);
      chunkBody := body;
      new;
      UintAsByteSlice(value, chunkBody, 0, 4, true);
      assert chunkBody[..] == ToBE(value, 4) + Zeros(length - 4);
    }

    // A fresh buffer for the next message: never one that was handed out.
    method Begin()
      modifies this
      ensures Value() == Restart(old(Value())) && csid == old(csid) && fresh(chunkBody)
    {
      gotBodyFull := false;
      bodyIndex := 0;
      bodyRemain := msgLength;
      chunkBody := new byte[msgLength](_ => 0);
    }
  }

  datatype Outcome = Error | Panic | Ok(cs: ChunkStream)

  // An av.Packet before its tag header is read, with the buffer it shares with
  // the message.
  datatype SharedPacket = SharedPacket(typeID: uint32, streamID: uint32, timeStamp: uint32, data: array<byte>)

  predicate IsMedia(typeID: uint32) {
    typeID == AUDIO || typeID == VIDEO || typeID == AMF0_DATA || typeID == AMF3_DATA
  }

  function Media(msgs: seq<Message>): seq<Message> {
    if msgs == [] then []
    else Media(msgs[..|msgs| - 1]) + (if IsMedia(msgs[|msgs| - 1].typeID) then [msgs[|msgs| - 1]] else [])
  }

  // The packets carry exactly these messages.
  ghost predicate Intact(packets: seq<SharedPacket>, msgs: seq<Message>)
    reads set p | p in packets :: p.data
  {
    && |packets| == |msgs|
    && forall i :: 0 <= i < |packets| ==>
         && packets[i].typeID == msgs[i].typeID && packets[i].streamID == msgs[i].streamID
         && packets[i].timeStamp == msgs[i].timeStamp && packets[i].data[..] == msgs[i].body
  }

  lemma IntactSnoc(packets: seq<SharedPacket>, msgs: seq<Message>, p: SharedPacket, m: Message)
    requires Intact(packets, msgs)
    requires p.typeID == m.typeID && p.streamID == m.streamID && p.timeStamp == m.timeStamp && p.data[..] == m.body
    ensures Intact(packets + [p], msgs + [m])
  {
  }

  lemma MediaNone()
    ensures Media([]) == [] && Intact([], [])
  {
  }

  lemma PrependOnce(msgs: seq<Message>, m: Message, t: Transcript)
    ensures Prepend(msgs, Prepend([m], t)) == Prepend(msgs + [m], t)
  {
    assert msgs + ([m] + t.msgs) == msgs + [m] + t.msgs;
  }

  // Types 8, 9, 15 and 18 make packets, and nothing else does.
  lemma MediaSnoc(msgs: seq<Message>, m: Message)
    ensures IsMedia(m.typeID) <==> m.typeID == 8 || m.typeID == 9 || m.typeID == 15 || m.typeID == 18
    ensures Media([]) == [] && Media(msgs + [m]) == if IsMedia(m.typeID) then Media(msgs) + [m] else Media(msgs)
  {
    assert (msgs + [m])[..|msgs|] == msgs;
  }

  class Conn {
    var input: seq<byte>   // not yet read from the peer
    var output: seq<byte>  // written to the peer
    var chunks: map<int, ChunkStream>
    var localChunkSize: uint32
    var remoteChunkSize: uint32
    var remoteWindowAckSize: uint32
    var ackSeqNumber: uint32
    var bytesRecv: uint32
    var bytesRecvReset: uint32
    ghost var acked: seq<uint32>               // every sequence number acknowledged
    ghost var table: map<int, Entry>        // the values of the chunk streams
    ghost var streams: set<ChunkStream>        // the objects in chunks
    ghost var buffers: set<array<byte>>        // bodies still being assembled

    ghost predicate StreamOk(k: int)
      requires k in chunks && k in table && chunks[k] in streams
      reads this, streams, set cs | cs in streams :: cs.chunkBody
    {
      var cs := chunks[k];
      && 2 <= k <= 65599 && cs.csid == k && cs.Backs(table[k])
      && (cs.bodyRemain > 0 ==> cs.chunkBody in buffers)
    }

    ghost predicate Valid()
      reads this, streams, set cs | cs in streams :: cs.chunkBody
    {
      && localChunkSize >= 1
      && chunks.Keys == table.Keys
      && (forall k :: k in chunks ==> chunks[k] in streams && StreamOk(k))
      && (forall j, k :: j in chunks && k in chunks && j != k && chunks[j] in streams && chunks[k] in streams
           ==> chunks[j].chunkBody != chunks[k].chunkBody)
    }

    ghost function State(): Reader
      reads this
    {
      Reader(table, remoteChunkSize, remoteWindowAckSize, ackSeqNumber, bytesRecv, bytesRecvReset, acked)
    }

    lemma StateOk()
      requires Valid()
      ensures ReaderOk(State()) && localChunkSize >= 1
    {
      forall c | c in table
        ensures 2 <= c <= 65599 && EntryOk(table[c])
      {
        assert c in chunks && StreamOk(c) && chunks[c].Backs(table[c]);
      }
    }

    constructor (input: seq<byte>)
      ensures Valid() && State() == Fresh(128, 250000) && this.input == input && output == [] && localChunkSize == 60000
      ensures streams == {} && buffers == {}
    {
      this.input, output, chunks := input, [], map[];
      localChunkSize, remoteChunkSize, remoteWindowAckSize := 60000, 128, 250000;
      ackSeqNumber, bytesRecv, bytesRecvReset, acked := 0, 0, 0, [];
      table, streams, buffers := map[], {}, {};
    }

    // ------------------------------------------------------------ reading

    // io.ReadAtLeast for n bytes: all of them, or whatever is left.
    method Read(n: nat) returns (ok: bool, b: seq<byte>)
      modifies this`input
      ensures ok <==> |old(input)| >= n
      ensures ok ==> b == old(input)[..n] && input == old(input)[n..]
      ensures !ok ==> b == old(input) && input == []
    {
      var k := if |input| < n then |input| else n;
      ok, b := k == n, input[..k];
      input := input[k..];
    }

    // readUint with its error dropped by the caller.
    method ReadTimeField() returns (v: uint32)
      modifies this`input
      ensures (v, input) == TimeField(old(input))
    {
      var ok, b := Read(4);
      if !ok {
        return 0;
      }
      Narrow(b);
      v := ByteSliceAsUint(b, true);
    }

    method ReadChunkBasicHeader() returns (ok: bool, fmt: nat, csid: uint32)
      modifies this`input
      ensures
        var p := ParseBasicHeader(old(input));
        ok == p.Parsed? && (ok ==> p.value == (fmt, csid) && p.rest == input)
    {
      fmt, csid := 0, 0;
      ghost var whole := input;
      var b: seq<byte>;
      ok, b := Read(1);
      if !ok {
        return;
      }
      Narrow(b);
      var h := b[0];
      fmt, csid := h / 64, h % 64;
      if csid <= 1 {
        var n := csid + 1;
        ok, b := Read(n);
        if !ok {
          return;
        }
        assert b == whole[1..n + 1] && input == whole[n + 1..];
        Narrow(b);
        ShortLE(b);
        var id := ByteSliceAsUint(b, false);
        csid := id + 64;
      }
    }

    // The fields of a fmt-0, 1 or 2 header.
    method StartMessage(cs: ChunkStream, fmt: nat, h: seq<byte>)
      requires fmt <= 2 && |h| == HeaderSize(fmt) && EntryOk(cs.Value())
      modifies cs
      ensures cs.Value() == StartEntry(old(cs.Value()), fmt, h)
      ensures cs.csid == old(cs.csid) && fresh(cs.chunkBody)
    {
      hide FromBE, FromLE;
      Narrow(h[0..3]);
      var ext := ByteSliceAsUint(h[0..3], true);
      TakeTime(cs, ext);
      if fmt <= 1 {
        Narrow(h[3..6]);
        Narrow(h[6..7]);
        cs.msgLength := ByteSliceAsUint(h[3..6], true);
        cs.msgTypeID := ByteSliceAsUint(h[6..7], true);
        if fmt == 0 {
          Narrow(h[7..11]);
          cs.msgStreamID := ByteSliceAsUint(h[7..11], false);
        }
      }
      cs.Begin();
    }

    // The first field of such a header.
    method TakeTime(cs: ChunkStream, ext: uint32)
      modifies cs`extendedTimeStamp, cs`timeExtended, cs`timeStamp
      ensures
        var e := old(cs.Value());
        var t := if ext >= MAX24 || e.fmt > 2 then e.timeStamp
                 else if e.fmt == 0 then ext
                 else Wrap32(e.timeStamp + ext);
        cs.Value() == e.(extended := ext, timeExtended := ext >= MAX24, timeStamp := t)
    {
      cs.extendedTimeStamp := ext;
      cs.timeExtended := cs.extendedTimeStamp >= MAX24;
      if !cs.timeExtended {
        if cs.fmt == 0 {
          cs.timeStamp := cs.extendedTimeStamp;
        } else if cs.fmt == 1 || cs.fmt == 2 {
          cs.timeStamp := Wrap32(cs.timeStamp + cs.extendedTimeStamp);
        }
      }
    }

    // A fmt-3 chunk that starts a message like the last one.
    method RepeatMessage(cs: ChunkStream)
      requires EntryOk(cs.Value())
      modifies this`input, cs
      ensures (cs.Value(), input) == RepeatEntry(old(cs.Value()), old(input))
      ensures cs.csid == old(cs.csid) && fresh(cs.chunkBody)
    {
      if cs.fmt == 0 {
        if cs.timeExtended {
          cs.timeStamp := ReadTimeField();
        }
      } else if cs.fmt == 1 || cs.fmt == 2 {
        var delta := cs.extendedTimeStamp;
        if cs.timeExtended {
          delta := ReadTimeField();
        }
        cs.timeStamp := Wrap32(cs.timeStamp + delta);
      }
      cs.Begin();
    }

    method ReadChunkMessageHeader(cs: ChunkStream, fmt: nat) returns (ok: bool)
      requires fmt < 4 && EntryOk(cs.Value())
      modifies this`input, cs
      ensures
        var p := ParseMessageHeader(old(cs.Value()), fmt, old(input));
        ok == p.Parsed? && (ok ==> cs.Value() == p.value && input == p.rest)
      ensures !ok ==> cs.Value() == old(cs.Value()) && cs.chunkBody == old(cs.chunkBody)
      ensures cs.csid == old(cs.csid)
      ensures fresh(cs.chunkBody) || (cs.chunkBody == old(cs.chunkBody) && cs.bodyRemain == old(cs.bodyRemain))
      ensures ok && !fresh(cs.chunkBody) ==> cs.bodyRemain > 0
      ensures EntryOk(cs.Value()) && (ok ==> cs.chunkBody.Length == cs.msgLength)
    {
      ok := true;
      if fmt <= 2 {
        var h: seq<byte>;
        ok, h := Read(HeaderSize(fmt));
        if ok {
          hide StartEntry, HeaderSize;
          StartMessage(cs, fmt, h);
        }
      } else if cs.bodyRemain == 0 {
        hide RepeatEntry;
        RepeatMessage(cs);
      } else if cs.timeExtended {
        if |input| < 4 {
          return false;
        }
        Narrow(input[..4]);
        var stamp := ByteSliceAsUint(input[..4], true);
        if stamp == cs.timeStamp {
          input := input[4..];
        }
      }
    }

    method ReadChunkMessageBody(cs: ChunkStream) returns (ok: bool)
      requires EntryOk(cs.Value()) && cs.chunkBody.Length == cs.msgLength
      modifies this`input, cs`bodyIndex, cs`bodyRemain, cs`gotBodyFull, cs.chunkBody
      ensures
        var p := ParseBody(old(cs.Value()), remoteChunkSize, old(input));
        ok == p.Parsed? && (ok ==> cs.Value() == p.value && input == p.rest)
      ensures EntryOk(cs.Value()) && cs.bodyRemain <= old(cs.bodyRemain) && cs.msgLength == old(cs.msgLength)
    {
      var size := Min(cs.bodyRemain, remoteChunkSize);
      ghost var before := cs.chunkBody[..];
      var i, body := cs.bodyIndex, cs.chunkBody;
      var b: seq<byte>;
      ok, b := Read(size);
      forall k | 0 <= k < |b| {
        body[i + k] := b[k];
      }
      if ok {
        assert body[..] == before[..i] + b + before[i + size..];
        cs.bodyIndex := cs.bodyIndex + size;
        cs.bodyRemain := cs.bodyRemain - size;
        if cs.bodyRemain == 0 {
          cs.gotBodyFull := true;
        }
      }
    }

    lemma Facts(id: uint32)
      requires Valid() && id in chunks
      ensures id in table && 2 <= id <= 65599 && EntryOk(table[id]) && chunks[id] in streams && StreamOk(id)
    {
    }

    // Valid does not depend on the input and output, nor on the counters.
    twostate lemma NoneUpdated()
      requires old(Valid()) && unchanged(`chunks) && unchanged(`table) && unchanged(`streams) && unchanged(`buffers)
      requires unchanged(`localChunkSize)
      requires forall s :: s in streams ==> unchanged(s) && unchanged(s.chunkBody)
      ensures Valid()
    {
      hide ChunkStream.Backs;
      forall k | k in chunks
        ensures chunks[k] in streams && StreamOk(k)
      {
        assert old(StreamOk(k));
      }
    }

    // Valid is kept when the stream of id, its buffer and its entry are all
    // that changed, the buffer is its old one or a new one, and they agree.
    twostate lemma OneUpdated(id: uint32, new e: Entry)
      requires old(Valid()) && chunks == old(chunks) && streams == old(streams) && localChunkSize == old(localChunkSize)
      requires id in chunks && chunks[id] in streams
      requires table == old(table)[id := e]
      requires StreamOk(id)
      requires fresh(chunks[id].chunkBody) || chunks[id].chunkBody == old(chunks[id].chunkBody)
      requires forall b :: b in old(buffers) && b != chunks[id].chunkBody ==> b in buffers
      requires forall s :: s in streams && s != chunks[id] ==> unchanged(s)
      requires forall k :: k in chunks && k != id ==>
        old(chunks[k].chunkBody) != old(chunks[id].chunkBody) ==> unchanged(old(chunks[k].chunkBody))
      ensures Valid()
    {
      hide ChunkStream.Backs;
      forall k | k in chunks && k != id
        ensures chunks[k] in streams && StreamOk(k)
      {
        assert old(StreamOk(k));
      }
    }

    // ... or when a stream was added under a new id.
    twostate lemma OneAdded(id: uint32, new cs: ChunkStream)
      requires old(Valid()) && id !in old(chunks) && chunks == old(chunks)[id := cs]
      requires localChunkSize == old(localChunkSize)
      requires streams == old(streams) + {cs} && fresh(cs) && fresh(cs.chunkBody)
      requires id in table && table == old(table)[id := table[id]]
      requires buffers == old(buffers) && StreamOk(id)
      requires forall s :: s in old(streams) ==> unchanged(s)
      requires forall k :: k in old(chunks) ==> unchanged(old(chunks[k].chunkBody))
      ensures Valid()
    {
      hide ChunkStream.Backs;
      forall k | k in chunks && k != id
        ensures chunks[k] in streams && StreamOk(k)
      {
        assert old(StreamOk(k));
      }
    }

    // The table entry of a chunk stream id, created on its first chunk.
    method EntryOf(fmt: nat, csid: uint32) returns (cs: ChunkStream)
      requires Valid() && fmt < 4 && 2 <= csid <= 65599 && ReaderOk(State())
      modifies this`chunks, this`table, this`streams
      ensures Valid() && csid in chunks && csid in table && cs == chunks[csid] && cs in streams
      ensures State() == old(State()).(table := old(State()).table[csid := EntryFor(old(State()), csid, fmt)])
      ensures fresh(streams - old(streams))
    {
      if csid in chunks {
        cs := chunks[csid];
        Facts(csid);
        hide Valid, StreamOk;
        assert table[csid := table[csid]] == table;
      } else {
        AtNew(csid);
        hide ChunkStream.Backs, Valid, EntryOk;
        cs := new ChunkStream.ForRead(fmt, csid);
        cs.BacksOwnValue();
        chunks := chunks[csid := cs];
        streams, table := streams + {cs}, table[csid := NewEntry(fmt)];
        OneAdded(csid, cs);
      }
    }

    lemma AtNew(id: uint32)
      requires Valid()
      ensures id in chunks <==> id in table
    {
    }

    // The entry under id is cs with its current buffer, which is in buffers
    // exactly while the message is incomplete.
    ghost predicate Open(cs: ChunkStream, id: uint32)
      reads this, cs, cs.chunkBody
    {
      && id in chunks && id in table && cs == chunks[id] && cs.Value() == table[id]
      && cs.csid == id && cs.chunkBody.Length == cs.msgLength
      && (cs.bodyRemain > 0 <==> cs.chunkBody in buffers)
    }

    lemma OpenFacts(cs: ChunkStream, id: uint32)
      requires Open(cs, id)
      ensures id in table && cs.csid == id && cs.gotBodyFull == table[id].full
    {
    }

    method HeaderInto(cs: ChunkStream, id: uint32, fmt: nat) returns (ok: bool)
      requires Valid() && fmt < 4 && id in chunks && cs == chunks[id]
      modifies this`input, this`table, this`buffers, cs
      ensures Valid() && fresh(buffers - old(buffers))
      ensures EntryOk(old(table[id])) && (ok ==> fresh(cs.chunkBody) || cs.chunkBody in old(buffers))
      ensures
        var p := ParseMessageHeader(old(table[id]), fmt, old(input));
        ok == p.Parsed? && (ok ==> table == old(table)[id := p.value] && input == p.rest && Open(cs, id))
    {
      Facts(id);
      hide Valid, ChunkStream.Backs, ChunkStream.Value, ParseMessageHeader, EntryOk;
      cs.StaleBody(table[id], fmt, input);
      ok := ReadChunkMessageHeader(cs, fmt);
      cs.BacksOwnValue();
      table := table[id := cs.Value()];
      buffers := if cs.bodyRemain > 0 then buffers + {cs.chunkBody} else buffers;
      OneUpdated(id, cs.Value());
    }

    method BodyInto(cs: ChunkStream, id: uint32) returns (ok: bool)
      requires Valid() && Open(cs, id)
      modifies this`input, this`table, this`buffers, cs, cs.chunkBody
      ensures Valid() && buffers <= old(buffers)
      ensures EntryOk(old(table[id])) && |old(table[id]).body| == old(table[id]).msgLength
      ensures
        var p := ParseBody(old(table[id]), remoteChunkSize, old(input));
        ok == p.Parsed? && (ok ==> table == old(table)[id := p.value] && input == p.rest && Open(cs, id))
    {
      Facts(id);
      hide Valid, ChunkStream.Backs, ChunkStream.Value, ParseBody, EntryOk;
      ok := ReadChunkMessageBody(cs);
      cs.BacksOwnValue();
      table := table[id := cs.Value()];
      buffers := if cs.bodyRemain > 0 then buffers else buffers - {cs.chunkBody};
      OneUpdated(id, cs.Value());
    }

    // The header and the body of one chunk, into its entry.
    method ReadInto(cs: ChunkStream, id: uint32, fmt: nat) returns (ok: bool)
      requires Valid() && fmt < 4 && id in chunks && cs == chunks[id] && cs in streams
      modifies this`input, this`table, this`buffers, cs, buffers
      ensures Valid() && fresh(buffers - old(buffers))
      ensures EntryOk(old(table[id]))
      ensures
        var p := ParseInto(old(table[id]), fmt, remoteChunkSize, old(input));
        ok == p.Parsed? && (ok ==> table == old(table)[id := p.value] && input == p.rest && Open(cs, id))
    {
      hide ParseMessageHeader, ParseBody, EntryOk, Valid, StreamOk, ChunkStream.Value;
      ok := HeaderInto(cs, id, fmt);
      if ok {
        ghost var e := table[id];
        ok := BodyInto(cs, id);
        if ok {
          UpdateTwice(old(table), id as int, e, table[id]);
        }
      }
    }

    method ReadChunkOf(fmt: nat, csid: uint32) returns (ok: bool, cs: ChunkStream)
      requires Valid() && ReaderOk(State()) && fmt < 4 && 2 <= csid <= 65599
      modifies this`input, this`chunks, this`table, this`streams, this`buffers, streams, buffers
      ensures Valid() && fresh(streams - old(streams)) && fresh(buffers - old(buffers))
      ensures
        var r := old(State());
        var p := ParseInto(EntryFor(r, csid, fmt), fmt, r.chunkSize, old(input));
        ok == p.Parsed? && (ok ==> table == r.table[csid := p.value] && input == p.rest && Open(cs, csid))
    {
      hide ParseInto, EntryOk, EntryFor, Valid, StreamOk, Open;
      cs := EntryOf(fmt, csid);
      ghost var e := table[csid];
      ok := ReadInto(cs, csid, fmt);
      if ok {
        UpdateTwice(old(table), csid as int, e, table[csid]);
      }
    }

    // One turn of the loop of readChunkStream.
    method ReadTurn() returns (ok: bool, cs: ChunkStream?)
      requires Valid()
      modifies this`input, this`chunks, this`table, this`streams, this`buffers, streams, buffers
      ensures Valid() && fresh(streams - old(streams)) && fresh(buffers - old(buffers))
      ensures ReaderOk(old(State()))
      ensures
        var t := ReadChunk(old(State()), old(input));
        ok == t.Turn? &&
        (ok ==> State() == t.reader && input == t.rest && cs != null && Open(cs, t.csid)
                && cs.csid == t.csid && cs.gotBodyFull == t.reader.table[t.csid].full)
    {
      hide ParseBasicHeader, ParseInto, EntryOk, EntryFor, Valid, Open;
      StateOk();
      cs := null;
      var fmt, csid;
      ok, fmt, csid := ReadChunkBasicHeader();
      NoneUpdated();
      if ok {
        ok, cs := ReadChunkOf(fmt, csid);
        if ok {
          OpenFacts(cs, csid);
        }
      }
    }

    // The message is complete: note what it says, and acknowledge it.
    method OnReadChunkStreamSucc(cs: ChunkStream) returns (panicked: bool)
      requires Valid() && cs.chunkBody.Length == cs.msgLength
      modifies this`remoteChunkSize, this`remoteWindowAckSize
      modifies this`ackSeqNumber, this`bytesRecv, this`bytesRecvReset, this`acked, this`output
      ensures Valid()
      ensures panicked == Overruns(cs.Msg())
      ensures if panicked then output == old(output) && acked == old(acked)
              else State() == Deliver(old(State()), cs.Msg())
      ensures old(acked) <= acked && output == old(output) + AckOutput(old(acked), acked, localChunkSize)
    {
      AckNone(acked, localChunkSize);
      if (cs.msgTypeID == SET_CHUNK_SIZE || cs.msgTypeID == WINDOW_ACK_SIZE) && cs.chunkBody.Length < 4 {
        return true;
      }
      panicked := false;
      if cs.msgTypeID == SET_CHUNK_SIZE {
        Narrow(cs.chunkBody[..4]);
        remoteChunkSize := ByteSliceAsUint(cs.chunkBody[..4], true);
      } else if cs.msgTypeID == WINDOW_ACK_SIZE {
        Narrow(cs.chunkBody[..4]);
        remoteWindowAckSize := ByteSliceAsUint(cs.chunkBody[..4], true);
      }
      hide Ack, FromBE, ToBE, AckOutput;
      SendAck(cs.msgLength);
      NoneUpdated();
    }

    // ack
    method SendAck(size: nat)
      requires localChunkSize >= 1
      modifies this`ackSeqNumber, this`bytesRecv, this`bytesRecvReset, this`acked, this`output
      ensures State() == Ack(old(State()), size)
      ensures old(acked) <= acked && output == old(output) + AckOutput(old(acked), acked, localChunkSize)
    {
      hide Wrap32, WriteMessage, AckMessage, AckOutput;
      AckNone(acked, localChunkSize);
      bytesRecv := Wrap32(bytesRecv + size);
      if bytesRecv >= 0xffff_ffff {
        bytesRecv := 0;
        bytesRecvReset := Wrap32(bytesRecvReset + 1);
      }
      ackSeqNumber := Wrap32(ackSeqNumber + size);
      if ackSeqNumber >= remoteWindowAckSize {
        WriteAck(ackSeqNumber);
        AckOne(acked, ackSeqNumber, localChunkSize);
        acked := acked + [ackSeqNumber];
        ackSeqNumber := 0;
      }
    }

    // Reads chunks until one completes a message.
    method ReadChunkStream() returns (out: Outcome)
      requires Valid()
      modifies this, streams, buffers
      ensures Valid() && localChunkSize == old(localChunkSize)
      ensures fresh(streams - old(streams)) && fresh(buffers - old(buffers))
      ensures ReaderOk(old(State()))
      ensures
        match ReadMessage(old(State()), old(input))
        case Closed(_, _) => out == Error && output == old(output) && acked == old(acked)
        case Fault(m) => out == Panic && output == old(output) && acked == old(acked)
        case Got(r, m, rest) =>
          && out.Ok? && out.cs.Msg() == m && out.cs.chunkBody !in buffers
          && State() == r && input == rest && old(acked) <= acked
          && output == old(output) + AckOutput(old(acked), acked, localChunkSize)
    {
      hide ReadChunk, ReadMessage, EntryOk, Valid, Deliver, AckOutput, Overruns, Open, ChunkStream.Msg;
      StateOk();
      ghost var goal := ReadMessage(State(), input);
      while true
        invariant Valid() && ReaderOk(State())
        invariant fresh(streams - old(streams)) && fresh(buffers - old(buffers))
        invariant localChunkSize == old(localChunkSize) && output == old(output) && acked == old(acked)
        invariant ReadMessage(State(), input) == goal
        decreases |input|
      {
        OneTurn(State(), input);
        var ok, cs := ReadTurn();
        StateOk();
        if !ok {
          return Error;
        }
        if cs.gotBodyFull {
          out := Complete(cs);
          return;
        }
      }
    }

    // The end of a turn that completes a message.
    method Complete(cs: ChunkStream) returns (out: Outcome)
      requires Valid() && ReaderOk(State()) && Open(cs, cs.csid) && cs.gotBodyFull
      modifies this`remoteChunkSize, this`remoteWindowAckSize
      modifies this`ackSeqNumber, this`bytesRecv, this`bytesRecvReset, this`acked, this`output
      ensures Valid()
      ensures
        var m := MessageOf(cs.csid, old(State()).table[cs.csid]);
        if Overruns(m) then out == Panic && output == old(output) && acked == old(acked)
        else
          && old(acked) <= acked
          && out == Ok(cs) && cs.Msg() == m && cs.chunkBody !in buffers
          && State() == Deliver(old(State()), m)
          && output == old(output) + AckOutput(old(acked), acked, localChunkSize)
    {
      hide Valid, Deliver, AckOutput, Overruns;
      var panicked := OnReadChunkStreamSucc(cs);
      out := if panicked then Panic else Ok(cs);
    }

    // Turns the messages that are read into packets.  Each packet shares the
    // message's body, and every body is intact when the cycle ends: no later
    // read, on any chunk stream, has written to it.
    method PublishingCycle() returns (packets: seq<SharedPacket>, ghost msgs: seq<Message>, panicked: bool)
      requires Valid()
      modifies this, streams, buffers
      ensures ReaderOk(old(State()))
      ensures msgs == ReadAll(old(State()), old(input)).msgs
      ensures panicked <==> ReadAll(old(State()), old(input)).last.Fault?
      ensures Intact(packets, Media(msgs))
      ensures old(acked) <= acked && output == old(output) + AckOutput(old(acked), acked, old(localChunkSize))
    {
      hide EntryOk, Valid, ReadMessage, ReadAll, AckOutput, Media;
      StateOk();
      MediaNone();
      AckNone(acked, localChunkSize);
      ghost var goal := ReadAll(State(), input);
      packets, msgs := [], [];
      while true
        invariant Valid() && ReaderOk(State())
        invariant fresh(streams - old(streams)) && fresh(buffers - old(buffers))
        invariant goal == Prepend(msgs, ReadAll(State(), input))
        invariant Intact(packets, Media(msgs))
        invariant forall i :: 0 <= i < |packets| ==> packets[i].data !in buffers
        invariant localChunkSize == old(localChunkSize) && old(acked) <= acked
        invariant output == old(output) + AckOutput(old(acked), acked, localChunkSize)
        decreases |input|
      {
        ReadAllLast(State(), input);
        ghost var was := acked;
        var out := ReadChunkStream();
        StateOk();
        if !out.Ok? {
          panicked := out.Panic?;
          return;
        }
        AckJoin(old(acked), was, acked, localChunkSize);
        ghost var m := out.cs.Msg();
        PrependOnce(msgs, m, ReadAll(State(), input));
        packets := Collect(out.cs, packets, msgs);
        msgs := msgs + [m];
      }
    }

    // The packet of one message, if it makes one.
    method Collect(cs: ChunkStream, packets: seq<SharedPacket>, ghost msgs: seq<Message>)
      returns (more: seq<SharedPacket>)
      requires Intact(packets, Media(msgs))
      ensures Intact(more, Media(msgs + [cs.Msg()]))
      ensures forall i :: 0 <= i < |more| ==>
        (i < |packets| && more[i] == packets[i]) || more[i].data == cs.chunkBody
    {
      hide Intact, Media, IsMedia;
      MediaSnoc(msgs, cs.Msg());
      more := packets;
      if IsMedia(cs.msgTypeID) {
        var p := SharedPacket(cs.msgTypeID, cs.msgStreamID, cs.timeStamp, cs.chunkBody);
        IntactSnoc(packets, Media(msgs), p, cs.Msg());
        more := packets + [p];
      }
    }

    // ------------------------------------------------------------ writing

    method WriteAck(v: uint32)
      requires localChunkSize >= 1
      modifies this`output
      ensures output == old(output) + WriteMessage(AckMessage(v), localChunkSize).bytes
    {
      hide WriteMessage;
      var cs := new ChunkStream.ProtocolControl(ACKNOWLEDGEMENT, 4, v);
      assert cs.Msg() == AckMessage(v);
      var ok := WriteChunkStream(cs);
    }

    method WriteUint(val: uint32, n: nat, bigEndian: bool)
      modifies this`output
      ensures output == old(output) + Encoded(val, n, bigEndian)
    {
      var buf := new byte[n];
      UintAsByteSlice(val, buf, 0, n, bigEndian);
      output := output + buf[..];
    }

    method WriteChunkBasicHeader(fmt: nat, csid: uint32)
      requires fmt < 4
      modifies this`output
      ensures output == old(output) + BasicHeader(fmt, csid)
    {
      var h := 64 * fmt;
      if csid < 64 {
        WriteUint(h + csid, 1, false);
      } else if csid - 64 < 0x100 {
        WriteUint(h, 1, false);
        WriteUint(csid - 64, 1, false);
      } else if csid - 64 < 0x1_0000 {
        WriteUint(h + 1, 1, false);
        WriteUint(csid - 64, 2, false);
      }
    }

    method WriteChunkMessageHeader(cs: ChunkStream) returns (ok: bool)
      requires cs.fmt < 4 && cs.chunkBody.Length == cs.msgLength < 0x1_0000_0000
      modifies this`output
      ensures var w := MessageHeader(cs.fmt, cs.Msg()); ok == w.ok && output == old(output) + w.bytes
    {
      hide ToBE, ToLE;
      ghost var o := output;
      ok := true;
      var ts := cs.timeStamp;
      if cs.fmt != 3 {
        if ts > MAX24 {
          ts := MAX24;
        }
        WriteUint(ts, 3, true);
        if cs.fmt != 2 {
          if cs.msgLength > MAX24 {
            return false;
          }
          ghost var a, b, c := ToBE(ts, 3), ToBE(cs.msgLength, 3), ToBE(cs.msgTypeID, 1);
          WriteUint(cs.msgLength, 3, true);
          Assoc(o, a, b);
          WriteUint(cs.msgTypeID, 1, true);
          Assoc(o, a + b, c);
          if cs.fmt != 1 {
            WriteUint(cs.msgStreamID, 4, false);
            Assoc(o, a + b + c, ToLE(cs.msgStreamID, 4));
          }
        }
      }
      if ts > MAX24 {
        WriteUint(cs.timeStamp, 4, true);
      }
    }

    method WriteChunkStream(cs: ChunkStream) returns (ok: bool)
      requires cs.chunkBody.Length == cs.msgLength < 0x1_0000_0000 && localChunkSize >= 1
      modifies this`output, cs`fmt, cs`csid
      ensures
        var w := WriteMessage(old(cs.Msg()), localChunkSize);
        ok == w.ok && output == old(output) + w.bytes
      ensures cs.Msg() == Remap(old(cs.Msg()))
    {
      if cs.msgTypeID == AUDIO {
        cs.csid := 4;
      } else if cs.msgTypeID == VIDEO || cs.msgTypeID == AMF3_DATA || cs.msgTypeID == AMF0_DATA {
        cs.csid := 6;
      }
      hide WriteChunks;
      ok := SplitByChunkSize(cs);
    }

    // The loop of writeChunkStream.
    method SplitByChunkSize(cs: ChunkStream) returns (ok: bool)
      requires cs.chunkBody.Length == cs.msgLength < 0x1_0000_0000 && localChunkSize >= 1
      modifies this`output, cs`fmt
      ensures
        var w := WriteChunks(old(cs.Msg()), localChunkSize);
        ok == w.ok && output == old(output) + w.bytes
      ensures cs.Msg() == old(cs.Msg())
    {
      hide BasicHeader, MessageHeader, Chunks, Offset;
      ghost var m := cs.Msg();
      var totalLen, numChunks := 0, Quotient(cs.msgLength, localChunkSize);
      OffsetSteps(0, localChunkSize);
      var i := 0;
      assert output + [] == output;
      while i <= numChunks
        invariant 0 <= i <= numChunks + 1
        invariant totalLen == Min(Offset(i, localChunkSize), cs.msgLength)
        invariant cs.Msg() == m
        invariant cs.msgLength <= MAX24 ==>
          output + Chunks(m, localChunkSize, totalLen) == old(output) + Chunks(m, localChunkSize, 0)
        invariant cs.msgLength > MAX24 ==> i == 0 && output == old(output)
      {
        if totalLen == cs.msgLength {
          break;
        }
        OffsetSteps(i, localChunkSize);
        cs.fmt := if i == 0 then 0 else 3;
        ghost var o := output;
        WriteChunkBasicHeader(cs.fmt, cs.csid);
        ok := WriteChunkMessageHeader(cs);
        HeaderFails(m, cs.fmt);
        if !ok {
          Assoc(o, BasicHeader(0, m.csid), MessageHeader(0, m).bytes);
          return;
        }
        var inc := localChunkSize;
        var start := Offset(i, localChunkSize);
        var leftLen := cs.chunkBody.Length - start;
        if leftLen < localChunkSize {
          inc := leftLen;
        }
        totalLen := totalLen + inc;
        output := output + cs.chunkBody[start..start + inc];
        OneChunk(m, localChunkSize, start, o);
        i := i + 1;
      }
      ok := true;
      LastChunk(m, localChunkSize, output);
    }
  }

  // One turn of the loop of ReadChunkStream.
  lemma OneTurn(r: Reader, input: seq<byte>)
    requires ReaderOk(r)
    ensures
      ReadMessage(r, input) ==
        match ReadChunk(r, input)
        case TurnShort => Closed(r, input)
        case Turn(r', csid, rest) =>
          if !r'.table[csid].full then ReadMessage(r', rest)
          else
            var m := MessageOf(csid, r'.table[csid]);
            if Overruns(m) then Fault(m) else Got(Deliver(r', m), m, rest)
  {
  }

  // Where chunk i starts, and how many whole chunks a body has.
  function Offset(i: nat, chunkSize: nat): nat {
    i * chunkSize
  }

  lemma OffsetSteps(i: nat, chunkSize: nat)
    requires chunkSize >= 1
    ensures Offset(0, chunkSize) == 0
    ensures Offset(i + 1, chunkSize) == Offset(i, chunkSize) + chunkSize
    ensures Offset(i, chunkSize) == 0 <==> i == 0
  {
    assert (i + 1) * chunkSize == i * chunkSize + chunkSize;
    if i >= 1 {
      MulAtLeast(i, chunkSize);
    }
  }

  function Quotient(n: nat, d: nat): (q: nat)
    requires d >= 1
    ensures Offset(q, d) <= n < Offset(q + 1, d)
  {
    assert (n / d + 1) * d == n / d * d + d;
    n / d
  }

  lemma HeaderFails(m: Message, fmt: nat)
    requires fmt < 4
    ensures MessageHeader(fmt, m).ok <==> fmt >= 2 || |m.body| <= MAX24
  {
  }

  lemma LastChunk(m: Message, chunkSize: nat, o: seq<byte>)
    requires chunkSize >= 1
    ensures o + Chunks(m, chunkSize, |m.body|) == o
    ensures m.body == [] ==> Chunks(m, chunkSize, 0) == []
  {
  }

  lemma Assoc(a: seq<byte>, b: seq<byte>, c: seq<byte>)
    ensures (a + b) + c == a + (b + c)
  {
  }

  // What one turn of the writer's loop appends.
  lemma OneChunk(m: Message, chunkSize: nat, start: nat, o: seq<byte>)
    requires chunkSize >= 1 && start < |m.body|
    ensures
      var fmt := if start == 0 then 0 else 3;
      var end := Min(start + chunkSize, |m.body|);
      o + BasicHeader(fmt, m.csid) + MessageHeader(fmt, m).bytes + m.body[start..end] + Chunks(m, chunkSize, end)
      == o + Chunks(m, chunkSize, start)
  {
    hide BasicHeader, MessageHeader;
    var fmt := if start == 0 then 0 else 3;
    var end := Min(start + chunkSize, |m.body|);
    var a, b := BasicHeader(fmt, m.csid), MessageHeader(fmt, m).bytes;
    var c, d := m.body[start..end], Chunks(m, chunkSize, end);
    assert o + a + b + c + d == o + (a + (b + (c + d)));
  }

  // The bytes of the acknowledgements sent between two states.
  function AckOutput(before: seq<uint32>, after: seq<uint32>, chunkSize: nat): seq<byte>
    requires chunkSize >= 1
  {
    if before <= after then AckBytes(after[|before|..], chunkSize) else []
  }

  lemma AckNone(acked: seq<uint32>, chunkSize: nat)
    requires chunkSize >= 1
    ensures AckOutput(acked, acked, chunkSize) == []
  {
  }

  lemma AckOne(acked: seq<uint32>, v: uint32, chunkSize: nat)
    requires chunkSize >= 1
    ensures AckOutput(acked, acked + [v], chunkSize) == WriteMessage(AckMessage(v), chunkSize).bytes
  {
    hide WriteMessage, AckMessage;
    assert (acked + [v])[|acked|..] == [v] && [v][..0] == [];
    assert AckBytes([v], chunkSize) == AckBytes([], chunkSize) + WriteMessage(AckMessage(v), chunkSize).bytes;
  }

  lemma AckJoin(a: seq<uint32>, b: seq<uint32>, c: seq<uint32>, chunkSize: nat)
    requires chunkSize >= 1 && a <= b <= c
    ensures a <= c && AckOutput(a, b, chunkSize) + AckOutput(b, c, chunkSize) == AckOutput(a, c, chunkSize)
  {
    hide AckBytes;
    AckConcat(b[|a|..], c[|b|..], chunkSize);
    assert b[|a|..] + c[|b|..] == c[|a|..];
  }

  lemma {:induction false} AckConcat(a: seq<uint32>, b: seq<uint32>, chunkSize: nat)
    requires chunkSize >= 1
    ensures AckBytes(a + b, chunkSize) == AckBytes(a, chunkSize) + AckBytes(b, chunkSize)
    decreases |b|
  {
    hide WriteMessage, AckMessage;
    if b == [] {
      assert a + b == a;
    } else {
      assert (a + b)[..|a + b| - 1] == a + b[..|b| - 1];
      AckConcat(a, b[..|b| - 1], chunkSize);
    }
  }

  lemma UpdateTwice<K, V>(m: map<K, V>, k: K, u: V, v: V)
    ensures m[k := u][k := v] == m[k := v]
  {
  }
}
