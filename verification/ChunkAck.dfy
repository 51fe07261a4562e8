// Acknowledgement accounting over any run of delivered messages.
module ChunkAck {
  import opened Bytes
  import opened ChunkFormat
  import opened ChunkSafety
  import opened ChunkWire
  import opened ChunkRoundTrip
  import opened Sequences

  const TWO32 := 0x1_0000_0000

  function Total(msgs: seq<Message>): nat {
    if msgs == [] then 0 else |msgs[0].body| + Total(msgs[1..])
  }

  predicate Readable(msgs: seq<Message>) {
    forall i :: 0 <= i < |msgs| ==> !Overruns(msgs[i]) && |msgs[i].body| <= MAX24
  }

  // The state after delivering a list of messages; the table plays no part.
  function DeliverAll(r: Reader, msgs: seq<Message>): Reader
    requires Readable(msgs)
    decreases |msgs|
  {
    if msgs == [] then r else DeliverAll(Deliver(r, msgs[0]), msgs[1..])
  }

  // How often the counter passed 2^32.
  function Wraps(r: Reader, msgs: seq<Message>): nat
    requires Readable(msgs)
    decreases |msgs|
  {
    if msgs == [] then 0
    else (if r.ackSeq + |msgs[0].body| >= TWO32 then 1 else 0) + Wraps(Deliver(r, msgs[0]), msgs[1..])
  }

  lemma OneMessage(r: Reader, m: Message)
    requires !Overruns(m) && |m.body| <= MAX24
    ensures
      var r' := Deliver(r, m);
      && Sum(r'.acks) + r'.ackSeq + (if r.ackSeq + |m.body| >= TWO32 then TWO32 else 0)
         == Sum(r.acks) + r.ackSeq + |m.body|
      && (r'.ackSeq == 0 || r'.ackSeq < r'.window)
      && r'.window == (if m.typeID == WINDOW_ACK_SIZE then Control(m) else r.window)
      && (r'.acks == r.acks || (r'.ackSeq == 0 && exists v :: v >= r'.window && r'.acks == r.acks + [v]))
  {
    hide Control, Sum, Wrap32;
    var a := Wrap32(r.ackSeq + |m.body|);
    WrapOnce(r.ackSeq, |m.body|);
    SumNext(r.acks, a);
  }

  lemma WrapOnce(a: uint32, n: nat)
    requires n <= MAX24
    ensures Wrap32(a + n) + (if a + n >= TWO32 then TWO32 else 0) == a + n
  {
  }

  lemma SumNext(s: seq<uint32>, x: uint32)
    ensures Sum(s + [x]) == Sum(s) + x as int
  {
    assert (s + [x])[..|s|] == s;
  }

  // Every byte received is acknowledged or still counted, up to the times the
  // counter wrapped; and after each message the counter is 0 or below the
  // window in force, however often the window was changed.
  lemma {:induction false} AckAccounts(r: Reader, msgs: seq<Message>)
    requires Readable(msgs)
    ensures
      var r' := DeliverAll(r, msgs);
      && Sum(r'.acks) + r'.ackSeq + TWO32 * Wraps(r, msgs) == Sum(r.acks) + r.ackSeq + Total(msgs)
      && (msgs != [] ==> r'.ackSeq == 0 || r'.ackSeq < r'.window)
    decreases |msgs|
  {
    hide Deliver, Sum;
    if msgs != [] {
      OneMessage(r, msgs[0]);
      AckAccounts(Deliver(r, msgs[0]), msgs[1..]);
    }
  }

  // The largest window the counter cannot wrap in: it is below the window
  // before a message, and no message has more than MAX24 bytes.
  const SAFE_WINDOW := TWO32 - MAX24

  // No window announced on the way exceeds this one.
  predicate WindowsAtMost(msgs: seq<Message>, window: nat)
    requires Readable(msgs)
  {
    forall i :: 0 <= i < |msgs| ==> msgs[i].typeID == WINDOW_ACK_SIZE ==> Control(msgs[i]) <= window
  }

  lemma {:induction false} SafeWindowsNeverWrap(r: Reader, msgs: seq<Message>)
    requires Readable(msgs) && WindowsAtMost(msgs, SAFE_WINDOW)
    requires r.window <= SAFE_WINDOW && (r.ackSeq == 0 || r.ackSeq < r.window)
    ensures Wraps(r, msgs) == 0
    decreases |msgs|
  {
    hide Deliver, Sum, Control;
    if msgs != [] {
      OneMessage(r, msgs[0]);
      SafeWindowsNeverWrap(Deliver(r, msgs[0]), msgs[1..]);
    }
  }

  // Every byte of every run is acknowledged or still counted, on a connection
  // that starts with one window and is told none above the other.
  ghost predicate Conserves(chunkSize: uint32, start: uint32, window: uint32) {
    forall msgs {:trigger DeliverAll(Fresh(chunkSize, start), msgs)} ::
      Readable(msgs) && WindowsAtMost(msgs, window) ==>
        var r := DeliverAll(Fresh(chunkSize, start), msgs);
        Sum(r.acks) + r.ackSeq == Total(msgs)
  }

  // Main result: whatever window a connection starts with, 250000 for a server,
  // if it is never told one above a bound that includes this, it conserves the
  // account over every run if and only if the bound is at most 2^32 - 2^24 + 1.
  lemma AckConserved(chunkSize: uint32, start: uint32, window: uint32)
    requires start <= window
    ensures Conserves(chunkSize, start, window) <==> window <= SAFE_WINDOW
  {
    hide DeliverAll, Wraps, Deliver, Control, Sum, Total;
    var r := Fresh(chunkSize, start);
    NothingAcked();
    if window <= SAFE_WINDOW {
      forall msgs {:trigger DeliverAll(r, msgs)} | Readable(msgs) && WindowsAtMost(msgs, window)
        ensures Sum(DeliverAll(r, msgs).acks) + DeliverAll(r, msgs).ackSeq == Total(msgs)
      {
        SafeWindowsNeverWrap(r, msgs);
        AckAccounts(r, msgs);
      }
    } else {
      ToldWraps(r, window);
      AckAccounts(r, Losing(window));
    }
  }

  function Told(window: uint32): Message {
    Message(2, 0, WINDOW_ACK_SIZE, 0, ToBE(window, 4))
  }

  // The peer announces a window and then sends audio.
  function Losing(window: uint32): seq<Message>
    requires window >= 5
  {
    [Told(window)] + Fill(window - 5)
  }

  // With any larger window that run makes the counter wrap, once.
  lemma ToldWraps(r: Reader, window: uint32)
    requires window > SAFE_WINDOW && r.ackSeq == 0
    ensures Readable(Losing(window)) && WindowsAtMost(Losing(window), window)
    ensures Wraps(r, Losing(window)) == 1
  {
    hide Sum, Deliver, Control;
    ToldCounts(r, window);
    FillWraps(Deliver(r, Told(window)), window - 5);
    assert Losing(window)[1..] == Fill(window - 5);
  }

  lemma ToldCounts(r: Reader, window: uint32)
    requires window > SAFE_WINDOW && r.ackSeq == 0
    ensures !Overruns(Told(window)) && Control(Told(window)) == window
    ensures Deliver(r, Told(window)).ackSeq == 4 && Deliver(r, Told(window)).window == window
  {
    hide Sum, ToBE, FromBE;
    Widths();
    Fits(window, 4);
    assert ToBE(window, 4)[..4] == ToBE(window, 4);
  }

  lemma NothingAcked()
    ensures Sum([]) == 0
  {
  }

  function Audio(n: nat): Message {
    Message(4, 0, AUDIO, 1, Zeros(n))
  }

  // Audio that brings the counter up by n, and one message more of the
  // greatest length.
  function Fill(n: nat): seq<Message> {
    if n == 0 then [Audio(MAX24)]
    else if n <= MAX24 then [Audio(n), Audio(MAX24)]
    else [Audio(MAX24)] + Fill(n - MAX24)
  }

  // With a larger window that run loses 2^32 bytes of the account.
  lemma {:induction false} FillWraps(r: Reader, n: nat)
    requires r.window > SAFE_WINDOW && r.ackSeq + n == r.window - 1
    ensures Readable(Fill(n)) && WindowsAtMost(Fill(n), 0)
    ensures Wraps(r, Fill(n)) == 1
    decreases n
  {
    hide Sum, Control;
    if n == 0 {
      LastWraps(r);
    } else if n <= MAX24 {
      AudioCounts(r, n);
      LastWraps(Deliver(r, Audio(n)));
      assert Fill(n)[1..] == [Audio(MAX24)];
    } else {
      AudioCounts(r, MAX24);
      FillWraps(Deliver(r, Audio(MAX24)), n - MAX24);
      assert Fill(n)[1..] == Fill(n - MAX24);
    }
  }

  lemma AudioCounts(r: Reader, n: nat)
    requires n <= MAX24 && r.ackSeq + n < r.window
    ensures Deliver(r, Audio(n)).ackSeq == r.ackSeq + n && Deliver(r, Audio(n)).window == r.window
  {
    hide Sum, Control;
  }

  lemma LastWraps(r: Reader)
    requires r.window > SAFE_WINDOW && r.ackSeq == r.window - 1
    ensures Wraps(r, [Audio(MAX24)]) == 1
  {
    hide Sum, Control, Deliver;
    assert [Audio(MAX24)][1..] == [];
  }

  // What readChunkStream does to the accounts is this: on any input, from any
  // state, they end where delivering the messages read takes them.
  predicate SameAccounts(a: Reader, b: Reader) {
    && a.chunkSize == b.chunkSize && a.window == b.window && a.ackSeq == b.ackSeq
    && a.bytesRecv == b.bytesRecv && a.resets == b.resets && a.acks == b.acks
  }

  lemma {:induction false} MessageKeepsAccounts(r: Reader, input: seq<byte>)
    requires ReaderOk(r)
    ensures
      var res := ReadMessage(r, input);
      && (res.Closed? ==> SameAccounts(res.reader, r))
      && (res.Got? ==> !Overruns(res.msg) && SameAccounts(res.reader, Deliver(r, res.msg)))
    decreases |input|
  {
    hide ReadChunk, EntryOk, Deliver;
    var t := ReadChunk(r, input);
    ChunkKeepsAccounts(r, input);
    if t.Turn? {
      var m := MessageOf(t.csid, t.reader.table[t.csid]);
      if !t.reader.table[t.csid].full {
        MessageKeepsAccounts(t.reader, t.rest);
        var res := ReadMessage(t.reader, t.rest);
        if res.Got? {
          DeliverSame(t.reader, r, res.msg);
        }
      } else if !Overruns(m) {
        DeliverSame(t.reader, r, m);
      }
    }
  }

  lemma ChunkKeepsAccounts(r: Reader, input: seq<byte>)
    requires ReaderOk(r)
    ensures var t := ReadChunk(r, input); t.Turn? ==> t.reader == r.(table := t.reader.table)
  {
    hide ParseBasicHeader, ParseInto;
  }

  lemma DeliverSame(a: Reader, b: Reader, m: Message)
    requires SameAccounts(a, b) && !Overruns(m)
    ensures SameAccounts(Deliver(a, m), Deliver(b, m))
  {
    hide Control;
  }

  lemma {:induction false} DeliverAllSame(a: Reader, b: Reader, msgs: seq<Message>)
    requires Readable(msgs) && SameAccounts(a, b)
    ensures SameAccounts(DeliverAll(a, msgs), DeliverAll(b, msgs))
    decreases |msgs|
  {
    hide Deliver;
    if msgs != [] {
      DeliverSame(a, b, msgs[0]);
      DeliverAllSame(Deliver(a, msgs[0]), Deliver(b, msgs[0]), msgs[1..]);
    }
  }

  lemma {:induction false} ReadAllAccounts(r: Reader, input: seq<byte>)
    requires ReaderOk(r)
    ensures
      var t := ReadAll(r, input);
      Readable(t.msgs) && (t.last.Closed? ==> SameAccounts(t.last.reader, DeliverAll(r, t.msgs)))
    decreases |input|
  {
    hide ReadMessage, Deliver, Overruns;
    MessageKeepsAccounts(r, input);
    ReadShape(r, input);
    var res := ReadMessage(r, input);
    if res.Got? {
      ReadAllAccounts(res.reader, res.rest);
      var t := ReadAll(res.reader, res.rest);
      DeliverAllSame(res.reader, Deliver(r, res.msg), t.msgs);
      assert ([res.msg] + t.msgs)[1..] == t.msgs;
    }
  }

  // ------------------------------------------------- what the peer is told

  function AckMessages(acks: seq<uint32>): seq<Message> {
    if acks == [] then [] else AckMessages(acks[..|acks| - 1]) + [AckMessage(acks[|acks| - 1])]
  }

  lemma {:induction false} WriteAllSnoc(msgs: seq<Message>, m: Message, chunkSize: nat)
    requires chunkSize >= 1
    ensures WriteAll(msgs + [m], chunkSize) == WriteAll(msgs, chunkSize) + WriteMessage(m, chunkSize).bytes
    decreases |msgs|
  {
    hide WriteMessage;
    if msgs == [] {
      assert [m][1..] == [] && [] + [m] == [m];
    } else {
      assert (msgs + [m])[1..] == msgs[1..] + [m];
      WriteAllSnoc(msgs[1..], m, chunkSize);
    }
  }

  lemma {:induction false} AckBytesAre(acks: seq<uint32>, chunkSize: nat)
    requires chunkSize >= 1
    ensures AckBytes(acks, chunkSize) == WriteAll(AckMessages(acks), chunkSize)
  {
    hide WriteMessage, AckMessage;
    if acks != [] {
      var n := |acks| - 1;
      AckBytesAre(acks[..n], chunkSize);
      WriteAllSnoc(AckMessages(acks[..n]), AckMessage(acks[n]), chunkSize);
    }
  }

  lemma {:induction false} AckMessagesAre(acks: seq<uint32>)
    ensures |AckMessages(acks)| == |acks|
    ensures forall i :: 0 <= i < |acks| ==> AckMessages(acks)[i] == AckMessage(acks[i])
  {
    if acks != [] {
      AckMessagesAre(acks[..|acks| - 1]);
    }
  }

  lemma AckIs(v: uint32)
    ensures IsControl(AckMessage(v), 3, v, []) && Admissible(AckMessage(v))
  {
    ControlIs(3, v, []);
    assert ToBE(v, 4) + [] == ToBE(v, 4);
    assert AckMessage(v) == ProtocolControl(3, v, []);
  }

  // Main result.  A peer that reads chunks of 4 bytes or more gets one message
  // of type 3, on chunk stream 2, for each acknowledgement, with its value.
  lemma AcksReadBack(acks: seq<uint32>, written: nat, peer: uint32, window: uint32)
    requires written >= 4 && peer >= 4
    ensures
      var t := ReadAll(Fresh(peer, window), AckBytes(acks, written));
      && |t.msgs| == |acks| && t.last.Closed? && t.last.rest == []
      && forall i :: 0 <= i < |acks| ==> IsControl(t.msgs[i], 3, acks[i], [])
  {
    hide ReadAll, ReadMessage, AckMessage, Admissible, ReadAs, AckMessages, AckBytes, IsControl, WriteAll;
    AckBytesAre(acks, written);
    AckMessagesAre(acks);
    AcksDeliverable(acks, written, peer);
    SequenceRoundTrip(AckMessages(acks), written, peer, window);
    var t := ReadAll(Fresh(peer, window), AckBytes(acks, written));
    forall i | 0 <= i < |acks|
      ensures IsControl(t.msgs[i], 3, acks[i], [])
    {
      AckIs(acks[i]);
      AckSame(t.msgs[i], acks[i]);
    }
  }

  lemma AckSame(got: Message, v: uint32)
    requires ReadAs(got, AckMessage(v))
    ensures got == AckMessage(v)
  {
    AckIs(v);
    ReadAsSame(got, AckMessage(v));
  }

  lemma AcksDeliverable(acks: seq<uint32>, written: nat, peer: uint32)
    requires written >= 4 && peer >= 4
    ensures Deliverable(AckMessages(acks), written, peer)
  {
    hide AckMessage, Admissible, AckMessages;
    AckMessagesAre(acks);
    forall i | 0 <= i < |acks|
      ensures Admissible(AckMessages(acks)[i]) && |AckMessages(acks)[i].body| == 4 && AckMessages(acks)[i].typeID == 3
    {
      AckIs(acks[i]);
    }
    ShortDeliverable(AckMessages(acks), written, peer);
  }

  lemma {:induction false} ShortDeliverable(msgs: seq<Message>, written: nat, read: uint32)
    requires written >= 4 && read >= 4
    requires forall i :: 0 <= i < |msgs| ==> Admissible(msgs[i]) && |msgs[i].body| == 4 && msgs[i].typeID == 3
    ensures Deliverable(msgs, written, read)
    decreases |msgs|
  {
    hide Admissible;
    if msgs != [] {
      AdmissibleIs(msgs[0]);
      ShortDeliverable(msgs[1..], written, read);
    }
  }

  // The sum of the values in acknowledgements.
  function Acknowledged(msgs: seq<Message>): nat {
    if msgs == [] then 0
    else
      var m := msgs[|msgs| - 1];
      Acknowledged(msgs[..|msgs| - 1]) + if |m.body| >= 4 then Value(m.body[..4]) else 0
  }

  lemma {:induction false} AcknowledgedIs(msgs: seq<Message>, acks: seq<uint32>)
    requires |msgs| == |acks| && forall i :: 0 <= i < |acks| ==> IsControl(msgs[i], 3, acks[i], [])
    ensures Acknowledged(msgs) == Sum(acks)
  {
    if acks != [] {
      AcknowledgedIs(msgs[..|msgs| - 1], acks[..|acks| - 1]);
    }
  }

  // So whatever a new connection reads, the values its peer is sent, with what
  // is still counted, make up the bytes of the messages read, short of 2^32 for
  // each time the counter wrapped.
  lemma PeerSeesReceived(
      chunkSize: uint32, window: uint32, input: seq<byte>, written: nat, peer: uint32, peerWindow: uint32)
    requires written >= 4 && peer >= 4
    ensures
      var t := ReadAll(Fresh(chunkSize, window), input);
      t.last.Closed? ==>
        var r := t.last.reader;
        var u := ReadAll(Fresh(peer, peerWindow), AckBytes(r.acks, written));
        && Readable(t.msgs) && u.last.Closed? && u.last.rest == []
        && Acknowledged(u.msgs) + r.ackSeq + TWO32 * Wraps(Fresh(chunkSize, window), t.msgs) == Total(t.msgs)
  {
    hide ReadAll, ReadMessage, AckBytes, DeliverAll, Wraps, Total, IsControl, Acknowledged, Sum;
    var r0 := Fresh(chunkSize, window);
    var t := ReadAll(r0, input);
    ReadAllAccounts(r0, input);
    AckAccounts(r0, t.msgs);
    NothingAcked();
    if t.last.Closed? {
      var acks := t.last.reader.acks;
      AcksReadBack(acks, written, peer, peerWindow);
      AcknowledgedIs(ReadAll(Fresh(peer, peerWindow), AckBytes(acks, written)).msgs, acks);
    }
  }

  // ------------------------------------------------- the bytes-received counter

  // How often the counter passed 2^32, and how often it stood at 2^32 - 1.
  function Passes(r: Reader, msgs: seq<Message>): nat
    requires Readable(msgs)
    decreases |msgs|
  {
    if msgs == [] then 0
    else (if r.bytesRecv + |msgs[0].body| >= TWO32 then 1 else 0) + Passes(Deliver(r, msgs[0]), msgs[1..])
  }

  function Hits(r: Reader, msgs: seq<Message>): nat
    requires Readable(msgs)
    decreases |msgs|
  {
    if msgs == [] then 0
    else (if Wrap32(r.bytesRecv + |msgs[0].body|) == TWO32 - 1 then 1 else 0) + Hits(Deliver(r, msgs[0]), msgs[1..])
  }

  // The reset counter counts only the times the byte counter stood at exactly
  // 2^32 - 1; when it passes 2^32 it wraps unnoticed.
  lemma {:induction false} ReceivedAccounts(r: Reader, msgs: seq<Message>)
    requires Readable(msgs)
    ensures
      var r' := DeliverAll(r, msgs);
      && r'.bytesRecv + (TWO32 - 1) * Hits(r, msgs) + TWO32 * Passes(r, msgs) == r.bytesRecv + Total(msgs)
      && r'.resets == Wrap32(r.resets + Hits(r, msgs))
      && (msgs != [] ==> r'.bytesRecv < TWO32 - 1)
    decreases |msgs|
  {
    hide Deliver, Wrap32;
    if msgs == [] {
      Unwrapped(r.resets);
    } else {
      ReceivedOne(r, msgs[0]);
      ReceivedAccounts(Deliver(r, msgs[0]), msgs[1..]);
      WrapAdd(r.resets + (if Wrap32(r.bytesRecv + |msgs[0].body|) == TWO32 - 1 then 1 else 0),
              Hits(Deliver(r, msgs[0]), msgs[1..]));
    }
  }

  lemma ReceivedOne(r: Reader, m: Message)
    requires !Overruns(m) && |m.body| <= MAX24
    ensures
      var r', hit := Deliver(r, m), Wrap32(r.bytesRecv + |m.body|) == TWO32 - 1;
      && r'.bytesRecv + (if hit then TWO32 - 1 else 0) + (if r.bytesRecv + |m.body| >= TWO32 then TWO32 else 0)
         == r.bytesRecv + |m.body|
      && r'.resets == Wrap32(r.resets + if hit then 1 else 0)
      && r'.bytesRecv < TWO32 - 1
  {
    hide Control, Sum, Wrap32;
    WrapOnce(r.bytesRecv, |m.body|);
    Unwrapped(r.resets);
  }
}
