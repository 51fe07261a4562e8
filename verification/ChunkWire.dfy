// The bytes on the wire and the effect of control messages, with the numbers of
// sections 5.3.1, 5.4.1 and 5.4.4 of the RTMP 1.0 specification written out.
module ChunkWire {
  import opened Bytes
  import opened ChunkFormat

  lemma Big3(v: nat)
    ensures ToBE(v, 3) == [v / 65536 % 256, v / 256 % 256, v % 256]
  {
    assert ToBE(v, 3) == ToBE(v / 256, 2) + [v % 256];
    assert ToBE(v / 256, 2) == ToBE(v / 256 / 256, 1) + [v / 256 % 256];
    assert ToBE(v / 256 / 256, 1) == ToBE(v / 256 / 256 / 256, 0) + [v / 256 / 256 % 256];
  }

  lemma Big4(v: nat)
    ensures ToBE(v, 4) == [v / 16777216 % 256, v / 65536 % 256, v / 256 % 256, v % 256]
  {
    assert ToBE(v, 4) == ToBE(v / 256, 3) + [v % 256];
    Big3(v / 256);
  }

  lemma Little2(v: nat)
    ensures ToLE(v, 2) == [v % 256, v / 256 % 256]
  {
    assert ToLE(v, 2) == [v % 256] + ToLE(v / 256, 1);
    assert ToLE(v / 256, 1) == [v / 256 % 256] + ToLE(v / 256 / 256, 0);
  }

  lemma Little4(v: nat)
    ensures ToLE(v, 4) == [v % 256, v / 256 % 256, v / 65536 % 256, v / 16777216 % 256]
  {
    hide ToLE;
    LittleNext(v, 3);
    LittleNext(v / 256, 2);
    Little2(v / 65536);
    assert v / 256 / 256 == v / 65536 && v / 65536 / 256 == v / 16777216;
  }

  lemma LittleNext(v: nat, n: nat)
    ensures ToLE(v, n + 1) == [v % 256] + ToLE(v / 256, n)
  {
  }

  // The three forms of a basic header; an id beyond them gets none.
  lemma BasicHeaderBytes(fmt: nat, csid: uint32)
    requires fmt < 4
    ensures
      BasicHeader(fmt, csid) ==
        if csid < 64 then [64 * fmt + csid]
        else if csid < 320 then [64 * fmt, csid - 64]
        else if csid < 65600 then [64 * fmt + 1, (csid - 64) % 256, (csid - 64) / 256]
        else []
  {
    if csid >= 64 {
      Little2(csid - 64);
    }
    assert 64 <= csid < 320 ==> ToLE(csid - 64, 1) == [(csid - 64) % 256] + ToLE((csid - 64) / 256, 0);
  }

  // The eleven bytes of a fmt-0 header; fmt 1 and 2 have the first seven and
  // three of them.  A timestamp that does not fit is written as 0xffffff.
  lemma MessageHeaderBytes(fmt: nat, m: Message)
    requires fmt <= 2 && |m.body| <= 0xffffff
    ensures
      var t, n, s := if m.timeStamp > 0xffffff then 0xffffff else m.timeStamp, |m.body|, m.streamID;
      var all := [t / 65536, t / 256 % 256, t % 256, n / 65536, n / 256 % 256, n % 256, m.typeID % 256,
                  s % 256, s / 256 % 256, s / 65536 % 256, s / 16777216];
      MessageHeader(fmt, m) == Written(all[..if fmt == 0 then 11 else if fmt == 1 then 7 else 3], true)
  {
    hide ToBE, ToLE;
    Short3(Min(m.timeStamp, MAX24));
    Short3(|m.body|);
    Big1(m.typeID);
    Little4(m.streamID);
    assert m.streamID / 16777216 % 256 == m.streamID / 16777216;
  }

  lemma Short3(v: nat)
    requires v <= 0xffffff
    ensures ToBE(v, 3) == [v / 65536, v / 256 % 256, v % 256]
  {
    Big3(v);
  }

  lemma Big1(v: nat)
    ensures ToBE(v, 1) == [v % 256]
  {
    assert ToBE(v, 1) == ToBE(v / 256, 0) + [v % 256];
  }

  // A fmt-3 chunk has no header, but for a timestamp that does not fit, which
  // it has in four bytes.
  lemma Fmt3HeaderBytes(m: Message)
    ensures
      var t := m.timeStamp;
      var four := [t / 16777216, t / 65536 % 256, t / 256 % 256, t % 256];
      MessageHeader(3, m) == Written(if t > 0xffffff then four else [], true)
  {
    Big4(m.timeStamp);
  }

  // What is written of a message that no chunk can carry: nothing if it is
  // empty, and a basic header and a timestamp before the failure if too long.
  lemma NothingOrCut(m: Message, chunkSize: nat)
    requires chunkSize >= 1
    ensures m.body == [] ==> WriteMessage(m, chunkSize) == Written([], true)
    ensures |m.body| > 0xffffff ==>
      var t := if m.timeStamp > 0xffffff then 0xffffff else m.timeStamp;
      WriteMessage(m, chunkSize) ==
        Written(BasicHeader(0, WriterId(m)) + [t / 65536, t / 256 % 256, t % 256], false)
  {
    hide ToBE, ToLE, BasicHeader;
    Short3(Min(m.timeStamp, MAX24));
    RemapIs(m);
  }

  // The chunk stream the writer chooses: 4 for audio, 6 for video and data, and
  // the message's own otherwise.
  function WriterId(m: Message): uint32 {
    if m.typeID == 8 then 4
    else if m.typeID == 9 || m.typeID == 15 || m.typeID == 18 then 6
    else m.csid
  }

  lemma RemapIs(m: Message)
    ensures Remap(m) == m.(csid := WriterId(m))
  {
  }

  // Type 1 sets the chunk size to read by and type 5 the window, each to the
  // first four bytes, most significant first; no other type sets anything.
  lemma ControlTakes(r: Reader, m: Message)
    requires !((m.typeID == 1 || m.typeID == 5) && |m.body| < 4)
    ensures !Overruns(m)
    ensures
      var r' := Deliver(r, m);
      && (m.typeID == 1 ==> r'.chunkSize == Value(m.body[..4]))
      && (m.typeID != 1 ==> r'.chunkSize == r.chunkSize)
      && (m.typeID == 5 ==> r'.window == Value(m.body[..4]))
      && (m.typeID != 5 ==> r'.window == r.window)
      && r'.table == r.table
  {
    if m.typeID == 1 || m.typeID == 5 {
      ValueOf(m.body[..4]);
    }
  }
}
