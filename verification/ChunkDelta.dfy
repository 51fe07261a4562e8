// Where the reader's timestamps part from sections 5.3.1.2 and 5.3.1.3 of the
// RTMP 1.0 specification.
module ChunkDelta {
  import opened Bytes
  import opened ChunkFormat

  // By the specification the field of a header is a timestamp with fmt 0 and a
  // delta with fmt 1 and 2, and 0xffffff stands for four more bytes that hold it.
  function Field(fmt: nat, input: seq<byte>): (p: Parsed<nat>)
    requires fmt <= 2
  {
    var n := HeaderSize(fmt);
    if |input| < n then Short
    else if FromBE(input[0..3]) < MAX24 then Parsed(FromBE(input[0..3]), input[n..])
    else if |input| < n + 4 then Short
    else Parsed(FromBE(input[n..n + 4]), input[n + 4..])
  }

  function Stamp(e: Entry, fmt: nat, field: nat): nat {
    if fmt == 0 then field else Wrap32(e.timeStamp + field)
  }

  // The code goes by the format that created the entry instead, and never
  // reads the four bytes here.  So it takes the header as specified exactly
  // when the field is not extended, and the entry was made by the same kind of
  // format or the difference happens not to show.
  lemma StampExactly(e: Entry, fmt: nat, input: seq<byte>)
    requires fmt <= 2 && EntryOk(e) && Field(fmt, input).Parsed?
    ensures
      var f, p := Field(fmt, input), ParseMessageHeader(e, fmt, input);
      (p.Parsed? && p.value.timeStamp == Stamp(e, fmt, f.value) && p.rest == f.rest)
      <==>
      FromBE(input[0..3]) < MAX24
      && match e.fmt
         case 0 => fmt == 0 || e.timeStamp == 0
         case 3 => if fmt == 0 then e.timeStamp == f.value else f.value == 0
         case _ => fmt != 0 || e.timeStamp == 0
  {
    hide FromBE, FromLE;
    var h := input[..HeaderSize(fmt)];
    assert h[0..3] == input[0..3];
    StampAfter(e, fmt, h);
    if FromBE(h[0..3]) < MAX24 {
      WrapCases(e.timeStamp, FromBE(h[0..3]));
    }
  }

  lemma StampAfter(e: Entry, fmt: nat, h: seq<byte>)
    requires fmt <= 2 && EntryOk(e) && |h| == HeaderSize(fmt)
    ensures
      var d := FromBE(h[0..3]);
      StartEntry(e, fmt, h).timeStamp ==
        if d >= MAX24 || e.fmt == 3 then e.timeStamp else if e.fmt == 0 then d else Wrap32(e.timeStamp + d)
  {
    hide FromBE, FromLE;
  }

  lemma WrapCases(t: uint32, d: nat)
    requires d < MAX24
    ensures Wrap32(t + d) == if t + d < 0x1_0000_0000 then t + d else t + d - 0x1_0000_0000
  {
  }

  // A fmt-3 chunk that starts a message on an entry whose last field was 0xffffff
  // takes four bytes of its own: the timestamp, or what is added to it.
  lemma RestartTakesAnyStamp(e: Entry, field: uint32, tail: seq<byte>)
    requires EntryOk(e) && e.bodyRemain == 0 && e.timeExtended && e.fmt != 3
    ensures
      var p := ParseMessageHeader(e, 3, ToBE(field, 4) + tail);
      var stamp := if e.fmt == 0 then field else Wrap32(e.timeStamp + field);
      p.Parsed? && p.value == Restart(e.(timeStamp := stamp)) && p.rest == tail
  {
    hide ToBE, FromBE;
    Widths();
    Fits(field, 4);
    assert (ToBE(field, 4) + tail)[..4] == ToBE(field, 4) && (ToBE(field, 4) + tail)[4..] == tail;
  }

  // Where fewer than four bytes are left, they are lost and count as 0: the
  // error of that read is dropped.
  lemma RestartCutShort(e: Entry, input: seq<byte>)
    requires EntryOk(e) && e.bodyRemain == 0 && e.timeExtended && e.fmt != 3 && |input| < 4
    ensures
      var p := ParseMessageHeader(e, 3, input);
      var stamp := if e.fmt == 0 then 0 else e.timeStamp;
      p.Parsed? && p.value == Restart(e.(timeStamp := stamp)) && p.rest == []
  {
  }

  // Inside a message whose field was 0xffffff, a fmt-3 chunk may repeat the
  // timestamp in four bytes.  They are taken off only if they are the timestamp
  // so far, and are body bytes otherwise; without four bytes the read fails.
  lemma RepeatedStampSkipped(e: Entry, field: uint32, tail: seq<byte>)
    requires EntryOk(e) && e.bodyRemain > 0 && e.timeExtended
    ensures
      ParseMessageHeader(e, 3, ToBE(field, 4) + tail)
      == Parsed(e, if field == e.timeStamp then tail else ToBE(field, 4) + tail)
    ensures |tail| < 4 ==> ParseMessageHeader(e, 3, tail) == Short
  {
    hide ToBE, FromBE;
    Widths();
    Fits(field, 4);
    assert (ToBE(field, 4) + tail)[..4] == ToBE(field, 4) && (ToBE(field, 4) + tail)[4..] == tail;
  }
}
