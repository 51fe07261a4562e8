// Reading bytes nobody vouches for.  That ReadChunk and ReadMessage are total on
// every state with ReaderOk is already the main point: every body slice is in
// bounds, ReaderOk is kept, and each turn eats at least one byte.
module ChunkSafety {
  import opened Bytes
  import opened ChunkFormat

  // What any read message looks like, whatever the input.
  lemma {:induction false} ReadShape(r: Reader, input: seq<byte>)
    requires ReaderOk(r)
    ensures
      var res := ReadMessage(r, input);
      && (res.Got? ==>
            2 <= res.msg.csid <= 65599 && res.msg.typeID < 0x100 && |res.msg.body| <= MAX24 && !Overruns(res.msg))
      && (res.Fault? ==> Overruns(res.msg))
    decreases |input|
  {
    hide ParseBasicHeader, ParseMessageHeader, ParseBody, ReadChunk, Deliver;
    var t := ReadChunk(r, input);
    if t.Turn? && !t.reader.table[t.csid].full {
      ReadShape(t.reader, t.rest);
    }
  }

  // The same for a whole input; reading ends at a chunk that is cut short or
  // at a control message too short for its value.
  lemma {:induction false} ReadAllShape(r: Reader, input: seq<byte>)
    requires ReaderOk(r)
    ensures
      var t := ReadAll(r, input);
      && (forall m :: m in t.msgs ==> 2 <= m.csid <= 65599 && m.typeID < 0x100 && |m.body| <= MAX24 && !Overruns(m))
      && (t.last.Closed? || (t.last.Fault? && Overruns(t.last.msg)))
    decreases |input|
  {
    hide ReadMessage, Overruns;
    ReadShape(r, input);
    var res := ReadMessage(r, input);
    if res.Got? {
      ReadAllShape(res.reader, res.rest);
    }
  }
}
