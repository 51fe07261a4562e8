// Packets and the metadata cache of a stream (pkg/av, pkg/rtmp/cache.go).
module AvPackets {
  import opened Bytes
  import opened Options

  // The fields of an FLV tag header that the server looks at.
  datatype Tag = Tag(soundFormat: byte, aacPacketType: byte, frameType: byte, avcPacketType: byte)

  datatype Packet = Packet(
    header: Option<Tag>, data: seq<byte>, timeStamp: uint32, streamID: uint32,
    isAudio: bool, isVideo: bool, isMetaData: bool)

  const KEY_FRAME := 1
  const AVC_SEQHDR := 0
  const SOUND_AAC := 10
  const AAC_SEQHDR := 0

  predicate IsKeyFrame(t: Tag) {
    t.frameType == KEY_FRAME
  }

  predicate IsSeq(t: Tag) {
    IsKeyFrame(t) && t.avcPacketType == AVC_SEQHDR
  }

  // The packets Cache.Write files under each slot.
  predicate IsMeta(p: Packet) {
    p.isMetaData
  }

  predicate IsVideoHeader(p: Packet) {
    !p.isMetaData && p.isVideo && p.header.Some? && IsSeq(p.header.value)
  }

  predicate IsAudioHeader(p: Packet) {
    && !p.isMetaData && !p.isVideo && p.header.Some?
    && p.header.value.soundFormat == SOUND_AAC && p.header.value.aacPacketType == AAC_SEQHDR
  }

  datatype Slots = Slots(metaData: Option<Packet>, videoSeq: Option<Packet>, audioSeq: Option<Packet>)

  const NO_SLOTS := Slots(None, None, None)

  function Filed(s: Slots, p: Packet): Slots {
    if IsMeta(p) then s.(metaData := Some(p))
    else if IsVideoHeader(p) then s.(videoSeq := Some(p))
    else if IsAudioHeader(p) then s.(audioSeq := Some(p))
    else s
  }

  function Listed(o: Option<Packet>): seq<Packet> {
    if o.Some? then [o.value] else []
  }

  // What a subscriber is sent first, in this order.
  function Snapshot(s: Slots): (ps: seq<Packet>)
    ensures |ps| <= 3
  {
    Listed(s.metaData) + Listed(s.videoSeq) + Listed(s.audioSeq)
  }

  class SpecialCache {
    var full: bool
    var pkt: Option<Packet>

    constructor ()
      ensures !full && pkt == None
    {
      full, pkt := false, None;
    }

    ghost function Slot(): Option<Packet>
      reads this
    {
      if full then pkt else None
    }

    method Write(p: Packet)
      modifies this
      ensures Slot() == Some(p)
    {
      pkt := Some(p);
      full := true;
    }
  }

  class Cache {
    const videoSeq: SpecialCache
    const audioSeq: SpecialCache
    const metaData: SpecialCache

    ghost predicate Valid() {
      videoSeq != audioSeq && videoSeq != metaData && audioSeq != metaData
    }

    ghost function Value(): Slots
      reads videoSeq, audioSeq, metaData
    {
      Slots(metaData.Slot(), videoSeq.Slot(), audioSeq.Slot())
    }

    constructor ()
      ensures Valid() && Value() == NO_SLOTS && fresh(videoSeq) && fresh(audioSeq) && fresh(metaData)
    {
      videoSeq := new SpecialCache();
      audioSeq := new SpecialCache();
      metaData := new SpecialCache();
    }

    method Write(pkt: Packet)
      requires Valid()
      modifies videoSeq, audioSeq, metaData
      ensures Value() == Filed(old(Value()), pkt)
    {
      if pkt.isMetaData {
        metaData.Write(pkt);
      } else if !pkt.isVideo {
        if pkt.header.Some? {
          var ah := pkt.header.value;
          if ah.soundFormat == SOUND_AAC && ah.aacPacketType == AAC_SEQHDR {
            audioSeq.Write(pkt);
          }
        }
      } else if pkt.header.Some? {
        if IsSeq(pkt.header.value) {
          videoSeq.Write(pkt);
        }
      }
    }
  }

  // The last packet of a kind, straight from the list of packets.
  function Latest(ps: seq<Packet>, kind: Packet -> bool): Option<Packet> {
    if ps == [] then None
    else if kind(ps[|ps| - 1]) then Some(ps[|ps| - 1])
    else Latest(ps[..|ps| - 1], kind)
  }

  function FiledAll(ps: seq<Packet>): Slots {
    if ps == [] then NO_SLOTS else Filed(FiledAll(ps[..|ps| - 1]), ps[|ps| - 1])
  }

  // The slots hold the latest packet of each kind, whatever was written between.
  lemma {:induction false} SlotsAreLatest(ps: seq<Packet>)
    ensures FiledAll(ps) == Slots(Latest(ps, IsMeta), Latest(ps, IsVideoHeader), Latest(ps, IsAudioHeader))
  {
    if ps != [] {
      SlotsAreLatest(ps[..|ps| - 1]);
    }
  }

  // Which slot a packet goes to: metadata first, whatever else it is; then video
  // of frame type 1 and AVC packet type 0; then, of what is not video, sound
  // format 10 with AAC packet type 0.
  lemma FiledExactly(s: Slots, p: Packet)
    ensures
      Filed(s, p) ==
        if p.isMetaData then Slots(Some(p), s.videoSeq, s.audioSeq)
        else if p.header.None? then s
        else
          var t := p.header.value;
          if p.isVideo then
            if t.frameType == 1 && t.avcPacketType == 0 then Slots(s.metaData, Some(p), s.audioSeq) else s
          else
            if t.soundFormat == 10 && t.aacPacketType == 0 then Slots(s.metaData, s.videoSeq, Some(p)) else s
  {
  }

  // The order of a snapshot: metadata, video header, audio header, without gaps.
  lemma SnapshotOrder(s: Slots)
    ensures
      var ps := Snapshot(s);
      var m, v := if s.metaData.Some? then 1 else 0, if s.videoSeq.Some? then 1 else 0;
      && |ps| == m + v + (if s.audioSeq.Some? then 1 else 0)
      && (s.metaData.Some? ==> ps[0] == s.metaData.value)
      && (s.videoSeq.Some? ==> ps[m] == s.videoSeq.value)
      && (s.audioSeq.Some? ==> ps[m + v] == s.audioSeq.value)
  {
  }
}
