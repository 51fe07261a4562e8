// A subscriber's bounded packet queue (pkg/rtmp/subscriber.go): what the drop
// loop leaves when it runs alone.
module SubscriberQueue {
  import opened Options
  import opened AvPackets
  import opened Sequences

  // The loop keeps audio packets and video key frames, sequence headers
  // included, and drops the rest of what it goes through.
  predicate Keep(p: Packet) {
    p.isAudio || (p.isVideo && p.header.Some? && (IsSeq(p.header.value) || IsKeyFrame(p.header.value)))
  }

  // Audio, and video of frame type 1.
  lemma KeepIs(p: Packet)
    ensures Keep(p) <==> p.isAudio || (p.isVideo && p.header.Some? && p.header.value.frameType == 1)
  {
  }

  function Kept(ps: seq<Packet>): (r: seq<Packet>)
    ensures |r| <= |ps|
  {
    if ps == [] then [] else Kept(ps[..|ps| - 1]) + Kept1(ps[|ps| - 1])
  }

  function Kept1(p: Packet): seq<Packet> {
    if Keep(p) then [p] else []
  }

  lemma KeptNone(ps: seq<Packet>)
    ensures Kept(ps[..0]) == [] && ps[0..] == ps && ps + [] == ps
  {
  }

  lemma KeptNext(ps: seq<Packet>, i: nat)
    requires i < |ps|
    ensures Kept(ps[..i + 1]) == Kept(ps[..i]) + Kept1(ps[i])
  {
    assert ps[..i + 1][..i] == ps[..i];
  }

  // A queue never grows past this.
  function Cap(size: int): nat {
    if size > 23 then size - 23 else 0
  }

  function Turns(size: int): nat {
    if size > 84 then size - 84 else 0
  }

  // What the drop loop leaves of a queue.
  function AfterDrop(q: seq<Packet>, size: int): (r: seq<Packet>)
    requires Turns(size) <= |q|
    ensures |r| <= |q|
  {
    q[Turns(size)..] + Kept(q[..Turns(size)])
  }

  // One writeAVPacket with nobody receiving.  A packet that finds the queue
  // full is itself not queued.
  function Written(q: seq<Packet>, size: int, pkt: Packet): (r: seq<Packet>)
    requires |q| <= Cap(size)
    ensures |r| <= Cap(size)
  {
    if |q| > size - 24 then AfterDrop(q, size) else q + [pkt]
  }

  // A subscriber: what waits in its queue and what it was handed so far.
  datatype Sub = Sub(queue: seq<Packet>, received: seq<Packet>, size: int, init: bool, stopped: bool)

  // --------------------------------------------------------------- the object

  class Subscriber {
    const avPktQueueSize: int
    var avPktQueue: seq<Packet>
    var stopped: bool
    var initCache: bool
    const addr: string              // where its connection comes from
    ghost var received: seq<Packet> // every packet taken from the queue by playingCycle

    ghost predicate Valid()
      reads this
    {
      |avPktQueue| <= Cap(avPktQueueSize)
    }

    ghost function Value(): Sub
      reads this
    {
      Sub(avPktQueue, received, avPktQueueSize, initCache, stopped)
    }

    constructor (size: nat, addr: string)
      ensures Valid() && Value() == Sub([], [], size, false, false) && this.addr == addr
    {
      avPktQueueSize, avPktQueue, stopped, initCache := size, [], false, false;
      this.addr := addr;
      received := [];
    }

    // The receive of playingCycle; None is where it would wait.
    method Receive() returns (pkt: Option<Packet>)
      requires Valid()
      modifies this`avPktQueue, this`received
      ensures Valid()
      ensures if old(avPktQueue) == [] then pkt == None && Value() == old(Value())
              else && pkt == Some(old(avPktQueue)[0])
                   && Value() == old(Value()).(queue := old(avPktQueue)[1..], received := old(received) + [pkt.value])
    {
      if avPktQueue == [] {
        return None;
      }
      pkt := Some(avPktQueue[0]);
      avPktQueue := avPktQueue[1..];
      received := received + [pkt.value];
    }

    // Alone on the queue, the loop never waits and its two extra receives are
    // never made: the result is a rotation that filters what it moves.
    method DropAVPacket()
      requires Valid() && |avPktQueue| > avPktQueueSize - 24
      modifies this`avPktQueue
      ensures Valid() && avPktQueue == AfterDrop(old(avPktQueue), avPktQueueSize)
    {
      hide Kept;
      ghost var q0 := avPktQueue;
      KeptNone(q0);
      var i := 0;
      while i < avPktQueueSize - 84
        invariant 0 <= i <= Turns(avPktQueueSize) <= |q0|
        invariant avPktQueue == q0[i..] + Kept(q0[..i])
      {
        var pkt := avPktQueue[0];
        avPktQueue := avPktQueue[1..];
        KeptNext(q0, i);
        assert pkt == q0[i] && avPktQueue == q0[i + 1..] + Kept(q0[..i]);
        if pkt.isAudio {
          if |avPktQueue| > avPktQueueSize - 2 { // would receive and discard
            assert false;
          } else {
            avPktQueue := avPktQueue + [pkt];
          }
        } else if pkt.isVideo {
          if pkt.header.Some? && (IsSeq(pkt.header.value) || IsKeyFrame(pkt.header.value)) {
            avPktQueue := avPktQueue + [pkt];
          }
          if |avPktQueue| > avPktQueueSize - 10 { // would receive and discard
            assert false;
          }
        }
        assert avPktQueue == q0[i + 1..] + Kept(q0[..i]) + Kept1(pkt);
        i := i + 1;
      }
    }

    method WriteAVPacket(pkt: Packet)
      requires Valid()
      modifies this`avPktQueue
      ensures Valid() && avPktQueue == Written(old(avPktQueue), avPktQueueSize, pkt)
    {
      if |avPktQueue| > avPktQueueSize - 24 {
        DropAVPacket();
      } else {
        avPktQueue := avPktQueue + [pkt];
      }
    }

    method SendCachePacket(cache: Cache)
      requires Valid() && cache.Valid()
      modifies this`avPktQueue, this`initCache
      ensures Valid() && initCache
      ensures avPktQueue == if old(initCache) then old(avPktQueue)
                            else WrittenAll(old(avPktQueue), avPktQueueSize, Snapshot(cache.Value()))
    {
      if initCache {
        return;
      }
      ghost var q, s := avPktQueue, cache.Value();
      Appended(q, avPktQueueSize, Listed(s.metaData), Listed(s.videoSeq));
      Appended(q, avPktQueueSize, Listed(s.metaData) + Listed(s.videoSeq), Listed(s.audioSeq));
      if cache.metaData.full && cache.metaData.pkt.Some? {
        WriteAVPacket(cache.metaData.pkt.value);
      }
      if cache.videoSeq.full && cache.videoSeq.pkt.Some? {
        WriteAVPacket(cache.videoSeq.pkt.value);
      }
      if cache.audioSeq.full && cache.audioSeq.pkt.Some? {
        WriteAVPacket(cache.audioSeq.pkt.value);
      }
      initCache := true;
    }
  }

  function WrittenAll(q: seq<Packet>, size: int, ps: seq<Packet>): (r: seq<Packet>)
    requires |q| <= Cap(size)
    ensures |r| <= Cap(size)
  {
    if ps == [] then q else Written(WrittenAll(q, size, ps[..|ps| - 1]), size, ps[|ps| - 1])
  }

  lemma {:induction false} Appended(q: seq<Packet>, size: int, a: seq<Packet>, b: seq<Packet>)
    requires |q| <= Cap(size)
    ensures WrittenAll(q, size, a + b) == WrittenAll(WrittenAll(q, size, a), size, b)
    decreases |b|
  {
    hide Written;
    if b == [] {
      assert a + b == a;
    } else {
      assert (a + b)[..|a + b| - 1] == a + b[..|b| - 1];
      Appended(q, size, a, b[..|b| - 1]);
    }
  }

  lemma {:induction false} KeptKeeps(ps: seq<Packet>, p: Packet)
    ensures multiset(Kept(ps))[p] == if Keep(p) then multiset(ps)[p] else 0
  {
    if ps != [] {
      KeptKeeps(ps[..|ps| - 1], p);
      assert ps == ps[..|ps| - 1] + [ps[|ps| - 1]];
    }
  }

  // What must be kept is neither lost nor doubled; of the rest just what the
  // loop went through is gone, and nothing is made up.
  lemma DropKeeps(q: seq<Packet>, size: int, p: Packet)
    requires Turns(size) <= |q|
    ensures
      var left := multiset(AfterDrop(q, size))[p];
      left == (if Keep(p) then multiset(q)[p] else multiset(q[Turns(size)..])[p]) && left <= multiset(q)[p]
  {
    KeptKeeps(q[..Turns(size)], p);
    assert q == q[..Turns(size)] + q[Turns(size)..];
  }

  // Packets of q that stand in t in the order they have in q.
  ghost predicate InOrder(t: seq<Packet>, q: seq<Packet>) {
    forall i, j, a, b :: 0 <= i < j < |t| && 0 <= a < |q| && 0 <= b < |q| && q[a] == t[i] && q[b] == t[j] ==> a < b
  }

  // The loop moves what it keeps behind newer packets.  So it leaves the queue
  // in order if and only if it comes to nothing that it keeps.
  lemma OrderKeptExactly(q: seq<Packet>, size: int)
    requires Turns(size) < |q| && NoRepeat(q)
    ensures InOrder(AfterDrop(q, size), q) <==> forall i :: 0 <= i < Turns(size) ==> !Keep(q[i])
  {
    hide Keep, Kept, InOrder, NoRepeat;
    var n := Turns(size);
    if k :| 0 <= k < n && Keep(q[k]) {
      var j := KeptAt(q[..n], k);
      OutOfOrder(AfterDrop(q, size), q, 0, |q| - n + j, n, k);
    } else {
      KeptNothing(q[..n]);
      assert q[n..] + [] == q[n..];
      TailInOrder(q, n);
    }
  }

  lemma KeptAt(ps: seq<Packet>, k: nat) returns (j: nat)
    requires k < |ps| && Keep(ps[k])
    ensures j < |Kept(ps)| && Kept(ps)[j] == ps[k]
  {
    hide Keep, Kept;
    KeptKeeps(ps, ps[k]);
    assert ps[k] in multiset(ps);
    assert ps[k] in Kept(ps);
    j :| 0 <= j < |Kept(ps)| && Kept(ps)[j] == ps[k];
  }

  lemma OutOfOrder(t: seq<Packet>, q: seq<Packet>, i: nat, j: nat, a: nat, b: nat)
    requires i < j < |t| && b < a < |q| && q[a] == t[i] && q[b] == t[j]
    ensures !InOrder(t, q)
  {
  }

  lemma TailInOrder(q: seq<Packet>, n: nat)
    requires n <= |q| && NoRepeat(q)
    ensures InOrder(q[n..], q)
  {
    forall i, a | 0 <= i < |q[n..]| && 0 <= a < |q| && q[a] == q[n..][i]
      ensures a == n + i
    {
    }
  }

  lemma {:induction false} KeptNothing(ps: seq<Packet>)
    requires forall i :: 0 <= i < |ps| ==> !Keep(ps[i])
    ensures Kept(ps) == []
  {
    if ps != [] {
      KeptNothing(ps[..|ps| - 1]);
    }
  }
}
