// A stream's subscribers (pkg/rtmp/streamSource.go): what each of them is
// handed over any run of publishing, joining, leaving and receiving.
module StreamDispatch {
  import opened Options
  import opened AvPackets
  import opened SubscriberQueue

  datatype World = World(slots: Slots, subs: map<string, Sub>, count: int)

  predicate Bounded(w: World) {
    forall a <- w.subs :: |w.subs[a].queue| <= Cap(w.subs[a].size)
  }

  // What one dispatch offers a subscriber: the snapshot first, once.
  function Offer(s: Sub, slots: Slots, pkt: Packet): seq<Packet> {
    if s.stopped then [] else (if s.init then [] else Snapshot(slots)) + [pkt]
  }

  function DispatchOne(s: Sub, slots: Slots, pkt: Packet): (r: Sub)
    requires |s.queue| <= Cap(s.size)
    ensures |r.queue| <= Cap(r.size)
  {
    s.(queue := WrittenAll(s.queue, s.size, Offer(s, slots, pkt)), init := s.init || !s.stopped)
  }

  datatype Event =
    | CachePacket(pkt: Packet)
    | Dispatch(pkt: Packet)
    | Join(addr: string, size: nat)
    | Leave(addr: string)
    | Stop(addr: string)    // its connection failed
    | Receive(addr: string)

  function ReceiveOne(s: Sub): Sub {
    if s.queue == [] then s else s.(queue := s.queue[1..], received := s.received + [s.queue[0]])
  }

  function Next(w: World, e: Event): (r: World)
    requires Bounded(w)
    ensures Bounded(r)
  {
    match e
    case CachePacket(p) => w.(slots := Filed(w.slots, p))
    case Dispatch(p) => w.(subs := map a <- w.subs :: DispatchOne(w.subs[a], w.slots, p))
    case Join(a, size) =>
      if a in w.subs then w else w.(subs := w.subs[a := Sub([], [], size, false, false)], count := w.count + 1)
    case Leave(a) => w.(subs := w.subs - {a})
    case Stop(a) => if a in w.subs then w.(subs := w.subs[a := w.subs[a].(stopped := true)]) else w
    case Receive(a) => if a in w.subs then w.(subs := w.subs[a := ReceiveOne(w.subs[a])]) else w
  }

  function Run(es: seq<Event>): (w: World)
    ensures Bounded(w)
  {
    if es == [] then World(NO_SLOTS, map[], 0) else Next(Run(es[..|es| - 1]), es[|es| - 1])
  }

  lemma ServeIs(s: Sub, slots: Slots, pkt: Packet)
    requires |s.queue| <= Cap(s.size)
    ensures
      var sent := if s.init then s.queue else WrittenAll(s.queue, s.size, Snapshot(slots));
      DispatchOne(s, slots, pkt) == if s.stopped then s else s.(queue := Written(sent, s.size, pkt), init := true)
  {
    hide Written, Snapshot, Cap;
    var first := if s.init then [] else Snapshot(slots);
    assert Offer(s, slots, pkt) == if s.stopped then [] else first + [pkt];
    assert (first + [pkt])[..|first|] == first && [] + [pkt] == [pkt];
    assert WrittenAll(s.queue, s.size, []) == s.queue;
  }

  lemma EveryOne(w: World, t: World, pkt: Packet)
    requires Bounded(w) && t == w.(subs := t.subs) && t.subs.Keys == w.subs.Keys
    requires forall a <- w.subs :: t.subs[a] == DispatchOne(w.subs[a], w.slots, pkt)
    ensures t == Next(w, Dispatch(pkt))
  {
  }

  // --------------------------------------------------------------- the object

  class StreamSource {
    var subscribers: map<string, Subscriber>
    var subscriberCount: int
    const cache: Cache

    ghost predicate Valid()
      reads this, subscribers.Values
    {
      cache.Valid() && forall a <- subscribers :: subscribers[a].Valid() && subscribers[a].addr == a
    }

    ghost function Value(): World
      reads this, subscribers.Values, cache.videoSeq, cache.audioSeq, cache.metaData
    {
      World(cache.Value(), map a <- subscribers :: subscribers[a].Value(), subscriberCount)
    }

    constructor ()
      ensures Valid() && Value() == Run([])
    {
      subscribers, subscriberCount := map[], 0;
      cache := new Cache();
    }

    method AddSubscriber(sub: Subscriber) returns (ok: bool)
      requires Valid() && sub.Valid() && sub.avPktQueueSize >= 0
      requires sub.Value() == Sub([], [], sub.avPktQueueSize, false, false)
      modifies this
      ensures Valid() && ok == (sub.addr !in old(subscribers))
      ensures subscribers == if ok then old(subscribers)[sub.addr := sub] else old(subscribers)
      ensures Bounded(old(Value())) && Value() == Next(old(Value()), Join(sub.addr, sub.avPktQueueSize))
    {
      if sub.addr in subscribers {
        return false;
      }
      subscribers := subscribers[sub.addr := sub];
      subscriberCount := subscriberCount + 1;
      ok := true;
    }

    method DelSubscriber(sub: Subscriber)
      requires Valid()
      modifies this`subscribers
      ensures Valid() && subscribers == old(subscribers) - {sub.addr}
      ensures Bounded(old(Value())) && Value() == Next(old(Value()), Leave(sub.addr))
    {
      subscribers := subscribers - {sub.addr};
    }

    method CacheAVMetaPacket(pkt: Packet)
      requires Valid()
      modifies cache.videoSeq, cache.audioSeq, cache.metaData
      ensures Valid()
      ensures Bounded(old(Value())) && Value() == Next(old(Value()), CachePacket(pkt))
    {
      cache.Write(pkt);
    }

    // Subscribers are visited in any order.
    method DispatchAVPacket(pkt: Packet)
      requires Valid()
      modifies subscribers.Values
      ensures Valid()
      ensures Bounded(old(Value())) && Value() == Next(old(Value()), Dispatch(pkt))
    {
      hide DispatchOne, Cap, Next, Filed;
      ghost var w := Value();
      var rest := subscribers.Keys;
      while rest != {}
        invariant rest <= subscribers.Keys && Valid() && Bounded(w)
        invariant Value() == w.(subs := Value().subs)
        invariant forall a <- subscribers :: a in rest ==> Value().subs[a] == w.subs[a]
        invariant forall a <- subscribers :: a !in rest ==> Value().subs[a] == DispatchOne(w.subs[a], w.slots, pkt)
      {
        var a :| a in rest;
        rest := rest - {a};
        ServeAt(a, pkt);
      }
      EveryOne(w, Value(), pkt);
    }

    // The body of that loop.
    method ServeAt(a: string, pkt: Packet)
      requires Valid() && a in subscribers
      modifies subscribers[a]
      ensures Valid() && Bounded(old(Value()))
      ensures
        var w := old(Value());
        Value() == w.(subs := w.subs[a := DispatchOne(w.subs[a], w.slots, pkt)])
    {
      hide DispatchOne, Cap;
      Serve(subscribers[a], pkt);
    }

    method Serve(sub: Subscriber, pkt: Packet)
      requires sub.Valid() && cache.Valid()
      modifies sub`avPktQueue, sub`initCache
      ensures sub.Valid() && |old(sub.Value()).queue| <= Cap(old(sub.Value()).size)
      ensures sub.Value() == DispatchOne(old(sub.Value()), cache.Value(), pkt)
    {
      hide DispatchOne, WrittenAll, Written, Snapshot;
      ServeIs(sub.Value(), cache.Value(), pkt);
      if sub.stopped {
        return;
      }
      sub.SendCachePacket(cache);
      sub.WriteAVPacket(pkt);
    }
  }

  // ------------------------------------------------------------- late joiners

  function Cached(es: seq<Event>): seq<Packet> {
    if es == [] then [] else Cached(es[..|es| - 1]) + if es[|es| - 1].CachePacket? then [es[|es| - 1].pkt] else []
  }

  function Dispatched(es: seq<Event>): seq<Packet> {
    if es == [] then [] else Dispatched(es[..|es| - 1]) + if es[|es| - 1].Dispatch? then [es[|es| - 1].pkt] else []
  }

  // The events before the first dispatch.
  function Lead(es: seq<Event>): seq<Event> {
    if es == [] || Dispatched(es) == [] then es else Lead(es[..|es| - 1])
  }

  // What a subscriber that joined between before and after should be sent:
  // nothing until there is a dispatch, then the latest metadata, video header
  // and audio header of that moment, then every packet dispatched.
  function Due(before: seq<Event>, after: seq<Event>): seq<Packet> {
    var c := Cached(before) + Cached(Lead(after));
    if Dispatched(after) == [] then []
    else Snapshot(Slots(Latest(c, IsMeta), Latest(c, IsVideoHeader), Latest(c, IsAudioHeader))) + Dispatched(after)
  }

  // No dispatch after the join finds too little room in the queue of addr.
  predicate Roomy(joined: seq<Event>, addr: string, after: seq<Event>)
    decreases |after|
  {
    if after == [] then true
    else
      var most, last := after[..|after| - 1], after[|after| - 1];
      && Roomy(joined, addr, most)
      && (last.Dispatch? ==>
            var w := Run(joined + most);
            addr in w.subs ==>
              var s := w.subs[addr];
              |s.queue| + |Offer(s, w.slots, last.pkt)| <= Cap(s.size))
  }

  predicate Stays(addr: string, es: seq<Event>) {
    forall i :: 0 <= i < |es| ==> es[i] != Leave(addr) && es[i] != Stop(addr)
  }

  lemma {:induction false} Present(joined: seq<Event>, addr: string, after: seq<Event>)
    requires addr in Run(joined).subs && Stays(addr, after)
    ensures addr in Run(joined + after).subs
    decreases |after|
  {
    if after == [] {
      assert joined + after == joined;
    } else {
      RunSnoc(joined, after);
      Present(joined, addr, after[..|after| - 1]);
    }
  }

  lemma RunSnoc(joined: seq<Event>, after: seq<Event>)
    requires after != []
    ensures Run(joined + after) == Next(Run(joined + after[..|after| - 1]), after[|after| - 1])
  {
    hide Next;
    assert (joined + after)[..|joined + after| - 1] == joined + after[..|after| - 1];
  }

  lemma {:induction false} SlotsFiled(es: seq<Event>)
    ensures Run(es).slots == FiledAll(Cached(es))
  {
    hide Run, FiledAll, Filed, Next;
    if es == [] {
      NothingFiled();
    } else {
      var most, e := es[..|es| - 1], es[|es| - 1];
      SlotsFiled(most);
      RunSnoc([], es);
      assert [] + es == es && [] + most == most;
      SlotsStep(Run(most), e);
      if e.CachePacket? {
        FiledSnoc(Cached(most), e.pkt);
      } else {
        assert Cached(most) + [] == Cached(most);
      }
    }
  }

  lemma NothingFiled()
    ensures Run([]).slots == FiledAll([])
  {
  }

  lemma FiledSnoc(c: seq<Packet>, p: Packet)
    ensures FiledAll(c + [p]) == Filed(FiledAll(c), p)
  {
    assert (c + [p])[..|c|] == c;
  }

  lemma SlotsStep(w: World, e: Event)
    requires Bounded(w)
    ensures Next(w, e).slots == if e.CachePacket? then Filed(w.slots, e.pkt) else w.slots
  {
    hide Filed;
  }

  lemma {:induction false} CachedSplit(a: seq<Event>, b: seq<Event>)
    ensures Cached(a + b) == Cached(a) + Cached(b)
    decreases |b|
  {
    if b == [] {
      assert a + b == a;
    } else {
      assert (a + b)[..|a + b| - 1] == a + b[..|b| - 1];
      CachedSplit(a, b[..|b| - 1]);
    }
  }

  // Everything offered is queued in order, or else something is lost.
  lemma {:induction false} QueuedExactly(q: seq<Packet>, size: int, ps: seq<Packet>)
    requires |q| <= Cap(size)
    ensures
      if |q| + |ps| <= Cap(size) then WrittenAll(q, size, ps) == q + ps
      else |WrittenAll(q, size, ps)| < |q| + |ps|
    decreases |ps|
  {
    if ps == [] {
    } else {
      QueuedExactly(q, size, ps[..|ps| - 1]);
      assert ps == ps[..|ps| - 1] + [ps[|ps| - 1]];
    }
  }

  // How much of what was due a subscriber got: all of it, or not all.
  predicate Got(s: Sub, due: seq<Packet>, all: bool) {
    if all then s.received + s.queue == due else |s.received| + |s.queue| < |due|
  }

  lemma DispatchGot(s: Sub, slots: Slots, pkt: Packet, due: seq<Packet>, all: bool)
    requires |s.queue| <= Cap(s.size) && Got(s, due, all)
    ensures
      var offer := Offer(s, slots, pkt);
      Got(DispatchOne(s, slots, pkt), due + offer, all && |s.queue| + |offer| <= Cap(s.size))
  {
    QueuedExactly(s.queue, s.size, Offer(s, slots, pkt));
  }

  lemma ReceiveGot(s: Sub, due: seq<Packet>, all: bool)
    requires Got(s, due, all)
    ensures Got(ReceiveOne(s), due, all)
    ensures ReceiveOne(s) == s.(queue := ReceiveOne(s).queue, received := ReceiveOne(s).received)
  {
    if s.queue != [] {
      assert s.received + s.queue == s.received + [s.queue[0]] + s.queue[1..];
    }
  }

  // What is due grows by what is offered.
  lemma DueGrows(before: seq<Event>, most: seq<Event>, e: Event)
    ensures
      Due(before, most + [e]) ==
        if !e.Dispatch? then Due(before, most)
        else if Dispatched(most) != [] then Due(before, most) + [e.pkt]
        else Due(before, most) + (Snapshot(FiledAll(Cached(before) + Cached(most))) + [e.pkt])
  {
    var after := most + [e];
    assert after[..|after| - 1] == most;
    SlotsAreLatest(Cached(before) + Cached(Lead(after)));
    SlotsAreLatest(Cached(before) + Cached(Lead(most)));
  }

  // Main result.  Over every run in which addr joins, and neither leaves nor
  // fails afterwards, what it has received together with what is still queued
  // is exactly the snapshot as of its first dispatched packet and every packet
  // dispatched since it joined, if and only if no dispatch found too little
  // room in its queue.
  lemma LateJoiner(before: seq<Event>, addr: string, size: nat, after: seq<Event>)
    requires addr !in Run(before).subs && Stays(addr, after)
    ensures addr in Run(before + [Join(addr, size)]).subs && addr in Run(before + [Join(addr, size)] + after).subs
    ensures
      var s := Run(before + [Join(addr, size)] + after).subs[addr];
      && !s.stopped && s.size == size && s.init == (Dispatched(after) != [])
      && (s.received + s.queue == Due(before, after) <==> Roomy(before + [Join(addr, size)], addr, after))
  {
    JoinedFresh(before, addr, size);
    JoinerGot(before, addr, size, after);
  }

  lemma JoinedFresh(before: seq<Event>, addr: string, size: nat)
    requires addr !in Run(before).subs
    ensures
      var w := Run(before + [Join(addr, size)]);
      addr in w.subs && w.subs[addr] == Sub([], [], size, false, false)
  {
    RunSnoc(before, [Join(addr, size)]);
    assert before + [] == before;
  }

  lemma {:induction false} JoinerGot(before: seq<Event>, addr: string, size: nat, after: seq<Event>)
    requires addr !in Run(before).subs && Stays(addr, after) && addr in Run(before + [Join(addr, size)]).subs
    ensures addr in Run(before + [Join(addr, size)] + after).subs
    ensures
      var s := Run(before + [Join(addr, size)] + after).subs[addr];
      && !s.stopped && s.size == size && s.init == (Dispatched(after) != [])
      && Got(s, Due(before, after), Roomy(before + [Join(addr, size)], addr, after))
    decreases |after|
  {
    hide Next, Offer, DispatchOne, ReceiveOne, Got, Due, Cap, Run;
    var joined := before + [Join(addr, size)];
    Present(joined, addr, after);
    if after == [] {
      assert joined + after == joined;
      JoinedFresh(before, addr, size);
      DueNone(before, Run(joined).subs[addr]);
    } else {
      var most, e := after[..|after| - 1], after[|after| - 1];
      assert after == most + [e];
      JoinerGot(before, addr, size, most);
      RunSnoc(joined, after);
      var w := Run(joined + most);
      var s, all := w.subs[addr], Roomy(joined, addr, most);
      OneStep(w, addr, e);
      if !e.Dispatch? {
        DueGrows(before, most, e);
      }
      match e {
        case Dispatch(p) =>
          SlotsAt(before, Join(addr, size), most);
          DispatchDue(before, most, s, w.slots, p, all);
        case Receive(_) => ReceiveGot(s, Due(before, most), all);
        case _ =>
      }
    }
  }

  lemma SlotsAt(before: seq<Event>, join: Event, most: seq<Event>)
    requires join.Join?
    ensures Run(before + [join] + most).slots == FiledAll(Cached(before) + Cached(most))
  {
    hide Run, FiledAll;
    SlotsFiled(before + [join] + most);
    CachedSplit(before + [join], most);
    CachedSplit(before, [join]);
    assert Cached([join]) == [] && Cached(before) + [] == Cached(before);
  }

  lemma DispatchDue(before: seq<Event>, most: seq<Event>, s: Sub, slots: Slots, p: Packet, all: bool)
    requires |s.queue| <= Cap(s.size) && !s.stopped && s.init == (Dispatched(most) != [])
    requires slots == FiledAll(Cached(before) + Cached(most)) && Got(s, Due(before, most), all)
    ensures
      var t := DispatchOne(s, slots, p);
      && t == s.(queue := t.queue, init := true)
      && Got(t, Due(before, most + [Dispatch(p)]), all && |s.queue| + |Offer(s, slots, p)| <= Cap(s.size))
  {
    hide Got, Due, FiledAll, Snapshot, Cap;
    DispatchGot(s, slots, p, Due(before, most), all);
    DueGrows(before, most, Dispatch(p));
    assert [] + [p] == [p];
  }

  lemma DueNone(before: seq<Event>, s: Sub)
    requires s.queue == s.received == []
    ensures Got(s, Due(before, []), true)
  {
  }

  // What an event that neither removes nor stops addr does to it.
  lemma OneStep(w: World, addr: string, e: Event)
    requires Bounded(w) && addr in w.subs && e != Leave(addr) && e != Stop(addr)
    ensures addr in Next(w, e).subs
    ensures
      var s, t := w.subs[addr], Next(w, e).subs[addr];
      match e
      case Dispatch(p) => t == DispatchOne(s, w.slots, p)
      case Receive(a) => t == if a == addr then ReceiveOne(s) else s
      case _ => t == s
  {
    hide DispatchOne, ReceiveOne, Cap;
  }

  // The packets the cache keeps.
  predicate IsHeader(p: Packet) {
    IsMeta(p) || IsVideoHeader(p) || IsAudioHeader(p)
  }

  // The first packet dispatched to a subscriber is due to it once, or twice if
  // and only if it is a header, since it was cached just before.
  lemma FirstHeaderTwice(before: seq<Event>, most: seq<Event>, p: Packet)
    requires Dispatched(most) == []
    ensures multiset(Due(before, most + [CachePacket(p), Dispatch(p)]))[p] == if IsHeader(p) then 2 else 1
  {
    hide Due, Latest, Dispatched, FiledAll, Filed, Snapshot;
    var led := most + [CachePacket(p)];
    assert led + [Dispatch(p)] == most + [CachePacket(p), Dispatch(p)];
    DueGrows(before, led, Dispatch(p));
    NotYet(most, CachePacket(p));
    NothingDue(before, led);
    CachedSplit(most, [CachePacket(p)]);
    CachedOne(p);
    var c := Cached(before) + Cached(most);
    assert Cached(before) + Cached(led) == c + [p];
    SnapshotHolds(c, p);
  }

  lemma NothingDue(before: seq<Event>, most: seq<Event>)
    requires Dispatched(most) == []
    ensures Due(before, most) == []
  {
  }

  lemma CachedOne(p: Packet)
    ensures Cached([CachePacket(p)]) == [p]
  {
    assert [CachePacket(p)][..0] == [];
  }

  // The snapshot holds headers only, and one just cached exactly once.
  lemma SnapshotHolds(c: seq<Packet>, p: Packet)
    ensures multiset(Snapshot(FiledAll(c + [p])))[p] == if IsHeader(p) then 1 else 0
  {
    hide IsMeta, IsVideoHeader, IsAudioHeader;
    SlotsAreLatest(c + [p]);
    LatestOf(c + [p], IsMeta);
    LatestOf(c + [p], IsVideoHeader);
    LatestOf(c + [p], IsAudioHeader);
    KindsApart(p);
  }

  lemma KindsApart(p: Packet)
    ensures !(IsMeta(p) && IsVideoHeader(p)) && !(IsMeta(p) && IsAudioHeader(p))
    ensures !(IsVideoHeader(p) && IsAudioHeader(p))
  {
  }

  lemma {:induction false} LatestOf(c: seq<Packet>, kind: Packet -> bool)
    ensures Latest(c, kind).Some? ==> kind(Latest(c, kind).value)
    ensures c != [] && kind(c[|c| - 1]) ==> Latest(c, kind) == Some(c[|c| - 1])
  {
    if c != [] {
      LatestOf(c[..|c| - 1], kind);
    }
  }

  lemma NotYet(most: seq<Event>, e: Event)
    requires Dispatched(most) == [] && !e.Dispatch?
    ensures Dispatched(most + [e]) == []
  {
    assert (most + [e])[..|most|] == most;
  }

  // What a joiner is due, place by place: the latest metadata, video header and
  // audio header of its first dispatch, in this order, and then every packet.
  lemma DueInOrder(before: seq<Event>, after: seq<Event>)
    requires Dispatched(after) != []
    ensures
      var due, c := Due(before, after), Cached(before) + Cached(Lead(after));
      var x, y, z := Latest(c, IsMeta), Latest(c, IsVideoHeader), Latest(c, IsAudioHeader);
      var m, v, a := if x.Some? then 1 else 0, if y.Some? then 1 else 0, if z.Some? then 1 else 0;
      && |due| == m + v + a + |Dispatched(after)| && due[m + v + a..] == Dispatched(after)
      && (x.Some? ==> due[0] == x.value)
      && (y.Some? ==> due[m] == y.value)
      && (z.Some? ==> due[m + v] == z.value)
  {
    hide Latest, Cached, Lead, Dispatched, Snapshot;
    var c := Cached(before) + Cached(Lead(after));
    SnapshotOrder(Slots(Latest(c, IsMeta), Latest(c, IsVideoHeader), Latest(c, IsAudioHeader)));
  }

  // A subscriber that has stopped is handed nothing more, and nothing it has is
  // taken from it, until it leaves.
  lemma {:induction false} StoppedGetsNothing(es: seq<Event>, addr: string, more: seq<Event>)
    requires addr in Run(es).subs && Run(es).subs[addr].stopped
    requires forall i :: 0 <= i < |more| ==> more[i] != Leave(addr)
    ensures addr in Run(es + more).subs
    ensures
      var s, t := Run(es).subs[addr], Run(es + more).subs[addr];
      t.stopped && t.received + t.queue == s.received + s.queue
    decreases |more|
  {
    hide Next, Run;
    if more == [] {
      assert es + more == es;
    } else {
      RunSnoc(es, more);
      StoppedGetsNothing(es, addr, more[..|more| - 1]);
      StoppedStep(Run(es + more[..|more| - 1]), addr, more[|more| - 1]);
    }
  }

  lemma StoppedStep(w: World, addr: string, e: Event)
    requires Bounded(w) && addr in w.subs && w.subs[addr].stopped && e != Leave(addr)
    ensures addr in Next(w, e).subs
    ensures
      var s, t := w.subs[addr], Next(w, e).subs[addr];
      t.stopped && t.received + t.queue == s.received + s.queue
  {
    hide Filed, Cap;
    var s := w.subs[addr];
    if e.Dispatch? {
      StoppedOffer(s, w.slots, e.pkt);
    } else if s.queue != [] {
      assert s.received + s.queue == s.received + [s.queue[0]] + s.queue[1..];
    }
  }

  lemma StoppedOffer(s: Sub, slots: Slots, pkt: Packet)
    requires s.stopped && |s.queue| <= Cap(s.size)
    ensures DispatchOne(s, slots, pkt) == s
  {
    assert WrittenAll(s.queue, s.size, []) == s.queue;
  }

  // One that leaves is gone, and joins again as a new one.
  lemma LeaveThenJoin(es: seq<Event>, addr: string, size: nat)
    ensures
      var w, t := Run(es), Run(es + [Leave(addr)] + [Join(addr, size)]);
      t.subs == w.subs[addr := Sub([], [], size, false, false)] && t.slots == w.slots
  {
    hide Run;
    RunSnoc(es, [Leave(addr)]);
    RunSnoc(es + [Leave(addr)], [Join(addr, size)]);
    assert es + [] == es && es + [Leave(addr)] + [] == es + [Leave(addr)];
  }
}
