// A stream's dispatches when receives come between any two operations on any
// subscriber's queue (pkg/rtmp/streamSource.go, pkg/rtmp/subscriber.go).  The
// dispatcher holds the lock until it has served everyone, so that one queue it
// waits at holds up all the others.
module DispatchSchedule {
  import opened AvPackets
  import opened SubscriberQueue
  import Q = QueueSchedule
  import D = StreamDispatch

  // overflowed tells whether a write has ever found the queue full.
  datatype Client = Client(size: int, q: Q.State, init: bool, stopped: bool, overflowed: bool)

  // Where the dispatcher is: waiting for a packet, between two subscribers, or
  // writing to one of them, with more to write to it after that.
  datatype Place =
    | Idle
    | Serving(pkt: Packet, rest: set<string>)
    | Writing(pkt: Packet, rest: set<string>, addr: string, todo: seq<Packet>)

  // log holds the events that have happened, a dispatch where it begins.
  datatype System = System(slots: Slots, clients: map<string, Client>, at: Place, log: seq<D.Event>)

  const START := System(NO_SLOTS, map[], Idle, [])

  // Work is one step of the dispatcher; addr says whom it takes next.
  datatype Act = Do(event: D.Event) | Work(addr: string)

  function Offered(c: Client, slots: Slots, pkt: Packet): (ps: seq<Packet>)
    ensures |ps| <= 4
  {
    (if c.init then [] else Snapshot(slots)) + [pkt]
  }

  // A subscriber stops and receives by itself.  Publishing is the dispatcher's
  // own business, and joining and leaving take the lock.
  predicate ByItself(e: D.Event) {
    e.Stop? || e.Receive?
  }

  function Happens(s: System, e: D.Event): System {
    match e
    case CachePacket(p) => s.(slots := Filed(s.slots, p))
    case Dispatch(p) => s.(at := Serving(p, s.clients.Keys))
    case Join(a, size) =>
      if a in s.clients then s else s.(clients := s.clients[a := Client(size, Q.START, false, false, false)])
    case Leave(a) => s.(clients := s.clients - {a})
    case Stop(a) => if a in s.clients then s.(clients := s.clients[a := s.clients[a].(stopped := true)]) else s
    case Receive(a) => if a in s.clients then s.(clients := s.clients[a := Moved(s.clients[a], Q.Consume)]) else s
  }

  function Moved(c: Client, a: Q.Act): Client {
    var q := Q.Next(c.size, c.q, a);
    c.(q := q, overflowed := c.overflowed || (c.q.pc.Write? && q.pc.Drop?))
  }

  function Worked(s: System, a: string): System {
    match s.at
    case Idle => s
    case Serving(p, rest) =>
      if rest == {} then s.(at := Idle)
      else if a !in rest || a !in s.clients then s
      else
        var c := s.clients[a];
        if c.stopped then s.(at := Serving(p, rest - {a}))
        else s.(at := Writing(p, rest - {a}, a, Offered(c, s.slots, p)), clients := s.clients[a := c.(init := true)])
    case Writing(p, rest, b, todo) =>
      if b !in s.clients then s
      else
        var c := s.clients[b];
        if !c.q.pc.Idle? then s.(clients := s.clients[b := Moved(c, Q.Produce)])
        else if todo == [] then s.(at := Serving(p, rest))
        else s.(at := Writing(p, rest, b, todo[1..]), clients := s.clients[b := Moved(c, Q.Begin(todo[0]))])
  }

  // Any scheduling: what cannot happen now changes nothing.
  function Next(s: System, act: Act): System {
    match act
    case Do(e) => if s.at.Idle? || ByItself(e) then Happens(s, e).(log := s.log + [e]) else s
    case Work(a) => Worked(s, a)
  }

  function RunFrom(s: System, acts: seq<Act>): System {
    if acts == [] then s else Next(RunFrom(s, acts[..|acts| - 1]), acts[|acts| - 1])
  }

  // ------------------------------------------------ each queue, as on its own

  // The queue of a client is one that the producer and consumer of
  // QueueSchedule, by themselves, get to.
  ghost predicate Reached(size: int, q: Q.State) {
    exists acts :: q == Q.Run(size, acts)
  }

  lemma ReachedNext(size: int, q: Q.State, a: Q.Act)
    requires Reached(size, q)
    ensures Reached(size, Q.Next(size, q, a))
  {
    hide Q.Next;
    var acts :| q == Q.Run(size, acts);
    Q.RunNext(size, acts, a);
  }

  lemma ReachedSafe(size: int, q: Q.State)
    requires Reached(size, q)
    ensures Q.Inv(size, q) && Q.Accounted(q) && Q.Margin(size, q)
    ensures Q.Waiting(size, q) ==> q.pc.Drop? && q.drained >= 62
  {
    hide Q.Inv, Q.Accounted, Q.Margin, Q.Waiting;
    var acts :| q == Q.Run(size, acts);
    Q.SafeUnderAnySchedule(size, acts);
  }

  // Only the client being written to has a write under way.
  ghost predicate ClientOk(s: System, a: string)
    requires a in s.clients
  {
    var c := s.clients[a];
    Reached(c.size, c.q) && (c.q.pc.Idle? || (s.at.Writing? && s.at.addr == a))
  }

  ghost predicate SystemOk(s: System) {
    && (forall a <- s.clients :: ClientOk(s, a))
    && s.slots == FiledAll(D.Cached(s.log))
    && match s.at
       case Idle => true
       case Serving(_, rest) => rest <= s.clients.Keys
       case Writing(_, rest, a, _) => rest <= s.clients.Keys && a in s.clients && a !in rest
  }

  lemma StartOk()
    ensures SystemOk(START)
  {
  }

  lemma ClientStarts(size: int)
    ensures Reached(size, Q.START)
  {
    assert Q.Run(size, []) == Q.START;
  }

  lemma NextOk(s: System, act: Act)
    requires SystemOk(s)
    ensures SystemOk(Next(s, act))
  {
    hide SystemOk, Happens, Worked;
    match act
    case Do(e) => if s.at.Idle? || ByItself(e) { HappensOk(s, e); }
    case Work(a) => WorkedOk(s, a);
  }

  lemma HappensOk(s: System, e: D.Event)
    requires SystemOk(s) && (s.at.Idle? || ByItself(e))
    ensures SystemOk(Happens(s, e).(log := s.log + [e]))
  {
    hide Reached, FiledAll, Filed, Moved;
    LogFiled(s, e);
    var t := Happens(s, e).(log := s.log + [e]);
    forall a | a in t.clients
      ensures ClientOk(t, a)
    {
      if a in s.clients {
        assert ClientOk(s, a);
        MovedOk(s, a, Q.Consume);
      } else {
        ClientStarts(t.clients[a].size);
      }
    }
  }

  lemma WorkedOk(s: System, addr: string)
    requires SystemOk(s)
    ensures SystemOk(Worked(s, addr))
  {
    hide Reached, FiledAll, Filed, Moved;
    var t := Worked(s, addr);
    forall a | a in t.clients
      ensures ClientOk(t, a)
    {
      assert ClientOk(s, a);
      MovedOk(s, a, Q.Produce);
      if s.at.Writing? && s.at.todo != [] {
        MovedOk(s, a, Q.Begin(s.at.todo[0]));
      }
    }
  }

  lemma MovedOk(s: System, a: string, act: Q.Act)
    requires SystemOk(s) && a in s.clients
    ensures var c := s.clients[a]; Reached(c.size, Moved(c, act).q)
    ensures
      var c, d := s.clients[a], Moved(s.clients[a], act);
      d == c.(q := d.q, overflowed := d.overflowed) && (act == Q.Consume ==> d.q.pc == c.q.pc)
  {
    hide Reached;
    assert ClientOk(s, a);
    ReachedNext(s.clients[a].size, s.clients[a].q, act);
  }

  lemma LogFiled(s: System, e: D.Event)
    requires s.slots == FiledAll(D.Cached(s.log))
    ensures Happens(s, e).slots == FiledAll(D.Cached(s.log + [e]))
  {
    hide Filed, FiledAll;
    assert (s.log + [e])[..|s.log|] == s.log;
    if e.CachePacket? {
      D.FiledSnoc(D.Cached(s.log), e.pkt);
    } else {
      assert D.Cached(s.log) + [] == D.Cached(s.log);
    }
  }

  lemma {:induction false} RunOk(s: System, acts: seq<Act>)
    requires SystemOk(s)
    ensures SystemOk(RunFrom(s, acts))
    decreases |acts|
  {
    hide SystemOk, Next;
    if acts != [] {
      RunOk(s, acts[..|acts| - 1]);
      NextOk(RunFrom(s, acts[..|acts| - 1]), acts[|acts| - 1]);
    }
  }

  // Under every schedule of the dispatcher and all subscribers, each queue is
  // as safe as by itself.
  lemma EveryQueueIsSafe(acts: seq<Act>, addr: string)
    ensures
      var s := RunFrom(START, acts);
      addr in s.clients ==>
        var c := s.clients[addr];
        && |c.q.q| <= Cap(c.size) && Q.Accounted(c.q)
        && (Q.Waiting(c.size, c.q) ==> c.q.pc.Drop? && c.q.drained >= 62)
  {
    hide Next, Reached, Q.Accounted, Q.Waiting;
    StartOk();
    RunOk(START, acts);
    var s := RunFrom(START, acts);
    if addr in s.clients {
      assert ClientOk(s, addr);
      ReachedSafe(s.clients[addr].size, s.clients[addr].q);
    }
  }

  // ------------------------------------------------------------- late joiners

  // What the producer has in hand for one queue.
  function InHand(pc: Q.Pc): (ps: seq<Packet>)
    ensures |ps| <= 1
  {
    match pc
    case Write(p) => [p]
    case Send(p) => [p]
    case Audio(_, p) => [p]
    case AudioSend(_, p) => [p]
    case VideoSend(_, p) => [p]
    case _ => []
  }

  // What the dispatch under way will still write to addr, after that.
  function Pending(s: System, addr: string): seq<Packet>
    requires addr in s.clients
  {
    match s.at
    case Idle => []
    case Serving(p, rest) => if addr in rest then Offered(s.clients[addr], s.slots, p) else []
    case Writing(p, rest, a, todo) =>
      if addr == a then todo else if addr in rest then Offered(s.clients[addr], s.slots, p) else []
  }

  predicate InLine(pc: Q.Pc) {
    pc.Idle? || pc.Write? || pc.Send?
  }

  // What is received, queued, in hand and pending is what is due, or less once
  // the queue has overflowed.
  predicate Accounts(c: Client, pending: seq<Packet>, due: seq<Packet>) {
    if c.overflowed then |c.q.received| + |c.q.q| + |InHand(c.q.pc)| + |pending| < |due|
    else InLine(c.q.pc) && c.q.received + c.q.q + InHand(c.q.pc) + pending == due
  }

  predicate InRest(at: Place, addr: string) {
    !at.Idle? && addr in at.rest
  }

  // addr joined after before, and after has happened since.
  predicate Tracks(s: System, addr: string, before: seq<D.Event>, after: seq<D.Event>) {
    && addr in s.clients
    && var c := s.clients[addr];
       && !c.stopped
       && (if InRest(s.at, addr) then D.Dispatched(after) != [] else c.init == (D.Dispatched(after) != []))
       && Accounts(c, Pending(s, addr), D.Due(before, after))
  }

  // One step of the producer neither loses nor reorders anything, unless it
  // finds the queue full; from then on nothing is made up.
  lemma ProduceAccounts(size: int, q: Q.State)
    requires Q.Inv(size, q) && !q.pc.Idle?
    ensures
      var t := Q.Next(size, q, Q.Produce);
      && t.received == q.received && |t.q| + |InHand(t.pc)| <= |q.q| + |InHand(q.pc)|
      && (InLine(q.pc) ==>
            if q.pc.Write? && t.pc.Drop? then |t.q| + |InHand(t.pc)| < |q.q| + |InHand(q.pc)|
            else InLine(t.pc) && !t.pc.Drop? && t.q + InHand(t.pc) == q.q + InHand(q.pc))
      && (q.pc.Write? && t.pc.Drop? ==> InLine(q.pc))
  {
  }

  lemma ProduceKeeps(c: Client, pending: seq<Packet>, due: seq<Packet>)
    requires Q.Inv(c.size, c.q) && !c.q.pc.Idle? && Accounts(c, pending, due)
    ensures Accounts(Moved(c, Q.Produce), pending, due)
  {
    hide Q.Inv, Q.Next;
    ProduceAccounts(c.size, c.q);
    var t := Q.Next(c.size, c.q, Q.Produce);
    assert c.q.received + c.q.q + InHand(c.q.pc) + pending == c.q.received + (c.q.q + InHand(c.q.pc)) + pending;
    assert c.q.received + t.q + InHand(t.pc) + pending == c.q.received + (t.q + InHand(t.pc)) + pending;
  }

  lemma BeginKeeps(c: Client, pending: seq<Packet>, due: seq<Packet>)
    requires c.q.pc.Idle? && pending != [] && Accounts(c, pending, due)
    ensures Accounts(Moved(c, Q.Begin(pending[0])), pending[1..], due)
  {
    assert pending == [pending[0]] + pending[1..];
  }

  lemma ConsumeKeeps(c: Client, pending: seq<Packet>, due: seq<Packet>)
    requires Accounts(c, pending, due)
    ensures Accounts(Moved(c, Q.Consume), pending, due)
  {
    if c.q.q != [] {
      assert c.q.received + c.q.q == c.q.received + [c.q.q[0]] + c.q.q[1..];
    }
  }

  lemma WorkTracks(s: System, addr: string, before: seq<D.Event>, after: seq<D.Event>, a: string)
    requires SystemOk(s) && Tracks(s, addr, before, after)
    ensures Tracks(Worked(s, a), addr, before, after)
  {
    hide Accounts, Moved, D.Due, D.Dispatched, Snapshot, FiledAll, Reached, InLine;
    var c := s.clients[addr];
    assert ClientOk(s, addr);
    if s.at.Writing? && s.at.addr == addr {
      MovedSame(c, Q.Produce);
      ReachedSafe(c.size, c.q);
      if !c.q.pc.Idle? {
        ProduceKeeps(c, s.at.todo, D.Due(before, after));
      } else if s.at.todo != [] {
        MovedSame(c, Q.Begin(s.at.todo[0]));
        BeginKeeps(c, s.at.todo, D.Due(before, after));
      }
    } else if s.at.Serving? && a == addr {
      InitKeeps(c, Pending(s, addr), D.Due(before, after));
    }
  }

  lemma MovedSame(c: Client, act: Q.Act)
    ensures var d := Moved(c, act); d == c.(q := d.q, overflowed := d.overflowed)
  {
  }

  lemma InitKeeps(c: Client, pending: seq<Packet>, due: seq<Packet>)
    requires Accounts(c, pending, due)
    ensures Accounts(c.(init := true), pending, due)
  {
  }

  // A dispatch begins: what is due grows by what it will offer.
  lemma DispatchTracks(s: System, addr: string, before: seq<D.Event>, join: D.Event, after: seq<D.Event>, p: Packet)
    requires SystemOk(s) && s.at.Idle? && Tracks(s, addr, before, after)
    requires join.Join? && s.log == before + [join] + after
    ensures Tracks(Happens(s, D.Dispatch(p)), addr, before, after + [D.Dispatch(p)])
  {
    hide Accounts, D.Due, D.Dispatched, Snapshot, FiledAll, Reached, D.Cached;
    var c := s.clients[addr];
    assert ClientOk(s, addr);
    D.DueGrows(before, after, D.Dispatch(p));
    D.CachedSplit(before + [join], after);
    D.CachedSplit(before, [join]);
    CachedJoin(join);
    assert D.Cached(before) + [] == D.Cached(before);
    var offer := Offered(c, s.slots, p);
    assert [] + [p] == [p];
    assert D.Due(before, after + [D.Dispatch(p)]) == D.Due(before, after) + offer;
    GrowsBy(c, offer, D.Due(before, after));
    DispatchedMore(after, p);
  }

  lemma CachedJoin(join: D.Event)
    requires join.Join?
    ensures D.Cached([join]) == []
  {
    assert [join][..0] == [];
  }

  lemma DispatchedMore(after: seq<D.Event>, p: Packet)
    ensures D.Dispatched(after + [D.Dispatch(p)]) != []
  {
  }

  lemma GrowsBy(c: Client, offer: seq<Packet>, due: seq<Packet>)
    requires c.q.pc.Idle? && Accounts(c, [], due)
    ensures Accounts(c, offer, due + offer)
  {
  }

  // Any other event: nothing more is due.
  lemma OtherTracks(s: System, addr: string, before: seq<D.Event>, after: seq<D.Event>, e: D.Event)
    requires SystemOk(s) && Tracks(s, addr, before, after) && (s.at.Idle? || ByItself(e))
    requires !e.Dispatch? && e != D.Leave(addr) && e != D.Stop(addr)
    ensures Tracks(Happens(s, e), addr, before, after + [e])
  {
    hide Accounts, Moved, D.Due, D.Dispatched, Snapshot, FiledAll, Filed, Reached;
    var c := s.clients[addr];
    D.DueGrows(before, after, e);
    NoDispatch(after, e);
    if e == D.Receive(addr) {
      assert ClientOk(s, addr);
      MovedSame(c, Q.Consume);
      MovedOk(s, addr, Q.Consume);
      ConsumeKeeps(c, Pending(s, addr), D.Due(before, after));
    }
  }

  lemma NoDispatch(after: seq<D.Event>, e: D.Event)
    requires !e.Dispatch?
    ensures D.Dispatched(after + [e]) == D.Dispatched(after)
  {
    assert (after + [e])[..|after|] == after;
  }

  lemma StepTracks(s: System, addr: string, before: seq<D.Event>, join: D.Event, after: seq<D.Event>, act: Act)
    requires SystemOk(s) && Tracks(s, addr, before, after) && join.Join? && s.log == before + [join] + after
    requires act != Do(D.Leave(addr)) || !s.at.Idle?
    requires act != Do(D.Stop(addr))
    ensures
      var t := Next(s, act);
      t.log == before + [join] + Since(t, before) && Tracks(t, addr, before, Since(t, before))
  {
    hide Tracks, SystemOk, Happens, Worked;
    assert after == Since(s, before);
    match act
    case Do(e) =>
      if s.at.Idle? || ByItself(e) {
        assert s.log + [e] == before + [join] + (after + [e]);
        assert (s.log + [e])[|before| + 1..] == after + [e];
        if e.Dispatch? {
          DispatchTracks(s, addr, before, join, after, e.pkt);
        } else {
          OtherTracks(s, addr, before, after, e);
        }
        LogApart(Happens(s, e), s.log + [e], addr, before, after + [e]);
      }
    case Work(a) =>
      WorkTracks(s, addr, before, after, a);
      WorkLog(s, a);
  }

  lemma LogApart(s: System, log: seq<D.Event>, addr: string, before: seq<D.Event>, after: seq<D.Event>)
    requires Tracks(s, addr, before, after)
    ensures Tracks(s.(log := log), addr, before, after)
  {
    hide Accounts, D.Due, D.Dispatched, Offered;
  }

  lemma WorkLog(s: System, a: string)
    ensures Worked(s, a).log == s.log
  {
  }

  // The events after the first of before and one more.
  function Since(s: System, before: seq<D.Event>): seq<D.Event> {
    if |s.log| > |before| then s.log[|before| + 1..] else []
  }

  lemma {:induction false} RunTracks(s: System, addr: string, before: seq<D.Event>, join: D.Event, acts: seq<Act>)
    requires SystemOk(s) && Tracks(s, addr, before, []) && join.Join? && s.log == before + [join]
    requires D.Stays(addr, Since(RunFrom(s, acts), before))
    ensures
      var t := RunFrom(s, acts);
      SystemOk(t) && t.log == before + [join] + Since(t, before) && Tracks(t, addr, before, Since(t, before))
    decreases |acts|
  {
    hide Tracks, SystemOk, Happens, Worked;
    if acts == [] {
      assert s.log == before + [join] + [];
    } else {
      var t, act := RunFrom(s, acts[..|acts| - 1]), acts[|acts| - 1];
      LogGrows(t, act);
      LogAtLeast(s, acts[..|acts| - 1]);
      assert Since(t, before) <= Since(Next(t, act), before);
      RunTracks(s, addr, before, join, acts[..|acts| - 1]);
      if act == Do(D.Stop(addr)) || (act == Do(D.Leave(addr)) && t.at.Idle?) {
        LastSince(t, before, act);
      }
      NextOk(t, act);
      StepTracks(t, addr, before, join, Since(t, before), act);
    }
  }

  lemma LogGrows(s: System, act: Act)
    ensures s.log <= Next(s, act).log
  {
    if act.Work? { WorkLog(s, act.addr); }
  }

  lemma {:induction false} LogAtLeast(s: System, acts: seq<Act>)
    ensures s.log <= RunFrom(s, acts).log
    decreases |acts|
  {
    hide Next;
    if acts != [] {
      LogAtLeast(s, acts[..|acts| - 1]);
      LogGrows(RunFrom(s, acts[..|acts| - 1]), acts[|acts| - 1]);
    }
  }

  // What happens is in the log.
  lemma LastSince(s: System, before: seq<D.Event>, act: Act)
    requires act.Do? && (s.at.Idle? || ByItself(act.event)) && |s.log| > |before|
    ensures var es := Since(Next(s, act), before); es != [] && es[|es| - 1] == act.event
  {
  }

  lemma JoinTracks(s: System, addr: string, size: nat)
    requires SystemOk(s) && s.at.Idle? && addr !in s.clients
    ensures
      var t := Next(s, Do(D.Join(addr, size)));
      t.log == s.log + [D.Join(addr, size)] && Tracks(t, addr, s.log, [])
  {
    hide Reached, FiledAll;
    D.NothingDue(s.log, []);
  }

  // Main result.  Under every schedule of the dispatcher and all subscribers,
  // what a subscriber that joined and stayed has received, what is queued for
  // it, and what is on its way is exactly what is due to it, unless a write
  // found its queue full; then, and only then, it is less.  Between two
  // dispatches nothing is on its way.
  lemma LateJoinerUnderAnySchedule(before: seq<Act>, addr: string, size: nat, acts: seq<Act>)
    requires var s := RunFrom(START, before); s.at.Idle? && addr !in s.clients
    requires
      var s := RunFrom(START, before);
      D.Stays(addr, Since(RunFrom(Next(s, Do(D.Join(addr, size))), acts), s.log))
    ensures
      var s := RunFrom(START, before);
      var t := RunFrom(Next(s, Do(D.Join(addr, size))), acts);
      addr in t.clients &&
      var c, due := t.clients[addr], D.Due(s.log, Since(t, s.log));
      && (!c.overflowed ==> c.q.received + c.q.q <= due)
      && (t.at.Idle? ==> (c.q.received + c.q.q == due <==> !c.overflowed))
  {
    hide Next, D.Due, Reached, FiledAll, Offered;
    var s := RunFrom(START, before);
    StartOk();
    RunOk(START, before);
    JoinTracks(s, addr, size);
    NextOk(s, Do(D.Join(addr, size)));
    RunTracks(Next(s, Do(D.Join(addr, size))), addr, s.log, D.Join(addr, size), acts);
    var t := RunFrom(Next(s, Do(D.Join(addr, size))), acts);
    assert ClientOk(t, addr);
    GotOf(t.clients[addr], Pending(t, addr), D.Due(s.log, Since(t, s.log)));
  }

  lemma GotOf(c: Client, pending: seq<Packet>, due: seq<Packet>)
    requires Accounts(c, pending, due)
    ensures !c.overflowed ==> c.q.received + c.q.q <= due
    ensures pending == [] && c.q.pc.Idle? ==> (c.q.received + c.q.q == due <==> !c.overflowed)
  {
  }

  // --------------------------------------------------------------- isolation

  // What the publisher did.
  function Published(es: seq<D.Event>): seq<D.Event> {
    if es == [] then []
    else
      Published(es[..|es| - 1])
      + if es[|es| - 1].CachePacket? || es[|es| - 1].Dispatch? then [es[|es| - 1]] else []
  }

  lemma {:induction false} PublishedSame(es: seq<D.Event>)
    ensures D.Cached(Published(es)) == D.Cached(es) && D.Dispatched(Published(es)) == D.Dispatched(es)
    ensures D.Cached(D.Lead(Published(es))) == D.Cached(D.Lead(es))
  {
    if es != [] {
      var most, e := es[..|es| - 1], es[|es| - 1];
      PublishedSame(most);
      if e.CachePacket? || e.Dispatch? {
        assert (Published(most) + [e])[..|Published(most)|] == Published(most);
      } else {
        assert Published(most) + [] == Published(most);
      }
    }
  }

  lemma DueToPublisher(before: seq<D.Event>, after: seq<D.Event>)
    ensures D.Due(before, after) == D.Due(Published(before), Published(after))
  {
    PublishedSame(before);
    PublishedSame(after);
  }

  // So if the publisher does the same before and after a subscriber joins, then
  // between two dispatches that subscriber has been handed the same packets,
  // whoever the others are and whatever they do, as long as its own queue has
  // not overflowed.
  lemma Isolation(before1: seq<Act>, before2: seq<Act>, addr: string, size: nat, acts1: seq<Act>, acts2: seq<Act>)
    requires
      var s1, s2 := RunFrom(START, before1), RunFrom(START, before2);
      && s1.at.Idle? && s2.at.Idle? && addr !in s1.clients && addr !in s2.clients
      && Published(s1.log) == Published(s2.log)
    requires
      var s1, s2, join := RunFrom(START, before1), RunFrom(START, before2), Do(D.Join(addr, size));
      var t1, t2 := RunFrom(Next(s1, join), acts1), RunFrom(Next(s2, join), acts2);
      && t1.at.Idle? && t2.at.Idle? && D.Stays(addr, Since(t1, s1.log)) && D.Stays(addr, Since(t2, s2.log))
      && Published(Since(t1, s1.log)) == Published(Since(t2, s2.log))
    ensures
      var join := Do(D.Join(addr, size));
      var t1 := RunFrom(Next(RunFrom(START, before1), join), acts1);
      var t2 := RunFrom(Next(RunFrom(START, before2), join), acts2);
      addr in t1.clients && addr in t2.clients &&
      var c1, c2 := t1.clients[addr], t2.clients[addr];
      !c1.overflowed && !c2.overflowed ==> c1.q.received + c1.q.q == c2.q.received + c2.q.q
  {
    hide Next, D.Due, RunFrom, Published;
    var s1, s2, join := RunFrom(START, before1), RunFrom(START, before2), Do(D.Join(addr, size));
    var t1, t2 := RunFrom(Next(s1, join), acts1), RunFrom(Next(s2, join), acts2);
    LateJoinerUnderAnySchedule(before1, addr, size, acts1);
    LateJoinerUnderAnySchedule(before2, addr, size, acts2);
    DueToPublisher(s1.log, Since(t1, s1.log));
    DueToPublisher(s2.log, Since(t2, s2.log));
  }

  // ------------------------------------------------- when a dispatch never ends

  // The dispatcher waits at a queue.
  predicate Stuck(s: System) {
    s.at.Writing? && s.at.addr in s.clients && Q.Waiting(s.clients[s.at.addr].size, s.clients[s.at.addr].q)
  }

  lemma StuckAfter62(s: System)
    requires SystemOk(s) && Stuck(s)
    ensures
      var c := s.clients[s.at.addr];
      c.q.q == [] && c.q.pc.Drop? && c.q.drained >= 62 && c.size >= 85
  {
    hide Reached;
    assert ClientOk(s, s.at.addr);
    ReachedSafe(s.clients[s.at.addr].size, s.clients[s.at.addr].q);
  }

  lemma StuckStep(s: System, act: Act)
    requires SystemOk(s) && Stuck(s)
    ensures
      var t := Next(s, act);
      && Stuck(t) && t.at == s.at && t.clients.Keys == s.clients.Keys && t.slots == s.slots
      && forall a <- s.clients :: Handed(t.clients[a]) == Handed(s.clients[a])
  {
    hide Reached, Q.Margin, Q.Accounted;
    var a := s.at.addr;
    assert ClientOk(s, a);
    ReachedSafe(s.clients[a].size, s.clients[a].q);
    Q.StuckForEver(s.clients[a].size, s.clients[a].q, Q.Consume);
    Q.StuckForEver(s.clients[a].size, s.clients[a].q, Q.Produce);
    if act.Do? && act.event.Receive? && act.event.addr in s.clients {
      ConsumeHands(s.clients[act.event.addr]);
    }
  }

  function Handed(c: Client): seq<Packet> {
    c.q.received + c.q.q
  }

  lemma ConsumeHands(c: Client)
    ensures Handed(Moved(c, Q.Consume)) == Handed(c)
  {
    if c.q.q != [] {
      assert c.q.received + c.q.q == c.q.received + [c.q.q[0]] + c.q.q[1..];
    }
  }

  // Main result.  Once the dispatcher waits it waits for ever, with the lock:
  // nobody is handed another packet, joins or leaves.
  lemma {:induction false} StuckForEver(s: System, acts: seq<Act>)
    requires SystemOk(s) && Stuck(s)
    ensures
      var t := RunFrom(s, acts);
      && Stuck(t) && t.at == s.at && t.clients.Keys == s.clients.Keys && t.slots == s.slots
      && forall a <- s.clients :: Handed(t.clients[a]) == Handed(s.clients[a])
    decreases |acts|
  {
    hide Next, SystemOk, Stuck, Handed;
    if acts != [] {
      StuckForEver(s, acts[..|acts| - 1]);
      RunOk(s, acts[..|acts| - 1]);
      StuckStep(RunFrom(s, acts[..|acts| - 1]), acts[|acts| - 1]);
    }
  }

  // ------------------------------------------------------ and when it does

  // How many steps of the dispatcher the write under way can still take, where
  // no queue is larger than the one T is the Turns of.
  function Rank(T: nat, pc: Q.Pc): int {
    match pc
    case Idle => 0
    case Write(_) => 4 * T + 2
    case Send(_) => 1
    case Drop(i) => 4 * (T - i) + 1
    case Audio(i, _) => 4 * (T - i)
    case AudioExtra(i, _) => 4 * (T - i) - 1
    case AudioSend(i, _) => 4 * (T - i) - 1
    case VideoSend(i, _) => 4 * (T - i) - 1
    case VideoCheck(i) => 4 * (T - i) - 2
    case VideoExtra(i) => 4 * (T - i) - 3
  }

  function Writes(T: nat, n: nat): int {
    n * (4 * T + 3)
  }

  function Visits(T: nat, n: nat): int {
    n * (4 * (4 * T + 3) + 2)
  }

  // ... and the dispatch as a whole.
  function Remaining(T: nat, s: System): int {
    match s.at
    case Idle => 0
    case Serving(_, rest) => 1 + Visits(T, |rest|)
    case Writing(_, rest, a, todo) =>
      2 + Visits(T, |rest|) + Writes(T, |todo|) + (if a in s.clients then Rank(T, s.clients[a].q.pc) else 0)
  }

  predicate Within(T: nat, s: System) {
    forall a <- s.clients :: Turns(s.clients[a].size) <= T
  }

  lemma ProduceRanks(T: nat, size: int, q: Q.State)
    requires Q.Inv(size, q) && Q.Margin(size, q) && Turns(size) <= T && !Q.Waiting(size, q) && !q.pc.Idle?
    ensures 0 <= Rank(T, Q.Next(size, q, Q.Produce).pc) < Rank(T, q.pc)
  {
  }

  lemma RankNat(T: nat, size: int, q: Q.State)
    requires Q.Inv(size, q) && Q.Margin(size, q) && Turns(size) <= T
    ensures Rank(T, q.pc) >= 0
  {
  }

  lemma Counts(T: nat, n: nat)
    ensures Writes(T, n + 1) == Writes(T, n) + 4 * T + 3 && Visits(T, n + 1) == Visits(T, n) + 4 * (4 * T + 3) + 2
    ensures Writes(T, n) >= 0 && Visits(T, n) >= 0
    ensures n <= 4 ==> Writes(T, n) <= 4 * (4 * T + 3)
  {
  }

  // The dispatcher takes someone it has yet to serve.
  predicate Chosen(s: System, act: Act) {
    act.Work? && s.at.Serving? && s.at.rest != {} ==> act.addr in s.at.rest
  }

  lemma WorkLowers(T: nat, s: System, a: string)
    requires SystemOk(s) && Within(T, s) && !s.at.Idle? && !Stuck(s) && Chosen(s, Work(a))
    ensures Within(T, Worked(s, a)) && Remaining(T, Worked(s, a)) < Remaining(T, s)
  {
    hide Rank, Writes, Visits, Q.Inv, Q.Margin, Q.Accounted, Q.Waiting, Q.Next, Reached, Snapshot, FiledAll;
    match s.at
    case Serving(_, rest) =>
      if rest != {} {
        Counts(T, |rest - {a}|);
        assert |rest| == |rest - {a}| + 1;
        if !s.clients[a].stopped {
          assert ClientOk(s, a);
          IdleRank(T);
          Counts(T, |Offered(s.clients[a], s.slots, s.at.pkt)|);
          assert Worked(s, a).clients[a].q.pc == Q.Idle;
        }
      } else {
        Counts(T, 0);
      }
    case Writing(_, rest, b, todo) =>
      assert ClientOk(s, b);
      var c := s.clients[b];
      ReachedSafe(c.size, c.q);
      IdleRank(T);
      if !c.q.pc.Idle? {
        ProduceRanks(T, c.size, c.q);
      } else if todo != [] {
        Counts(T, |todo| - 1);
        BeginRank(T, c, todo[0]);
      } else {
        Counts(T, 0);
      }
  }

  lemma IdleRank(T: nat)
    ensures Rank(T, Q.Idle) == 0
  {
  }

  lemma BeginRank(T: nat, c: Client, p: Packet)
    requires c.q.pc.Idle?
    ensures Rank(T, Moved(c, Q.Begin(p)).q.pc) == 4 * T + 2
  {
  }

  // What subscribers do by themselves does not hold it up.
  lemma OthersDoNotDelay(T: nat, s: System, e: D.Event)
    requires SystemOk(s) && Within(T, s) && !s.at.Idle?
    ensures Within(T, Next(s, Do(e))) && Remaining(T, Next(s, Do(e))) == Remaining(T, s)
  {
    hide Rank, Writes, Visits, Reached, FiledAll, Moved;
    if e.Receive? && e.addr in s.clients {
      MovedOk(s, e.addr, Q.Consume);
    }
  }

  lemma RemainingNat(T: nat, s: System)
    requires SystemOk(s) && Within(T, s)
    ensures Remaining(T, s) >= 0 && (!s.at.Idle? ==> Remaining(T, s) >= 1)
  {
    hide Rank, Writes, Visits, Q.Inv, Q.Margin, Q.Accounted, Reached, FiledAll;
    if !s.at.Idle? {
      Counts(T, |s.at.rest|);
    }
    if s.at.Writing? {
      assert ClientOk(s, s.at.addr);
      var c := s.clients[s.at.addr];
      ReachedSafe(c.size, c.q);
      RankNat(T, c.size, c.q);
      Counts(T, |s.at.todo|);
    }
  }

  function Steps(acts: seq<Act>): nat {
    if acts == [] then 0 else Steps(acts[..|acts| - 1]) + if acts[|acts| - 1].Work? then 1 else 0
  }

  // Main result.  As long as the dispatcher is never stuck, every dispatch
  // ends, after a number of its own steps that is known when it begins and that
  // no subscriber can add to.
  lemma DispatchEnds(T: nat, s: System, acts: seq<Act>)
    requires SystemOk(s) && Within(T, s) && Steps(acts) >= Remaining(T, s)
    requires forall j :: 0 <= j < |acts| ==>
      var t := RunFrom(s, acts[..j]);
      t.at.Idle? || (!Stuck(t) && Chosen(t, acts[j]))
    ensures exists j :: 0 <= j <= |acts| && RunFrom(s, acts[..j]).at.Idle?
  {
    hide SystemOk, Within, Remaining, Next, Stuck, Chosen;
    if forall j :: 0 <= j <= |acts| ==> !RunFrom(s, acts[..j]).at.Idle? {
      StepsLower(T, s, acts);
    }
  }

  lemma {:induction false} StepsLower(T: nat, s: System, acts: seq<Act>)
    requires SystemOk(s) && Within(T, s)
    requires forall j :: 0 <= j <= |acts| ==> !RunFrom(s, acts[..j]).at.Idle?
    requires forall j :: 0 <= j < |acts| ==>
      var t := RunFrom(s, acts[..j]);
      t.at.Idle? || (!Stuck(t) && Chosen(t, acts[j]))
    ensures
      var t := RunFrom(s, acts);
      && SystemOk(t) && Within(T, t)
      && 1 <= Remaining(T, t) && Remaining(T, t) + Steps(acts) <= Remaining(T, s)
    decreases |acts|
  {
    hide SystemOk, Within, Remaining, Stuck, Chosen, Happens, Worked;
    assert acts[..|acts|] == acts;
    if acts != [] {
      var most, act := acts[..|acts| - 1], acts[|acts| - 1];
      assert forall j :: 0 <= j <= |most| ==> most[..j] == acts[..j];
      StepsLower(T, s, most);
      var t := RunFrom(s, most);
      NextOk(t, act);
      match act
      case Work(a) => WorkLowers(T, t, a);
      case Do(e) => OthersDoNotDelay(T, t, e);
    }
    RemainingNat(T, RunFrom(s, acts));
  }

  // The publisher caches each packet just before it dispatches it.
  predicate AsPublished(log: seq<D.Event>) {
    forall i :: 0 <= i < |log| && log[i].Dispatch? ==> i > 0 && log[i - 1] == D.CachePacket(log[i].pkt)
  }

  // And it can come to that: with any queue of 85 or more, for a subscriber
  // that is well, next to another that then gets nothing.
  lemma CanGetStuck(slow: string, other: string, size: nat) returns (acts: seq<Act>)
    requires size >= 85 && slow != other
    ensures
      var s := RunFrom(START, acts);
      && SystemOk(s) && AsPublished(s.log) && Stuck(s) && s.at.addr == slow
      && s.clients[slow].size == size && !s.clients[slow].stopped
      && other in s.clients && Handed(s.clients[other]) == []
  {
    hide Next, SystemOk, Stuck, AsPublished;
    acts := Filled(slow, size, size - 23);
    var s := RunFrom(START, acts);
    var joined := Joined(slow, other, size);
    StartsLoop(s, slow, other, size);
    Appending(START, acts, joined);
    var thinned := seq(2 * (size - 85), _ => Work(slow));
    Thinned(RunFrom(s, joined), slow, other, size, size - 85);
    Appending(START, acts + joined, thinned);
    var drained := seq(62, _ => Do(D.Receive(slow)));
    Drained(RunFrom(RunFrom(s, joined), thinned), slow, other, size, size - 85, 62, 62);
    Appending(START, acts + joined + thinned, drained);
    acts := acts + joined + thinned + drained;
    StartOk();
    RunOk(START, acts);
    EmptyIsStuck(RunFrom(START, acts));
  }

  // Main result.  A dispatch can be held up for ever at a queue of some size, if
  // and only if that size is 85 or more.
  lemma SticksExactly(size: nat)
    ensures
      (exists acts :: var s := RunFrom(START, acts); Stuck(s) && s.clients[s.at.addr].size == size) <==> size >= 85
  {
    hide Next, Q.Waiting;
    if size >= 85 {
      var acts := CanGetStuck("a", "b", size);
      assert RunFrom(START, acts).clients["a"].size == size;
    }
    forall acts | Stuck(RunFrom(START, acts))
      ensures var s := RunFrom(START, acts); s.clients[s.at.addr].size >= 85
    {
      StartOk();
      RunOk(START, acts);
      StuckAfter62(RunFrom(START, acts));
    }
  }

  lemma {:induction false} Appending(s: System, a: seq<Act>, b: seq<Act>)
    ensures RunFrom(s, a + b) == RunFrom(RunFrom(s, a), b)
    decreases |b|
  {
    hide Next;
    if b == [] {
      assert a + b == a;
    } else {
      assert (a + b)[..|a + b| - 1] == a + b[..|b| - 1];
      Appending(s, a, b[..|b| - 1]);
    }
  }

  lemma EmptyIsStuck(s: System)
    requires s.at.Writing? && s.at.addr in s.clients
    requires var c := s.clients[s.at.addr]; c.q.pc.Drop? && c.q.pc.i < Turns(c.size) && c.q.q == []
    ensures Stuck(s)
  {
  }

  // Only slow has joined, and n packets wait for it.
  predicate Holding(s: System, slow: string, size: nat, n: nat) {
    && s.slots == NO_SLOTS && s.at.Idle? && s.clients.Keys == {slow} && AsPublished(s.log)
    && Waits(s.clients[slow], size, n)
  }

  predicate Waits(c: Client, size: nat, n: nat) {
    c.size == size && c.q.pc.Idle? && |c.q.q| == n && Q.AllPlain(c.q.q) && !c.stopped
  }

  lemma {:induction false} Filled(slow: string, size: nat, n: nat) returns (acts: seq<Act>)
    requires n <= size - 23
    ensures Holding(RunFrom(START, acts), slow, size, n)
  {
    hide Next, Holding;
    if n == 0 {
      acts := [Do(D.Join(slow, size))];
      FirstHolds(slow, size);
    } else {
      acts := Filled(slow, size, n - 1);
      var more := OneMore(RunFrom(START, acts), slow, size, n - 1);
      Appending(START, acts, more);
      acts := acts + more;
    }
  }

  lemma FirstHolds(slow: string, size: nat)
    ensures Holding(RunFrom(START, [Do(D.Join(slow, size))]), slow, size, 0)
  {
    One(START, Do(D.Join(slow, size)));
  }

  lemma OneMore(s: System, slow: string, size: nat, n: nat) returns (more: seq<Act>)
    requires n < size - 23 && Holding(s, slow, size, n)
    ensures Holding(RunFrom(s, more), slow, size, n + 1)
  {
    hide Next, Holding;
    var c, d, w := Do(D.CachePacket(Q.PLAIN)), Do(D.Dispatch(Q.PLAIN)), Work(slow);
    more := [c] + [d, w, w, w, w, w, w];
    Appending(s, [c], [d, w, w, w, w, w, w]);
    One(s, c);
    Seven(Next(s, c), d, w);
    OneOffered(s, slow, size, n);
    OneWritten(Next(Next(Next(s, c), d), w), slow, size, n);
  }

  predicate Offering(s: System, slow: string, size: nat, n: nat) {
    && s.slots == NO_SLOTS && s.at == Writing(Q.PLAIN, {}, slow, [Q.PLAIN]) && s.clients.Keys == {slow}
    && AsPublished(s.log) && Waits(s.clients[slow], size, n)
  }

  // PLAIN published: it leaves the slots empty.
  lemma Published1(s: System)
    requires s.at.Idle? && s.slots == NO_SLOTS && AsPublished(s.log)
    ensures
      var t := Next(Next(s, Do(D.CachePacket(Q.PLAIN))), Do(D.Dispatch(Q.PLAIN)));
      && t == s.(at := Serving(Q.PLAIN, s.clients.Keys), log := t.log)
      && AsPublished(t.log)
  {
  }

  lemma OneOffered(s: System, slow: string, size: nat, n: nat)
    requires Holding(s, slow, size, n)
    ensures
      var t := Next(Next(s, Do(D.CachePacket(Q.PLAIN))), Do(D.Dispatch(Q.PLAIN)));
      Offering(Next(t, Work(slow)), slow, size, n)
  {
    hide AsPublished;
    Published1(s);
  }

  lemma OneWritten(s: System, slow: string, size: nat, n: nat)
    requires n < size - 23 && Offering(s, slow, size, n)
    ensures var w := Work(slow); Holding(Next(Next(Next(Next(Next(s, w), w), w), w), w), slow, size, n + 1)
  {
    hide AsPublished;
    Q.WriteOne(size, s.clients[slow].q);
  }

  lemma RunThen(s: System, acts: seq<Act>, a: Act)
    ensures RunFrom(s, acts + [a]) == Next(RunFrom(s, acts), a)
  {
    hide Next;
    assert (acts + [a])[..|acts|] == acts;
  }

  lemma One(s: System, a: Act)
    ensures RunFrom(s, [a]) == Next(s, a)
  {
    hide Next;
    assert [a][..0] == [];
  }

  lemma Five(s: System, a: Act, b: Act, c: Act, d: Act, e: Act)
    ensures RunFrom(s, [a, b, c, d, e]) == Next(Next(Next(Next(Next(s, a), b), c), d), e)
  {
    hide Next;
    var all := [a, b, c, d, e];
    assert RunFrom(s, all[..0]) == s;
    forall i | 0 <= i < 5
      ensures RunFrom(s, all[..i + 1]) == Next(RunFrom(s, all[..i]), all[i])
    {
      assert all[..i + 1][..i] == all[..i];
    }
    assert all[..5] == all;
    assert all[..1] == all[..0 + 1] && all[..2] == all[..1 + 1] && all[..3] == all[..2 + 1] && all[..4] == all[..3 + 1];
  }

  lemma Seven(s: System, d: Act, w: Act)
    ensures RunFrom(s, [d, w, w, w, w, w, w]) == Next(Next(Next(Next(Next(Next(Next(s, d), w), w), w), w), w), w)
  {
    hide Next;
    Five(s, d, w, w, w, w);
    var t := RunFrom(s, [d, w, w, w, w]);
    assert [d, w, w, w, w, w, w][..6][..5] == [d, w, w, w, w];
    assert RunFrom(s, [d, w, w, w, w, w, w][..6]) == Next(t, w);
  }

  // The dispatcher is in the drop loop of slow, before turn i.
  predicate Looping(s: System, slow: string, other: string, size: nat, i: nat, left: nat) {
    && s.at.Writing? && s.at.addr == slow && slow in s.clients && other in s.clients && slow != other
    && AsPublished(s.log) && Handed(s.clients[other]) == []
    && var c := s.clients[slow];
       && c.size == size && c.q.pc == Q.Drop(i) && |c.q.q| == left <= Cap(size)
       && Q.AllPlain(c.q.q) && !c.stopped
  }

  // Other joins, and the next packet finds the queue of slow full.
  function Joined(slow: string, other: string, size: nat): seq<Act> {
    var c, d, w := Do(D.CachePacket(Q.PLAIN)), Do(D.Dispatch(Q.PLAIN)), Work(slow);
    [Do(D.Join(other, size))] + [c, d, w, w, w]
  }

  lemma StartsLoop(s: System, slow: string, other: string, size: nat)
    requires size >= 85 && Holding(s, slow, size, size - 23) && slow != other
    ensures Looping(RunFrom(s, Joined(slow, other, size)), slow, other, size, 0, size - 23)
  {
    hide AsPublished;
    var c, d, w := Do(D.CachePacket(Q.PLAIN)), Do(D.Dispatch(Q.PLAIN)), Work(slow);
    var s1 := Next(s, Do(D.Join(other, size)));
    Appending(s, [Do(D.Join(other, size))], [c, d, w, w, w]);
    One(s, Do(D.Join(other, size)));
    Five(s1, c, d, w, w, w);
    NotDispatched(s.log, D.Join(other, size));
    Published1(s1);
    FullLoops(Next(Next(s1, c), d), slow, other, size);
  }

  lemma NotDispatched(log: seq<D.Event>, e: D.Event)
    requires AsPublished(log) && !e.Dispatch?
    ensures AsPublished(log + [e])
  {
  }

  lemma FullLoops(s: System, slow: string, other: string, size: nat)
    requires size >= 85 && s.at == Serving(Q.PLAIN, {slow, other}) && s.slots == NO_SLOTS && AsPublished(s.log)
    requires slow != other && s.clients.Keys == {slow, other} && Handed(s.clients[other]) == []
    requires Waits(s.clients[slow], size, size - 23)
    ensures var w := Work(slow); Looping(Next(Next(Next(s, w), w), w), slow, other, size, 0, size - 23)
  {
    hide AsPublished;
    var s2 := Next(Next(s, Work(slow)), Work(slow));
    assert s2.at.Writing? && s2.at.addr == slow;
    assert s2.clients[slow].q == s.clients[slow].q.(pc := Q.Write(s2.clients[slow].q.pc.pkt));
  }

  lemma {:induction false} Thinned(s: System, slow: string, other: string, size: nat, n: nat)
    requires n <= size - 85 && Looping(s, slow, other, size, 0, size - 23)
    ensures Looping(RunFrom(s, seq(2 * n, _ => Work(slow))), slow, other, size, n, size - 23 - n)
  {
    hide Next, Looping;
    if n > 0 {
      Thinned(s, slow, other, size, n - 1);
      var all, most := seq(2 * n, _ => Work(slow)), seq(2 * (n - 1), _ => Work(slow));
      assert all == most + [Work(slow)] + [Work(slow)];
      RunThen(s, most, Work(slow));
      RunThen(s, most + [Work(slow)], Work(slow));
      ThinOne(RunFrom(s, most), slow, other, size, n - 1, size - 22 - n);
    }
  }

  lemma ThinOne(s: System, slow: string, other: string, size: nat, i: nat, left: nat)
    requires Looping(s, slow, other, size, i, left) && i < size - 84 && left > 0
    ensures Looping(Next(Next(s, Work(slow)), Work(slow)), slow, other, size, i + 1, left - 1)
  {
    hide AsPublished;
    Q.DropOne(size, s.clients[slow].q);
  }

  lemma {:induction false} Drained(s: System, slow: string, other: string, size: nat, i: nat, n: nat, k: nat)
    requires Looping(s, slow, other, size, i, n) && k <= n
    ensures Looping(RunFrom(s, seq(k, _ => Do(D.Receive(slow)))), slow, other, size, i, n - k)
  {
    hide Next, Looping;
    if k > 0 {
      Drained(s, slow, other, size, i, n, k - 1);
      assert seq(k, _ => Do(D.Receive(slow)))[..k - 1] == seq(k - 1, _ => Do(D.Receive(slow)));
      DrainOne(RunFrom(s, seq(k - 1, _ => Do(D.Receive(slow)))), slow, other, size, i, n - k + 1);
    }
  }

  lemma DrainOne(s: System, slow: string, other: string, size: nat, i: nat, left: nat)
    requires Looping(s, slow, other, size, i, left) && left > 0
    ensures Looping(Next(s, Do(D.Receive(slow))), slow, other, size, i, left - 1)
  {
    hide AsPublished;
    NotDispatched(s.log, D.Receive(slow));
    Q.TakeOne(size, s.clients[slow].q);
  }

  // ---------------------------------------------- a dispatch nobody interrupts

  function SubOf(c: Client): Sub {
    Sub(c.q.q, c.q.received, c.size, c.init, c.stopped)
  }

  // The producer's steps on a's queue, to the end of one write.
  lemma {:induction false} Produces(s: System, a: string, k: nat) returns (acts: seq<Act>)
    requires s.at.Writing? && s.at.addr == a && a in s.clients
    requires Q.Solo(s.clients[a].size, s.clients[a].q, k).pc.Idle?
    ensures
      var c, t := s.clients[a], RunFrom(s, acts);
      && a in t.clients && t == s.(clients := s.clients[a := t.clients[a]])
      && t.clients[a] == c.(q := Q.Solo(c.size, c.q, k), overflowed := t.clients[a].overflowed)
    decreases k
  {
    hide Q.Next;
    var c := s.clients[a];
    acts := [];
    if c.q.pc.Idle? {
      IdleSolo(c.size, c.q, k);
      assert s.clients[a := c] == s.clients;
    } else if k > 0 {
      Q.SoloSolo(c.size, c.q, 1, k - 1);
      assert Q.Solo(c.size, c.q, 1) == Q.Next(c.size, Q.Solo(c.size, c.q, 0), Q.Produce);
      var s1 := Next(s, Work(a));
      assert [Work(a)][..0] == [] && RunFrom(s, [Work(a)]) == s1;
      var more := Produces(s1, a, k - 1);
      Appending(s, [Work(a)], more);
      acts := [Work(a)] + more;
    }
  }

  lemma {:induction false} IdleSolo(size: int, q: Q.State, k: nat)
    requires q.pc.Idle?
    ensures Q.Solo(size, q, k) == q
  {
    if k > 0 {
      IdleSolo(size, q, k - 1);
    }
  }

  lemma {:induction false} SoloTakesNone(size: int, q: Q.State, k: nat)
    requires Q.Inv(size, q)
    ensures Q.Inv(size, Q.Solo(size, q, k)) && Q.Solo(size, q, k).received == q.received
  {
    if k > 0 {
      SoloTakesNone(size, q, k - 1);
      Q.NextInv(size, Q.Solo(size, q, k - 1), Q.Produce);
    }
  }

  lemma {:induction false} WritesAlone(s: System, a: string) returns (acts: seq<Act>)
    requires s.at.Writing? && s.at.addr == a && a in s.clients
    requires var c := s.clients[a]; c.q.pc.Idle? && |c.q.q| <= Cap(c.size)
    ensures
      var c, t := s.clients[a], RunFrom(s, acts);
      && a in t.clients && t == s.(at := s.at.(todo := []), clients := s.clients[a := t.clients[a]])
      && t.clients[a].q.pc.Idle?
      && SubOf(t.clients[a]) == SubOf(c).(queue := WrittenAll(c.q.q, c.size, s.at.todo))
    decreases |s.at.todo|
  {
    hide Written, WrittenAll, RunFrom, Next;
    var c, todo := s.clients[a], s.at.todo;
    WrittenSteps(c.q.q, c.size, todo);
    if todo == [] {
      acts := [];
      NoActs(s);
      assert s.clients[a := c] == s.clients;
    } else {
      var first := WriteFirst(s, a);
      var s1 := RunFrom(s, first);
      var more := WritesAlone(s1, a);
      Appending(s, first, more);
      acts := first + more;
      var d := RunFrom(s1, more).clients[a];
      assert s1.clients[a := d] == s.clients[a := d];
    }
  }

  lemma NoActs(s: System)
    ensures RunFrom(s, []) == s
  {
  }

  lemma WrittenSteps(q: seq<Packet>, size: int, ps: seq<Packet>)
    requires |q| <= Cap(size)
    ensures WrittenAll(q, size, ps) == if ps == [] then q else WrittenAll(Written(q, size, ps[0]), size, ps[1..])
  {
    hide Written, WrittenAll;
    if ps == [] {
      WrittenNone(q, size);
    } else {
      WrittenFirst(q, size, ps[0], ps[1..]);
      assert ps == [ps[0]] + ps[1..];
    }
  }

  lemma WrittenFirst(q: seq<Packet>, size: int, p: Packet, rest: seq<Packet>)
    requires |q| <= Cap(size)
    ensures WrittenAll(q, size, [p] + rest) == WrittenAll(Written(q, size, p), size, rest)
  {
    hide Written, WrittenAll;
    Appended(q, size, [p], rest);
    WrittenOne(q, size, p);
  }

  lemma WrittenNone(q: seq<Packet>, size: int)
    requires |q| <= Cap(size)
    ensures WrittenAll(q, size, []) == q
  {
  }

  lemma WrittenOne(q: seq<Packet>, size: int, p: Packet)
    requires |q| <= Cap(size)
    ensures WrittenAll(q, size, [p]) == Written(q, size, p)
  {
    hide Written;
    assert [p][..0] == [];
  }

  lemma WriteFirst(s: System, a: string) returns (acts: seq<Act>)
    requires s.at.Writing? && s.at.addr == a && a in s.clients && s.at.todo != []
    requires var c := s.clients[a]; c.q.pc.Idle? && |c.q.q| <= Cap(c.size)
    ensures
      var c, t := s.clients[a], RunFrom(s, acts);
      && a in t.clients && t == s.(at := s.at.(todo := s.at.todo[1..]), clients := s.clients[a := t.clients[a]])
      && t.clients[a].q.pc.Idle?
      && SubOf(t.clients[a]) == SubOf(c).(queue := Written(c.q.q, c.size, s.at.todo[0]))
  {
    hide Written, Q.Solo;
    var c, p := s.clients[a], s.at.todo[0];
    var s1 := Next(s, Work(a));
    assert [Work(a)][..0] == [] && RunFrom(s, [Work(a)]) == s1;
    var n := Q.AloneIsWritten(c.size, c.q, p);
    SoloTakesNone(c.size, s1.clients[a].q, n);
    var more := Produces(s1, a, n);
    Appending(s, [Work(a)], more);
    acts := [Work(a)] + more;
  }

  // One subscriber served with nobody receiving.
  lemma ServedAlone(s: System, a: string) returns (acts: seq<Act>)
    requires s.at.Serving? && a in s.at.rest && a in s.clients
    requires var c := s.clients[a]; c.q.pc.Idle? && |c.q.q| <= Cap(c.size)
    ensures
      var c, t := s.clients[a], RunFrom(s, acts);
      && a in t.clients && t == s.(at := Serving(s.at.pkt, s.at.rest - {a}), clients := s.clients[a := t.clients[a]])
      && t.clients[a].q.pc.Idle? && SubOf(t.clients[a]) == D.DispatchOne(SubOf(c), s.slots, s.at.pkt)
  {
    hide Snapshot;
    var c, p, rest := s.clients[a], s.at.pkt, s.at.rest;
    var s1 := Next(s, Work(a));
    acts := [Work(a)];
    assert acts[..0] == [] && RunFrom(s, acts) == s1;
    if c.stopped {
      assert s.clients[a := c] == s.clients;
    } else {
      var at := Writing(p, rest - {a}, a, Offered(c, s.slots, p));
      assert s1 == s.(at := at, clients := s.clients[a := c.(init := true)]);
      var more := WritesAlone(s1, a);
      Appending(s, acts, more);
      var s2 := RunFrom(s1, more);
      Appending(s, acts + more, [Work(a)]);
      assert RunFrom(s2, [Work(a)]) == Next(s2, Work(a));
      acts := acts + more + [Work(a)];
    }
  }

  lemma {:induction false} AllServedAlone(s: System) returns (acts: seq<Act>)
    requires s.at.Serving? && s.at.rest <= s.clients.Keys
    requires forall a <- s.clients :: s.clients[a].q.pc.Idle? && |s.clients[a].q.q| <= Cap(s.clients[a].size)
    ensures
      var t := RunFrom(s, acts);
      && t.at.Idle? && t.clients.Keys == s.clients.Keys && t.slots == s.slots && t.log == s.log
      && forall a <- s.clients ::
           SubOf(t.clients[a]) ==
             if a in s.at.rest then D.DispatchOne(SubOf(s.clients[a]), s.slots, s.at.pkt) else SubOf(s.clients[a])
    decreases |s.at.rest|
  {
    hide Next, D.DispatchOne;
    if s.at.rest == {} {
      acts := [Work("")];
      LastWork(s);
    } else {
      var a :| a in s.at.rest;
      var first := ServedAlone(s, a);
      var s1 := RunFrom(s, first);
      assert |s1.clients[a].q.q| <= Cap(s1.clients[a].size);
      var more := AllServedAlone(s1);
      Appending(s, first, more);
      acts := first + more;
    }
  }

  lemma LastWork(s: System)
    requires s.at.Serving? && s.at.rest == {}
    ensures RunFrom(s, [Work("")]) == s.(at := Idle)
  {
    assert [Work("")][..0] == [];
  }

  function Subs(s: System): map<string, Sub> {
    map a <- s.clients :: SubOf(s.clients[a])
  }

  // Some schedule of a dispatch does what DispatchAVPacket of StreamDispatch
  // does in one step: the one in which nothing else happens.
  lemma AloneIsDispatch(s: System, p: Packet, count: int) returns (acts: seq<Act>)
    requires SystemOk(s) && s.at.Idle?
    ensures
      var w := D.World(s.slots, Subs(s), count);
      var t := RunFrom(Next(s, Do(D.Dispatch(p))), acts);
      t.at.Idle? && D.Bounded(w) && D.World(t.slots, Subs(t), count) == D.Next(w, D.Dispatch(p))
  {
    hide D.DispatchOne, Reached, FiledAll;
    forall a | a in s.clients
      ensures s.clients[a].q.pc.Idle? && |s.clients[a].q.q| <= Cap(s.clients[a].size)
    {
      assert ClientOk(s, a);
      ReachedSafe(s.clients[a].size, s.clients[a].q);
    }
    acts := AllServedAlone(Next(s, Do(D.Dispatch(p))));
  }

  // And any other event does here what it does there.
  lemma HappensIsNext(s: System, e: D.Event, count: int)
    requires SystemOk(s) && !e.Dispatch?
    ensures
      var w, t := D.World(s.slots, Subs(s), count), Happens(s, e);
      && D.Bounded(w)
      && t.at == s.at && t.slots == D.Next(w, e).slots && Subs(t) == D.Next(w, e).subs
  {
    hide Reached, FiledAll, Filed, Moved, D.ReceiveOne, Subs, SubOf, SystemOk;
    SubsBounded(s, count);
    SubsKeys(s);
    match e
    case CachePacket(_) => SameSubs(s, Happens(s, e));
    case Join(a, size) => SubsWith(s, a, Client(size, Q.START, false, false, false));
    case Leave(a) => SubsLess(s, a);
    case Stop(a) => if a in s.clients { SubsWith(s, a, s.clients[a].(stopped := true)); }
    case Receive(a) =>
      if a in s.clients {
        SubsWith(s, a, Moved(s.clients[a], Q.Consume));
        ConsumeIsReceive(s.clients[a]);
      }
  }

  lemma SubsBounded(s: System, count: int)
    requires SystemOk(s)
    ensures D.Bounded(D.World(s.slots, Subs(s), count))
  {
    hide Reached, FiledAll;
    forall a | a in s.clients
      ensures |s.clients[a].q.q| <= Cap(s.clients[a].size)
    {
      assert ClientOk(s, a);
      ReachedBounded(s.clients[a].size, s.clients[a].q);
    }
  }

  lemma SubsKeys(s: System)
    ensures Subs(s).Keys == s.clients.Keys
    ensures forall a <- s.clients :: Subs(s)[a] == SubOf(s.clients[a])
    ensures forall a <- s.clients :: SubOf(s.clients[a].(stopped := true)) == SubOf(s.clients[a]).(stopped := true)
    ensures forall size: nat :: SubOf(Client(size, Q.START, false, false, false)) == Sub([], [], size, false, false)
  {
  }

  lemma SameSubs(s: System, t: System)
    requires t.clients == s.clients
    ensures Subs(t) == Subs(s)
  {
  }

  lemma SubsWith(s: System, a: string, c: Client)
    ensures Subs(s.(clients := s.clients[a := c])) == Subs(s)[a := SubOf(c)]
  {
    hide SubOf;
  }

  lemma SubsLess(s: System, a: string)
    ensures Subs(s.(clients := s.clients - {a})) == Subs(s) - {a}
  {
    hide SubOf;
  }

  lemma ConsumeIsReceive(c: Client)
    ensures SubOf(Moved(c, Q.Consume)) == D.ReceiveOne(SubOf(c))
  {
  }

  lemma ReachedBounded(size: int, q: Q.State)
    requires Reached(size, q)
    ensures |q.q| <= Cap(size)
  {
    hide Reached;
    ReachedSafe(size, q);
  }
}
