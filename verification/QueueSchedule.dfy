// A subscriber's queue when receives come between any two operations of the
// producer on the channel (pkg/rtmp/subscriber.go).
module QueueSchedule {
  import opened Options
  import opened AvPackets
  import opened SubscriberQueue

  // Where the producer is, between two operations on the channel.  i counts
  // the turns of the drop loop.
  datatype Pc =
    | Idle
    | Write(pkt: Packet)              // about to test the length
    | Send(pkt: Packet)               // about to queue the packet
    | Drop(i: nat)                    // about to start turn i
    | Audio(i: nat, pkt: Packet)      // took an audio packet, about to test
    | AudioExtra(i: nat, pkt: Packet) // about to receive and discard
    | AudioSend(i: nat, pkt: Packet)  // about to queue it again
    | VideoSend(i: nat, pkt: Packet)  // about to queue a key frame again
    | VideoCheck(i: nat)              // about to test
    | VideoExtra(i: nat)              // about to receive and discard

  // accepted holds every packet ever queued by Send, received every packet the
  // consumer took, and drained counts those it took since the last drop loop
  // began.
  datatype State = State(q: seq<Packet>, pc: Pc, accepted: multiset<Packet>, received: seq<Packet>, drained: nat)

  const START := State([], Idle, multiset{}, [], 0)

  datatype Act = Begin(pkt: Packet) | Produce | Consume

  predicate Waiting(size: int, s: State) {
    match s.pc
    case Send(_) => |s.q| >= size
    case AudioSend(_, _) => |s.q| >= size
    case VideoSend(_, _) => |s.q| >= size
    case Drop(i) => i < size - 84 && s.q == []
    case AudioExtra(_, _) => s.q == []
    case VideoExtra(_) => s.q == []
    case _ => false
  }

  // The producer's next step when it does not have to wait.
  function Step(size: int, s: State): State
    requires !Waiting(size, s)
  {
    match s.pc
    case Idle => s
    case Write(p) => if |s.q| > size - 24 then s.(pc := Drop(0), drained := 0) else s.(pc := Send(p))
    case Send(p) => s.(q := s.q + [p], pc := Idle, accepted := s.accepted + multiset{p})
    case Drop(i) =>
      if i >= size - 84 then s.(pc := Idle)
      else
        var p, rest := s.q[0], s.q[1..];
        s.(q := rest, pc :=
          if p.isAudio then Audio(i, p)
          else if p.isVideo then if Keep(p) then VideoSend(i, p) else VideoCheck(i)
          else Drop(i + 1))
    case Audio(i, p) => s.(pc := if |s.q| > size - 2 then AudioExtra(i, p) else AudioSend(i, p))
    case AudioExtra(i, p) => s.(q := s.q[1..], pc := Drop(i + 1))
    case AudioSend(i, p) => s.(q := s.q + [p], pc := Drop(i + 1))
    case VideoSend(i, p) => s.(q := s.q + [p], pc := VideoCheck(i))
    case VideoCheck(i) => s.(pc := if |s.q| > size - 10 then VideoExtra(i) else Drop(i + 1))
    case VideoExtra(i) => s.(q := s.q[1..], pc := Drop(i + 1))
  }

  // Any scheduling: an act that cannot happen now changes nothing.
  function Next(size: int, s: State, a: Act): State {
    match a
    case Begin(p) => if s.pc.Idle? then s.(pc := Write(p)) else s
    case Produce => if Waiting(size, s) then s else Step(size, s)
    case Consume =>
      if s.q == [] then s
      else s.(q := s.q[1..], received := s.received + [s.q[0]], drained := s.drained + 1)
  }

  function Run(size: int, acts: seq<Act>): State {
    if acts == [] then START
    else Next(size, Run(size, acts[..|acts| - 1]), acts[|acts| - 1])
  }

  function Held(pc: Pc): multiset<Packet> {
    match pc
    case Audio(_, p) => multiset{p}
    case AudioSend(_, p) => multiset{p}
    case VideoSend(_, p) => multiset{p}
    case _ => multiset{}
  }

  predicate Inv(size: int, s: State) {
    && |s.q| <= Cap(size)
    && (match s.pc
        case Send(_) => |s.q| <= size - 24
        case Audio(i, p) => |s.q| <= size - 24 && i < size - 84 && Keep(p)
        case AudioSend(i, p) => |s.q| <= size - 24 && i < size - 84 && Keep(p)
        case VideoSend(i, p) => |s.q| <= size - 24 && i < size - 84 && Keep(p)
        case VideoCheck(i) => i < size - 84
        case AudioExtra(_, _) => false
        case VideoExtra(_) => false
        case _ => true)
  }

  // In a drop loop that began with size - 23 packets, each turn and each receive
  // has taken at most one.
  predicate Margin(size: int, s: State) {
    match s.pc
    case Drop(i) => i <= Turns(size) && size - 23 <= |s.q| + s.drained + i
    case Audio(i, _) => size - 23 <= |s.q| + s.drained + i + 1
    case AudioSend(i, _) => size - 23 <= |s.q| + s.drained + i + 1
    case VideoSend(i, _) => size - 23 <= |s.q| + s.drained + i + 1
    case VideoCheck(i) => size - 23 <= |s.q| + s.drained + i + 1
    case _ => true
  }

  // How many more times p was accepted than it is queued, in the producer's
  // hand, or received.
  function Owed(s: State, p: Packet): int {
    s.accepted[p] as int - multiset(s.q)[p] - Held(s.pc)[p] - multiset(s.received)[p]
  }

  // Every packet that must be kept is queued, in the producer's hand, or has
  // been received, exactly as often as it was accepted.
  ghost predicate Accounted(s: State) {
    forall p :: Keep(p) ==> Owed(s, p) == 0
  }

  lemma NextInv(size: int, s: State, a: Act)
    requires Inv(size, s)
    ensures Inv(size, Next(size, s, a))
  {
  }

  lemma NextMargin(size: int, s: State, a: Act)
    requires Inv(size, s) && Margin(size, s)
    ensures Margin(size, Next(size, s, a))
  {
  }

  // A step moves packets between the producer's hand, the queue and the
  // consumer; what it throws away need not be kept.
  lemma NextAccounted(size: int, s: State, a: Act)
    requires Inv(size, s) && Accounted(s)
    ensures Accounted(Next(size, s, a))
  {
    hide Keep, Next, Owed;
    forall p | Keep(p)
      ensures Owed(Next(size, s, a), p) == 0
    {
      NextOwed(size, s, a, p);
    }
  }

  lemma NextOwed(size: int, s: State, a: Act, p: Packet)
    requires Inv(size, s) && Keep(p)
    ensures Owed(Next(size, s, a), p) == Owed(s, p)
  {
    hide Keep, Step, Inv, Waiting;
    match a {
      case Produce => if !Waiting(size, s) { StepOwed(size, s, p); }
      case Consume => if s.q != [] { Taken(s.q, p); }
      case Begin(_) =>
    }
  }

  lemma StepOwed(size: int, s: State, p: Packet)
    requires Inv(size, s) && Keep(p) && !Waiting(size, s)
    ensures Owed(Step(size, s), p) == Owed(s, p)
  {
    hide Keep, Owed;
    var t := Step(size, s);
    match s.pc {
      case Drop(i) => if i < size - 84 { TakeOwed(size, s, p); } else { HeldOwed(s, t, p); }
      case Send(x) => SentOwed(s, t, x, p);
      case AudioSend(_, x) => SentOwed(s, t, x, p);
      case VideoSend(_, x) => SentOwed(s, t, x, p);
      case _ => HeldOwed(s, t, p);
    }
  }

  lemma HeldOwed(s: State, t: State, p: Packet)
    requires t == s.(pc := t.pc, drained := t.drained) && Held(t.pc) == Held(s.pc)
    ensures Owed(t, p) == Owed(s, p)
  {
  }

  // A packet is queued when it is new or when the producer held it.
  lemma SentOwed(s: State, t: State, x: Packet, p: Packet)
    requires t.q == s.q + [x] && t.received == s.received && Held(t.pc) == multiset{}
    requires t.accepted == if s.pc.Send? then s.accepted + multiset{x} else s.accepted
    requires Held(s.pc) == if s.pc.Send? then multiset{} else multiset{x}
    ensures Owed(t, p) == Owed(s, p)
  {
  }

  lemma TakeOwed(size: int, s: State, p: Packet)
    requires s.pc.Drop? && s.pc.i < size - 84 && s.q != [] && Keep(p)
    ensures Owed(Step(size, s), p) == Owed(s, p)
  {
    hide Keep, Owed;
    NotKept(s.q[0]);
    TookOwed(s, Step(size, s), p);
  }

  lemma TookOwed(s: State, t: State, p: Packet)
    requires s.q != [] && t == s.(q := s.q[1..], pc := t.pc) && Held(s.pc) == multiset{}
    requires Held(t.pc)[p] == if s.q[0] == p then 1 else 0
    ensures Owed(t, p) == Owed(s, p)
  {
    Taken(s.q, p);
  }

  lemma Taken(q: seq<Packet>, p: Packet)
    requires q != []
    ensures multiset(q)[p] == (if q[0] == p then 1 else 0) + multiset(q[1..])[p]
  {
    assert q == [q[0]] + q[1..];
  }

  lemma NotKept(p: Packet)
    ensures p.isAudio ==> Keep(p)
    ensures !p.isAudio && !p.isVideo ==> !Keep(p)
  {
  }

  // n producer steps in a row.
  function Solo(size: int, s: State, n: nat): State {
    if n == 0 then s else Next(size, Solo(size, s, n - 1), Produce)
  }

  lemma {:induction false} SoloSolo(size: int, s: State, m: nat, n: nat)
    ensures Solo(size, Solo(size, s, m), n) == Solo(size, s, m + n)
    decreases n
  {
    hide Next;
    if n > 0 {
      SoloSolo(size, s, m, n - 1);
    }
  }

  // What DropAVPacket has done to q0 after i turns.
  ghost predicate Turned(size: int, q0: seq<Packet>, s: State, i: nat) {
    && |q0| <= Cap(size) && i <= Turns(size) <= |q0|
    && s.q == q0[i..] + Kept(q0[..i])
    && s.pc == Drop(i)
  }

  lemma TurnSteps(size: int, s: State) returns (n: nat)
    requires s.pc.Drop? && s.pc.i < Turns(size) && s.q != [] && |s.q| <= Cap(size)
    ensures Solo(size, s, n) == s.(q := s.q[1..] + Kept1(s.q[0]), pc := Drop(s.pc.i + 1))
  {
    hide Keep;
    NotKept(s.q[0]);
    var s1 := Next(size, s, Produce);
    var s2 := Next(size, s1, Produce);
    var s3 := Next(size, s2, Produce);
    FirstThree(size, s);
    n := if s1.pc.Drop? then 1 else if s1.pc.VideoCheck? then 2 else 3;
  }

  lemma FirstThree(size: int, s: State)
    ensures Solo(size, s, 1) == Next(size, s, Produce)
    ensures Solo(size, s, 2) == Next(size, Solo(size, s, 1), Produce)
    ensures Solo(size, s, 3) == Next(size, Solo(size, s, 2), Produce)
  {
    hide Next;
    assert Solo(size, s, 0) == s;
  }

  lemma TurnAlone(size: int, q0: seq<Packet>, s: State, i: nat) returns (n: nat)
    requires Turned(size, q0, s, i) && i < Turns(size)
    ensures Turned(size, q0, Solo(size, s, n), i + 1)
  {
    hide Keep, Kept, Solo;
    KeptNext(q0, i);
    assert s.q[0] == q0[i] && s.q[1..] == q0[i + 1..] + Kept(q0[..i]);
    n := TurnSteps(size, s);
  }

  lemma {:induction false} DropAlone(size: int, q0: seq<Packet>, s: State, i: nat) returns (n: nat)
    requires Turned(size, q0, s, i)
    ensures Solo(size, s, n).pc == Idle && Solo(size, s, n).q == AfterDrop(q0, size)
    decreases Turns(size) - i
  {
    hide Next, Kept, Solo;
    if i == Turns(size) {
      DropEnds(size, s);
      n := 1;
    } else {
      var k := TurnAlone(size, q0, s, i);
      n := DropAlone(size, q0, Solo(size, s, k), i + 1);
      SoloSolo(size, s, k, n);
      n := k + n;
    }
  }

  lemma DropEnds(size: int, s: State)
    requires s.pc == Drop(Turns(size))
    ensures Solo(size, s, 1) == s.(pc := Idle)
  {
    FirstThree(size, s);
  }

  // The steps, taken with no receive between them, do what the methods do.
  lemma AloneIsWritten(size: int, s: State, pkt: Packet) returns (n: nat)
    requires |s.q| <= Cap(size) && s.pc == Idle
    ensures
      var t := Solo(size, Next(size, s, Begin(pkt)), n);
      t.pc == Idle && t.q == Written(s.q, size, pkt)
  {
    hide Next, Written;
    var w := Next(size, s, Begin(pkt));
    TestThenWrite(size, s, pkt);
    if |s.q| > size - 24 {
      var k := DropAlone(size, s.q, Solo(size, w, 1), 0);
      SoloSolo(size, w, 1, k);
      n := 1 + k;
    } else {
      n := 2;
    }
  }

  lemma TestThenWrite(size: int, s: State, pkt: Packet)
    requires |s.q| <= Cap(size) && s.pc == Idle
    ensures
      var w := Next(size, s, Begin(pkt));
      if |s.q| > size - 24 then
        Turned(size, s.q, Solo(size, w, 1), 0) && Written(s.q, size, pkt) == AfterDrop(s.q, size)
      else Solo(size, w, 2) == s.(q := Written(s.q, size, pkt), accepted := s.accepted + multiset{pkt})
  {
    hide Solo, AfterDrop;
    FirstThree(size, Next(size, s, Begin(pkt)));
    assert s.q[..0] == [] && s.q[0..] == s.q && s.q + [] == s.q;
  }

  // Main result.  Under every schedule of one producer and the consumer: the
  // queue stays within its bound, no send ever waits, the two extra receives
  // of the drop loop are never reached, no audio packet or key frame that was
  // accepted is ever lost, and the producer waits only in a drop loop during
  // which the consumer took 62 packets or more.
  lemma {:induction false} SafeUnderAnySchedule(size: int, acts: seq<Act>)
    ensures
      var s := Run(size, acts);
      && Inv(size, s) && Accounted(s) && Margin(size, s)
      && |s.q| <= Cap(size)
      && !(s.pc.AudioExtra? || s.pc.VideoExtra?)
      && (Waiting(size, s) ==> s.pc.Drop? && s.drained >= 62)
    decreases |acts|
  {
    hide Next, Accounted;
    if acts == [] {
      StartAccounted();
    } else {
      var before := acts[..|acts| - 1];
      SafeUnderAnySchedule(size, before);
      NextInv(size, Run(size, before), acts[|acts| - 1]);
      NextMargin(size, Run(size, before), acts[|acts| - 1]);
      NextAccounted(size, Run(size, before), acts[|acts| - 1]);
    }
  }

  lemma StartAccounted()
    ensures Accounted(START)
  {
  }

  // A producer that waits in its drop loop waits for ever: the queue is empty,
  // and only it could fill it.
  lemma StuckForEver(size: int, s: State, a: Act)
    requires Inv(size, s) && Waiting(size, s)
    ensures Next(size, s, a) == s
  {
  }

  // Some schedule gets there, with 62 receives and no fewer, exactly when the
  // queue is large enough for the loop to turn at all.
  lemma WaitsExactly(size: int)
    ensures (exists acts :: Waiting(size, Run(size, acts)) && Run(size, acts).drained == 62) <==> size >= 85
    ensures size < 85 ==> forall acts :: !Waiting(size, Run(size, acts))
  {
    hide Next;
    if size >= 85 {
      var acts := Starve(size);
      assert Waiting(size, Run(size, acts));
    } else {
      forall acts
        ensures !Waiting(size, Run(size, acts))
      {
        SafeUnderAnySchedule(size, acts);
      }
    }
  }

  // A video packet that is no key frame: the loop need not keep it, and the
  // cache does not file it.
  const PLAIN := Packet(Some(Tag(0, 0, 2, 1)), [], 0, 0, false, true, false)

  predicate AllPlain(q: seq<Packet>) {
    forall i :: 0 <= i < |q| ==> q[i] == PLAIN
  }

  lemma RunNext(size: int, acts: seq<Act>, a: Act)
    ensures Run(size, acts + [a]) == Next(size, Run(size, acts), a)
  {
    assert (acts + [a])[..|acts|] == acts;
  }

  // Fill the queue, let the loop drop all it can, then receive the rest.
  lemma Starve(size: int) returns (acts: seq<Act>)
    requires size >= 85
    ensures Waiting(size, Run(size, acts)) && Run(size, acts).drained == 62
  {
    hide Next;
    acts := Fill(size, size - 23);
    RunNext(size, acts, Begin(PLAIN));
    RunNext(size, acts + [Begin(PLAIN)], Produce);
    FullStartsLoop(size, Run(size, acts));
    acts := Thin(size, acts + [Begin(PLAIN)] + [Produce], size - 85);
    acts := Drain(size, acts, 62);
  }

  lemma FullStartsLoop(size: int, s: State)
    requires s.pc == Idle && |s.q| > size - 24
    ensures Next(size, Next(size, s, Begin(PLAIN)), Produce) == s.(pc := Drop(0), drained := 0)
  {
  }

  lemma {:induction false} Fill(size: int, n: nat) returns (acts: seq<Act>)
    requires n <= Cap(size)
    ensures var s := Run(size, acts); s.pc == Idle && |s.q| == n && AllPlain(s.q)
  {
    hide Next;
    acts := [];
    if n > 0 {
      acts := Fill(size, n - 1);
      RunNext(size, acts, Begin(PLAIN));
      RunNext(size, acts + [Begin(PLAIN)], Produce);
      RunNext(size, acts + [Begin(PLAIN)] + [Produce], Produce);
      WriteOne(size, Run(size, acts));
      acts := acts + [Begin(PLAIN)] + [Produce] + [Produce];
    }
  }

  lemma WriteOne(size: int, s: State)
    requires s.pc == Idle && |s.q| < Cap(size)
    ensures
      var t := Next(size, Next(size, Next(size, s, Begin(PLAIN)), Produce), Produce);
      t.pc == Idle && t.q == s.q + [PLAIN]
  {
  }

  // n turns of the loop that drop what they take.
  lemma {:induction false} Thin(size: int, from: seq<Act>, n: nat) returns (acts: seq<Act>)
    requires n <= Turns(size)
    requires var s := Run(size, from); s.pc == Drop(0) && |s.q| == size - 23 && AllPlain(s.q)
    ensures
      var s, t := Run(size, from), Run(size, acts);
      t.pc == Drop(n) && |t.q| == size - 23 - n && t.drained == s.drained && AllPlain(t.q)
  {
    hide Next;
    acts := from;
    if n > 0 {
      acts := Thin(size, from, n - 1);
      RunNext(size, acts, Produce);
      RunNext(size, acts + [Produce], Produce);
      DropOne(size, Run(size, acts));
      acts := acts + [Produce] + [Produce];
    }
  }

  // A turn that drops what it takes.
  lemma DropOne(size: int, s: State)
    requires s.pc.Drop? && s.pc.i < Turns(size) && s.q != [] && |s.q| <= Cap(size) && s.q[0] == PLAIN
    ensures Next(size, s, Produce) == s.(q := s.q[1..], pc := VideoCheck(s.pc.i))
    ensures Next(size, Next(size, s, Produce), Produce) == s.(q := s.q[1..], pc := Drop(s.pc.i + 1))
  {
  }

  lemma {:induction false} Drain(size: int, from: seq<Act>, n: nat) returns (acts: seq<Act>)
    requires |Run(size, from).q| >= n
    ensures
      var s, t := Run(size, from), Run(size, acts);
      t.pc == s.pc && |t.q| == |s.q| - n && t.drained == s.drained + n
  {
    hide Next;
    acts := from;
    if n > 0 {
      acts := Drain(size, from, n - 1);
      RunNext(size, acts, Consume);
      TakeOne(size, Run(size, acts));
      acts := acts + [Consume];
    }
  }

  lemma TakeOne(size: int, s: State)
    requires s.q != []
    ensures Next(size, s, Consume) == s.(q := s.q[1..], received := s.received + [s.q[0]], drained := s.drained + 1)
  {
  }
}
