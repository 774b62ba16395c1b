/**
 From every reachable state, two ticks and the delivery of what they emit, fragment by fragment
 and through the datagram bytes, bring both sides of a direction together.
 */
module Convergence {
  import opened Basics
  import opened Wire
  import opened WireLaws
  import WireCodec
  import opened Streams
  import opened Queues
  import opened Fragments
  import opened FragmentLaws
  import opened Sender
  import opened SenderLaws
  import opened Outbound
  import opened Timing
  import opened Receiver
  import opened ReceiverLaws
  import opened Protocol
  import opened ProtocolInv
  import opened EndToEnd
  import opened Recovery

  // ----- sizes -----

  /** Few enough unacked events that any diff against the head respects the decompression cap. */
  const BACKLOG: nat := 50_000

  /** Compression does not blow up what fits: the cap on an assembly and the fragment index suffice. */
  ghost predicate Compact(z: Zlib, mtu: nat) {
    Budget(mtu) > 0 &&
    forall x: seq<byte> | |x| <= DECOMPRESS_LIMIT ::
      |z.compress(x)| <= ASSEMBLY_LIMIT && |z.compress(x)| <= (MAX_FRAGMENT_INDEX + 1) * Budget(mtu)
  }

  lemma {:induction false} OneLess(n: nat, size: nat, len: nat)
    requires n >= 1 && size < len <= n * size
    ensures n >= 2 && len - size <= (n - 1) * size
  {
    assert (n - 1) * size == n * size - size;
  }

  lemma {:induction false} SliceCount(payload: seq<byte>, size: nat, n: nat)
    requires size > 0 && n >= 1 && |payload| <= n * size
    ensures |Slices(payload, size)| <= n
    decreases |payload|
  {
    if |payload| > size {
      OneLess(n, size, |payload|);
      SliceCount(payload[size..], size, n - 1);
    }
  }

  lemma {:induction false} InstructionLength(m: TransportInstruction)
    requires m.chaff == [] && |m.diff| < U64_LIMIT
    ensures |EncodeInstruction(m)| <= |m.diff| + 140
  {
    hide WriteVarintField, WriteBytesField;
    WireCodec.SevenFields(m);
    NumberFieldLength(1, m.protocolVersion);
    NumberFieldLength(2, m.oldNum);
    NumberFieldLength(3, m.newNum);
    NumberFieldLength(4, m.ackNum);
    NumberFieldLength(5, m.throwawayNum);
    FieldLength(6, m.diff);
    FieldLength(7, m.chaff);
  }
  /** Unacked events: everything typed beyond the stream at the front of the queue. */
  function Unacked(o: Out): int
    requires |o.sender.sent| > 0 && o.sender.Front().num in o.history.states
  {
    |o.history.typed| - |o.history.states[o.sender.Front().num]|
  }

  /** An instruction from the head of a short backlog is within every cap. */
  lemma {:induction false} HeadFits(m: TransportInstruction, h: History, z: Zlib, mtu: nat)
    requires Coherent(m, h) && Compact(z, mtu) && |h.typed| < STREAM_LIMIT
    requires h.states[m.newNum] == h.typed && |h.typed| - |h.states[m.oldNum]| <= BACKLOG
    ensures |EncodeInstruction(m)| <= DECOMPRESS_LIMIT && |PayloadOf(m, z)| <= ASSEMBLY_LIMIT
    ensures |Slices(PayloadOf(m, z), Budget(mtu))| <= MAX_FRAGMENT_INDEX + 1
  {
    hide EncodeInstruction, DiffFrom, Slices;
    var base := h.states[m.oldNum];
    PrefixIsCommon(h.typed, base);
    DiffSize(h.typed, base);
    InstructionLength(m);
    assert |EncodeInstruction(m)| <= DECOMPRESS_LIMIT;
    SliceCount(PayloadOf(m, z), Budget(mtu), MAX_FRAGMENT_INDEX + 1);
  }

  // ----- a tick at a late enough moment -----

  /** The sender has a number and an id left, and a short backlog. */
  predicate Able(o: Out) {
    && o.sender.Live() && Room(o.sender) && o.framer.nextId + 1 < U64_LIMIT
    && o.sender.Front().num in o.history.states && Unacked(o) <= BACKLOG
  }

  /** A moment by which every sent state is stale and the ack deadline has passed. */
  function Late(o: Out, rto: nat, interval: nat): nat
    requires |o.sender.sent| > 0
  {
    o.clock + o.sender.Back().timestamp + rto + ACK_DELAY + interval + o.sender.nextAck
  }

  function LateTick(o: Out, rto: nat, interval: nat, mtu: nat): Op
    requires |o.sender.sent| > 0
  {
    DoTick(Late(o, rto, interval), rto, interval, mtu)
  }

  lemma {:induction false} LateFrames(o: Out, rto: nat, interval: nat, mtu: nat, z: Zlib)
    requires OutInv(o, z) && Able(o) && Compact(z, mtu)
    ensures var op := LateTick(o, rto, interval, mtu);
            && Enabled(o, op) && Stale(o.sender, op.now, rto) && AckDue(o.sender, op.now, interval)
            && Frames(o, op, z)
  {
    var now := Late(o, rto, interval);
    SameTimes(o.sender.sent, o.sender.sent, o.clock, now);
    StaleTick(o.sender, o.history, now, rto, interval);
    TickKeeps(o.sender, o.history, now, rto, interval);
    hide Inv, Tick, Slices, PayloadOf, Coherent, Timed, EmissionsOk, IdsOk, Packet, Stamp, Extends, Compact, EncodeInstruction;
    var t := Tick(o.sender, now, rto, interval);
    TickBases(o.sender, o.history, now, rto, interval);
    HeadFits(t.inst.value, TickHistory(o.sender, o.history, t), z, mtu);
  }

  /** The history after a tick still has the head's stream, and everything typed under the new number. */
  lemma {:induction false} TickBases(s: Sender, h: History, now: nat, rto: nat, interval: nat)
    requires Inv(s, h) && Room(s) && s.Front().num in h.states
    requires Tick(s, now, rto, interval).inst.Some?
    ensures var t := Tick(s, now, rto, interval);
            var g := TickHistory(s, h, t);
            && s.Front().num in g.states && g.states[s.Front().num] == h.states[s.Front().num]
            && g.typed == h.typed && t.inst.value.newNum in g.states && g.states[t.inst.value.newNum] == h.typed
  {
    TickKeeps(s, h, now, rto, interval);
    TickExtends(s, h, now, rto, interval);
    hide Inv, Tick, Coherent;
  }

  /** In shutdown every instruction carries the shutdown number. */
  lemma {:induction false} ShutdownNumber(s: Sender, now: nat, rto: nat, interval: nat)
    requires s.Live() && s.shutdown
    ensures var t := Tick(s, now, rto, interval);
            t.inst.Some? ==> t.inst.value.newNum == SHUTDOWN_NUM
  {
    hide Prepared, NextSend, Bet, DiffFrom, AddSent;
    PreparedFront(s, now, rto);
    BetBase(Timers(Prepared(s, now, rto), now, rto, interval).0);
  }

  lemma {:induction false} EmittedInstruction(o: Out, now: nat, rto: nat, interval: nat, mtu: nat, z: Zlib)
    requires o.sender.Live() && Enabled(o, DoTick(now, rto, interval, mtu))
    ensures var p, t := Apply(o, DoTick(now, rto, interval, mtu), z), Tick(o.sender, now, rto, interval);
            |p.emissions| > |o.emissions| ==> t.inst == Some(Last(p.emissions).inst)
  {
    hide Tick, MakeFragments;
  }

  /** The emitted instruction is within every cap. */
  lemma {:induction false} EmittedFits(o: Out, p: Out, z: Zlib, mtu: nat)
    requires OutInv(o, z) && OutInv(p, z) && Able(o) && Compact(z, mtu) && |p.emissions| > 0
    requires Extends(o.history, p.history) && p.history.typed == o.history.typed
    requires var m := Last(p.emissions).inst;
             m.oldNum == o.sender.Front().num && m.newNum in p.history.states && p.history.states[m.newNum] == p.history.typed
    ensures Sendable(Last(p.emissions), z)
  {
    EmissionFacts(p, z, |p.emissions| - 1);
    SenderFacts(p, z);
    hide OutInv, EncodeInstruction, PayloadOf, Slices, Inv;
    HeadFits(Last(p.emissions).inst, p.history, z, mtu);
  }

  /** What the late tick leaves behind. */
  lemma {:induction false} LateTickEmits(o: Out, rto: nat, interval: nat, mtu: nat, z: Zlib)
    requires OutInv(o, z) && Able(o) && Compact(z, mtu)
    ensures var p := Apply(o, LateTick(o, rto, interval, mtu), z);
            && p.sender.Live() && |p.emissions| == |o.emissions| + 1 && o.emissions <= p.emissions
            && var e := Last(p.emissions);
               && e.inst.oldNum == o.sender.Front().num == p.sender.Front().num
               && e.inst.newNum == p.sender.Back().num && e.inst.ackNum == o.sender.ackNum
               && p.sender.Back().num in p.history.states && p.history.states[p.sender.Back().num] == o.history.typed
               && p.history.typed == o.history.typed && Sendable(e, z)
               && (o.sender.shutdown ==> p.sender.Back().num == SHUTDOWN_NUM)
  {
    var op := LateTick(o, rto, interval, mtu);
    LateFrames(o, rto, interval, mtu, z);
    hide OutInv, Apply, Inv, Stale, AckDue, Frames, Enabled, Late, Tick, Extends, Sendable, Compact;
    StaleTickEmits(o, op.now, rto, interval, mtu, z);
    OwnOpFront(o, op, z);
    OwnOpAcks(o, op, z);
    ApplyKeeps(o, op, z);
    GrowsFacts(o, Apply(o, op, z), z);
    EmittedFits(o, Apply(o, op, z), z, mtu);
    EmittedInstruction(o, op.now, rto, interval, mtu, z);
    if o.sender.shutdown { ShutdownNumber(o.sender, op.now, rto, interval); }
  }

  // ----- delivering all fragments of one emission -----

  /** Deliveries of the fragments `i` to `n - 1` of emission `k`, in order, at one moment. */
  function Deliveries(atA: bool, k: nat, i: nat, n: nat, now: nat): seq<Step>
    requires i <= n
    decreases n - i
  {
    if i == n then [] else [Step(atA, Deliver(k, i, now))] + Deliveries(atA, k, i + 1, n, now)
  }

  /** The receiver has come to `num`, and the head of its own queue to `front`. */
  predicate Goal(q: Endpoint, num: int, front: int) {
    Populated(q) && Newest(q.receiver).num >= num && q.out.sender.Front().num >= front
  }

  /** The first `i` fragments of the packet are in, and the packet is not complete. */
  predicate Partial(a: Assembly, id: u64, n: nat, i: nat) {
    i > 0 ==> a.currentId == id && Upto(i) <= Indices(a.slots) && Indices(a.slots) != Upto(n)
  }

  /** What a delivery cannot change about the side that takes it in. */
  predicate SameSide(q: Endpoint, q': Endpoint)
    requires |q.out.sender.sent| > 0 && |q'.out.sender.sent| > 0
  {
    && q'.out.history == q.out.history && q'.out.framer == q.out.framer && q'.out.emissions == q.out.emissions
    && q'.out.sender.Back() == q.out.sender.Back() && q'.out.sender.shutdown == q.out.sender.shutdown
  }

  lemma {:induction false} HandleSameSide(q: Endpoint, m: TransportInstruction, now: nat, z: Zlib)
    requires OutInv(q.out, z)
    ensures q.out.sender.Live()
    ensures |Handle(q, m, now).out.sender.sent| > 0 && SameSide(q, Handle(q, m, now))
  {
    hide OutInv, Inv, Process, ApplyString, ProcessAck, Has;
    SenderFacts(q.out, z);
    AckKeeps(q.out.sender, q.out.history, m.ackNum);
    AckShutdown(q.out.sender, m.ackNum);
    InvLive(ProcessAck(q.out.sender, m.ackNum), q.out.history);
  }

  /** Handling looks at the sender and the receiver only. */
  lemma {:induction false} HandleIgnoresRest(q: Endpoint, q': Endpoint, m: TransportInstruction, now: nat, num: int, front: int)
    requires q.out.sender.Live() && q'.out.sender == q.out.sender && q'.receiver == q.receiver
    requires Goal(Handle(q, m, now), num, front)
    ensures Goal(Handle(q', m, now), num, front)
  {
    hide Process, ApplyString, ProcessAck;
  }

  /** One more fragment in order: the instruction is out, or one more index is in. */
  lemma {:induction false} AssemblyProgress(p: Endpoint, q: Endpoint, k: nat, i: nat, z: Zlib)
    requires Lawful(z) && DirInv(p, q, z)
    requires k < |p.out.emissions| && i < |p.out.emissions[k].fragments| && Sendable(p.out.emissions[k], z)
    requires Partial(q.asm, p.out.emissions[k].id, |p.out.emissions[k].fragments|, i)
    ensures var e := p.out.emissions[k];
            var (asm, m) := AddFragment(q.asm, e.fragments[i], z);
            m == Some(e.inst) || (m == None && Partial(asm, e.id, |e.fragments|, i + 1))
  {
    var e := p.out.emissions[k];
    CutFromEmission(p.out, z, k);
    hide OutInv, AddFragment, Mirrors, Has, AcksOk, FramerOk, RecvInv, Contents, PayloadOf, WithinCaps, Holds;
    AddOfPacket(q.asm, e.fragments[i], Sent(e.inst, e.fragments), z);
  }

  /** One delivery: the goal is met, or one more index is in. */
  lemma {:induction false} DeliverOne(
    p: Endpoint, q: Endpoint, k: nat, i: nat, now: nat, num: int, front: int, z: Zlib)
    requires Lawful(z) && DirInv(p, q, z) && DirInv(q, p, z)
    requires k < |p.out.emissions| && i < |p.out.emissions[k].fragments| && q.out.clock <= now
    requires Sendable(p.out.emissions[k], z) && q.out.sender.Live()
    requires var e := p.out.emissions[k];
             && Partial(q.asm, e.id, |e.fragments|, i)
             && Goal(Handle(q, e.inst, now), num, front)
    ensures var e := p.out.emissions[k];
            var q' := Act(q, p, Deliver(k, i, now), z);
            && q'.out.sender.Live()
            && (Goal(q', num, front) ||
                (Partial(q'.asm, e.id, |e.fragments|, i + 1) && Goal(Handle(q', e.inst, now), num, front)))
  {
    hide DirInv, OutInv, Handle, AddFragment, Parse, ToBytes, Partial, Goal, Sendable;
    var e := p.out.emissions[k];
    ActKeeps(p, q, Deliver(k, i, now), z);
    LiveOut(Act(q, p, Deliver(k, i, now), z), p, z);
    Fragmented(p, q, k, i, z);
    AssemblyProgress(p, q, k, i, z);
    var asm := AddFragment(q.asm, e.fragments[i], z).0;
    HandleIgnoresRest(q, q.(out := q.out.(clock := now), asm := asm), e.inst, now, num, front);
  }

  lemma {:induction false} LiveOut(p: Endpoint, q: Endpoint, z: Zlib)
    requires DirInv(p, q, z)
    ensures p.out.sender.Live()
  {
    OutLive(p.out, z);
    hide OutInv;
  }

  lemma {:induction false} Fragmented(p: Endpoint, q: Endpoint, k: nat, i: nat, z: Zlib)
    requires DirInv(p, q, z) && k < |p.out.emissions| && i < |p.out.emissions[k].fragments|
    ensures Parse(ToBytes(p.out.emissions[k].fragments[i])) == Success(p.out.emissions[k].fragments[i])
  {
    DatagramIsFragment(p.out, z, k, i);
    hide OutInv, Parse, ToBytes;
  }

  lemma {:induction false} HandleClock(q: Endpoint, m: TransportInstruction, now: nat)
    requires q.out.sender.Live()
    ensures Handle(q, m, now).out.clock == q.out.clock
  {
    hide Process, ApplyString, ProcessAck;
  }

  /** A packet with all indices in but not reported does not exist. */
  lemma {:induction false} PartialIsShort(a: Assembly, es: seq<Emission>, k: nat, z: Zlib)
    requires AsmOk(a, es, z) && k < |es| && |es[k].fragments| >= 1
    ensures !Partial(a, es[k].id, |es[k].fragments|, |es[k].fragments|)
  {
    if a.currentId == es[k].id { HoldsWithin(a, es[k].fragments); }
    hide Holds, Upto, Indices;
  }

  lemma {:induction false} HoldsWithin(a: Assembly, p: seq<Fragment>)
    requires Holds(a, p)
    ensures Indices(a.slots) <= Upto(|p|)
  {
  }

  lemma {:induction false} SameSideTransitive(a: Endpoint, b: Endpoint, c: Endpoint)
    requires |a.out.sender.sent| > 0 && |b.out.sender.sent| > 0 && |c.out.sender.sent| > 0
    requires SameSide(a, b) && SameSide(b, c)
    ensures SameSide(a, c)
  {
  }

  /** The step of a delivery, in system terms. */
  lemma {:induction false} DeliveryStep(s: System, fromA: bool, k: nat, i: nat, now: nat, z: Zlib)
    requires s.a.out.sender.Live() && s.b.out.sender.Live()
    ensures var t := Next(s, Step(!fromA, Deliver(k, i, now)), z);
            From(t, fromA) == From(s, fromA) && To(t, fromA) == Act(To(s, fromA), From(s, fromA), Deliver(k, i, now), z)
  {
    hide Act;
  }

  lemma {:induction false} GoalStays(p: Endpoint, q: Endpoint, action: Action, num: int, front: int, z: Zlib)
    requires Lawful(z) && DirInv(p, q, z) && DirInv(q, p, z) && Goal(q, num, front)
    ensures q.out.sender.Live() && Goal(Act(q, p, action, z), num, front)
  {
    hide DirInv, Act, Extends;
    ActAdvances(p, q, action, z);
  }

  lemma {:induction false} DeliverKeepsSide(p: Endpoint, q: Endpoint, k: nat, i: nat, now: nat, z: Zlib)
    requires DirInv(q, p, z) && q.out.clock <= now && q.out.sender.Live()
    ensures var q' := Act(q, p, Deliver(k, i, now), z);
            |q'.out.sender.sent| > 0 && SameSide(q, q') && q'.out.clock <= now
  {
    hide DirInv, OutInv, Handle, AddFragment, Parse, ToBytes;
    if k < |p.out.emissions| && i < |p.out.emissions[k].fragments| {
      var datagram := ToBytes(p.out.emissions[k].fragments[i]);
      if Parse(datagram).Success? {
        ClockMoves(q, p, now, z);
        OutOf(q.(out := q.out.(clock := now)), p, z);
        var (asm, m) := AddFragment(q.asm, Parse(datagram).value, z);
        if m.Some? {
          var q1 := q.(out := q.out.(clock := now), asm := asm);
          HandleSameSide(q1, m.value, now, z);
          HandleClock(q1, m.value, now);
        }
      }
    }
  }

  /** Delivering the rest of the fragments meets the goal, and changes nothing of what the side had to say. */
  lemma {:induction false} DeliverRest(
    s: System, fromA: bool, k: nat, i: nat, now: nat, num: int, front: int, z: Zlib)
    requires Lawful(z) && SysInv(s, z)
    requires var p, q := From(s, fromA), To(s, fromA);
             && k < |p.out.emissions| && i <= |p.out.emissions[k].fragments|
             && q.out.clock <= now && Sendable(p.out.emissions[k], z) && q.out.sender.Live()
             && (Goal(q, num, front) ||
                 (Partial(q.asm, p.out.emissions[k].id, |p.out.emissions[k].fragments|, i)
                  && Goal(Handle(q, p.out.emissions[k].inst, now), num, front)))
    ensures var p, q := From(s, fromA), To(s, fromA);
            var r := Exec(s, Deliveries(!fromA, k, i, |p.out.emissions[k].fragments|, now), z);
            && SysInv(r, z) && From(r, fromA) == p && Goal(To(r, fromA), num, front) && SameSide(q, To(r, fromA))
    decreases |From(s, fromA).out.emissions[k].fragments| - i
  {
    hide SysInv, DirInv, Act, Handle, Partial, Sendable;
    var p, q := From(s, fromA), To(s, fromA);
    var e, n := p.out.emissions[k], |p.out.emissions[k].fragments|;
    LiveBoth(s, z);
    Direction(s, z, fromA);
    Direction(s, z, !fromA);
    if i == n {
      if !Goal(q, num, front) { NotPartialAtEnd(p, q, k, z); }
    } else {
      var step := Step(!fromA, Deliver(k, i, now));
      DeliveryStep(s, fromA, k, i, now, z);
      StepKeeps(s, step, z);
      var t := Next(s, step, z);
      LiveBoth(t, z);
      DeliverKeepsSide(p, q, k, i, now, z);
      if Goal(q, num, front) {
        GoalStays(p, q, Deliver(k, i, now), num, front, z);
      } else {
        DeliverOne(p, q, k, i, now, num, front, z);
      }
      DeliverRest(t, fromA, k, i + 1, now, num, front, z);
      var steps := Deliveries(!fromA, k, i, n, now);
      assert steps[0] == step && steps[1..] == Deliveries(!fromA, k, i + 1, n, now);
      SameSideTransitive(q, To(t, fromA), To(Exec(t, steps[1..], z), fromA));
    }
  }

  lemma {:induction false} NotPartialAtEnd(p: Endpoint, q: Endpoint, k: nat, z: Zlib)
    requires DirInv(p, q, z) && k < |p.out.emissions|
    ensures !Partial(q.asm, p.out.emissions[k].id, |p.out.emissions[k].fragments|, |p.out.emissions[k].fragments|)
  {
    hide OutInv, AsmOk, Partial;
    EmissionCut(p.out, z, k);
    PartialIsShort(q.asm, p.out.emissions, k, z);
  }

  // ----- a round: one side ticks, the other takes everything in -----

  /** The late tick of one side, and the delivery of every fragment of what it emits. */
  function Round(s: System, fromA: bool, rto: nat, interval: nat, mtu: nat, z: Zlib): seq<Step>
    requires From(s, fromA).out.sender.Live()
  {
    var p, q := From(s, fromA), To(s, fromA);
    var op := LateTick(p.out, rto, interval, mtu);
    var es := Apply(p.out, op, z).emissions;
    [Step(fromA, Local(op))] +
    (if es == [] then []
     else Deliveries(!fromA, |es| - 1, 0, |Last(es).fragments|, q.out.clock + q.receiver.quenchUntil))
  }

  /** Where the acked number stands in the other side's queue, if it is the newest. */
  function Acks(p: Endpoint, q: Endpoint): int
    requires |q.out.sender.sent| > 0
  {
    if p.out.sender.ackNum == q.out.sender.Back().num then p.out.sender.ackNum else 0
  }

  /** Handling the emission of a late tick brings the receiver level and the acked queue down. */
  lemma {:induction false} HandledGoal(p: Endpoint, q: Endpoint, k: nat, now: nat, acks: int, z: Zlib)
    requires DirInv(p, q, z) && DirInv(q, p, z) && k < |p.out.emissions|
    requires p.out.sender.Live() && q.out.sender.Live() && now >= q.receiver.quenchUntil
    requires p.out.emissions[k].inst.newNum == p.out.sender.Back().num
    requires p.out.emissions[k].inst.oldNum == p.out.sender.Front().num
    requires acks == (if p.out.emissions[k].inst.ackNum == q.out.sender.Back().num then q.out.sender.Back().num else 0)
    ensures Goal(Handle(q, p.out.emissions[k].inst, now), p.out.sender.Back().num, acks)
  {
    hide DirInv, Handle, Has;
    HeadHeld(p, q, z);
    NewestTaken(p, q, k, now, z);
    HandledLive(p, q, k, now, z);
    if p.out.emissions[k].inst.ackNum == q.out.sender.Back().num { AckTaken(q, p, k, now, z); }
  }

  lemma {:induction false} HandledLive(p: Endpoint, q: Endpoint, k: nat, now: nat, z: Zlib)
    requires DirInv(q, p, z) && k < |p.out.emissions|
    ensures q.out.sender.Live() && |Handle(q, p.out.emissions[k].inst, now).out.sender.sent| > 0
  {
    HandledBySender(p, q, k, now, z);
    LiveOut(Handle(q, p.out.emissions[k].inst, now), p, z);
    hide DirInv, Handle;
  }

  lemma {:induction false} TickStep(s: System, fromA: bool, op: Op, z: Zlib)
    requires s.a.out.sender.Live() && s.b.out.sender.Live() && OwnOp(op)
    ensures var t := Next(s, Step(fromA, Local(op)), z);
            && To(t, fromA) == To(s, fromA)
            && From(t, fromA) == From(s, fromA).(out := Apply(From(s, fromA).out, op, z))
  {
    hide Apply;
  }

  /** The tick of a round, in system terms. */
  lemma {:induction false} RoundTick(s: System, fromA: bool, rto: nat, interval: nat, mtu: nat, z: Zlib)
    requires Lawful(z) && SysInv(s, z) && Able(From(s, fromA).out) && Compact(z, mtu)
    requires s.a.out.sender.Live() && s.b.out.sender.Live()
    ensures var p := From(s, fromA);
            var t := Next(s, Step(fromA, Local(LateTick(p.out, rto, interval, mtu))), z);
            var p', k := From(t, fromA), |p.out.emissions|;
            && SysInv(t, z) && To(t, fromA) == To(s, fromA)
            && p' == p.(out := Apply(p.out, LateTick(p.out, rto, interval, mtu), z))
            && p'.out.sender.Live() && |p'.out.emissions| == k + 1 && Sendable(p'.out.emissions[k], z)
            && p'.out.emissions[k].inst.newNum == p'.out.sender.Back().num
            && p'.out.emissions[k].inst.oldNum == p'.out.sender.Front().num
            && p'.out.emissions[k].inst.ackNum == p.out.sender.ackNum
  {
    hide SysInv, DirInv, OutInv, Apply, Late, Sendable, Compact, Room, Unacked, Extends, Next;
    Direction(s, z, fromA);
    var p, q := From(s, fromA), To(s, fromA);
    var op := LateTick(p.out, rto, interval, mtu);
    OutOf(p, q, z);
    LateTickEmits(p.out, rto, interval, mtu, z);
    TickStep(s, fromA, op, z);
    StepKeeps(s, Step(fromA, Local(op)), z);
  }

  /** A round leaves the receiving side with everything the ticking side had typed. */
  lemma {:induction false} RoundDelivers(s: System, fromA: bool, rto: nat, interval: nat, mtu: nat, z: Zlib)
    requires Lawful(z) && SysInv(s, z) && Able(From(s, fromA).out) && Compact(z, mtu)
    ensures s.a.out.sender.Live() && s.b.out.sender.Live()
    ensures var p, q := From(s, fromA), To(s, fromA);
            var op := LateTick(p.out, rto, interval, mtu);
            var r := Exec(s, Round(s, fromA, rto, interval, mtu, z), z);
            && SysInv(r, z) && From(r, fromA) == p.(out := Apply(p.out, op, z))
            && From(r, fromA).out.sender.Live()
            && Goal(To(r, fromA), From(r, fromA).out.sender.Back().num, Acks(p, q))
            && SameSide(q, To(r, fromA))
  {
    hide SysInv, DirInv, Apply, Handle, Late, Sendable, Compact, Able, Goal, SameSide, Exec, Next;
    LiveBoth(s, z);
    var p, q := From(s, fromA), To(s, fromA);
    RoundTick(s, fromA, rto, interval, mtu, z);
    var step := Step(fromA, Local(LateTick(p.out, rto, interval, mtu)));
    var t := Next(s, step, z);
    LiveBoth(t, z);
    Direction(t, z, fromA);
    Direction(t, z, !fromA);
    var p', k, now := From(t, fromA), |p.out.emissions|, q.out.clock + q.receiver.quenchUntil;
    HandledGoal(p', q, k, now, Acks(p, q), z);
    DeliverRest(t, fromA, k, 0, now, p'.out.sender.Back().num, Acks(p, q), z);
    var rest := Deliveries(!fromA, k, 0, |p'.out.emissions[k].fragments|, now);
    assert Round(s, fromA, rto, interval, mtu, z) == [step] + rest;
    ExecConcat(s, [step], rest, z);
    OneStep(s, step, z);
  }

  lemma {:induction false} OneStep(s: System, step: Step, z: Zlib)
    requires s.a.out.sender.Live() && s.b.out.sender.Live()
    ensures Exec(s, [step], z) == Next(s, step, z)
  {
    hide Next;
    assert [step][1..] == [];
  }

  lemma {:induction false} OutOf(p: Endpoint, q: Endpoint, z: Zlib)
    requires DirInv(p, q, z)
    ensures OutInv(p.out, z)
  {
    hide OutInv;
  }

  // ----- convergence -----

  /** Taking deliveries in leaves a side able to tick: its head only moves up. */
  lemma {:induction false} AbleStays(q: Endpoint, q': Endpoint, z: Zlib)
    requires OutInv(q.out, z) && OutInv(q'.out, z) && Able(q.out)
    requires |q'.out.sender.sent| > 0 && SameSide(q, q') && q.out.sender.Front().num <= q'.out.sender.Front().num
    ensures Able(q'.out)
  {
    hide EmissionsOk, IdsOk, Timed, Rising;
    assert q'.out.history.states[q.out.sender.Front().num] <= q'.out.history.states[q'.out.sender.Front().num];
  }

  /** What the two sides of a direction have when they are together. */
  predicate Together(p: Endpoint, q: Endpoint, p': Endpoint, q': Endpoint) {
    && Populated(p) && Populated(q) && Populated(p') && Populated(q')
    && p'.out.history.typed == p.out.history.typed == Newest(q'.receiver).state
    && q'.out.history.typed == q.out.history.typed == Newest(p'.receiver).state
    && p'.out.sender.Front().num == p'.out.sender.Back().num == Newest(q'.receiver).num
    && (p.out.sender.shutdown ==> ShutdownAcknowledged(p'.out.sender))
  }

  /** A receiver that has come to the newest number holds everything typed. */
  lemma {:induction false} LevelIsWhole(p: Endpoint, q: Endpoint, z: Zlib)
    requires DirInv(p, q, z) && p.out.sender.Live() && Goal(q, p.out.sender.Back().num, 0)
    requires p.out.sender.Back().num in p.out.history.states
    ensures Newest(q.receiver).num == p.out.sender.Back().num == q.out.sender.ackNum
    ensures Newest(q.receiver).state == p.out.history.states[p.out.sender.Back().num]
  {
    NewestBelowBack(p, q, z);
    HeldIsRecorded(p, q, z, Newest(q.receiver));
    hide OutInv, AsmOk, AcksOk, FramerOk, Strict, Mirrors, Has;
  }

  lemma {:induction false} FrontBelowBack(o: Out, z: Zlib)
    requires OutInv(o, z)
    ensures o.sender.Live() && o.sender.Front().num <= o.sender.Back().num
  {
    hide EmissionsOk, IdsOk, Timed, Monotone, Faithful;
  }

  /** Two rounds bring a reachable system together. */
  lemma {:induction false} TwoRounds(s: System, fromA: bool, rto: nat, interval: nat, mtu: nat, z: Zlib)
    requires Lawful(z) && SysInv(s, z) && Compact(z, mtu)
    requires Able(From(s, fromA).out) && Able(To(s, fromA).out)
    ensures var s1 := Exec(s, Round(s, fromA, rto, interval, mtu, z), z);
            && To(s1, fromA).out.sender.Live()
            && var s2 := Exec(s1, Round(s1, !fromA, rto, interval, mtu, z), z);
               Together(From(s, fromA), To(s, fromA), From(s2, fromA), To(s2, fromA))
  {
    hide SysInv, DirInv, OutInv, Apply, Handle, Late, Compact, Able, Has, SameSide, Round, Exec;
    var p, q := From(s, fromA), To(s, fromA);
    Direction(s, z, fromA);
    Direction(s, z, !fromA);
    OutOf(p, q, z);
    OutOf(q, p, z);
    RoundDelivers(s, fromA, rto, interval, mtu, z);
    LateTickEmits(p.out, rto, interval, mtu, z);
    var s1 := Exec(s, Round(s, fromA, rto, interval, mtu, z), z);
    var p1, q1 := From(s1, fromA), To(s1, fromA);
    Direction(s1, z, fromA);
    Direction(s1, z, !fromA);
    LiveBoth(s1, z);
    OutOf(q1, p1, z);
    ExecAdvances(s, Round(s, fromA, rto, interval, mtu, z), z, !fromA);
    AbleStays(q, q1, z);
    GoalWeakens(q1, p1.out.sender.Back().num, Acks(p, q));
    LevelIsWhole(p1, q1, z);
    SecondRound(s1, fromA, rto, interval, mtu, z);
    SameTyped(q, q1);
    SameTyped(p1, From(Exec(s1, Round(s1, !fromA, rto, interval, mtu, z), z), fromA));
    LiveBoth(s, z);
  }

  lemma {:induction false} GoalWeakens(q: Endpoint, num: int, front: int)
    requires Goal(q, num, front) && front >= 0
    ensures Goal(q, num, 0)
  {
  }

  lemma {:induction false} SameTyped(q: Endpoint, q': Endpoint)
    requires |q.out.sender.sent| > 0 && |q'.out.sender.sent| > 0 && SameSide(q, q')
    ensures q'.out.history.typed == q.out.history.typed && q'.out.sender.Back() == q.out.sender.Back()
    ensures q'.out.sender.shutdown == q.out.sender.shutdown
  {
  }

  /** The round back: the other stream arrives, and the ack with it empties the queue. */
  lemma {:induction false} SecondRound(s: System, fromA: bool, rto: nat, interval: nat, mtu: nat, z: Zlib)
    requires Lawful(z) && SysInv(s, z) && Compact(z, mtu) && Able(To(s, fromA).out)
    requires From(s, fromA).out.sender.Live()
    requires To(s, fromA).out.sender.ackNum == From(s, fromA).out.sender.Back().num
    ensures To(s, fromA).out.sender.Live()
    ensures var r := Exec(s, Round(s, !fromA, rto, interval, mtu, z), z);
            && Populated(From(r, fromA)) && Populated(To(r, fromA))
            && SameSide(From(s, fromA), From(r, fromA)) && To(r, fromA).receiver == To(s, fromA).receiver
            && To(r, fromA).out.history.typed == To(s, fromA).out.history.typed == Newest(From(r, fromA).receiver).state
            && From(r, fromA).out.sender.Front().num == From(r, fromA).out.sender.Back().num
  {
    hide SysInv, DirInv, OutInv, Apply, Handle, Late, Compact, Able, Has, Round, Exec;
    var p, q := From(s, fromA), To(s, fromA);
    LiveBoth(s, z);
    Direction(s, z, !fromA);
    OutOf(q, p, z);
    RoundDelivers(s, !fromA, rto, interval, mtu, z);
    LateTickEmits(q.out, rto, interval, mtu, z);
    var r := Exec(s, Round(s, !fromA, rto, interval, mtu, z), z);
    var p', q' := From(r, fromA), To(r, fromA);
    LiveBoth(r, z);
    Direction(r, z, fromA);
    Direction(r, z, !fromA);
    OutOf(p', q', z);
    FrontBelowBack(p'.out, z);
    LevelIsWhole(q', p', z);
  }

  /**
   Convergence. From every reachable state in which both sides have a number and an id left and a
   short enough backlog, and for a compression that does not blow up what fits, there is a
   continuation of two ticks and of deliveries of their fragments after which each side's newest
   state is everything the other has typed and the sender's queue starts at its newest number. If
   the sender had begun to shut down, its shutdown is then acknowledged.
   */
  lemma {:induction false} Converges(
    c: Setup, steps: seq<Step>, z: Zlib, fromA: bool, rto: nat, interval: nat, mtu: nat)
    requires Lawful(z) && Compact(z, mtu)
    requires Able(From(Reached(c, steps, z), fromA).out) && Able(To(Reached(c, steps, z), fromA).out)
    ensures exists later: seq<Step> ::
              var s, r := Reached(c, steps, z), Exec(Reached(c, steps, z), later, z);
              Together(From(s, fromA), To(s, fromA), From(r, fromA), To(r, fromA))
  {
    hide Exec, Reached, SysInv, Together, Able, Compact, Round;
    var s := Reached(c, steps, z);
    EndToEnd.ReachedKeeps(c, steps, z);
    LiveBoth(s, z);
    TwoRounds(s, fromA, rto, interval, mtu, z);
    var a := Round(s, fromA, rto, interval, mtu, z);
    var b := Round(Exec(s, a, z), !fromA, rto, interval, mtu, z);
    ExecConcat(s, a, b, z);
    var r := Exec(s, a + b, z);
    assert Together(From(s, fromA), To(s, fromA), From(r, fromA), To(r, fromA));
  }
}
