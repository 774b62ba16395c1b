/** What two honest endpoints promise each other over every run, whatever the channel does. */
module EndToEnd {
  import opened Basics
  import opened Wire
  import opened Streams
  import opened Queues
  import opened Fragments
  import opened Sender
  import opened SenderLaws
  import opened Outbound
  import opened Sending
  import opened Receiver
  import opened ReceiverLaws
  import opened Protocol
  import opened ProtocolInv

  // ----- runs -----

  datatype Setup = Setup(nowA: nat, mindelayA: nat, nowB: nat, mindelayB: nat)

  function Start(c: Setup): System {
    System(InitEndpoint(c.nowA, c.mindelayA), InitEndpoint(c.nowB, c.mindelayB))
  }

  lemma {:induction false} StartInv(c: Setup, z: Zlib)
    ensures SysInv(Start(c), z)
  {
    InitDir(c.nowA, c.mindelayA, c.nowB, c.mindelayB, z);
    InitDir(c.nowB, c.mindelayB, c.nowA, c.mindelayA, z);
    hide DirInv;
  }

  lemma {:induction false} StepKeeps(s: System, step: Step, z: Zlib)
    requires Lawful(z) && SysInv(s, z)
    ensures s.a.out.sender.Live() && s.b.out.sender.Live()
    ensures SysInv(Next(s, step, z), z)
  {
    hide DirInv, Act;
    ActKeeps(s.b, s.a, step.action, z);
    ActKeeps(s.a, s.b, step.action, z);
  }

  /** A run of steps. A sender that cannot be read would stop it; `ExecKeeps` rules that out. */
  function Exec(s: System, steps: seq<Step>, z: Zlib): System
    decreases |steps|
  {
    if steps == [] || !s.a.out.sender.Live() || !s.b.out.sender.Live() then s
    else Exec(Next(s, steps[0], z), steps[1..], z)
  }

  lemma {:induction false} ExecKeeps(s: System, steps: seq<Step>, z: Zlib)
    requires Lawful(z) && SysInv(s, z)
    ensures SysInv(Exec(s, steps, z), z)
    decreases |steps|
  {
    hide SysInv, Next;
    if steps != [] {
      StepKeeps(s, steps[0], z);
      ExecKeeps(Next(s, steps[0], z), steps[1..], z);
    }
  }

  /** A run cut in two. */
  lemma {:induction false} ExecConcat(s: System, a: seq<Step>, b: seq<Step>, z: Zlib)
    ensures Exec(s, a + b, z) == Exec(Exec(s, a, z), b, z)
    decreases |a|
  {
    hide Next;
    if a == [] {
      assert a + b == b;
    } else if s.a.out.sender.Live() && s.b.out.sender.Live() {
      assert (a + b)[0] == a[0] && (a + b)[1..] == a[1..] + b;
      ExecConcat(Next(s, a[0], z), a[1..], b, z);
    }
  }

  /** The system after any steps from its start. */
  function Reached(c: Setup, steps: seq<Step>, z: Zlib): System {
    Exec(Start(c), steps, z)
  }

  /** Every reachable pair of endpoints satisfies the invariant, in both directions. */
  lemma {:induction false} ReachedKeeps(c: Setup, steps: seq<Step>, z: Zlib)
    requires Lawful(z)
    ensures SysInv(Reached(c, steps, z), z)
  {
    hide SysInv, Exec;
    StartInv(c, z);
    ExecKeeps(Start(c), steps, z);
  }

  /** The sending and the receiving endpoint of one direction. */
  function From(s: System, fromA: bool): Endpoint {
    if fromA then s.a else s.b
  }

  function To(s: System, fromA: bool): Endpoint {
    if fromA then s.b else s.a
  }

  // ----- what a step cannot undo -----

  /** One direction, earlier and later. */
  predicate Advances(p: Endpoint, q: Endpoint, p': Endpoint, q': Endpoint)
    requires |p.out.sender.sent| > 0 && |p'.out.sender.sent| > 0
    requires |q.receiver.received| > 0 && |q'.receiver.received| > 0
  {
    && Extends(p.out.history, p'.out.history)
    && p.out.emissions <= p'.out.emissions
    && p.out.sender.Front().num <= p'.out.sender.Front().num
    && Newest(q.receiver).num <= Newest(q'.receiver).num
    && (p.out.sender.shutdown ==> p'.out.sender.shutdown && p'.out.history.typed == p.out.history.typed)
  }

  lemma {:induction false} HandleKeepsShutdown(q: Endpoint, m: TransportInstruction, now: nat)
    requires q.out.sender.Live()
    ensures Handle(q, m, now).out.sender.shutdown == q.out.sender.shutdown
  {
    hide Process, ApplyString, Retain, Has;
  }

  lemma {:induction false} HandleKeepsNewest(q: Endpoint, m: TransportInstruction, now: nat)
    requires q.out.sender.Live() && RecvInv(q.receiver)
    ensures |Handle(q, m, now).receiver.received| > 0
    ensures Newest(q.receiver).num <= Newest(Handle(q, m, now).receiver).num
  {
    OutcomeTells(q.receiver, m, now, ApplyString);
    hide Process, ApplyString, ProcessAck;
  }

  /** The acting endpoint, as a sender and as a receiver. */
  lemma {:induction false} ActAdvances(p: Endpoint, q: Endpoint, action: Action, z: Zlib)
    requires Lawful(z) && DirInv(p, q, z) && DirInv(q, p, z)
    ensures q.out.sender.Live()
    ensures var q' := Act(q, p, action, z);
            && |q'.out.sender.sent| > 0 && |q'.receiver.received| > 0
            && Advances(p, q, p, q') && Advances(q, p, q', p)
  {
    ActKeeps(p, q, action, z);
    OutLive(q.out, z);
    OutLive(p.out, z);
    hide OutInv, Apply, Handle, AddFragment, Parse, Mirrors, Has, AcksOk, AsmOk, Strict, Extends, Act;
    match action
    case Local(op) => if OwnOp(op) { LocalAdvances(p, q, op, z); } else { Idle(p, q, action, z); }
    case Deliver(k, i, now) => DeliverAdvances(p, q, k, i, now, z);
  }

  lemma {:induction false} Idle(p: Endpoint, q: Endpoint, action: Action, z: Zlib)
    requires q.out.sender.Live() && |p.out.sender.sent| > 0 && |q.receiver.received| > 0 && |p.receiver.received| > 0
    requires Act(q, p, action, z) == q
    ensures Advances(p, q, p, q) && Advances(q, p, q, p)
  {
    ExtendsSelf(p.out.history);
    ExtendsSelf(q.out.history);
    hide Act, Extends;
  }

  lemma {:induction false} LocalAdvances(p: Endpoint, q: Endpoint, op: Op, z: Zlib)
    requires DirInv(p, q, z) && DirInv(q, p, z) && q.out.sender.Live() && p.out.sender.Live() && OwnOp(op)
    ensures var q' := Act(q, p, Local(op), z);
            && |q'.out.sender.sent| > 0 && q'.receiver == q.receiver
            && Advances(p, q, p, q') && Advances(q, p, q', p)
  {
    ApplyKeeps(q.out, op, z);
    OutLive(Apply(q.out, op, z), z);
    ExtendsSelf(p.out.history);
    hide OutInv, Apply, Mirrors, Has, AcksOk, AsmOk, Extends, FramerOk, Strict;
  }

  lemma {:induction false} DeliverAdvances(p: Endpoint, q: Endpoint, k: nat, i: nat, now: nat, z: Zlib)
    requires Lawful(z) && DirInv(p, q, z) && DirInv(q, p, z) && q.out.sender.Live() && p.out.sender.Live()
    ensures var q' := Act(q, p, Deliver(k, i, now), z);
            && |q'.out.sender.sent| > 0 && |q'.receiver.received| > 0
            && Advances(p, q, p, q') && Advances(q, p, q', p)
  {
    hide OutInv, AddFragment, Parse, ToBytes, Mirrors, Has, AcksOk, AsmOk, Strict, Extends, FramerOk, Handle;
    ExtendsSelf(p.out.history);
    ExtendsSelf(q.out.history);
    if k < |p.out.emissions| && i < |p.out.emissions[k].fragments| && q.out.clock <= now {
      ClockMoves(q, p, now, z);
      var datagram := ToBytes(p.out.emissions[k].fragments[i]);
      if Parse(datagram).Success? {
        var (asm, m) := AddFragment(q.asm, Parse(datagram).value, z);
        if m.Some? {
          var q1 := q.(out := q.out.(clock := now), asm := asm);
          HandledOut(q1, m.value, now, z);
          OutLive(Handle(q1, m.value, now).out, z);
          HandleKeepsShutdown(q1, m.value, now);
          HandleKeepsNewest(q1, m.value, now);
        }
      }
    }
  }

  lemma {:induction false} LiveBoth(s: System, z: Zlib)
    requires SysInv(s, z)
    ensures s.a.out.sender.Live() && s.b.out.sender.Live()
    ensures RecvInv(s.a.receiver) && RecvInv(s.b.receiver)
  {
  }

  predicate Populated(p: Endpoint) {
    |p.out.sender.sent| > 0 && |p.receiver.received| > 0
  }

  lemma {:induction false} AdvancesTransitive(
    p: Endpoint, q: Endpoint, p1: Endpoint, q1: Endpoint, p2: Endpoint, q2: Endpoint)
    requires Populated(p) && Populated(q) && Populated(p1) && Populated(q1) && Populated(p2) && Populated(q2)
    requires Advances(p, q, p1, q1) && Advances(p1, q1, p2, q2)
    ensures Advances(p, q, p2, q2)
  {
    ExtendsTransitive(p.out.history, p1.out.history, p2.out.history);
    hide Extends;
  }

  lemma {:induction false} StepAdvances(s: System, step: Step, z: Zlib, fromA: bool)
    requires Lawful(z) && SysInv(s, z) && s.a.out.sender.Live() && s.b.out.sender.Live()
    requires Populated(s.a) && Populated(s.b)
    ensures var t := Next(s, step, z);
            && Populated(t.a) && Populated(t.b)
            && Advances(From(s, fromA), To(s, fromA), From(t, fromA), To(t, fromA))
  {
    hide DirInv, Act, Advances;
    ActAdvances(s.b, s.a, step.action, z);
    ActAdvances(s.a, s.b, step.action, z);
  }

  /** Over any continuation, in either direction. */
  lemma {:induction false} ExecAdvances(s: System, steps: seq<Step>, z: Zlib, fromA: bool)
    requires Lawful(z) && SysInv(s, z)
    ensures var r := Exec(s, steps, z);
            && Populated(s.a) && Populated(s.b) && Populated(r.a) && Populated(r.b)
            && Advances(From(s, fromA), To(s, fromA), From(r, fromA), To(r, fromA))
    decreases |steps|
  {
    LiveBoth(s, z);
    ExecKeeps(s, steps, z);
    LiveBoth(Exec(s, steps, z), z);
    ExtendsSelf(From(s, fromA).out.history);
    hide DirInv, Act, Extends, Strict;
    if steps != [] {
      hide Advances;
      StepKeeps(s, steps[0], z);
      StepAdvances(s, steps[0], z, fromA);
      var t := Next(s, steps[0], z);
      ExecAdvances(t, steps[1..], z, fromA);
      var r := Exec(t, steps[1..], z);
      AdvancesTransitive(From(s, fromA), To(s, fromA), From(t, fromA), To(t, fromA), From(r, fromA), To(r, fromA));
    }
  }

  // ----- safety of delivery -----

  lemma {:induction false} Direction(s: System, z: Zlib, fromA: bool)
    requires SysInv(s, z)
    ensures DirInv(From(s, fromA), To(s, fromA), z)
  {
  }

  lemma {:induction false} HeldIsRecorded(p: Endpoint, q: Endpoint, z: Zlib, e: Timestamped<Stream>)
    requires DirInv(p, q, z) && e in q.receiver.received
    ensures e.num in p.out.history.states && e.state == p.out.history.states[e.num]
    ensures e.state <= p.out.history.typed
  {
    hide AsmOk, AcksOk, FramerOk, EmissionsOk, IdsOk, Timed, Has;
    RecordedIsTyped(p.out.sender, p.out.history, e.num);
  }

  /**
   In every run each state held under a number is the stream the sender recorded under that
   number, and so a prefix of everything typed.
   */
  lemma {:induction false} DeliveredIsRecorded(c: Setup, steps: seq<Step>, z: Zlib, fromA: bool)
    requires Lawful(z)
    ensures var r := Reached(c, steps, z);
            var h := From(r, fromA).out.history;
            forall e <- To(r, fromA).receiver.received ::
              e.num in h.states && e.state == h.states[e.num] && e.state <= h.typed
  {
    var r := Reached(c, steps, z);
    hide Exec, DirInv, Reached;
    ReachedKeeps(c, steps, z);
    Direction(r, z, fromA);
    forall e | e in To(r, fromA).receiver.received
      ensures e.num in From(r, fromA).out.history.states && e.state == From(r, fromA).out.history.states[e.num]
      ensures e.state <= From(r, fromA).out.history.typed
    {
      HeldIsRecorded(From(r, fromA), To(r, fromA), z, e);
    }
  }

  lemma {:induction false} RecordsNest(o: Out, z: Zlib, m: u64, n: u64)
    requires OutInv(o, z) && m in o.history.states && n in o.history.states && m <= n
    ensures o.history.states[m] <= o.history.states[n]
  {
  }

  /**
   From any reachable state on, the newest received stream never shrinks, and at every moment it
   is a prefix of everything typed.
   */
  lemma {:induction false} NewestNeverShrinks(c: Setup, steps: seq<Step>, later: seq<Step>, z: Zlib, fromA: bool)
    requires Lawful(z)
    ensures var s := Reached(c, steps, z);
            var r := Exec(s, later, z);
            var q, q', typed := To(s, fromA).receiver, To(r, fromA).receiver, From(r, fromA).out.history.typed;
            && |q.received| > 0 && |q'.received| > 0
            && Newest(q).num <= Newest(q').num && Newest(q).state <= Newest(q').state <= typed
  {
    var s := Reached(c, steps, z);
    var r := Exec(s, later, z);
    hide DirInv, Exec, OutInv, SysInv, Reached, Extends;
    ReachedKeeps(c, steps, z);
    ExecKeeps(s, later, z);
    ExecAdvances(s, later, z, fromA);
    Direction(s, z, fromA);
    Direction(r, z, fromA);
    NewestNests(From(s, fromA), To(s, fromA), From(r, fromA), To(r, fromA), z);
  }

  lemma {:induction false} NewestNests(p: Endpoint, q: Endpoint, p': Endpoint, q': Endpoint, z: Zlib)
    requires DirInv(p, q, z) && DirInv(p', q', z)
    requires Populated(p) && Populated(q) && Populated(p') && Populated(q') && Advances(p, q, p', q')
    ensures Newest(q.receiver).state <= Newest(q'.receiver).state <= p'.out.history.typed
  {
    assert OutInv(p'.out, z);
    hide DirInv, OutInv;
    var e, e' := Newest(q.receiver), Newest(q'.receiver);
    HeldIsRecorded(p, q, z, e);
    HeldIsRecorded(p', q', z, e');
    RecordsNest(p'.out, z, e.num, e'.num);
  }

  // ----- the known head -----

  /** What a receiver that holds the instruction's base does with it. */
  lemma {:induction false} HeldBaseIsFound(r: Receiver<Stream>, m: TransportInstruction, now: nat)
    requires RecvInv(r) && Has(r.received, m.oldNum) && m.throwawayNum <= m.oldNum
    requires m.protocolVersion == PROTOCOL_VERSION
    ensures Has(Retain(r.received, m.throwawayNum), m.oldNum)
    ensures Admit(r, m, now).1 == (
              if Has(r.received, m.newNum) then Refused(Duplicate)
              else if |Retain(r.received, m.throwawayNum)| > RECEIVED_QUEUE_CAP && now < r.quenchUntil then Refused(Quenched)
              else Admitted(Find(Retain(r.received, m.throwawayNum), m.oldNum)))
  {
    var kept := Retain(r.received, m.throwawayNum);
    var i :| 0 <= i < |r.received| && r.received[i].num == m.oldNum;
    assert r.received[i] in kept;
    var j :| 0 <= j < |kept| && kept[j] == r.received[i];
    assert Has(kept, m.oldNum);
    hide Retain, Find, Strict;
  }

  lemma {:induction false} BaseRefused(r: Receiver<Stream>, m: TransportInstruction, now: nat)
    requires RecvInv(r) && m.throwawayNum <= m.oldNum && m.protocolVersion == PROTOCOL_VERSION
    ensures var a := Admit(r, m, now).1;
            && !a.Fatal?
            && (a == Refused(NoReference) <==> !Has(r.received, m.newNum) && !Has(r.received, m.oldNum))
            && (a.Admitted? ==> a.reference in r.received && a.reference.num == m.oldNum)
  {
    hide Retain, Find, Strict, Has;
    if Has(r.received, m.oldNum) { HeldBaseIsFound(r, m, now); }
    AdmitKeeps(r, m, now);
  }

  /** The diff of an emission applies to any stream held under its old number. */
  lemma {:induction false} DiffApplies(p: Endpoint, q: Endpoint, k: nat, z: Zlib, x: Timestamped<Stream>)
    requires DirInv(p, q, z) && k < |p.out.emissions|
    requires x in q.receiver.received && x.num == p.out.emissions[k].inst.oldNum
    ensures ApplyString(x.state, p.out.emissions[k].inst.diff)
         == Success(p.out.history.states[p.out.emissions[k].inst.newNum])
  {
    var m, h := p.out.emissions[k].inst, p.out.history;
    hide AsmOk, AcksOk, FramerOk, RecvInv, ApplyString, DiffFrom, OutInv, Inv;
    EmissionFacts(p.out, z, k);
    SenderFacts(p.out, z);
    RecordedIsTyped(p.out.sender, h, m.newNum);
    DiffRestores(h.states[m.newNum], h.states[m.oldNum]);
  }

  lemma {:induction false} CommitAccepts(r: Receiver<Stream>, e: Timestamped<Stream>, hadDiff: bool)
    requires |r.received| > 0
    ensures Commit(r, e, hadDiff).1.Latest? || Commit(r, e, hadDiff).1.OutOfOrder?
  {
  }

  /** The receiver never fails on an honest instruction, and refuses its base only if it lacks it. */
  lemma {:induction false} HonestOutcome(p: Endpoint, q: Endpoint, k: nat, now: nat, z: Zlib)
    requires DirInv(p, q, z) && k < |p.out.emissions|
    ensures var m := p.out.emissions[k].inst;
            var o := Process(q.receiver, m, now, ApplyString).1;
            && o.Success?
            && (o.value == NoReference <==> !Has(q.receiver.received, m.newNum) && !Has(q.receiver.received, m.oldNum))
  {
    hide OutInv, AsmOk, AcksOk, FramerOk, Strict, ApplyString, Commit, Admit, Mirrors, Has, DiffFrom, Retain, Find;
    EmissionFacts(p.out, z, k);
    var m := p.out.emissions[k].inst;
    BaseRefused(q.receiver, m, now);
    AdmitKeeps(q.receiver, m, now);
    var (r1, a) := Admit(q.receiver, m, now);
    if a.Admitted? {
      DiffApplies(p, q, k, z, a.reference);
      var s := if m.diff == [] then a.reference.state else ApplyString(a.reference.state, m.diff).value;
      CommitAccepts(r1, Timestamped(now, m.newNum, s), m.diff != []);
    }
  }

  /**
   In every run the receiver holds the state at the front of the sender's queue. An instruction
   based on the head it was sent from can lose its base only once an ack has moved the head on.
   */
  lemma {:induction false} KnownHeadIsHeld(c: Setup, steps: seq<Step>, z: Zlib, fromA: bool, k: nat, now: nat)
    requires Lawful(z)
    ensures var p, q := From(Reached(c, steps, z), fromA), To(Reached(c, steps, z), fromA);
            && |p.out.sender.sent| > 0
            && Has(q.receiver.received, p.out.sender.Front().num)
            && (k < |p.out.emissions| && p.out.emissions[k].inst.oldNum == p.out.emissions[k].inst.throwawayNum &&
                Process(q.receiver, p.out.emissions[k].inst, now, ApplyString).1 == Success(NoReference)
                ==> p.out.emissions[k].inst.oldNum < p.out.sender.Front().num)
  {
    hide Reached, Exec, Process, SysInv, DirInv, Has;
    var r := Reached(c, steps, z);
    ReachedKeeps(c, steps, z);
    Direction(r, z, fromA);
    HeadHeld(From(r, fromA), To(r, fromA), z);
    if k < |From(r, fromA).out.emissions| {
      HonestOutcome(From(r, fromA), To(r, fromA), k, now, z);
      HeadAtEmission(From(r, fromA), To(r, fromA), z, k);
    }
  }

  lemma {:induction false} HeadHeld(p: Endpoint, q: Endpoint, z: Zlib)
    requires DirInv(p, q, z)
    ensures |p.out.sender.sent| > 0 && Has(q.receiver.received, p.out.sender.Front().num)
  {
  }

  lemma {:induction false} HeadAtEmission(p: Endpoint, q: Endpoint, z: Zlib, k: nat)
    requires DirInv(p, q, z) && k < |p.out.emissions|
    ensures |p.out.sender.sent| > 0 && p.out.emissions[k].inst.throwawayNum <= p.out.sender.Front().num
  {
    EmissionFacts(p.out, z, k);
    hide OutInv;
    OutLive(p.out, z);
  }

  /**
   In every run no instruction of an honest peer is a version error or a bad diff, whenever it
   arrives; and it lacks its reference exactly when neither of its states is held.
   */
  lemma {:induction false} HonestRunsNeverFail(c: Setup, steps: seq<Step>, z: Zlib, fromA: bool, k: nat, now: nat)
    requires Lawful(z) && k < |From(Reached(c, steps, z), fromA).out.emissions|
    ensures var q, m := To(Reached(c, steps, z), fromA), From(Reached(c, steps, z), fromA).out.emissions[k].inst;
            var o := Process(q.receiver, m, now, ApplyString).1;
            && o.Success?
            && (o.value == NoReference <==> !Has(q.receiver.received, m.newNum) && !Has(q.receiver.received, m.oldNum))
  {
    var r := Reached(c, steps, z);
    hide Exec, DirInv, Process, ApplyString;
    ReachedKeeps(c, steps, z);
    Direction(r, z, fromA);
    HonestOutcome(From(r, fromA), To(r, fromA), k, now, z);
  }

  // ----- catching up -----

  lemma {:induction false} NewestTaken(p: Endpoint, q: Endpoint, k: nat, now: nat, z: Zlib)
    requires DirInv(p, q, z) && k < |p.out.emissions| && q.out.sender.Live()
    requires p.out.sender.Live() && p.out.emissions[k].inst.newNum == p.out.sender.Back().num
    requires Has(q.receiver.received, p.out.emissions[k].inst.oldNum)
    requires |q.receiver.received| <= RECEIVED_QUEUE_CAP || now >= q.receiver.quenchUntil
    ensures var q' := Handle(q, p.out.emissions[k].inst, now);
            && |q'.receiver.received| > 0 && p.out.sender.Back().num in p.out.history.states
            && Newest(q'.receiver).num == p.out.sender.Back().num == q'.out.sender.ackNum
            && Newest(q'.receiver).state == p.out.history.states[p.out.sender.Back().num]
  {
    hide OutInv, Handle, AsmOk, AcksOk, FramerOk, Mirrors, Strict, Has;
    HandledByReceiver(p, q, k, now, z);
    var q' := Handle(q, p.out.emissions[k].inst, now);
    NewestBelowBack(p, q', z);
    HandledTakes(p, q, k, now, z);
    HasBelowNewest(q'.receiver, p.out.sender.Back().num);
    HeldIsRecorded(p, q', z, Newest(q'.receiver));
  }

  lemma {:induction false} HasBelowNewest(r: Receiver<Stream>, num: u64)
    requires RecvInv(r) && Has(r.received, num)
    ensures num <= Newest(r).num
  {
    var i :| 0 <= i < |r.received| && r.received[i].num == num;
  }

  lemma {:induction false} NewestBelowBack(p: Endpoint, q: Endpoint, z: Zlib)
    requires DirInv(p, q, z)
    ensures p.out.sender.Live() && Newest(q.receiver).num <= p.out.sender.Back().num
  {
    hide AsmOk, AcksOk, FramerOk, Strict, EmissionsOk, IdsOk, Has, Rising, Monotone, Timed;
    assert Newest(q.receiver) in q.receiver.received;
  }

  /** An instruction whose base is held is there after it was handled, or was quenched. */
  lemma {:induction false} HandledTakes(p: Endpoint, q: Endpoint, k: nat, now: nat, z: Zlib)
    requires DirInv(p, q, z) && k < |p.out.emissions| && q.out.sender.Live()
    requires Has(q.receiver.received, p.out.emissions[k].inst.oldNum)
    requires |q.receiver.received| <= RECEIVED_QUEUE_CAP || now >= q.receiver.quenchUntil
    ensures Has(Handle(q, p.out.emissions[k].inst, now).receiver.received, p.out.emissions[k].inst.newNum)
  {
    EmissionFacts(p.out, z, k);
    var m := p.out.emissions[k].inst;
    hide OutInv, AsmOk, AcksOk, FramerOk, Strict, ApplyString, Mirrors, Has, DiffFrom, ProcessAck, Process, Admit;
    HeldBaseIsFound(q.receiver, m, now);
    var o := Process(q.receiver, m, now, ApplyString).1;
    if Has(q.receiver.received, m.newNum) {
      StillHas(q.receiver, m, now, m.newNum);
    } else {
      AdmittedIsAccepted(p, q, k, now, z);
      OutcomeTells(q.receiver, m, now, ApplyString);
    }
  }

  lemma {:induction false} AdmittedIsAccepted(p: Endpoint, q: Endpoint, k: nat, now: nat, z: Zlib)
    requires DirInv(p, q, z) && k < |p.out.emissions|
    requires Admit(q.receiver, p.out.emissions[k].inst, now).1.Admitted?
    ensures AcceptedNum(Process(q.receiver, p.out.emissions[k].inst, now, ApplyString).1).Some?
  {
    hide OutInv, AsmOk, AcksOk, FramerOk, Strict, ApplyString, Commit, Admit, Mirrors, Has, DiffFrom;
    var m := p.out.emissions[k].inst;
    AdmitKeeps(q.receiver, m, now);
    EmissionFacts(p.out, z, k);
    BaseRefused(q.receiver, m, now);
    var (r1, a) := Admit(q.receiver, m, now);
    DiffApplies(p, q, k, z, a.reference);
    var s := if m.diff == [] then a.reference.state else ApplyString(a.reference.state, m.diff).value;
    CommitAccepts(r1, Timestamped(now, m.newNum, s), m.diff != []);
  }

  lemma {:induction false} BackIsHeld(s: Sender)
    requires |s.sent| > 0
    ensures Has(s.sent, s.Back().num)
  {
    assert s.sent[|s.sent| - 1].num == s.Back().num;
  }

  lemma {:induction false} AckTaken(p: Endpoint, q: Endpoint, k: nat, now: nat, z: Zlib)
    requires DirInv(p, q, z) && DirInv(q, p, z) && k < |q.out.emissions|
    requires p.out.sender.Live() && q.out.emissions[k].inst.ackNum == p.out.sender.Back().num
    ensures var p' := Handle(p, q.out.emissions[k].inst, now);
            && p'.out.sender.Live()
            && p'.out.sender.Front().num == p'.out.sender.Back().num == p.out.sender.Back().num
            && (p.out.sender.Back().num == SHUTDOWN_NUM ==> ShutdownAcknowledged(p'.out.sender))
  {
    hide OutInv, AsmOk, AcksOk, FramerOk, Strict, Mirrors, Inv, Process, ProcessAck, ApplyString, Coherent, Has, RecvInv;
    var m, s := q.out.emissions[k].inst, p.out.sender;
    EmissionFacts(q.out, z, k);
    SenderFacts(p.out, z);
    BackIsHeld(s);
    AckKeeps(s, p.out.history, m.ackNum);
    InvLive(ProcessAck(s, m.ackNum), p.out.history);
  }

  /**
   In every reachable state: an emission of the sender's newest number that meets a receiver which
   holds its base and is not quenching leaves the receiver with the stream recorded under that
   number, and with that number as its next ack.
   */
  lemma {:induction false} DeliveryCatchesUp(c: Setup, steps: seq<Step>, z: Zlib, fromA: bool, k: nat, now: nat)
    requires Lawful(z)
    requires var p, q := From(Reached(c, steps, z), fromA), To(Reached(c, steps, z), fromA);
             && k < |p.out.emissions| && p.out.sender.Live() && q.out.sender.Live()
             && p.out.emissions[k].inst.newNum == p.out.sender.Back().num
             && Has(q.receiver.received, p.out.emissions[k].inst.oldNum)
             && (|q.receiver.received| <= RECEIVED_QUEUE_CAP || now >= q.receiver.quenchUntil)
    ensures var p, q := From(Reached(c, steps, z), fromA), To(Reached(c, steps, z), fromA);
            var q' := Handle(q, p.out.emissions[k].inst, now);
            && |q'.receiver.received| > 0 && p.out.sender.Back().num in p.out.history.states
            && Newest(q'.receiver).num == p.out.sender.Back().num == q'.out.sender.ackNum
            && Newest(q'.receiver).state == p.out.history.states[p.out.sender.Back().num]
  {
    var r := Reached(c, steps, z);
    hide Exec, Reached, DirInv, Handle, Has;
    ReachedKeeps(c, steps, z);
    Direction(r, z, fromA);
    NewestTaken(From(r, fromA), To(r, fromA), k, now, z);
  }

  /** And when the peer's ack of that number comes back, nothing older is left in the queue. */
  lemma {:induction false} AckClearsQueue(c: Setup, steps: seq<Step>, z: Zlib, fromA: bool, k: nat, now: nat)
    requires Lawful(z)
    requires var p, q := From(Reached(c, steps, z), fromA), To(Reached(c, steps, z), fromA);
             && k < |q.out.emissions| && p.out.sender.Live()
             && q.out.emissions[k].inst.ackNum == p.out.sender.Back().num
    ensures var p, q := From(Reached(c, steps, z), fromA), To(Reached(c, steps, z), fromA);
            var p' := Handle(p, q.out.emissions[k].inst, now);
            && |p'.out.sender.sent| > 0
            && p'.out.sender.Front().num == p'.out.sender.Back().num == p.out.sender.Back().num
            && (p.out.sender.Back().num == SHUTDOWN_NUM ==> ShutdownAcknowledged(p'.out.sender))
  {
    var r := Reached(c, steps, z);
    hide Exec, Reached, DirInv, Handle;
    ReachedKeeps(c, steps, z);
    Direction(r, z, fromA);
    Direction(r, z, !fromA);
    AckTaken(From(r, fromA), To(r, fromA), k, now, z);
  }

  // ----- shutdown -----

  /**
   In every run: when the sender sees its shutdown acknowledged, the peer's newest state is
   numbered with the shutdown number and is the sender's whole stream, frozen for good.
   */
  lemma {:induction false} CleanShutdownIsFullDelivery(
    c: Setup, steps: seq<Step>, z: Zlib, fromA: bool, later: seq<Step>)
    requires Lawful(z)
    ensures var s := Reached(c, steps, z);
            var p, q, r := From(s, fromA), To(s, fromA), Exec(s, later, z);
            && p.out.sender.Live() && Populated(q) && Populated(To(r, fromA))
            && (ShutdownAcknowledged(p.out.sender) ==>
                  && p.out.sender.shutdown
                  && Newest(q.receiver).num == SHUTDOWN_NUM
                  && Newest(q.receiver).state == p.out.history.typed
                  && Newest(To(r, fromA).receiver).state == From(r, fromA).out.history.typed == p.out.history.typed)
  {
    hide Exec, Reached, SysInv, Extends, OutInv, AsmOk, AcksOk, FramerOk, Mirrors, Strict, Has;
    var s := Reached(c, steps, z);
    var r := Exec(s, later, z);
    var p, q := From(s, fromA), To(s, fromA);
    ReachedKeeps(c, steps, z);
    ExecKeeps(s, later, z);
    Direction(s, z, fromA);
    Direction(r, z, fromA);
    ExecAdvances(s, later, z, fromA);
    OutLive(p.out, z);
    if ShutdownAcknowledged(p.out.sender) {
      ShutdownHeld(p, q, z);
      OutLive(From(r, fromA).out, z);
      ShutdownHeld(From(r, fromA), To(r, fromA), z);
    }
  }

  lemma {:induction false} ShutdownHeld(p: Endpoint, q: Endpoint, z: Zlib)
    requires DirInv(p, q, z) && p.out.sender.Live() && ShutdownAcknowledged(p.out.sender)
    ensures p.out.sender.shutdown
    ensures Newest(q.receiver).num == SHUTDOWN_NUM && Newest(q.receiver).state == p.out.history.typed
  {
    hide AsmOk, AcksOk, FramerOk, EmissionsOk, IdsOk, Timed, Monotone, Faithful;
    var i :| 0 <= i < |q.receiver.received| && q.receiver.received[i].num == SHUTDOWN_NUM;
    assert Newest(q.receiver) in q.receiver.received;
  }

  /**
   In every run an ack of the shutdown number, whether it is in an emitted instruction or only
   remembered by the fragmenter, comes from a side whose newest state has that number; and then
   that side holds everything its peer typed.
   */
  lemma {:induction false} ShutdownAckIsEarned(c: Setup, steps: seq<Step>, z: Zlib, fromA: bool, k: nat)
    requires Lawful(z)
    ensures var s := Reached(c, steps, z);
            var p, q := From(s, fromA), To(s, fromA);
            && Populated(q)
            && ((k < |q.out.emissions| && q.out.emissions[k].inst.ackNum == SHUTDOWN_NUM) ||
                LastAckSent(q.out.framer) == Some(SHUTDOWN_NUM)
                ==> Newest(q.receiver).num == SHUTDOWN_NUM && Newest(q.receiver).state == p.out.history.typed)
  {
    var s := Reached(c, steps, z);
    ReachedKeeps(c, steps, z);
    Direction(s, z, fromA);
    var p, q := From(s, fromA), To(s, fromA);
    hide Exec, Reached, AsmOk, EmissionsOk, IdsOk, Timed, Monotone, Faithful, Has;
    assert Newest(q.receiver) in q.receiver.received;
  }
}
