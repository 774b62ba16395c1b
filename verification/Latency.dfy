/** How long a received state waits for its ack, over runs of the two-party system. */
module Latency {
  import opened Basics
  import opened Wire
  import opened Streams
  import opened Fragments
  import opened Sender
  import opened SenderLaws
  import opened Outbound
  import opened Timing
  import opened Receiver
  import opened ReceiverLaws
  import opened Protocol
  import opened ProtocolInv
  import opened EndToEnd

  /** In a run: this side never shuts down or acks a shutdown, and its ticks are framed. */
  predicate Calm(s: System, steps: seq<Step>, fromA: bool, z: Zlib)
    decreases |steps|
  {
    && s.a.out.sender.Live() && s.b.out.sender.Live()
    && Quiet(To(s, fromA).out.sender)
    && (steps != [] ==>
          && (steps[0].atA == !fromA && steps[0].action.Local? ==> Frames(To(s, fromA).out, steps[0].action.op, z))
          && Calm(Next(s, steps[0], z), steps[1..], fromA, z))
  }

  /** Handling an instruction moves no timer, and never takes a pending ack back. */
  lemma {:induction false} HandleTimers(q: Endpoint, m: TransportInstruction, now: nat)
    requires q.out.sender.Live()
    ensures var o := Handle(q, m, now).out;
            && o.sender.nextAck == q.out.sender.nextAck && (q.out.sender.pendingDataAck ==> o.sender.pendingDataAck)
            && o.emissions == q.out.emissions && o.clock == q.out.clock
  {
    hide Process, ApplyString, ProcessAck;
    AckTimers(q.out.sender, m.ackNum);
  }

  lemma {:induction false} ReceiveTimers(q: Endpoint, datagram: seq<byte>, now: nat, z: Zlib)
    requires q.out.sender.Live()
    ensures var o := Receive(q, datagram, now, z).out;
            && o.sender.nextAck == q.out.sender.nextAck && (q.out.sender.pendingDataAck ==> o.sender.pendingDataAck)
            && o.emissions == q.out.emissions && o.clock == now
  {
    hide Handle, Parse, AddFragment;
    if Parse(datagram).Success? {
      var (asm, m) := AddFragment(q.asm, Parse(datagram).value, z);
      if m.Some? { HandleTimers(q.(out := q.out.(clock := now), asm := asm), m.value, now); }
    }
  }

  /** What one action of this side keeps, its own or a delivery. */
  predicate Answering(q: Endpoint, base: nat, deadline: nat, n: u64) {
    Served(q.out, base, deadline) && Carries(q.out, base, n)
  }

  lemma {:induction false} ActAnswers(
    p: Endpoint, q: Endpoint, action: Action, z: Zlib, base: nat, deadline: nat, n: u64)
    requires Lawful(z) && DirInv(p, q, z) && DirInv(q, p, z) && q.out.sender.Live()
    requires Answering(q, base, deadline, n) && Quiet(Act(q, p, action, z).out.sender)
    requires action.Local? ==> Frames(q.out, action.op, z)
    ensures Answering(Act(q, p, action, z), base, deadline, n)
  {
    hide DirInv, Receive, Apply, Frames, ToBytes, Enabled;
    match action
    case Local(op) =>
      if OwnOp(op) { LocalAnswers(p, q, op, z, base, deadline, n); }
    case Deliver(k, i, now) =>
      if k < |p.out.emissions| && i < |p.out.emissions[k].fragments| && q.out.clock <= now {
        ReceiveTimers(q, ToBytes(p.out.emissions[k].fragments[i]), now, z);
        AcksRise(p, q, action, z);
      }
  }

  lemma {:induction false} LocalAnswers(
    p: Endpoint, q: Endpoint, op: Op, z: Zlib, base: nat, deadline: nat, n: u64)
    requires DirInv(q, p, z) && q.out.sender.Live() && OwnOp(op) && Frames(q.out, op, z)
    requires Answering(q, base, deadline, n) && Quiet(Apply(q.out, op, z).sender)
    ensures Answering(q.(out := Apply(q.out, op, z)), base, deadline, n)
  {
    hide OutInv, Frames, Served, AsmOk, AcksOk, FramerOk, Mirrors;
    if op.BeginShutdown? {
      StaysQuiet(q.out, op, z);
    } else {
      ApplyServes(q.out, op, z, base, deadline);
      ApplyCarries(q.out, op, z, base, n);
    }
  }

  /** A shutdown that leaves the side quiet did not happen. */
  lemma {:induction false} StaysQuiet(o: Out, op: Op, z: Zlib)
    requires o.sender.Live() && op.BeginShutdown? && Quiet(Apply(o, op, z).sender)
    ensures Apply(o, op, z) == o
  {
  }

  /** The ack number is the newest received number, and that never falls. */
  lemma {:induction false} AcksRise(p: Endpoint, q: Endpoint, action: Action, z: Zlib)
    requires Lawful(z) && DirInv(p, q, z) && DirInv(q, p, z)
    ensures q.out.sender.Live() && Act(q, p, action, z).out.sender.ackNum >= q.out.sender.ackNum
  {
    ActAdvances(p, q, action, z);
    ActKeeps(p, q, action, z);
    AckIsNewest(p, q, z);
    AckIsNewest(p, Act(q, p, action, z), z);
    hide DirInv, Act, Extends;
  }

  lemma {:induction false} AckIsNewest(p: Endpoint, q: Endpoint, z: Zlib)
    requires DirInv(p, q, z)
    ensures |q.receiver.received| > 0 && q.out.sender.ackNum == Newest(q.receiver).num
  {
  }

  lemma {:induction false} StepAnswers(
    s: System, step: Step, fromA: bool, z: Zlib, base: nat, deadline: nat, n: u64)
    requires Lawful(z) && SysInv(s, z) && s.a.out.sender.Live() && s.b.out.sender.Live()
    requires Answering(To(s, fromA), base, deadline, n)
    requires step.atA == !fromA && step.action.Local? ==> Frames(To(s, fromA).out, step.action.op, z)
    requires Quiet(To(Next(s, step, z), fromA).out.sender)
    ensures Answering(To(Next(s, step, z), fromA), base, deadline, n)
  {
    hide DirInv, Act, Frames, Answering, Quiet;
    Direction(s, z, fromA);
    Direction(s, z, !fromA);
    if step.atA == !fromA { ActAnswers(From(s, fromA), To(s, fromA), step.action, z, base, deadline, n); }
  }

  lemma {:induction false} RunAnswers(
    s: System, steps: seq<Step>, fromA: bool, z: Zlib, base: nat, deadline: nat, n: u64)
    requires Lawful(z) && SysInv(s, z) && Calm(s, steps, fromA, z)
    requires Answering(To(s, fromA), base, deadline, n)
    ensures SysInv(Exec(s, steps, z), z) && Answering(To(Exec(s, steps, z), fromA), base, deadline, n)
    decreases |steps|
  {
    hide SysInv, Answering, Frames, Quiet, Next;
    if steps != [] {
      StepKeeps(s, steps[0], z);
      StepAnswers(s, steps[0], fromA, z, base, deadline, n);
      RunAnswers(Next(s, steps[0], z), steps[1..], fromA, z, base, deadline, n);
    }
  }

  lemma {:induction false} CalmSplit(s: System, a: seq<Step>, b: seq<Step>, fromA: bool, z: Zlib)
    requires Calm(s, a + b, fromA, z)
    ensures Calm(s, a, fromA, z) && Calm(Exec(s, a, z), b, fromA, z)
    decreases |a|
  {
    hide Next, Quiet, Frames;
    if a == [] {
      assert a + b == b;
    } else {
      assert (a + b)[0] == a[0] && (a + b)[1..] == a[1..] + b;
      CalmSplit(Next(s, a[0], z), a[1..], b, fromA, z);
    }
  }

  // ----- what a delivery makes pending -----

  /** The newest number rose: an instruction was appended. */
  predicate Rose(q: Endpoint, q': Endpoint) {
    |q.receiver.received| > 0 && |q'.receiver.received| > 0 && Newest(q'.receiver).num > Newest(q.receiver).num
  }

  /** What an appended instruction leaves with the sender, and what any other leaves alone. */
  predicate Noted(q: Endpoint, q': Endpoint, m: TransportInstruction, now: nat) {
    if Rose(q, q') then
      && q'.out.sender.ackNum == m.newNum && q'.out.sender.lastHeard == now
      && (q'.out.sender.pendingDataAck <==> q.out.sender.pendingDataAck || m.diff != [])
    else
      && q'.out.sender.ackNum == q.out.sender.ackNum && q'.out.sender.lastHeard == q.out.sender.lastHeard
      && q'.out.sender.pendingDataAck == q.out.sender.pendingDataAck
  }

  lemma {:induction false} HandleNotes(q: Endpoint, m: TransportInstruction, now: nat)
    requires q.out.sender.Live() && RecvInv(q.receiver)
    ensures Noted(q, Handle(q, m, now), m, now)
    ensures m.protocolVersion != PROTOCOL_VERSION ==> Handle(q, m, now) == q
    ensures m.protocolVersion == PROTOCOL_VERSION ==>
              var s, t := Handle(q, m, now).out.sender, ProcessAck(q.out.sender, m.ackNum);
              s.sent == t.sent && s.assumed == t.assumed
  {
    hide Process, ApplyString, ProcessAck, Strict;
    OutcomeTells(q.receiver, m, now, ApplyString);
    AckTimers(q.out.sender, m.ackNum);
  }

  /** The datagram parses to the fragment, and the assembly yields its instruction or nothing. */
  lemma {:induction false} Reassembled(p: Endpoint, q: Endpoint, k: nat, i: nat, z: Zlib)
    requires Lawful(z) && DirInv(p, q, z) && k < |p.out.emissions| && i < |p.out.emissions[k].fragments|
    ensures RecvInv(q.receiver)
    ensures var e := p.out.emissions[k];
            && Parse(ToBytes(e.fragments[i])) == Success(e.fragments[i])
            && AddFragment(q.asm, e.fragments[i], z).1 in {None, Some(e.inst)}
  {
    hide OutInv, AddFragment, Parse, ToBytes, Mirrors, AcksOk, FramerOk, AsmOk, Strict;
    DatagramIsFragment(p.out, z, k, i);
    AddHonest(q.asm, p.out, k, i, z);
  }

  lemma {:induction false} DeliveryNotes(p: Endpoint, q: Endpoint, k: nat, i: nat, now: nat, z: Zlib)
    requires Lawful(z) && DirInv(p, q, z) && DirInv(q, p, z) && q.out.sender.Live()
    requires k < |p.out.emissions| && i < |p.out.emissions[k].fragments| && q.out.clock <= now
    ensures Noted(q, Act(q, p, Deliver(k, i, now), z), p.out.emissions[k].inst, now)
  {
    hide DirInv, Handle, AddFragment, Parse, ToBytes, RecvInv;
    Reassembled(p, q, k, i, z);
    var (asm, m) := AddFragment(q.asm, p.out.emissions[k].fragments[i], z);
    if m.Some? { HandleNotes(q.(out := q.out.(clock := now), asm := asm), m.value, now); }
  }

  /**
   In every run: a delivery that raises the receiver's newest number leaves that number as the ack,
   the arrival as the last time the peer was heard, and an ack pending if the instruction carried
   data; a delivery that does not raise it changes none of the three.
   */
  lemma {:induction false} ReceiptIsNoted(
    c: Setup, steps: seq<Step>, z: Zlib, fromA: bool, k: nat, i: nat, now: nat)
    requires Lawful(z)
    requires var p, q := From(Reached(c, steps, z), fromA), To(Reached(c, steps, z), fromA);
             && k < |p.out.emissions| && i < |p.out.emissions[k].fragments|
             && q.out.sender.Live() && q.out.clock <= now
    ensures var p, q := From(Reached(c, steps, z), fromA), To(Reached(c, steps, z), fromA);
            Noted(q, Act(q, p, Deliver(k, i, now), z), p.out.emissions[k].inst, now)
  {
    hide Reached, SysInv, DirInv, Act, Noted;
    var s := Reached(c, steps, z);
    EndToEnd.ReachedKeeps(c, steps, z);
    Direction(s, z, fromA);
    Direction(s, z, !fromA);
    DeliveryNotes(From(s, fromA), To(s, fromA), k, i, now, z);
  }

  // ----- from the delivery to the ack -----

  /** Something went out since there were `base` emissions, or an ack is pending. */
  predicate Waiting(q: Endpoint, base: nat, n: u64) {
    (|q.out.emissions| > base || q.out.sender.pendingDataAck) && Carries(q.out, base, n)
  }

  lemma {:induction false} LocalWaits(q: Endpoint, op: Op, z: Zlib, base: nat, n: u64)
    requires OutInv(q.out, z) && q.out.sender.Live() && OwnOp(op) && Waiting(q, base, n)
    ensures Waiting(q.(out := Apply(q.out, op, z)), base, n)
  {
    ApplyCarries(q.out, op, z, base, n);
    hide OutInv, Carries, Tick, TickHistory, MakeFragments, NextSend;
    if op.DoTick? && Enabled(q.out, op) { TickFields(q.out.sender, op.now, op.rto, op.interval); }
  }

  lemma {:induction false} ActWaits(p: Endpoint, q: Endpoint, action: Action, z: Zlib, base: nat, n: u64)
    requires Lawful(z) && DirInv(p, q, z) && DirInv(q, p, z) && q.out.sender.Live() && Waiting(q, base, n)
    ensures Waiting(Act(q, p, action, z), base, n)
  {
    hide DirInv, Receive, Apply, ToBytes, OutInv;
    match action
    case Local(op) =>
      if OwnOp(op) {
        OutInvOf(q, p, z);
        LocalWaits(q, op, z, base, n);
      }
    case Deliver(k, i, now) =>
      if k < |p.out.emissions| && i < |p.out.emissions[k].fragments| && q.out.clock <= now {
        ReceiveTimers(q, ToBytes(p.out.emissions[k].fragments[i]), now, z);
        AcksRise(p, q, action, z);
      }
  }

  lemma {:induction false} OutInvOf(q: Endpoint, p: Endpoint, z: Zlib)
    requires DirInv(q, p, z)
    ensures OutInv(q.out, z)
  {
    hide OutInv;
  }

  lemma {:induction false} RunWaits(s: System, steps: seq<Step>, fromA: bool, z: Zlib, base: nat, n: u64)
    requires Lawful(z) && SysInv(s, z) && Calm(s, steps, fromA, z) && Waiting(To(s, fromA), base, n)
    ensures SysInv(Exec(s, steps, z), z) && Waiting(To(Exec(s, steps, z), fromA), base, n)
    decreases |steps|
  {
    hide DirInv, Waiting, Frames, Quiet, Act;
    if steps != [] {
      Direction(s, z, fromA);
      Direction(s, z, !fromA);
      StepKeeps(s, steps[0], z);
      if steps[0].atA == !fromA { ActWaits(From(s, fromA), To(s, fromA), steps[0].action, z, base, n); }
      RunWaits(Next(s, steps[0], z), steps[1..], fromA, z, base, n);
    }
  }

  /** The step that follows `first`, at the receiving side. */
  function Mine(fromA: bool, op: Op): Step {
    Step(!fromA, Local(op))
  }

  /**
   In any reachable state let a delivery bring a side data: it raises its newest number to `n` with a
   non-empty diff. Let a timer pass of that side follow, at once or after any steps. Then, as long as
   the side does not shut down or ack a shutdown, by the end of any tick of its own 100 ms or more
   after the pass it has emitted an instruction since the delivery; and every one acks `n` or more.
   */
  lemma {:induction false} DataAckAnswered(
    c: Setup, earlier: seq<Step>, fromA: bool, k: nat, i: nat, arrival: nat,
    between: seq<Step>, pass: Op, later: seq<Step>, last: Op, z: Zlib)
    requires Lawful(z)
    requires var s := Reached(c, earlier, z);
             var p, q := From(s, fromA), To(s, fromA);
             && s.a.out.sender.Live() && s.b.out.sender.Live()
             && k < |p.out.emissions| && i < |p.out.emissions[k].fragments| && q.out.clock <= arrival
             && p.out.emissions[k].inst.diff != []
             && var t := Next(s, Step(!fromA, Deliver(k, i, arrival)), z);
                && Rose(q, To(t, fromA))
                && Calm(t, between + ([Mine(fromA, pass)] + (later + [Mine(fromA, last)])), fromA, z)
                && Pass(pass) && To(Exec(t, between, z), fromA).out.sender.Live() && Enabled(To(Exec(t, between, z), fromA).out, pass)
                && last.DoTick? && last.now >= PassTime(pass) + ACK_DELAY
                && var u := Exec(Exec(t, between, z), [Mine(fromA, pass)] + later, z);
                   To(u, fromA).out.sender.Live() && Enabled(To(u, fromA).out, last)
    ensures var s := Reached(c, earlier, z);
            var t := Next(s, Step(!fromA, Deliver(k, i, arrival)), z);
            var m := From(s, fromA).out.emissions[k].inst;
            var es := To(Exec(t, between + ([Mine(fromA, pass)] + (later + [Mine(fromA, last)])), z), fromA).out.emissions;
            && |es| > |To(s, fromA).out.emissions|
            && forall j | |To(s, fromA).out.emissions| <= j < |es| ::
                 es[j].inst.ackNum >= m.newNum && es[j].time <= last.now
  {
    hide SysInv, DirInv, Frames, Enabled, Reached, Apply, Act, Calm, Waiting, Answering;
    var s := Reached(c, earlier, z);
    var d := Step(!fromA, Deliver(k, i, arrival));
    var t := Next(s, d, z);
    EndToEnd.ReachedKeeps(c, earlier, z);
    StepKeeps(s, d, z);
    var m, base := From(s, fromA).out.emissions[k].inst, |To(s, fromA).out.emissions|;
    AfterDelivery(s, fromA, k, i, arrival, z);
    var tail := [Mine(fromA, pass)] + (later + [Mine(fromA, last)]);
    CalmSplit(t, between, tail, fromA, z);
    RunWaits(t, between, fromA, z, base, m.newNum);
    ExecConcat(t, between, tail, z);
    PassAnswered(Exec(t, between, z), fromA, pass, later, last, z, base, m.newNum);
  }

  lemma {:induction false} AfterDelivery(s: System, fromA: bool, k: nat, i: nat, now: nat, z: Zlib)
    requires Lawful(z) && SysInv(s, z) && s.a.out.sender.Live() && s.b.out.sender.Live()
    requires var p, q := From(s, fromA), To(s, fromA);
             && k < |p.out.emissions| && i < |p.out.emissions[k].fragments| && q.out.clock <= now
             && p.out.emissions[k].inst.diff != []
             && Rose(q, To(Next(s, Step(!fromA, Deliver(k, i, now)), z), fromA))
    ensures Waiting(To(Next(s, Step(!fromA, Deliver(k, i, now)), z), fromA),
                    |To(s, fromA).out.emissions|, From(s, fromA).out.emissions[k].inst.newNum)
  {
    hide DirInv, Receive, ToBytes, Rose;
    Direction(s, z, fromA);
    Direction(s, z, !fromA);
    var p, q := From(s, fromA), To(s, fromA);
    DeliveryNotes(p, q, k, i, now, z);
    ReceiveTimers(q, ToBytes(p.out.emissions[k].fragments[i]), now, z);
  }

  /** From a pass on, with the ack pending or already out. */
  lemma {:induction false} PassAnswered(
    s: System, fromA: bool, pass: Op, later: seq<Step>, last: Op, z: Zlib, base: nat, n: u64)
    requires Lawful(z) && SysInv(s, z) && Waiting(To(s, fromA), base, n)
    requires Calm(s, [Mine(fromA, pass)] + (later + [Mine(fromA, last)]), fromA, z)
    requires Pass(pass) && To(s, fromA).out.sender.Live() && Enabled(To(s, fromA).out, pass)
    requires last.DoTick? && last.now >= PassTime(pass) + ACK_DELAY
    requires var u := Exec(s, [Mine(fromA, pass)] + later, z);
             To(u, fromA).out.sender.Live() && Enabled(To(u, fromA).out, last)
    ensures var es := To(Exec(s, [Mine(fromA, pass)] + (later + [Mine(fromA, last)]), z), fromA).out.emissions;
            && |es| > base
            && forall j | base <= j < |es| :: es[j].inst.ackNum >= n && es[j].time <= last.now
  {
    hide SysInv, DirInv, Frames, Enabled, Apply, Waiting, Answering, Act;
    var first, final := Mine(fromA, pass), Mine(fromA, last);
    assert ([first] + later)[0] == first && ([first] + later)[1..] == later;
    assert ([first] + (later + [final]))[0] == first && ([first] + (later + [final]))[1..] == later + [final];
    var t := Next(s, first, z);
    StepKeeps(s, first, z);
    AfterPass(s, fromA, pass, z, base, n);
    CalmSplit(t, later, [final], fromA, z);
    RunAnswers(t, later, fromA, z, base, PassTime(pass) + ACK_DELAY, n);
    ExecConcat(t, later, [final], z);
    AfterLast(Exec(t, later, z), fromA, last, z, base, PassTime(pass) + ACK_DELAY, n);
  }

  lemma {:induction false} AfterPass(s: System, fromA: bool, pass: Op, z: Zlib, base: nat, n: u64)
    requires Lawful(z) && SysInv(s, z) && s.a.out.sender.Live() && s.b.out.sender.Live()
    requires Waiting(To(s, fromA), base, n) && Quiet(To(s, fromA).out.sender)
    requires Pass(pass) && Enabled(To(s, fromA).out, pass) && Frames(To(s, fromA).out, pass, z)
    ensures Answering(To(Next(s, Mine(fromA, pass), z), fromA), base, PassTime(pass) + ACK_DELAY, n)
  {
    hide OutInv, Frames, Apply, Enabled, AsmOk, AcksOk, FramerOk, Mirrors, Strict;
    var q := To(s, fromA);
    ApplyCarries(q.out, pass, z, base, n);
    if |q.out.emissions| > base {
      ApplyServes(q.out, pass, z, base, PassTime(pass) + ACK_DELAY);
    } else {
      PassServes(q.out, pass, z);
    }
  }

  lemma {:induction false} AfterLast(
    s: System, fromA: bool, last: Op, z: Zlib, base: nat, deadline: nat, n: u64)
    requires Lawful(z) && SysInv(s, z) && Calm(s, [Step(!fromA, Local(last))], fromA, z)
    requires Answering(To(s, fromA), base, deadline, n)
    requires last.DoTick? && last.now >= deadline && Enabled(To(s, fromA).out, last)
    ensures var es := To(Exec(s, [Step(!fromA, Local(last))], z), fromA).out.emissions;
            && |es| > base
            && forall k | base <= k < |es| :: es[k].inst.ackNum >= n && es[k].time <= last.now
  {
    hide OutInv, Frames, Served, Apply, Enabled, AsmOk, AcksOk, FramerOk, Mirrors, Strict;
    var q, step := To(s, fromA), Step(!fromA, Local(last));
    assert [step][0] == step && [step][1..] == [];
    LastTickServes(q.out, last, z, base, deadline);
    ApplyCarries(q.out, last, z, base, n);
    TickClock(q.out, last, z);
  }
}
