/** Pacing and ack latency of the sender, over every run. */
module Timing {
  import opened Basics
  import opened Wire
  import opened Streams
  import opened Queues
  import opened Fragments
  import opened Sender
  import opened SenderLaws
  import opened Outbound

  // ----- the send interval -----

  function Ceil(x: real): int {
    -((-x).Floor)
  }

  /** Half the smoothed round trip, rounded up, between 20 and 250 ms. */
  function SendInterval(srtt: real): (r: nat)
    ensures 20 <= r <= 250
    ensures 20 < r < 250 ==> (r - 1) as real < srtt / 2.0 <= r as real
    ensures r == 20 ==> srtt / 2.0 <= 20.0
    ensures r == 250 ==> srtt / 2.0 > 249.0
  {
    var half := Ceil(srtt / 2.0);
    if half < 20 then 20 else if half > 250 then 250 else half
  }

  const MIN_INTERVAL: nat := 20

  // ----- pacing -----

  predicate IntervalsOk(ops: seq<Op>) {
    forall op <- ops ::
      (op.Wait? ==> op.interval >= MIN_INTERVAL) && (op.DoTick? ==> op.interval >= MIN_INTERVAL)
  }

  /** No ack is scheduled sooner than one frame after the newest state's timestamp. */
  predicate Spaced(s: Sender) {
    |s.sent| > 0 && s.nextAck >= s.Back().timestamp + MIN_INTERVAL
  }

  lemma {:induction false} TimersSpaced(s: Sender, now: nat, rto: nat, interval: nat)
    requires s.Live() && Spaced(s) && s.Back().timestamp <= now && interval >= MIN_INTERVAL
    ensures var (t, send) := Timers(s, now, rto, interval);
            && Spaced(t) && t.Back() == s.Back()
            && (send.Some? ==> send.value >= s.Back().timestamp + MIN_INTERVAL)
  {
  }

  lemma {:induction false} SendDiffSpaced(b: Sender, now: nat, diff: seq<byte>)
    requires b.Live() && |b.sent| <= SENT_QUEUE_CAP
    ensures var t := SendDiff(b, now, diff).sender;
            |t.sent| > 0 && t.Back().timestamp == now && t.nextAck == now + ACK_INTERVAL
  {
    hide AddSent;
    AddSentQueue(b, now, DiffNum(b), b.current);
  }

  lemma {:induction false} SendEmptyAckSpaced(b: Sender, now: nat)
    requires b.Live() && |b.sent| <= SENT_QUEUE_CAP
    ensures var t := SendEmptyAck(b, now).sender;
            |t.sent| > 0 && t.Back().timestamp == now && t.nextAck == now + ACK_INTERVAL
  {
    hide AddSent;
    AddSentQueue(b, now, EmptyAckNum(b), b.current);
  }

  lemma {:induction false} SendSpaced(s: Sender, now: nat, dueSend: bool, dueAck: bool)
    requires s.Live() && |s.sent| <= SENT_QUEUE_CAP && Spaced(s) && s.Back().timestamp <= now
    ensures var t := Send(s, now, dueSend, dueAck);
            && Spaced(t.sender)
            && (t.inst.Some? ==> t.sender.Back().timestamp == now && t.sender.nextAck == now + ACK_INTERVAL)
            && (t.inst.None? ==> t.sender.Back() == s.Back())
  {
    BetBase(s);
    SendDiffSpaced(Bet(s).0, now, Bet(s).1);
    SendEmptyAckSpaced(Bet(s).0, now);
    SendInst(s, now, dueSend, dueAck);
    hide Bet, DiffFrom, SendDiff, SendEmptyAck;
  }

  lemma {:induction false} SendInst(s: Sender, now: nat, dueSend: bool, dueAck: bool)
    requires s.Live()
    ensures SendDiff(Bet(s).0, now, Bet(s).1).inst.Some?
    ensures SendEmptyAck(Bet(s).0, now).inst.Some?
  {
    BetBase(s);
    hide Bet;
  }

  /** A tick that sends does so at least one frame after the last send, and restarts the spacing. */
  lemma {:induction false} TickSpaced(s: Sender, now: nat, rto: nat, interval: nat)
    requires s.Live() && |s.sent| <= SENT_QUEUE_CAP && Spaced(s)
    requires s.Back().timestamp <= now && interval >= MIN_INTERVAL
    ensures var t := Tick(s, now, rto, interval);
            && Spaced(t.sender)
            && (t.inst.Some? ==> now >= s.Back().timestamp + MIN_INTERVAL && t.sender.Back().timestamp == now)
            && (t.inst.None? ==> t.sender.Back().timestamp == s.Back().timestamp)
  {
    PreparedFront(s, now, rto);
    hide Prepared, Timers, Send;
    var p := Prepared(s, now, rto);
    assert Spaced(p) && p.Back().timestamp == s.Back().timestamp;
    TimersSpaced(p, now, rto, interval);
    TimersQueue(p, now, rto, interval);
    var (t, send) := Timers(p, now, rto, interval);
    SendSpaced(t, now, send.Some? && now >= send.value, now >= t.nextAck);
  }

  lemma {:induction false} TimersQueue(s: Sender, now: nat, rto: nat, interval: nat)
    requires s.Live()
    ensures var t := Timers(s, now, rto, interval).0;
            t == s.(nextAck := t.nextAck, mindelayClock := t.mindelayClock)
  {
  }

  predicate Paced(o: Out) {
    && Spaced(o.sender)
    && (forall k | 0 <= k < |o.emissions| :: o.emissions[k].time <= o.sender.Back().timestamp)
    && (forall j, k | 0 <= j < k < |o.emissions| ::
          o.emissions[j].time + MIN_INTERVAL <= o.emissions[k].time)
  }

  lemma {:induction false} TickPaced(o: Out, now: nat, rto: nat, interval: nat, mtu: nat, z: Zlib)
    requires OutInv(o, z) && Paced(o) && Enabled(o, DoTick(now, rto, interval, mtu)) && interval >= MIN_INTERVAL
    ensures Paced(TickOut(o, now, rto, interval, mtu, z))
  {
    hide Tick, MakeFragments, Inv, EmissionsOk, IdsOk;
    InvLive(o.sender, o.history);
    assert o.sender.Back().timestamp <= now;
    TickSpaced(o.sender, now, rto, interval);
  }

  lemma {:induction false} ApplyPaced(o: Out, op: Op, z: Zlib)
    requires OutInv(o, z) && Paced(o) && IntervalsOk([op])
    ensures Paced(Apply(o, op, z))
  {
    hide Inv, EmissionsOk, IdsOk, MakeFragments;
    InvLive(o.sender, o.history);
    assert op in [op];
    if Enabled(o, op) {
      match op
      case DoTick(now, rto, interval, mtu) =>
        TickPaced(o, now, rto, interval, mtu, z);
        hide TickOut;
      case PeerAck(ack) =>
        AckKeeps(o.sender, o.history, ack);
        hide ProcessAck;
      case Wait(now, rto, interval) =>
        TimersSpaced(o.sender, now, rto, interval);
        TimersQueue(o.sender, now, rto, interval);
        hide Timers;
      case _ =>
    }
  }

  lemma {:induction false} RunPaced(o: Out, ops: seq<Op>, z: Zlib)
    requires OutInv(o, z) && Paced(o) && IntervalsOk(ops)
    ensures Paced(Run(o, ops, z))
    decreases |ops|
  {
    OutLive(o, z);
    hide Apply, OutInv, Paced, Grows;
    if ops != [] {
      assert ops[0] in ops;
      ApplyPaced(o, ops[0], z);
      ApplyKeeps(o, ops[0], z);
      RunPaced(Apply(o, ops[0], z), ops[1..], z);
    }
  }

  /** With intervals from `SendInterval`, any two emissions of a run are at least 20 ms apart. */
  lemma {:induction false} EmissionsAtLeastAFrameApart(
    now: nat, mindelay: nat, ops: seq<Op>, z: Zlib, j: nat, k: nat)
    requires IntervalsOk(ops) && j < k < |RunFromStart(now, mindelay, ops, z).emissions|
    ensures var es := RunFromStart(now, mindelay, ops, z).emissions;
            es[j].time + 20 <= es[k].time
  {
    InitOutInv(now, mindelay, z);
    assert Paced(InitOut(now, mindelay));
    RunPaced(InitOut(now, mindelay), ops, z);
    hide Run, OutInv;
  }

  // ----- ack latency -----

  /** Neither side is shutting down, as far as this sender knows. */
  predicate Quiet(s: Sender) {
    !s.shutdown && s.ackNum != SHUTDOWN_NUM
  }

  predicate QuietOp(op: Op) {
    !op.BeginShutdown? && op != SetAckNum(SHUTDOWN_NUM)
  }

  /** The ack is out, or it is due by `deadline`. */
  predicate DueBy(s: Sender, deadline: nat) {
    s.pendingDataAck && s.nextAck <= deadline
  }

  /**
   A timer pass that sees a pending data ack makes it due within the ack delay: both in
   `wait_time` and in a tick that sends nothing.
   */
  lemma {:induction false} PassSetsDeadline(s: Sender, now: nat, rto: nat, interval: nat)
    requires s.Live() && Quiet(s) && s.pendingDataAck
    ensures DueBy(WaitTime(s, now, rto, interval).0, now + ACK_DELAY)
    ensures Tick(s, now, rto, interval).inst.None? ==>
              DueBy(Tick(s, now, rto, interval).sender, now + ACK_DELAY)
  {
    PreparedFront(s, now, rto);
    hide Prepared, NextSend, Send;
    var (t, send) := Timers(Prepared(s, now, rto), now, rto, interval);
    SendFields(t, now, send.Some? && now >= send.value, now >= t.nextAck);
  }

  /** Every instruction of these operations is framed: the budget is large enough. */
  predicate Frames(o: Out, op: Op, z: Zlib)
    requires o.sender.Live()
  {
    op.DoTick? && Enabled(o, op) ==>
      var t := Tick(o.sender, op.now, op.rto, op.interval);
      t.inst.Some? ==> MakeFragments(o.framer, t.inst.value, op.mtu, z).1.Success?
  }

  predicate AllFrame(o: Out, ops: seq<Op>, z: Zlib)
    decreases |ops|
  {
    ops == [] || (o.sender.Live() && Frames(o, ops[0], z) && AllFrame(Apply(o, ops[0], z), ops[1..], z))
  }

  /** A tick with the deadline reached always has something to send. */
  lemma {:induction false} TickServesDeadline(s: Sender, now: nat, rto: nat, interval: nat, deadline: nat)
    requires s.Live() && |s.sent| <= SENT_QUEUE_CAP && Quiet(s) && DueBy(s, deadline)
    ensures var t := Tick(s, now, rto, interval);
            && Quiet(t.sender)
            && (now >= deadline ==> t.inst.Some?)
            && (t.inst.None? ==> DueBy(t.sender, deadline))
  {
    PreparedFront(s, now, rto);
    hide Prepared, NextSend, Send;
    var p := Prepared(s, now, rto);
    var (t, send) := Timers(p, now, rto, interval);
    SendFields(t, now, send.Some? && now >= send.value, now >= t.nextAck);
  }

  /** Something went out since there were `base` emissions, or the ack stands due by `deadline`. */
  predicate Served(o: Out, base: nat, deadline: nat) {
    |o.emissions| > base || (Quiet(o.sender) && DueBy(o.sender, deadline))
  }

  /** Every emission from the `base`-th on acks at least `n`, as does the next; none is later than the clock. */
  predicate Carries(o: Out, base: nat, n: u64) {
    && base <= |o.emissions| && o.sender.ackNum >= n
    && forall k | base <= k < |o.emissions| :: o.emissions[k].inst.ackNum >= n && o.emissions[k].time <= o.clock
  }

  /** The session only ever raises its ack number. */
  predicate AcksAtLeast(op: Op, n: u64) {
    op.SetAckNum? ==> op.num >= n
  }

  /** The pass that sees the ack pending, in `wait_time` or in a tick. */
  predicate Pass(op: Op) {
    op.Wait? || op.DoTick?
  }

  function PassTime(op: Op): nat
    requires Pass(op)
  {
    op.now
  }

  lemma {:induction false} PassServes(o: Out, pass: Op, z: Zlib)
    requires OutInv(o, z) && Quiet(o.sender) && o.sender.pendingDataAck
    requires Pass(pass) && Enabled(o, pass) && Frames(o, pass, z)
    ensures Served(Apply(o, pass, z), |o.emissions|, PassTime(pass) + ACK_DELAY)
  {
    InvLive(o.sender, o.history);
    hide Inv, EmissionsOk, IdsOk, MakeFragments, Timed, Tick, NextSend;
    PassSetsDeadline(o.sender, pass.now, pass.rto, pass.interval);
    if pass.DoTick? { TickFields(o.sender, pass.now, pass.rto, pass.interval); }
  }

  /** One operation: the ack goes out, or its deadline stands. */
  lemma {:induction false} ApplyServes(o: Out, op: Op, z: Zlib, base: nat, deadline: nat)
    requires OutInv(o, z) && Served(o, base, deadline) && base <= |o.emissions|
    requires QuietOp(op) && Frames(o, op, z)
    ensures Served(Apply(o, op, z), base, deadline) && base <= |Apply(o, op, z).emissions|
  {
    hide Inv, EmissionsOk, IdsOk, MakeFragments, Timed, Tick, NextSend, ProcessAck;
    InvLive(o.sender, o.history);
    if Enabled(o, op) {
      match op
      case DoTick(now, rto, interval, mtu) =>
        TickOutAppends(o, now, rto, interval, mtu, z);
        if |o.emissions| == base { TickServesDeadline(o.sender, now, rto, interval, deadline); }
      case PeerAck(ack) => AckTimers(o.sender, ack);
      case _ =>
    }
  }

  lemma {:induction false} AckTimers(s: Sender, ack: u64)
    requires s.Live()
    ensures var t := ProcessAck(s, ack);
            t == s.(sent := t.sent, assumed := t.assumed)
  {
    hide Retain, Has;
  }

  /** One operation: what goes out carries the ack, at the time of its tick. */
  lemma {:induction false} ApplyCarries(o: Out, op: Op, z: Zlib, base: nat, n: u64)
    requires OutInv(o, z) && Carries(o, base, n) && AcksAtLeast(op, n)
    ensures Carries(Apply(o, op, z), base, n)
  {
    hide Inv, EmissionsOk, IdsOk, MakeFragments, Timed, Tick, NextSend, ProcessAck, TickOut;
    InvLive(o.sender, o.history);
    if Enabled(o, op) {
      match op
      case DoTick(now, rto, interval, mtu) =>
        TickOutAppends(o, now, rto, interval, mtu, z);
        TickFields(o.sender, now, rto, interval);
      case PeerAck(ack) => AckTimers(o.sender, ack);
      case _ =>
    }
  }

  lemma {:induction false} RunServes(o: Out, ops: seq<Op>, z: Zlib, base: nat, deadline: nat, n: u64)
    requires OutInv(o, z) && Served(o, base, deadline) && Carries(o, base, n)
    requires (forall op <- ops :: QuietOp(op) && AcksAtLeast(op, n)) && AllFrame(o, ops, z)
    ensures Served(Run(o, ops, z), base, deadline) && Carries(Run(o, ops, z), base, n)
    decreases |ops|
  {
    OutLive(o, z);
    hide Apply, OutInv, Frames, Served, Grows;
    if ops != [] {
      assert QuietOp(ops[0]) && AcksAtLeast(ops[0], n);
      ApplyServes(o, ops[0], z, base, deadline);
      ApplyCarries(o, ops[0], z, base, n);
      ApplyKeeps(o, ops[0], z);
      hide Carries;
      RunServes(Apply(o, ops[0], z), ops[1..], z, base, deadline, n);
    }
  }

  /** A tick at or after the deadline leaves nothing unserved. */
  lemma {:induction false} LastTickServes(o: Out, last: Op, z: Zlib, base: nat, deadline: nat)
    requires OutInv(o, z) && Served(o, base, deadline) && base <= |o.emissions|
    requires last.DoTick? && last.now >= deadline && Enabled(o, last) && Frames(o, last, z)
    ensures |Apply(o, last, z).emissions| > base
  {
    hide Inv, EmissionsOk, IdsOk, MakeFragments, Timed, Tick;
    InvLive(o.sender, o.history);
    TickOutAppends(o, last.now, last.rto, last.interval, last.mtu, z);
    if |o.emissions| == base { TickServesDeadline(o.sender, last.now, last.rto, last.interval, deadline); }
  }

  /**
   A data ack never waits longer than the ack delay. In any reachable state outside shutdown, a
   timer pass sees the ack of number `n` pending, in `wait_time` or in a tick. Then, whatever
   happens next outside shutdown, by the end of any tick 100 ms or more after the pass an
   instruction has gone out; and all that went out since carry an ack of at least `n`.
   */
  lemma {:induction false} DataAckGoesOut(
    now0: nat, mindelay: nat, earlier: seq<Op>, pass: Op, ops: seq<Op>, last: Op, n: u64, z: Zlib)
    requires var o := RunFromStart(now0, mindelay, earlier, z);
             && o.sender.Live() && Quiet(o.sender) && o.sender.pendingDataAck && o.sender.ackNum >= n
             && Pass(pass) && Enabled(o, pass) && Frames(o, pass, z)
             && var p := Apply(o, pass, z);
                && (forall op <- ops :: QuietOp(op) && AcksAtLeast(op, n)) && AllFrame(p, ops + [last], z)
                && last.DoTick? && last.now >= PassTime(pass) + ACK_DELAY
                && Run(p, ops, z).sender.Live() && Enabled(Run(p, ops, z), last)
    ensures var o := RunFromStart(now0, mindelay, earlier, z);
            var es := Run(Apply(o, pass, z), ops + [last], z).emissions;
            && |es| > |o.emissions|
            && forall k | |o.emissions| <= k < |es| :: es[k].inst.ackNum >= n && es[k].time <= last.now
  {
    var o := RunFromStart(now0, mindelay, earlier, z);
    ReachedKeeps(now0, mindelay, earlier, z);
    hide RunFromStart, OutInv, AllFrame, Run, Apply, Frames, Served, Enabled, Grows;
    PassServes(o, pass, z);
    ApplyCarries(o, pass, z, |o.emissions|, n);
    ApplyKeeps(o, pass, z);
    var p := Apply(o, pass, z);
    AllFrameSplit(p, ops, last, z);
    RunServes(p, ops, z, |o.emissions|, PassTime(pass) + ACK_DELAY, n);
    var q := Run(p, ops, z);
    RunKeeps(p, ops, z);
    RunSnoc(p, ops, last, z);
    LastTickServes(q, last, z, |o.emissions|, PassTime(pass) + ACK_DELAY);
    ApplyCarries(q, last, z, |o.emissions|, n);
    TickClock(q, last, z);
  }

  lemma {:induction false} TickClock(o: Out, last: Op, z: Zlib)
    requires o.sender.Live() && last.DoTick? && Enabled(o, last)
    ensures Apply(o, last, z).clock == last.now
  {
    hide Tick, MakeFragments;
  }

  lemma {:induction false} RunSnoc(o: Out, ops: seq<Op>, last: Op, z: Zlib)
    requires OutInv(o, z)
    ensures Run(o, ops, z).sender.Live() && Run(o, ops + [last], z) == Apply(Run(o, ops, z), last, z)
    decreases |ops|
  {
    OutLive(o, z);
    hide Apply, OutInv, Grows;
    if ops == [] {
      assert (ops + [last])[1..] == [];
    } else {
      assert (ops + [last])[1..] == ops[1..] + [last];
      ApplyKeeps(o, ops[0], z);
      RunSnoc(Apply(o, ops[0], z), ops[1..], last, z);
    }
  }

  lemma {:induction false} AllFrameSplit(o: Out, ops: seq<Op>, last: Op, z: Zlib)
    requires OutInv(o, z) && AllFrame(o, ops + [last], z)
    ensures AllFrame(o, ops, z) && Run(o, ops, z).sender.Live() && Frames(Run(o, ops, z), last, z)
    decreases |ops|
  {
    OutLive(o, z);
    hide Apply, OutInv, Frames, Grows;
    if ops == [] {
      assert (ops + [last])[1..] == [];
    } else {
      assert (ops + [last])[1..] == ops[1..] + [last];
      ApplyKeeps(o, ops[0], z);
      AllFrameSplit(Apply(o, ops[0], z), ops[1..], last, z);
    }
  }
}
