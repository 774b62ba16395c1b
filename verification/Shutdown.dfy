/** Giving up on a shutdown: what is counted, and when the wait is over. */
module Shutdown {
  import opened Basics
  import opened Wire
  import opened Streams
  import opened Fragments
  import opened Sender
  import opened SenderLaws
  import opened Outbound
  import opened Timing

  /** One if this instruction carries the shutdown number. */
  function One(m: TransportInstruction): nat {
    if m.newNum == SHUTDOWN_NUM then 1 else 0
  }

  /** How many emissions carry the shutdown number. */
  function ShutdownEmissions(es: seq<Emission>): nat {
    if es == [] then 0 else ShutdownEmissions(es[..|es| - 1]) + One(Last(es).inst)
  }

  lemma {:induction false} SendTries(s: Sender, now: nat, dueSend: bool, dueAck: bool)
    requires s.Live()
    ensures var t := Send(s, now, dueSend, dueAck);
            && t.sender.shutdownStart == s.shutdownStart
            && t.sender.tries == s.tries + (if t.inst.Some? then One(t.inst.value) else 0)
  {
    hide Bet, DiffFrom, AddSent;
    BetBase(s);
    var b := Bet(s).0;
    AddSentFields(b, now, DiffNum(b), b.current);
    AddSentFields(b, now, EmptyAckNum(b), b.current);
  }

  /** A tick counts its instruction exactly when it carries the shutdown number. */
  lemma {:induction false} TickTries(s: Sender, now: nat, rto: nat, interval: nat)
    requires s.Live()
    ensures var t := Tick(s, now, rto, interval);
            && t.sender.shutdownStart == s.shutdownStart
            && t.sender.tries == s.tries + (if t.inst.Some? then One(t.inst.value) else 0)
  {
    hide Prepared, NextSend, Send;
    PreparedFront(s, now, rto);
    var (t, send) := Timers(Prepared(s, now, rto), now, rto, interval);
    SendTries(t, now, send.Some? && now >= send.value, now >= t.nextAck);
  }

  /** The retries so far, in a run: the counter covers every emission, and is exact if all were framed. */
  predicate Tally(o: Out, exact: bool) {
    && ShutdownEmissions(o.emissions) <= o.sender.tries
    && (exact ==> ShutdownEmissions(o.emissions) == o.sender.tries)
  }

  lemma {:induction false} ApplyTally(o: Out, op: Op, z: Zlib, exact: bool)
    requires OutInv(o, z) && o.sender.Live() && Tally(o, exact) && (exact ==> Frames(o, op, z))
    ensures Tally(Apply(o, op, z), exact)
  {
    hide Inv, EmissionsOk, IdsOk, Timed, NextSend, ProcessAck;
    if Enabled(o, op) {
      match op
      case DoTick(now, rto, interval, mtu) => TickTally(o, now, rto, interval, mtu, z, exact);
      case PeerAck(ack) => AckTimers(o.sender, ack);
      case _ =>
    }
    hide TickOut;
  }

  lemma {:induction false} TickTally(o: Out, now: nat, rto: nat, interval: nat, mtu: nat, z: Zlib, exact: bool)
    requires o.sender.Live() && Enabled(o, DoTick(now, rto, interval, mtu)) && Tally(o, exact)
    requires exact ==> Frames(o, DoTick(now, rto, interval, mtu), z)
    ensures Tally(TickOut(o, now, rto, interval, mtu, z), exact)
  {
    hide Tick, MakeFragments, TickHistory;
    TickTries(o.sender, now, rto, interval);
    var p := TickOut(o, now, rto, interval, mtu, z);
    if |p.emissions| > |o.emissions| { assert p.emissions[..|p.emissions| - 1] == o.emissions; }
  }

  lemma {:induction false} RunTally(o: Out, ops: seq<Op>, z: Zlib, exact: bool)
    requires OutInv(o, z) && Tally(o, exact) && (exact ==> AllFrame(o, ops, z))
    ensures Tally(Run(o, ops, z), exact)
    decreases |ops|
  {
    OutLive(o, z);
    hide OutInv, Apply, Frames, Tally, Grows;
    if ops != [] {
      ApplyTally(o, ops[0], z, exact);
      ApplyKeeps(o, ops[0], z);
      RunTally(Apply(o, ops[0], z), ops[1..], z, exact);
    }
  }

  /** In every run the retry counter counts the instructions numbered for shutdown: all, if all were framed. */
  lemma {:induction false} TriesCountShutdowns(now: nat, mindelay: nat, ops: seq<Op>, z: Zlib)
    ensures var r := RunFromStart(now, mindelay, ops, z);
            && ShutdownEmissions(r.emissions) <= r.sender.tries
            && (AllFrame(InitOut(now, mindelay), ops, z) ==> ShutdownEmissions(r.emissions) == r.sender.tries)
  {
    var o := InitOut(now, mindelay);
    InitOutInv(now, mindelay, z);
    assert Tally(o, true);
    RunTally(o, ops, z, false);
    if AllFrame(o, ops, z) { RunTally(o, ops, z, true); }
    hide OutInv, Run;
  }

  // ----- when the wait is over -----

  predicate StartedAt(s: Sender, start: nat) {
    s.shutdown && s.shutdownStart == Some(start)
  }

  lemma {:induction false} ApplyStarted(o: Out, op: Op, z: Zlib, start: nat)
    requires OutInv(o, z) && o.sender.Live() && StartedAt(o.sender, start)
    ensures StartedAt(Apply(o, op, z).sender, start)
  {
    hide Inv, EmissionsOk, IdsOk, Timed, NextSend, ProcessAck, MakeFragments, Tick;
    if Enabled(o, op) {
      match op
      case DoTick(now, rto, interval, mtu) =>
        TickTries(o.sender, now, rto, interval);
        TickFields(o.sender, now, rto, interval);
      case PeerAck(ack) => AckTimers(o.sender, ack);
      case _ =>
    }
  }

  lemma {:induction false} RunStarted(o: Out, ops: seq<Op>, z: Zlib, start: nat)
    requires OutInv(o, z) && StartedAt(o.sender, start)
    ensures StartedAt(Run(o, ops, z).sender, start)
    decreases |ops|
  {
    OutLive(o, z);
    hide OutInv, Apply, Grows;
    if ops != [] {
      ApplyStarted(o, ops[0], z, start);
      ApplyKeeps(o, ops[0], z);
      RunStarted(Apply(o, ops[0], z), ops[1..], z, start);
    }
  }

  /**
   A shutdown begun at `start` in any reachable state: whatever follows, the wait is over exactly
   when sixteen instructions were counted or ten seconds have passed since `start`.
   */
  lemma {:induction false} ShutdownTimesOut(
    now: nat, mindelay: nat, earlier: seq<Op>, start: nat, later: seq<Op>, z: Zlib, t: nat)
    requires var o := RunFromStart(now, mindelay, earlier, z);
             o.sender.Live() && !o.sender.shutdown && Enabled(o, Op.BeginShutdown(start))
    ensures var o := RunFromStart(now, mindelay, earlier, z);
            var r := Run(Apply(o, Op.BeginShutdown(start), z), later, z);
            ShutdownAckTimedOut(r.sender, t) <==> r.sender.tries >= 16 || t >= start + 10_000
  {
    hide RunFromStart, OutInv, Run, Grows, Apply, Enabled;
    var o := RunFromStart(now, mindelay, earlier, z);
    ReachedKeeps(now, mindelay, earlier, z);
    ApplyKeeps(o, Op.BeginShutdown(start), z);
    BeginStarts(o, start, z);
    RunStarted(Apply(o, Op.BeginShutdown(start), z), later, z, start);
  }

  lemma {:induction false} BeginStarts(o: Out, start: nat, z: Zlib)
    requires o.sender.Live() && !o.sender.shutdown && Enabled(o, Op.BeginShutdown(start))
    ensures StartedAt(Apply(o, Op.BeginShutdown(start), z).sender, start)
  {
  }
}
