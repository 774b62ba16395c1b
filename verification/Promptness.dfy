/** How long something typed can wait before it goes out. */
module Promptness {
  import opened Basics
  import opened Streams
  import opened Fragments
  import opened Sender
  import opened SenderLaws
  import opened Outbound
  import opened Timing
  import opened Deadlines

  /** The batching delay is `delay`, and its clock was never started in the future. */
  predicate ClockPast(o: Out, delay: nat) {
    o.sender.mindelay == delay && (o.sender.mindelayClock.Some? ==> o.sender.mindelayClock.value <= o.clock)
  }

  /** Something is typed beyond the newest state, which was stamped at `back`, and the clock has run since `c` or earlier. */
  predicate Batching(o: Out, c: nat, back: nat) {
    && o.sender.Live() && Ends(o.sender, o.history)
    && o.history.typed != NewestOf(o.sender, o.history)
    && o.sender.mindelayClock.Some? && o.sender.mindelayClock.value <= c
    && o.sender.Back().timestamp == back
  }

  /** It is out, or it is batching. */
  predicate Prompt(o: Out, base: nat, c: nat, back: nat) {
    |o.emissions| > base || Batching(o, c, back)
  }

  /** Every emission from the `base`-th on contains `typed`. */
  predicate Contains(o: Out, base: nat, typed: Stream) {
    && base <= |o.emissions| && typed <= o.history.typed
    && forall k | base <= k < |o.emissions| ::
         o.emissions[k].inst.newNum in o.history.states && typed <= o.history.states[o.emissions[k].inst.newNum]
  }

  // ----- one operation -----

  lemma {:induction false} TickFacts(o: Out, now: nat, rto: nat, interval: nat, mtu: nat, z: Zlib)
    requires OutInv(o, z) && o.sender.Live() && Enabled(o, DoTick(now, rto, interval, mtu))
    requires Frames(o, DoTick(now, rto, interval, mtu), z)
    ensures Ends(o.sender, o.history)
    ensures var p := TickOut(o, now, rto, interval, mtu, z);
            && p.clock == now && p.history.typed == o.history.typed && p.sender.mindelay == o.sender.mindelay
            && (TickDue(o.sender, o.history, now, rto, interval) ==>
                  |p.emissions| == |o.emissions| + 1 && p.sender.mindelayClock == None)
            && (!TickDue(o.sender, o.history, now, rto, interval) ==>
                  p.emissions == o.emissions && p.history.states == o.history.states
                  && |p.sender.sent| > 0 && Idled(o.sender, o.history, p.sender, now))
  {
    hide Inv, Timed, EmissionsOk, IdsOk, Tick, TickDue, MakeFragments, Idled;
    SameTimes(o.sender.sent, o.sender.sent, o.clock, now);
    TickDecides(o.sender, o.history, now, rto, interval);
    TickLeaves(o.sender, o.history, now, rto, interval, now);
    TickFields(o.sender, now, rto, interval);
    IdledSent(o.sender, o.history, Tick(o.sender, now, rto, interval).sender, now);
  }

  /** An idle tick goes on batching, or starts to. */
  lemma {:induction false} IdleBatches(o: Out, op: Op, z: Zlib, c: nat, back: nat)
    requires OutInv(o, z) && o.sender.Live() && Ends(o.sender, o.history) && op.DoTick? && Enabled(o, op)
    requires o.history.typed != NewestOf(o.sender, o.history) && o.sender.Back().timestamp == back
    requires (if o.sender.mindelayClock.Some? then o.sender.mindelayClock.value else op.now) <= c
    requires Frames(o, op, z)
    ensures !TickDue(o.sender, o.history, op.now, op.rto, op.interval) ==> Batching(TickOut(o, op.now, op.rto, op.interval, op.mtu, z), c, back)
  {
    hide Inv, Timed, EmissionsOk, IdsOk, TickOut, Frames, TickDue, Grows;
    TickFacts(o, op.now, op.rto, op.interval, op.mtu, z);
    ApplyKeeps(o, op, z);
    OutLive(TickOut(o, op.now, op.rto, op.interval, op.mtu, z), z);
  }

  lemma {:induction false} IdledSent(s: Sender, h: History, s': Sender, now: nat)
    requires s.Live() && Ends(s, h)
    ensures Idled(s, h, s', now) ==> |s'.sent| > 0
  {
  }

  lemma {:induction false} ApplyClock(o: Out, op: Op, z: Zlib, delay: nat)
    requires OutInv(o, z) && o.sender.Live() && ClockPast(o, delay) && Frames(o, op, z)
    ensures ClockPast(Apply(o, op, z), delay)
  {
    hide Inv, Timed, EmissionsOk, IdsOk, TickOut, ProcessAck, Frames, NextSend, TickDue;
    if Enabled(o, op) {
      match op
      case DoTick(now, rto, interval, mtu) => TickFacts(o, now, rto, interval, mtu, z);
      case PeerAck(ack) => AckTimers(o.sender, ack);
      case _ =>
    }
  }

  /** A pass that sees something new starts the clock, unless it runs already, or is a tick that sends. */
  lemma {:induction false} PassBatches(o: Out, pass: Op, z: Zlib, delay: nat)
    requires OutInv(o, z) && o.sender.Live() && ClockPast(o, delay) && Ends(o.sender, o.history)
    requires o.history.typed != NewestOf(o.sender, o.history)
    requires Pass(pass) && Enabled(o, pass) && Frames(o, pass, z)
    ensures Prompt(Apply(o, pass, z), |o.emissions|, PassTime(pass), o.sender.Back().timestamp)
  {
    hide Inv, Timed, EmissionsOk, IdsOk, TickOut, Frames, Timers, TickDue;
    if pass.DoTick? {
      TickFacts(o, pass.now, pass.rto, pass.interval, pass.mtu, z);
      IdleBatches(o, pass, z, PassTime(pass), o.sender.Back().timestamp);
    } else {
      SenderRecords(o, z);
      PassChanges(o.sender, pass.now, pass.rto, pass.interval);
    }
  }

  /** Trimmed and recorded comparison agree for the newest state. */
  lemma {:induction false} SenderRecords(o: Out, z: Zlib)
    requires OutInv(o, z)
    ensures o.sender.Live() && Ends(o.sender, o.history)
    ensures o.sender.current == o.sender.Back().state <==> o.history.typed == NewestOf(o.sender, o.history)
    ensures NewestOf(o.sender, o.history) <= o.history.typed
  {
    AsRecorded(o.sender, o.history, |o.sender.sent| - 1);
    NewestLast(o.sender, o.history);
    hide Inv, Timed, EmissionsOk, IdsOk, DiffFrom;
  }

  lemma {:induction false} LongerDiffers(a: Stream, b: Stream, more: Stream)
    requires a <= b && a != b
    ensures a != b + more
  {
    assert a == b[..|a|];
    assert |a| < |b|;
  }

  lemma {:induction false} ApplyPrompt(o: Out, op: Op, z: Zlib, base: nat, c: nat, back: nat)
    requires OutInv(o, z) && o.sender.Live() && base <= |o.emissions| && Frames(o, op, z)
    requires Prompt(o, base, c, back)
    ensures Prompt(Apply(o, op, z), base, c, back) && base <= |Apply(o, op, z).emissions|
  {
    hide Inv, Timed, EmissionsOk, IdsOk, TickOut, ProcessAck, Frames, Timers, TickDue;
    SenderRecords(o, z);
    if Enabled(o, op) {
      match op
      case DoTick(now, rto, interval, mtu) =>
        TickFacts(o, now, rto, interval, mtu, z);
        if Batching(o, c, back) { IdleBatches(o, op, z, c, back); }
      case PeerAck(ack) => AckLeaves(o, ack, z);
      case Type(more) => if Batching(o, c, back) { LongerDiffers(NewestOf(o.sender, o.history), o.history.typed, more); }
      case Wait(now, rto, interval) => PassChanges(o.sender, now, rto, interval);
      case _ =>
    }
  }

  lemma {:induction false} AckLeaves(o: Out, ack: u64, z: Zlib)
    requires OutInv(o, z)
    ensures o.sender.Live()
    ensures var t := ProcessAck(o.sender, ack);
            && t.Live() && Ends(t, o.history) && t.Back() == o.sender.Back()
            && t == o.sender.(sent := t.sent, assumed := t.assumed)
  {
    hide Timed, EmissionsOk, IdsOk, ProcessAck, Inv;
    InvLive(o.sender, o.history);
    AckKeeps(o.sender, o.history, ack);
    AckTimers(o.sender, ack);
    InvLive(ProcessAck(o.sender, ack), o.history);
    NewestLast(ProcessAck(o.sender, ack), o.history);
  }

  /** What goes out contains everything typed by then. */
  lemma {:induction false} ApplyContains(o: Out, op: Op, z: Zlib, base: nat, typed: Stream)
    requires OutInv(o, z) && o.sender.Live() && Contains(o, base, typed)
    ensures Contains(Apply(o, op, z), base, typed)
  {
    hide OutInv, TickOut, Grows, Extends;
    ApplyKeeps(o, op, z);
    var p := Apply(o, op, z);
    OutLive(p, z);
    KeepsContents(o, p, base, typed);
    if op.DoTick? && Enabled(o, op) { EmitsTyped(o, op.now, op.rto, op.interval, op.mtu, z); }
  }

  lemma {:induction false} KeepsContents(o: Out, p: Out, base: nat, typed: Stream)
    requires |o.sender.sent| > 0 && |p.sender.sent| > 0 && Grows(o, p) && Contains(o, base, typed)
    ensures base <= |p.emissions| && typed <= p.history.typed
    ensures forall k | base <= k < |o.emissions| :: p.emissions[k].inst.newNum in p.history.states
              && typed <= p.history.states[p.emissions[k].inst.newNum]
    ensures o.emissions <= p.emissions
  {
  }

  lemma {:induction false} EmitsTyped(o: Out, now: nat, rto: nat, interval: nat, mtu: nat, z: Zlib)
    requires OutInv(o, z) && o.sender.Live() && Enabled(o, DoTick(now, rto, interval, mtu))
    ensures var p := TickOut(o, now, rto, interval, mtu, z);
            && |p.emissions| <= |o.emissions| + 1
            && (|p.emissions| > |o.emissions| ==>
                  Last(p.emissions).inst.newNum in p.history.states
                  && p.history.states[Last(p.emissions).inst.newNum] == o.history.typed)
  {
    hide Inv, Timed, EmissionsOk, IdsOk, Tick, MakeFragments, Coherent;
    InvLive(o.sender, o.history);
    TickKeeps(o.sender, o.history, now, rto, interval);
    TickOutAppends(o, now, rto, interval, mtu, z);
  }

  lemma {:induction false} SameDelay(o: Out, delay: nat)
    requires ClockPast(o, delay)
    ensures o.sender.mindelay == delay
  {
  }

  // ----- over runs -----

  lemma {:induction false} RunPrompt(o: Out, ops: seq<Op>, z: Zlib, base: nat, c: nat, back: nat, typed: Stream)
    requires OutInv(o, z) && Prompt(o, base, c, back) && Contains(o, base, typed) && AllFrame(o, ops, z)
    ensures Prompt(Run(o, ops, z), base, c, back) && Contains(Run(o, ops, z), base, typed)
    decreases |ops|
  {
    OutLive(o, z);
    hide OutInv, Apply, Frames, Prompt, Grows;
    if ops != [] {
      ApplyPrompt(o, ops[0], z, base, c, back);
      ApplyContains(o, ops[0], z, base, typed);
      ApplyKeeps(o, ops[0], z);
      hide Contains;
      RunPrompt(Apply(o, ops[0], z), ops[1..], z, base, c, back, typed);
    }
  }

  lemma {:induction false} RunClock(o: Out, ops: seq<Op>, z: Zlib, delay: nat)
    requires OutInv(o, z) && ClockPast(o, delay) && AllFrame(o, ops, z)
    ensures ClockPast(Run(o, ops, z), delay)
    decreases |ops|
  {
    OutLive(o, z);
    hide OutInv, Apply, Frames, ClockPast, Grows;
    if ops != [] {
      ApplyClock(o, ops[0], z, delay);
      ApplyKeeps(o, ops[0], z);
      RunClock(Apply(o, ops[0], z), ops[1..], z, delay);
    }
  }

  /** A tick past the batching delay and a frame after the newest state sends what is batching. */
  lemma {:induction false} LastTickSends(o: Out, last: Op, z: Zlib, base: nat, c: nat, back: nat)
    requires OutInv(o, z) && o.sender.Live() && Prompt(o, base, c, back) && base <= |o.emissions|
    requires last.DoTick? && Enabled(o, last) && Frames(o, last, z)
    requires last.now >= c + o.sender.mindelay && last.now >= back + last.interval
    ensures |Apply(o, last, z).emissions| > base
  {
    hide Inv, Timed, EmissionsOk, IdsOk, TickOut, Frames, AckPast;
    TickFacts(o, last.now, last.rto, last.interval, last.mtu, z);
    TickOutAppends(o, last.now, last.rto, last.interval, last.mtu, z);
  }

  /**
   Something typed never waits longer than the batching delay and a frame. In any reachable state
   with something typed beyond the newest state, a timer pass at `t` sees it. Then, whatever happens
   next, acks, typing and shutdown included, and whatever the peer is assumed to hold, by the end of
   any tick at least the batching delay after `t` and a frame after that newest state an instruction
   has gone out, and every one that has since the pass contains what was typed before it.
   */
  lemma {:induction false} TypedGoesOut(
    now0: nat, mindelay: nat, earlier: seq<Op>, pass: Op, ops: seq<Op>, last: Op, z: Zlib)
    requires AllFrame(InitOut(now0, mindelay), earlier, z)
    requires var o := RunFromStart(now0, mindelay, earlier, z);
             && o.sender.Live() && Ends(o.sender, o.history) && o.history.typed != NewestOf(o.sender, o.history)
             && Pass(pass) && Enabled(o, pass) && Frames(o, pass, z)
             && var p := Apply(o, pass, z);
                && AllFrame(p, ops + [last], z) && last.DoTick?
                && Run(p, ops, z).sender.Live() && Enabled(Run(p, ops, z), last)
                && last.now >= PassTime(pass) + mindelay
                && last.now >= o.sender.Back().timestamp + last.interval
    ensures var o := RunFromStart(now0, mindelay, earlier, z);
            var r := Run(Apply(o, pass, z), ops + [last], z);
            && |r.emissions| > |o.emissions|
            && forall k | |o.emissions| <= k < |r.emissions| ::
                 r.emissions[k].inst.newNum in r.history.states
                 && o.history.typed <= r.history.states[r.emissions[k].inst.newNum]
  {
    var o := RunFromStart(now0, mindelay, earlier, z);
    ReachedKeeps(now0, mindelay, earlier, z);
    InitOutInv(now0, mindelay, z);
    RunClock(InitOut(now0, mindelay), earlier, z, mindelay);
    hide RunFromStart, OutInv, AllFrame, Run, Apply, Frames, Prompt, Enabled, Grows, NewestOf, Ends, ClockPast;
    var base, typed, c, back := |o.emissions|, o.history.typed, PassTime(pass), o.sender.Back().timestamp;
    PassBatches(o, pass, z, mindelay);
    ApplyContains(o, pass, z, base, typed);
    ApplyKeeps(o, pass, z);
    var p := Apply(o, pass, z);
    AllFrameSplit(p, ops, last, z);
    RunPrompt(p, ops, z, base, c, back, typed);
    var q := Run(p, ops, z);
    RunKeeps(p, ops, z);
    RunSnoc(p, ops, last, z);
    ApplyClock(o, pass, z, mindelay);
    RunClock(p, ops, z, mindelay);
    SameDelay(q, mindelay);
    LastTickSends(q, last, z, base, c, back);
    ApplyContains(q, last, z, base, typed);
  }
}
