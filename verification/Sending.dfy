/** What the sending side promises over every run. */
module Sending {
  import opened Basics
  import opened Streams
  import opened Queues
  import opened Fragments
  import opened Sender
  import opened SenderLaws
  import opened Outbound

  // ----- coherence -----

  /**
   In every run, every emitted instruction, applied to the stream recorded as its old number,
   yields the stream recorded as its new number; and throwaway, old and new numbers are ordered.
   */
  lemma {:induction false} EveryInstructionCoherent(now: nat, mindelay: nat, ops: seq<Op>, z: Zlib, k: nat)
    requires k < |RunFromStart(now, mindelay, ops, z).emissions|
    ensures var r := RunFromStart(now, mindelay, ops, z);
            var m := r.emissions[k].inst;
            && m.throwawayNum <= m.oldNum <= m.newNum
            && m.oldNum in r.history.states && m.newNum in r.history.states
            && ApplyString(r.history.states[m.oldNum], m.diff) == Success(r.history.states[m.newNum])
            && (m.diff == [] <==> r.history.states[m.oldNum] == r.history.states[m.newNum])
  {
    var r := RunFromStart(now, mindelay, ops, z);
    ReachedKeeps(now, mindelay, ops, z);
    hide RunFromStart, ApplyString, DiffFrom, Inv, IdsOk;
    var m := r.emissions[k].inst;
    assert EmissionOk(r.emissions[k], r.history, z);
    var a, b := r.history.states[m.oldNum], r.history.states[m.newNum];
    assert b <= r.history.typed by { RecordedIsTyped(r.sender, r.history, m.newNum); }
    DiffRestores(b, a);
    DiffEmptyIff(b, a);
  }

  lemma {:induction false} RecordedIsTyped(s: Sender, h: History, n: u64)
    requires Inv(s, h) && n in h.states
    ensures h.states[n] <= h.typed
  {
  }

  /** In every run, an instruction rebuilds everything typed up to the tick that sends it. */
  lemma {:induction false} EmittedIsCurrent(
    now0: nat, mindelay: nat, ops: seq<Op>, now: nat, rto: nat, interval: nat, mtu: nat, z: Zlib)
    ensures var o := RunFromStart(now0, mindelay, ops, z);
            && o.sender.Live()
            && var p := Apply(o, DoTick(now, rto, interval, mtu), z);
               |p.emissions| > |o.emissions| ==>
                 && p.emissions == o.emissions + [Last(p.emissions)] && Last(p.emissions).time == now
                 && Last(p.emissions).inst.oldNum in p.history.states
                 && ApplyString(p.history.states[Last(p.emissions).inst.oldNum], Last(p.emissions).inst.diff)
                    == Success(o.history.typed)
  {
    var o := RunFromStart(now0, mindelay, ops, z);
    ReachedKeeps(now0, mindelay, ops, z);
    hide RunFromStart, ApplyString, Inv, OutInv, TickOut;
    OutLive(o, z);
    if Enabled(o, DoTick(now, rto, interval, mtu)) { TickIsCurrent(o, now, rto, interval, mtu, z); }
  }

  lemma {:induction false} TickIsCurrent(o: Out, now: nat, rto: nat, interval: nat, mtu: nat, z: Zlib)
    requires OutInv(o, z) && Enabled(o, DoTick(now, rto, interval, mtu))
    ensures var p := TickOut(o, now, rto, interval, mtu, z);
            |p.emissions| > |o.emissions| ==>
              && p.emissions == o.emissions + [Last(p.emissions)] && Last(p.emissions).time == now
              && Last(p.emissions).inst.oldNum in p.history.states
              && ApplyString(p.history.states[Last(p.emissions).inst.oldNum], Last(p.emissions).inst.diff)
                 == Success(o.history.typed)
  {
    hide Tick, ApplyString, DiffFrom, MakeFragments, Inv;
    InvLive(o.sender, o.history);
    TickKeeps(o.sender, o.history, now, rto, interval);
    var t := Tick(o.sender, now, rto, interval);
    if t.inst.Some? {
      var g := TickHistory(o.sender, o.history, t);
      DiffRestores(g.states[t.inst.value.newNum], g.states[t.inst.value.oldNum]);
    }
  }

  // ----- instruction ids -----

  /**
   One id never names two payloads: although the id rule does not look at the diff, two
   emissions under one id carry the same instruction and the same fragments.
   */
  lemma {:induction false} SameIdSamePayload(o: Out, z: Zlib, j: nat, k: nat)
    requires OutInv(o, z) && j < |o.emissions| && k < |o.emissions|
    requires o.emissions[j].id == o.emissions[k].id
    ensures o.emissions[j].inst == o.emissions[k].inst
    ensures o.emissions[j].fragments == o.emissions[k].fragments
  {
    hide Inv, Timed, DiffFrom, Slices, Packet, PayloadOf;
    var a, b := o.emissions[j], o.emissions[k];
    assert EmissionOk(a, o.history, z) && EmissionOk(b, o.history, z);
    assert HeaderOf(a.inst) == HeaderOf(b.inst) && a.budget == b.budget;
    assert a.inst == b.inst;
  }

  lemma {:induction false} InstructionIdsNameOnePayload(now: nat, mindelay: nat, ops: seq<Op>, z: Zlib)
    ensures var es := RunFromStart(now, mindelay, ops, z).emissions;
            forall j, k | 0 <= j < |es| && 0 <= k < |es| && es[j].id == es[k].id ::
              es[j].inst == es[k].inst && es[j].fragments == es[k].fragments
  {
    var r := RunFromStart(now, mindelay, ops, z);
    hide *;
    ReachedKeeps(now, mindelay, ops, z);
    forall j, k | 0 <= j < |r.emissions| && 0 <= k < |r.emissions| && r.emissions[j].id == r.emissions[k].id
      ensures r.emissions[j].inst == r.emissions[k].inst && r.emissions[j].fragments == r.emissions[k].fragments
    {
      SameIdSamePayload(r, z, j, k);
    }
  }

  // ----- the assumed receiver state -----

  /** An append from `s` keeps the cap, the head, the newest fifteen and the assumed entry. */
  predicate SafeAppend(s: Sender, now: nat, num: u64, state: Stream)
    requires s.Live()
  {
    var r, q := AddSent(s, now, num, state), s.sent + [Timestamped(now, num, state)];
    && r.Live() && |r.sent| <= SENT_QUEUE_CAP
    && r.sent[r.assumed] == s.sent[s.assumed]
    && r.sent[0] == s.sent[0]
    && (|q| > 15 ==> |r.sent| > 15 && r.sent[|r.sent| - 15..] == q[|q| - 15..])
  }

  lemma {:induction false} EndsAppendSafely(s: Sender, now: nat, num: u64, state: Stream)
    requires s.Live() && |s.sent| <= SENT_QUEUE_CAP && (s.assumed == 0 || s.assumed == |s.sent| - 1)
    ensures SafeAppend(s, now, num, state)
  {
    CullSparesAssumed(s, now, num, state);
    AddSentQueue(s, now, num, state);
    hide AddSent;
  }

  /**
   In every run: timestamps are sorted and not ahead of the clock, the assumed index can be
   read, the queue is within its cap; and a tick's walk stops at the head or the newest state,
   so that whatever entry the tick then culls, it is not the assumed one.
   */
  lemma {:induction false} AssumedReceiverSafe(
    now0: nat, mindelay: nat, ops: seq<Op>, z: Zlib, now: nat, rto: nat, num: u64, state: Stream)
    requires RunFromStart(now0, mindelay, ops, z).clock <= now
    ensures var s := RunFromStart(now0, mindelay, ops, z).sender;
            && s.Live() && |s.sent| <= SENT_QUEUE_CAP && Timed(s.sent, now)
            && Walk(s.sent, now, rto, 1) in {0, |s.sent| - 1}
            && SafeAppend(s.(assumed := 0), now, num, state)
            && SafeAppend(s.(assumed := Walk(s.sent, now, rto, 1)), now, num, state)
  {
    var r := RunFromStart(now0, mindelay, ops, z);
    var s := r.sender;
    ReachedKeeps(now0, mindelay, ops, z);
    hide RunFromStart, Inv, EmissionsOk, IdsOk, SafeAppend;
    InvLive(s, r.history);
    SameTimes(s.sent, s.sent, r.clock, now);
    WalkLands(s.sent, now, rto);
    EndsAppendSafely(s.(assumed := 0), now, num, state);
    EndsAppendSafely(s.(assumed := Walk(s.sent, now, rto, 1)), now, num, state);
  }

  /** The assumed index a tick sends from is one of those two. */
  lemma {:induction false} TickSendsFromAnEnd(s: Sender, now: nat, rto: nat, interval: nat)
    requires s.Live() && Timed(s.sent, now)
    ensures var t := Timers(Prepared(s, now, rto), now, rto, interval).0;
            t.Live() && Bet(t).0.assumed in {0, |t.sent| - 1}
  {
    WalkLands(s.sent, now, rto);
    PreparedFront(s, now, rto);
    hide Prepared, NextSend, Bet, DiffFrom, Walk;
    BetBase(Timers(Prepared(s, now, rto), now, rto, interval).0);
  }

  // ----- which states contain a burst of typing -----

  /** `f` parts the numbers: below it the stream stops before the burst, from it on it includes the burst. */
  predicate Separates(o: Out, f: int, before: Stream, after: Stream)
    requires |o.sender.sent| > 0
  {
    && after <= o.history.typed && f <= o.sender.Back().num + 1
    && forall n <- o.history.states ::
         (n < f ==> o.history.states[n] <= before) && (n >= f ==> after <= o.history.states[n])
  }

  lemma {:induction false} GrowsSeparates(o: Out, p: Out, f: int, before: Stream, after: Stream)
    requires |o.sender.sent| > 0 && |p.sender.sent| > 0
    requires Grows(o, p) && Separates(o, f, before, after)
    ensures Separates(p, f, before, after)
  {
  }

  lemma {:induction false} RunSeparates(o: Out, ops: seq<Op>, z: Zlib, f: int, before: Stream, after: Stream)
    requires OutInv(o, z) && |o.sender.sent| > 0 && Separates(o, f, before, after)
    ensures |Run(o, ops, z).sender.sent| > 0 && Separates(Run(o, ops, z), f, before, after)
    decreases |ops|
  {
    OutLive(o, z);
    hide OutInv, Apply, Grows, Separates;
    if ops != [] {
      ApplyKeeps(o, ops[0], z);
      GrowsSeparates(o, Apply(o, ops[0], z), f, before, after);
      RunSeparates(Apply(o, ops[0], z), ops[1..], z, f, before, after);
    }
  }

  /** The frame a burst is tagged with: one past the newest number. */
  function FrameOf(o: Out): u64
    requires |o.sender.sent| > 0
  {
    NextNum(o.sender.Back().num)
  }

  lemma {:induction false} BurstSeparates(o: Out, burst: Stream, z: Zlib)
    requires OutInv(o, z) && Enabled(o, Type(burst))
    ensures Separates(Apply(o, Type(burst), z), FrameOf(o), o.history.typed, o.history.typed + burst)
  {
    hide Faithful, Rising, Timed, EmissionsOk, IdsOk;
  }

  /**
   A burst typed in any reachable state and tagged with its frame: in every continuation, no
   state numbered below the frame contains the burst and every state numbered from the frame on
   does.
   */
  lemma {:induction false} FrameSeparatesBurst(
    now: nat, mindelay: nat, earlier: seq<Op>, burst: Stream, later: seq<Op>, z: Zlib, n: u64)
    requires var o := RunFromStart(now, mindelay, earlier, z);
             && burst != [] && o.sender.Live() && Enabled(o, Type(burst))
             && n in Run(Apply(o, Type(burst), z), later, z).history.states
    ensures var o := RunFromStart(now, mindelay, earlier, z);
            var state := Run(Apply(o, Type(burst), z), later, z).history.states[n];
            && (n < FrameOf(o) ==> state <= o.history.typed && !(o.history.typed + burst <= state))
            && (n >= FrameOf(o) ==> o.history.typed + burst <= state)
  {
    var o := RunFromStart(now, mindelay, earlier, z);
    ReachedKeeps(now, mindelay, earlier, z);
    hide RunFromStart, OutInv, Apply, FrameOf, Run, Enabled;
    ApplyKeeps(o, Type(burst), z);
    BurstSeparates(o, burst, z);
    OutLive(Apply(o, Type(burst), z), z);
    RunSeparates(Apply(o, Type(burst), z), later, z, FrameOf(o), o.history.typed, o.history.typed + burst);
  }
}
