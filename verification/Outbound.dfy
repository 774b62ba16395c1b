/**
 A sender with its fragmenter, driven by arbitrary operations: the runs over which the
 sending side's promises are stated. A guard that fails leaves the state as it is.
 */
module Outbound {
  import opened Basics
  import opened Wire
  import opened Streams
  import opened Queues
  import opened Fragments
  import opened Sender
  import opened SenderLaws

  /** An instruction that went out, with the fragments it was cut into. */
  datatype Emission = Emission(
    time: nat, inst: TransportInstruction, budget: nat, id: u64, fragments: seq<Fragment>)

  datatype Out = Out(
    sender: Sender, history: History, clock: nat, framer: Framer, emissions: seq<Emission>)

  datatype Op =
    | Type(more: Stream)
    | BeginShutdown(now: nat)
    | PeerAck(ack: u64)
    | SetAckNum(num: u64)
    | SetDataAck
    | Heard(ts: nat)
    | Wait(now: nat, rto: nat, interval: nat)
    | DoTick(now: nat, rto: nat, interval: nat, mtu: nat)

  function InitOut(now: nat, mindelay: nat): Out {
    Out(NewSender([], now, mindelay), EMPTY_HISTORY, now, FRESH_FRAMER, [])
  }

  /** A clock that never goes back, room for one more number and id, a frozen stream in shutdown. */
  predicate Enabled(o: Out, op: Op)
    requires o.sender.Live()
  {
    match op
    case Type(more) => !o.sender.shutdown && |o.history.typed| + |more| < STREAM_LIMIT
    case BeginShutdown(now) => o.clock <= now
    case Wait(now, _, _) => o.clock <= now
    case DoTick(now, _, _, _) => o.clock <= now && Room(o.sender) && o.framer.nextId + 1 < U64_LIMIT
    case _ => true
  }

  /** Hands a tick's instruction to the fragmenter; the ack is out only when that succeeds. */
  function Emit(o: Out, t: Ticked, h: History, now: nat, mtu: nat, z: Zlib): Out {
    if t.inst.None? then o.(sender := t.sender, history := h, clock := now)
    else
      var (framer, r) := MakeFragments(o.framer, t.inst.value, mtu, z);
      Out(Acked(t.sender, r.Success?), h, now, framer,
          if r.Success?
          then o.emissions + [Emission(now, t.inst.value, Budget(mtu), framer.nextId, r.value)]
          else o.emissions)
  }

  function TickOut(o: Out, now: nat, rto: nat, interval: nat, mtu: nat, z: Zlib): Out
    requires o.sender.Live()
  {
    var t := Tick(o.sender, now, rto, interval);
    Emit(o, t, TickHistory(o.sender, o.history, t), now, mtu, z)
  }

  function Apply(o: Out, op: Op, z: Zlib): Out
    requires o.sender.Live()
  {
    if !Enabled(o, op) then o
    else
      match op
      case Type(more) =>
        o.(sender := o.sender.(current := o.sender.current + more),
           history := o.history.(typed := o.history.typed + more))
      case BeginShutdown(now) => o.(sender := StartShutdown(o.sender, now), clock := now)
      case PeerAck(ack) => o.(sender := ProcessAck(o.sender, ack))
      case SetAckNum(num) => o.(sender := o.sender.(ackNum := num))
      case SetDataAck => o.(sender := o.sender.(pendingDataAck := true))
      case Heard(ts) => o.(sender := o.sender.(lastHeard := ts))
      case Wait(now, rto, interval) => o.(sender := WaitTime(o.sender, now, rto, interval).0, clock := now)
      case DoTick(now, rto, interval, mtu) => TickOut(o, now, rto, interval, mtu, z)
  }

  // ----- what every operation keeps -----

  predicate EmissionOk(e: Emission, h: History, z: Zlib) {
    && Coherent(e.inst, h)
    && e.budget > 0
    && |Slices(PayloadOf(e.inst, z), e.budget)| <= MAX_FRAGMENT_INDEX + 1
    && e.fragments == Packet(e.id, Slices(PayloadOf(e.inst, z), e.budget))
  }

  predicate EmissionsOk(es: seq<Emission>, s: Sender, h: History, z: Zlib)
    requires |s.sent| > 0
  {
    forall k | 0 <= k < |es| :: EmissionOk(es[k], h, z) && es[k].inst.throwawayNum <= s.Front().num
  }

  /** The id rule: ids never fall, and one id means one header and one budget. */
  predicate IdsOk(es: seq<Emission>, f: Framer) {
    && (forall k | 0 <= k < |es| ::
          && es[k].id <= f.nextId
          && (es[k].id == f.nextId ==> f.lastHeader == Some(HeaderOf(es[k].inst)) && f.lastMtu == es[k].budget))
    && (forall j, k | 0 <= j < |es| && 0 <= k < |es| && es[j].id == es[k].id ::
          HeaderOf(es[j].inst) == HeaderOf(es[k].inst) && es[j].budget == es[k].budget)
  }

  ghost predicate OutInv(o: Out, z: Zlib) {
    && Inv(o.sender, o.history)
    && |o.history.typed| < STREAM_LIMIT
    && Timed(o.sender.sent, o.clock)
    && EmissionsOk(o.emissions, o.sender, o.history, z)
    && IdsOk(o.emissions, o.framer)
  }

  /** The history only grows: numbers keep their streams, and typing appends. */
  predicate Extends(h: History, g: History) {
    && h.typed <= g.typed
    && forall n <- h.states :: n in g.states && g.states[n] == h.states[n]
  }

  lemma {:induction false} ExtendsSelf(h: History)
    ensures Extends(h, h)
  {
  }

  lemma {:induction false} ExtendsTransitive(a: History, b: History, c: History)
    requires Extends(a, b) && Extends(b, c)
    ensures Extends(a, c)
  {
  }

  lemma {:induction false} CoherentStays(m: TransportInstruction, h: History, g: History)
    requires Coherent(m, h) && Extends(h, g)
    ensures Coherent(m, g)
  {
  }

  lemma {:induction false} EmissionsStay(es: seq<Emission>, s: Sender, h: History, s': Sender, g: History, z: Zlib)
    requires |s.sent| > 0 && |s'.sent| > 0 && s.Front().num <= s'.Front().num
    requires EmissionsOk(es, s, h, z) && Extends(h, g)
    ensures EmissionsOk(es, s', g, z)
  {
    forall k | 0 <= k < |es| ensures EmissionOk(es[k], g, z) {
      CoherentStays(es[k].inst, h, g);
    }
  }

  lemma {:induction false} InitOutInv(now: nat, mindelay: nat, z: Zlib)
    ensures OutInv(InitOut(now, mindelay), z)
  {
    InitInv([], now, mindelay);
  }

  // ----- a tick of the whole outgoing side -----

  /** Timestamps stay sorted and never run ahead of the clock. */
  lemma {:induction false} TickTimed(s: Sender, now: nat, rto: nat, interval: nat, clock: nat)
    requires s.Live() && |s.sent| <= SENT_QUEUE_CAP && Timed(s.sent, clock) && clock <= now
    ensures Timed(Tick(s, now, rto, interval).sender.sent, now)
  {
    hide Prepared, NextSend, Send, Timed;
    PreparedFront(s, now, rto);
    var p := Prepared(s, now, rto);
    SameTimes(s.sent, p.sent, clock, now);
    var (t, send) := Timers(p, now, rto, interval);
    var dueSend, dueAck := send.Some? && now >= send.value, now >= t.nextAck;
    SendKeepsTimes(t, now, dueSend, dueAck);
  }

  lemma {:induction false} SameTimes(q: SentQueue, r: SentQueue, clock: nat, now: nat)
    requires |r| == |q| && forall i | 0 <= i < |q| :: r[i].timestamp == q[i].timestamp
    requires Timed(q, clock) && clock <= now
    ensures Timed(r, now)
  {
  }

  lemma {:induction false} SendKeepsTimes(t: Sender, now: nat, dueSend: bool, dueAck: bool)
    requires t.Live() && |t.sent| <= SENT_QUEUE_CAP && Timed(t.sent, now)
    ensures Timed(Send(t, now, dueSend, dueAck).sender.sent, now)
  {
    hide Bet, DiffFrom, SendDiff, SendEmptyAck, Timed;
    BetBase(t);
    SendTimed(Bet(t).0, now, Bet(t).1);
  }

  lemma {:induction false} SendTimed(b: Sender, now: nat, diff: seq<byte>)
    requires b.Live() && |b.sent| <= SENT_QUEUE_CAP && Timed(b.sent, now)
    ensures Timed(SendDiff(b, now, diff).sender.sent, now)
    ensures Timed(SendEmptyAck(b, now).sender.sent, now)
  {
    hide AddSent, Timed;
    AddTimed(b, now, DiffNum(b), b.current);
    AddTimed(b, now, EmptyAckNum(b), b.current);
    RefreshTimed(b, now);
  }

  lemma {:induction false} RefreshTimed(b: Sender, now: nat)
    requires b.Live() && Timed(b.sent, now)
    ensures Timed(Refreshed(b, now).sent, now)
  {
  }

  lemma {:induction false} AddTimed(b: Sender, now: nat, num: u64, state: Stream)
    requires b.Live() && |b.sent| <= SENT_QUEUE_CAP && Timed(b.sent, now)
    ensures Timed(AddSent(b, now, num, state).sent, now)
  {
    hide AddSent;
    AddSentQueue(b, now, num, state);
    var q, r := b.sent + [Timestamped(now, num, state)], AddSent(b, now, num, state).sent;
    assert forall i, j | 0 <= i < j < |q| :: q[i].timestamp <= q[j].timestamp <= now;
    forall i, j | 0 <= i < j < |r| ensures r[i].timestamp <= r[j].timestamp {
      assert Origin(i, |q|) < Origin(j, |q|);
    }
  }

  lemma {:induction false} TickExtends(s: Sender, h: History, now: nat, rto: nat, interval: nat)
    requires Inv(s, h) && Room(s)
    ensures Extends(h, TickHistory(s, h, Tick(s, now, rto, interval)))
  {
    hide Tick, Inv, Coherent;
    InvLive(s, h);
    TickKeeps(s, h, now, rto, interval);
  }

  /** Stamping keeps the id rule, whether or not the fragments then go out. */
  lemma {:induction false} StampKeeps(es: seq<Emission>, f: Framer, e: Emission, mtu: nat)
    requires IdsOk(es, f) && f.nextId + 1 < U64_LIMIT
    requires e.id == Stamp(f, e.inst, mtu).nextId && e.budget == Budget(mtu)
    ensures IdsOk(es, Stamp(f, e.inst, mtu))
    ensures IdsOk(es + [e], Stamp(f, e.inst, mtu))
  {
    var g := Stamp(f, e.inst, mtu);
    assert IdsOk(es, g);
    forall k | 0 <= k < |es| && es[k].id == e.id
      ensures HeaderOf(es[k].inst) == HeaderOf(e.inst) && es[k].budget == e.budget
    {
    }
  }

  /** The part of a tick that meets the fragmenter. */
  lemma {:induction false} FramedKeeps(
    es: seq<Emission>, f: Framer, s: Sender, g: History, m: TransportInstruction, now: nat, mtu: nat, z: Zlib)
    requires |s.sent| > 0 && EmissionsOk(es, s, g, z) && IdsOk(es, f) && f.nextId + 1 < U64_LIMIT
    requires Coherent(m, g) && m.throwawayNum <= s.Front().num
    ensures var (framer, r) := MakeFragments(f, m, mtu, z);
            && IdsOk(es, framer)
            && (r.Success? ==>
                  var e := Emission(now, m, Budget(mtu), framer.nextId, r.value);
                  IdsOk(es + [e], framer) && EmissionsOk(es + [e], s, g, z))
  {
    hide Coherent, Slices, Packet, PayloadOf, IdsOk;
    if Budget(mtu) > 0 {
      var (framer, r) := MakeFragments(f, m, mtu, z);
      var fs := if r.Success? then r.value else [];
      StampKeeps(es, f, Emission(now, m, Budget(mtu), framer.nextId, fs), mtu);
    }
  }

  lemma {:induction false} TickOutKeeps(o: Out, now: nat, rto: nat, interval: nat, mtu: nat, z: Zlib)
    requires OutInv(o, z) && Enabled(o, DoTick(now, rto, interval, mtu))
    ensures OutInv(TickOut(o, now, rto, interval, mtu, z), z)
  {
    hide Tick, Coherent, Inv, Timed, IdsOk, EmissionsOk, MakeFragments;
    var s, h := o.sender, o.history;
    InvLive(s, h);
    var t := Tick(s, now, rto, interval);
    var g := TickHistory(s, h, t);
    TickKeeps(s, h, now, rto, interval);
    InvLive(t.sender, g);
    TickExtends(s, h, now, rto, interval);
    TickTimed(s, now, rto, interval, o.clock);
    EmissionsStay(o.emissions, s, h, t.sender, g, z);
    if t.inst.Some? {
      var r := MakeFragments(o.framer, t.inst.value, mtu, z).1;
      FramedKeeps(o.emissions, o.framer, t.sender, g, t.inst.value, now, mtu, z);
      InvCore(t.sender, Acked(t.sender, r.Success?), g);
      SameEmissions(o.emissions, t.sender, Acked(t.sender, r.Success?), g, z);
      if r.Success? {
        var framer := MakeFragments(o.framer, t.inst.value, mtu, z).0;
        var e := Emission(now, t.inst.value, Budget(mtu), framer.nextId, r.value);
        SameEmissions(o.emissions + [e], t.sender, Acked(t.sender, true), g, z);
      }
    }
  }

  lemma {:induction false} SameEmissions(es: seq<Emission>, s: Sender, s': Sender, h: History, z: Zlib)
    requires |s.sent| > 0 && s'.sent == s.sent && EmissionsOk(es, s, h, z)
    ensures EmissionsOk(es, s', h, z)
  {
  }

  lemma {:induction false} InvLive(s: Sender, h: History)
    requires Inv(s, h)
    ensures s.Live() && |s.sent| <= SENT_QUEUE_CAP
  {
  }

  /** What one operation does to the record: typing appends, and only higher numbers are added. */
  predicate Grows(o: Out, p: Out)
    requires |o.sender.sent| > 0 && |p.sender.sent| > 0
  {
    && Extends(o.history, p.history)
    && o.sender.Front().num <= p.sender.Front().num
    && o.sender.Back().num <= p.sender.Back().num
    && (forall n <- p.history.states :: n in o.history.states ||
          (n > o.sender.Back().num && p.history.states[n] == o.history.typed))
    && o.emissions <= p.emissions
    && (o.sender.shutdown ==> p.sender.shutdown && p.history.typed == o.history.typed)
  }

  lemma {:induction false} TickRecords(s: Sender, h: History, now: nat, rto: nat, interval: nat)
    requires Inv(s, h) && Room(s)
    ensures var t := Tick(s, now, rto, interval);
            var g := TickHistory(s, h, t);
            && |t.sender.sent| > 0 && s.Front().num <= t.sender.Front().num && s.Back().num <= t.sender.Back().num
            && (forall n <- g.states :: n in h.states || (n > s.Back().num && g.states[n] == h.typed))
            && g.typed == h.typed && t.sender.shutdown == s.shutdown
  {
    hide Tick, Coherent, Monotone, Rising, Faithful;
    TickKeeps(s, h, now, rto, interval);
    TickFields(s, now, rto, interval);
    InvBack(s, h);
    var t := Tick(s, now, rto, interval);
    var g := TickHistory(s, h, t);
    InvBack(t.sender, g);
    TickBack(s, now, rto, interval);
    assert forall n <- h.states :: n in g.states;
  }

  lemma {:induction false} TickOutGrows(o: Out, now: nat, rto: nat, interval: nat, mtu: nat, z: Zlib)
    requires OutInv(o, z) && Enabled(o, DoTick(now, rto, interval, mtu))
    ensures |TickOut(o, now, rto, interval, mtu, z).sender.sent| > 0
    ensures Grows(o, TickOut(o, now, rto, interval, mtu, z))
  {
    hide Tick, MakeFragments, Inv, TickHistory, Extends;
    InvLive(o.sender, o.history);
    TickRecords(o.sender, o.history, now, rto, interval);
    TickExtends(o.sender, o.history, now, rto, interval);
  }

  /** A tick that sends nothing leaves the newest number alone. */
  lemma {:induction false} TickBack(s: Sender, now: nat, rto: nat, interval: nat)
    requires s.Live()
    ensures var t := Tick(s, now, rto, interval);
            t.inst.None? ==> |t.sender.sent| > 0 && t.sender.Back().num == s.Back().num
  {
    PreparedFront(s, now, rto);
    hide Prepared, NextSend, Send;
    var (t, send) := Timers(Prepared(s, now, rto), now, rto, interval);
    SendFields(t, now, send.Some? && now >= send.value, now >= t.nextAck);
  }

  /** A tick that emits appends its own instruction, stamped with its own time. */
  lemma {:induction false} TickOutAppends(o: Out, now: nat, rto: nat, interval: nat, mtu: nat, z: Zlib)
    requires o.sender.Live()
    ensures var p, t := TickOut(o, now, rto, interval, mtu, z), Tick(o.sender, now, rto, interval);
            && p.clock == now && o.emissions <= p.emissions && |p.emissions| <= |o.emissions| + 1
            && (|p.emissions| > |o.emissions| ==> t.inst == Some(Last(p.emissions).inst) && Last(p.emissions).time == now)
            && p.sender.ackNum == t.sender.ackNum
  {
    hide Tick, MakeFragments;
  }

  lemma {:induction false} InvBack(s: Sender, h: History)
    requires Inv(s, h)
    ensures s.Back().num in h.states
  {
  }

  lemma {:induction false} AckTimed(s: Sender, h: History, ack: u64, clock: nat)
    requires Inv(s, h) && Timed(s.sent, clock)
    ensures Timed(ProcessAck(s, ack).sent, clock)
  {
    hide Inv, Has, Retain, Below, Timed;
    if Has(s.sent, ack) {
      AckCuts(s, h, ack);
      SuffixTimed(s.sent, Below(s.sent, ack), clock);
    }
  }

  lemma {:induction false} SuffixTimed(q: SentQueue, k: nat, clock: nat)
    requires k <= |q| && Timed(q, clock)
    ensures Timed(q[k..], clock)
  {
  }

  lemma {:induction false} TypeGrows(o: Out, more: Stream, z: Zlib)
    requires OutInv(o, z) && Enabled(o, Type(more))
    ensures OutInv(Apply(o, Type(more), z), z) && Grows(o, Apply(o, Type(more), z))
  {
    hide Coherent, Timed, IdsOk, Inv, EmissionsOk;
    InvLive(o.sender, o.history);
    var p := Apply(o, Type(more), z);
    TypeKeeps(o.sender, o.history, more);
    assert Extends(o.history, p.history);
    EmissionsStay(o.emissions, o.sender, o.history, o.sender, p.history, z);
    SameEmissions(o.emissions, o.sender, p.sender, p.history, z);
  }

  lemma {:induction false} AckGrows(o: Out, ack: u64, z: Zlib)
    requires OutInv(o, z)
    ensures OutInv(Apply(o, PeerAck(ack), z), z) && Grows(o, Apply(o, PeerAck(ack), z))
  {
    hide ProcessAck, Coherent, Timed, Inv, IdsOk, EmissionsOk;
    InvLive(o.sender, o.history);
    AckKeeps(o.sender, o.history, ack);
    AckTimed(o.sender, o.history, ack, o.clock);
    var s := ProcessAck(o.sender, ack);
    AckShutdown(o.sender, ack);
    InvLive(s, o.history);
    ExtendsSelf(o.history);
    EmissionsStay(o.emissions, o.sender, o.history, s, o.history, z);
  }

  lemma {:induction false} AckShutdown(s: Sender, ack: u64)
    requires s.Live()
    ensures ProcessAck(s, ack).shutdown == s.shutdown
  {
    hide Retain, Has;
  }

  /** Every operation keeps the invariant and only adds to the record. */
  lemma {:induction false} ApplyKeeps(o: Out, op: Op, z: Zlib)
    requires OutInv(o, z)
    ensures OutInv(Apply(o, op, z), z) && Grows(o, Apply(o, op, z))
  {
    hide Coherent, Timed, Inv, IdsOk, EmissionsOk;
    InvLive(o.sender, o.history);
    if Enabled(o, op) {
      match op
      case Type(more) => TypeGrows(o, more, z);
      case PeerAck(ack) => AckGrows(o, ack, z);
      case DoTick(now, rto, interval, mtu) =>
        hide TickOut;
        TickOutKeeps(o, now, rto, interval, mtu, z);
        TickOutGrows(o, now, rto, interval, mtu, z);
      case _ => TimersGrow(o, op, z);
    }
  }

  /** The operations that touch neither the queue nor the stream. */
  lemma {:induction false} TimersGrow(o: Out, op: Op, z: Zlib)
    requires OutInv(o, z) && Enabled(o, op) && !op.Type? && !op.PeerAck? && !op.DoTick?
    ensures OutInv(Apply(o, op, z), z) && Grows(o, Apply(o, op, z))
  {
    hide Coherent, Timed, Inv, IdsOk, EmissionsOk, NextSend;
    InvLive(o.sender, o.history);
    var p := Apply(o, op, z);
    if op.BeginShutdown? && !o.sender.shutdown {
      InvShutdown(o.sender, p.sender, o.history);
    } else {
      InvCore(o.sender, p.sender, o.history);
    }
    SameTimes(o.sender.sent, p.sender.sent, o.clock, p.clock);
    SameEmissions(o.emissions, o.sender, p.sender, o.history, z);
  }

  lemma {:induction false} InvShutdown(s: Sender, t: Sender, h: History)
    requires Inv(s, h)
    requires t.current == s.current && t.sent == s.sent && t.assumed == s.assumed && t.shutdown
    ensures Inv(t, h)
  {
  }

  // ----- runs -----

  /** A run of operations. A sender that cannot be read would stop it; `RunKeeps` rules that out. */
  function Run(o: Out, ops: seq<Op>, z: Zlib): Out
    decreases |ops|
  {
    if ops == [] || !o.sender.Live() then o else Run(Apply(o, ops[0], z), ops[1..], z)
  }

  function RunFromStart(now: nat, mindelay: nat, ops: seq<Op>, z: Zlib): Out {
    Run(InitOut(now, mindelay), ops, z)
  }

  lemma {:induction false} OutLive(o: Out, z: Zlib)
    requires OutInv(o, z)
    ensures o.sender.Live()
  {
  }

  lemma {:induction false} RunKeeps(o: Out, ops: seq<Op>, z: Zlib)
    requires OutInv(o, z)
    ensures OutInv(Run(o, ops, z), z)
    decreases |ops|
  {
    hide OutInv, Apply, Grows;
    OutLive(o, z);
    if ops != [] {
      ApplyKeeps(o, ops[0], z);
      RunKeeps(Apply(o, ops[0], z), ops[1..], z);
    }
  }

  /** Every reachable sender, with its fragmenter and its record, satisfies the invariant. */
  lemma {:induction false} ReachedKeeps(now: nat, mindelay: nat, ops: seq<Op>, z: Zlib)
    ensures OutInv(RunFromStart(now, mindelay, ops, z), z)
  {
    hide OutInv, Run;
    InitOutInv(now, mindelay, z);
    RunKeeps(InitOut(now, mindelay), ops, z);
  }

  /** Over a whole run, numbers keep their streams and the queue's ends only move up. */
  lemma {:induction false} RunExtends(o: Out, ops: seq<Op>, z: Zlib)
    requires OutInv(o, z)
    ensures var r := Run(o, ops, z);
            && o.sender.Live() && r.sender.Live()
            && Extends(o.history, r.history) && o.emissions <= r.emissions
            && o.sender.Front().num <= r.sender.Front().num
            && o.sender.Back().num <= r.sender.Back().num
    decreases |ops|
  {
    OutLive(o, z);
    ExtendsSelf(o.history);
    hide OutInv, Apply, Extends;
    if ops != [] {
      var p := Apply(o, ops[0], z);
      ApplyKeeps(o, ops[0], z);
      RunExtends(p, ops[1..], z);
      ExtendsTransitive(o.history, p.history, Run(o, ops, z).history);
    }
  }
}
