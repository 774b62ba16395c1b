/** Trimming is invisible: a sender that trims prefixes refines one that never does. */
module Trimming {
  import opened Basics
  import opened Streams
  import opened Queues
  import opened Fragments
  import opened Sender
  import opened SenderLaws
  import opened Outbound

  // ----- the sender that never trims -----

  function TickPlain(s: Sender, now: nat, rto: nat, interval: nat): Ticked
    requires s.Live()
  {
    var w := s.(assumed := Walk(s.sent, now, rto, 1));
    var (t, send) := Timers(w, now, rto, interval);
    var dueSend := send.Some? && now >= send.value;
    var dueAck := now >= t.nextAck;
    if !dueSend && !dueAck then Ticked(t, None) else Send(t, now, dueSend, dueAck)
  }

  function TickOutPlain(o: Out, now: nat, rto: nat, interval: nat, mtu: nat, z: Zlib): Out
    requires o.sender.Live()
  {
    Emit(o, TickPlain(o.sender, now, rto, interval), o.history, now, mtu, z)
  }

  function ApplyPlain(o: Out, op: Op, z: Zlib): Out
    requires o.sender.Live()
  {
    match op
    case DoTick(now, rto, interval, mtu) =>
      if Enabled(o, op) then TickOutPlain(o, now, rto, interval, mtu, z) else o
    case _ => Apply(o, op, z)
  }

  // ----- the same sender with a prefix put back everywhere -----

  function ShiftQueue(base: Stream, q: SentQueue): (r: SentQueue)
    ensures |r| == |q|
    ensures forall i | 0 <= i < |q| :: r[i] == q[i].(state := base + q[i].state)
  {
    seq(|q|, i requires 0 <= i < |q| => q[i].(state := base + q[i].state))
  }

  function Shift(base: Stream, s: Sender): Sender {
    s.(current := base + s.current, sent := ShiftQueue(base, s.sent))
  }

  lemma {:induction false} SameStream(base: Stream, a: Stream, b: Stream)
    ensures base + a == base + b <==> a == b
  {
    if base + a == base + b {
      assert a == (base + a)[|base|..] && b == (base + b)[|base|..];
    }
  }

  lemma {:induction false} WalkShift(base: Stream, q: SentQueue, now: nat, rto: nat, i: nat)
    requires 1 <= i <= |q|
    ensures Walk(ShiftQueue(base, q), now, rto, i) == Walk(q, now, rto, i)
    decreases |q| - i
  {
    if i < |q| && Fresh(q[i], now, rto) { WalkShift(base, q, now, rto, i + 1); }
  }

  /** Timers only compare states and read timestamps. */
  lemma {:induction false} TimersShift(base: Stream, s: Sender, now: nat, rto: nat, interval: nat)
    requires s.Live()
    ensures var (t, send) := Timers(s, now, rto, interval);
            Timers(Shift(base, s), now, rto, interval) == (Shift(base, t), send)
  {
    SameStream(base, s.current, s.Back().state);
    SameStream(base, s.current, s.sent[s.assumed].state);
    SameStream(base, s.current, s.sent[0].state);
    var u := Shift(base, s);
    assert u.Back().state == base + s.Back().state && u.Back().timestamp == s.Back().timestamp;
  }

  /** Diffs do not see a common prefix, so neither does the bet. */
  lemma {:induction false} BetShift(base: Stream, s: Sender)
    requires s.Live()
    ensures Bet(Shift(base, s)) == (Shift(base, Bet(s).0), Bet(s).1)
  {
    hide DiffFrom;
    DiffShift(base, s.current, s.sent[s.assumed].state);
    DiffShift(base, s.current, s.sent[0].state);
  }

  lemma {:induction false} ShiftAppend(base: Stream, q: SentQueue, e: Timestamped<Stream>)
    ensures ShiftQueue(base, q + [e]) == ShiftQueue(base, q) + [e.(state := base + e.state)]
  {
  }

  lemma {:induction false} ShiftCull(base: Stream, q: SentQueue, k: nat)
    requires k < |q|
    ensures ShiftQueue(base, q[..k] + q[k + 1..]) == ShiftQueue(base, q)[..k] + ShiftQueue(base, q)[k + 1..]
  {
  }

  lemma {:induction false} AddSentShift(base: Stream, s: Sender, now: nat, num: u64, state: Stream)
    requires s.Live()
    ensures AddSent(Shift(base, s), now, num, base + state) == Shift(base, AddSent(s, now, num, state))
  {
    var q := s.sent + [Timestamped(now, num, state)];
    ShiftAppend(base, s.sent, Timestamped(now, num, state));
    if |q| > SENT_QUEUE_CAP { ShiftCull(base, q, |q| - 16); }
    hide ShiftQueue;
  }

  lemma {:induction false} RefreshShift(base: Stream, s: Sender, now: nat)
    requires s.Live()
    ensures Refreshed(Shift(base, s), now) == Shift(base, Refreshed(s, now))
  {
    assert Refreshed(Shift(base, s), now).sent == ShiftQueue(base, Refreshed(s, now).sent);
  }

  lemma {:induction false} DiffNumShift(base: Stream, s: Sender)
    requires s.Live()
    ensures var u := Shift(base, s);
            u.Back().num == s.Back().num && DiffNum(u) == DiffNum(s) && EmptyAckNum(u) == EmptyAckNum(s)
  {
    SameStream(base, s.current, s.Back().state);
    assert Shift(base, s).Back().state == base + s.Back().state;
  }

  lemma {:induction false} SendDiffShift(base: Stream, s: Sender, now: nat, diff: seq<byte>)
    requires s.Live() && |s.sent| <= SENT_QUEUE_CAP
    ensures var t := SendDiff(s, now, diff);
            SendDiff(Shift(base, s), now, diff) == t.(sender := Shift(base, t.sender))
  {
    hide AddSent, ShiftQueue, DiffNum;
    DiffNumShift(base, s);
    AddSentShift(base, s, now, DiffNum(s), s.current);
    AddSentQueue(s, now, DiffNum(s), s.current);
    RefreshShift(base, s, now);
    hide Refreshed;
  }

  lemma {:induction false} SendEmptyAckShift(base: Stream, s: Sender, now: nat)
    requires s.Live() && |s.sent| <= SENT_QUEUE_CAP
    ensures var t := SendEmptyAck(s, now);
            SendEmptyAck(Shift(base, s), now) == t.(sender := Shift(base, t.sender))
  {
    hide AddSent, ShiftQueue, EmptyAckNum, DiffNum;
    DiffNumShift(base, s);
    AddSentShift(base, s, now, EmptyAckNum(s), s.current);
    AddSentQueue(s, now, EmptyAckNum(s), s.current);
  }

  lemma {:induction false} SendShift(base: Stream, s: Sender, now: nat, dueSend: bool, dueAck: bool)
    requires s.Live() && |s.sent| <= SENT_QUEUE_CAP
    ensures var t := Send(s, now, dueSend, dueAck);
            Send(Shift(base, s), now, dueSend, dueAck) == t.(sender := Shift(base, t.sender))
  {
    hide Bet, DiffFrom, SendDiff, SendEmptyAck, ShiftQueue;
    BetBase(s);
    BetShift(base, s);
    var b := Bet(s);
    SendDiffShift(base, b.0, now, b.1);
    SendEmptyAckShift(base, b.0, now);
  }

  /** After trimming, the untrimmed queue is the trimmed one behind the longer base. */
  lemma {:induction false} PreparedShift(s: Sender, h: History, now: nat, rto: nat)
    requires Inv(s, h)
    ensures Shift(h.base, s).(assumed := Walk(s.sent, now, rto, 1))
         == Shift(Rebase(h, s).base, Prepared(s, now, rto))
  {
    var w := s.(assumed := Walk(s.sent, now, rto, 1));
    InvCore(s, w, h);
    RationalizeShifts(w, h);
    PreparedFront(s, now, rto);
    var p, b := Prepared(s, now, rto), Rebase(h, s).base;
    assert b == Rebase(h, w).base && p == Rationalize(w);
    hide Prepared, Rationalize, Walk, Inv, Rebase;
    assert ShiftQueue(h.base, s.sent) == ShiftQueue(b, p.sent);
  }

  /** One tick: the same instruction, and states that still differ by the base only. */
  lemma {:induction false} TickTrimsInvisibly(s: Sender, h: History, now: nat, rto: nat, interval: nat)
    requires Inv(s, h)
    ensures var t := Tick(s, now, rto, interval);
            TickPlain(Shift(h.base, s), now, rto, interval)
            == t.(sender := Shift(Rebase(h, s).base, t.sender))
  {
    var base, p := Rebase(h, s).base, Prepared(s, now, rto);
    WalkShift(h.base, s.sent, now, rto, 1);
    PreparedShift(s, h, now, rto);
    PreparedFront(s, now, rto);
    InvLive(s, h);
    hide Prepared, Timers, Send, ShiftQueue, Walk, Inv, Rebase;
    TimersShift(base, p, now, rto, interval);
    TimersLive(p, now, rto, interval);
    var (t, send) := Timers(p, now, rto, interval);
    SendShift(base, t, now, send.Some? && now >= send.value, now >= t.nextAck);
  }

  lemma {:induction false} TimersLive(s: Sender, now: nat, rto: nat, interval: nat)
    requires s.Live()
    ensures var t := Timers(s, now, rto, interval).0;
            t.sent == s.sent && t.assumed == s.assumed
  {
  }

  // ----- whole runs -----

  /** The two outgoing sides agree on everything but the trimmed prefix. */
  predicate Twins(o: Out, u: Out) {
    && u.sender == Shift(o.history.base, o.sender)
    && u.clock == o.clock && u.framer == o.framer && u.emissions == o.emissions
    && u.history.typed == o.history.typed
  }

  lemma {:induction false} AckShift(base: Stream, s: Sender, ack: u64)
    requires s.Live()
    ensures ProcessAck(Shift(base, s), ack) == Shift(base, ProcessAck(s, ack))
  {
    RetainShift(base, s.sent, ack);
    var u := Shift(base, s);
    assert Has(u.sent, ack) <==> Has(s.sent, ack) by {
      if Has(s.sent, ack) {
        var i :| 0 <= i < |s.sent| && s.sent[i].num == ack;
        assert u.sent[i].num == ack;
      }
    }
    hide Retain, Has;
  }

  lemma {:induction false} RetainShift(base: Stream, q: SentQueue, num: u64)
    ensures Retain(ShiftQueue(base, q), num) == ShiftQueue(base, Retain(q, num))
  {
    hide ShiftQueue;
    var r := ShiftQueue(base, q);
    if q != [] {
      assert r[1..] == ShiftQueue(base, q[1..]);
      RetainShift(base, q[1..], num);
      var rest := Retain(q[1..], num);
      assert ShiftQueue(base, [q[0]] + rest) == [r[0]] + ShiftQueue(base, rest);
    }
  }

  lemma {:induction false} EmitTwins(
    o: Out, u: Out, t: Ticked, h: History, now: nat, mtu: nat, z: Zlib)
    requires Twins(o, u) && h.typed == o.history.typed
    ensures Twins(Emit(o, t, h, now, mtu, z),
                  Emit(u, t.(sender := Shift(h.base, t.sender)), u.history, now, mtu, z))
  {
    hide MakeFragments, ShiftQueue, Acked;
    AckedShift(h.base, t.sender, true);
    AckedShift(h.base, t.sender, false);
  }

  lemma {:induction false} TickTwins(o: Out, u: Out, now: nat, rto: nat, interval: nat, mtu: nat, z: Zlib)
    requires OutInv(o, z) && Twins(o, u) && Enabled(o, DoTick(now, rto, interval, mtu))
    ensures u.sender.Live()
    ensures Twins(TickOut(o, now, rto, interval, mtu, z), TickOutPlain(u, now, rto, interval, mtu, z))
  {
    InvLive(o.sender, o.history);
    hide Tick, TickPlain, Emit, Inv, ShiftQueue, EmissionsOk, IdsOk, Timed;
    TickTrimsInvisibly(o.sender, o.history, now, rto, interval);
    var t := Tick(o.sender, now, rto, interval);
    EmitTwins(o, u, t, TickHistory(o.sender, o.history, t), now, mtu, z);
  }

  lemma {:induction false} AckedShift(base: Stream, s: Sender, framed: bool)
    ensures Acked(Shift(base, s), framed) == Shift(base, Acked(s, framed))
  {
  }

  lemma {:induction false} ApplyTwins(o: Out, u: Out, op: Op, z: Zlib)
    requires OutInv(o, z) && Twins(o, u)
    ensures u.sender.Live()
    ensures Enabled(u, op) == Enabled(o, op)
    ensures Twins(Apply(o, op, z), ApplyPlain(u, op, z))
  {
    hide OutInv, TickOut, TickOutPlain, ProcessAck, Timers, ShiftQueue;
    OutLive(o, z);
    assert u.sender.Back().num == o.sender.Back().num;
    if Enabled(o, op) {
      match op
      case DoTick(now, rto, interval, mtu) => TickTwins(o, u, now, rto, interval, mtu, z);
      case PeerAck(ack) => AckShift(o.history.base, o.sender, ack);
      case Type(more) =>
        var b := o.history.base;
        assert b + (o.sender.current + more) == b + o.sender.current + more;
      case Wait(now, rto, interval) => TimersShift(o.history.base, o.sender, now, rto, interval);
      case _ =>
    }
  }

  function RunPlain(u: Out, ops: seq<Op>, z: Zlib): Out
    decreases |ops|
  {
    if ops == [] || !u.sender.Live() then u else RunPlain(ApplyPlain(u, ops[0], z), ops[1..], z)
  }

  lemma {:induction false} RunTwins(o: Out, u: Out, ops: seq<Op>, z: Zlib)
    requires OutInv(o, z) && Twins(o, u)
    ensures u.sender.Live()
    ensures Twins(Run(o, ops, z), RunPlain(u, ops, z))
    decreases |ops|
  {
    OutLive(o, z);
    TwinsLive(o, u, z);
    if ops != [] {
      ApplyTwins(o, u, ops[0], z);
      ApplyKeeps(o, ops[0], z);
      hide OutInv, Apply, ApplyPlain, Twins;
      TwinsLive(Apply(o, ops[0], z), ApplyPlain(u, ops[0], z), z);
      RunTwins(Apply(o, ops[0], z), ApplyPlain(u, ops[0], z), ops[1..], z);
    }
  }

  lemma {:induction false} TwinsLive(o: Out, u: Out, z: Zlib)
    requires OutInv(o, z) && Twins(o, u)
    ensures u.sender.Live()
  {
  }

  /**
   In every run, the sender that trims and the sender that never trims emit the same
   instructions at the same ticks, cut into the same fragments, and at every moment they
   answer the same wait time.
   */
  lemma {:induction false} TrimmingIsInvisible(
    now0: nat, mindelay: nat, ops: seq<Op>, z: Zlib, now: nat, rto: nat, interval: nat)
    ensures var o, u := RunFromStart(now0, mindelay, ops, z), RunPlain(InitOut(now0, mindelay), ops, z);
            && u.emissions == o.emissions
            && u.sender.Live() && o.sender.Live()
            && WaitTime(u.sender, now, rto, interval).1 == WaitTime(o.sender, now, rto, interval).1
  {
    var i := InitOut(now0, mindelay);
    InitOutInv(now0, mindelay, z);
    assert Twins(i, i) by { assert ShiftQueue([], i.sender.sent) == i.sender.sent; }
    RunTwins(i, i, ops, z);
    var o, u := RunFromStart(now0, mindelay, ops, z), RunPlain(i, ops, z);
    assert o == Run(i, ops, z);
    ReachedKeeps(now0, mindelay, ops, z);
    hide Run, RunPlain, RunFromStart;
    TwinsLive(o, u, z);
    InvLive(o.sender, o.history);
    TimersShift(o.history.base, o.sender, now, rto, interval);
    hide Timers, OutInv, ShiftQueue;
  }
}
