/** After silence: the sender goes back to the head, and one delivery makes up for everything lost. */
module Recovery {
  import opened Basics
  import opened Wire
  import opened Streams
  import opened Queues
  import opened Fragments
  import opened Sender
  import opened SenderLaws
  import opened Outbound
  import opened Timing
  import opened Receiver
  import opened ReceiverLaws
  import opened Protocol
  import opened ProtocolInv
  import opened EndToEnd

  /** Something typed is not acked, and every sent state is stale. */
  predicate Stalled(s: Sender, now: nat, rto: nat)
    requires s.Live()
  {
    s.current != s.Front().state && Stale(s, now, rto)
  }

  predicate Stale(s: Sender, now: nat, rto: nat)
    requires s.Live()
  {
    s.Back().timestamp + rto + ACK_DELAY <= now
  }

  /** The ack deadline has passed; in shutdown it is one frame after the newest state. */
  predicate AckDue(s: Sender, now: nat, interval: nat)
    requires s.Live()
  {
    if s.shutdown || s.ackNum == SHUTDOWN_NUM then s.Back().timestamp + interval <= now else s.nextAck <= now
  }

  /** A send may go out: one frame after the newest state, batched, and while the peer is heard or the stream is new. */
  predicate SendDue(s: Sender, now: nat, interval: nat)
    requires s.Live()
  {
    && s.Back().timestamp + interval <= now
    && (if s.mindelayClock.Some? then s.mindelayClock.value + s.mindelay <= now
        else s.current != s.Back().state ==> s.mindelay == 0)
    && (s.current != s.Back().state || s.lastHeard + ACTIVE_RETRY_TIMEOUT > now)
  }

  // ----- the tick of a stale sender -----

  lemma {:induction false} StaleWalk(s: Sender, now: nat, rto: nat)
    requires s.Live() && Timed(s.sent, now) && Stale(s, now, rto)
    ensures Walk(s.sent, now, rto, 1) == 0
  {
    WalkLands(s.sent, now, rto);
    if |s.sent| > 1 {
      assert s.sent[1].timestamp <= s.Back().timestamp;
    }
  }

  lemma {:induction false} SameBehind(base: Stream, a: Stream, base': Stream, a': Stream, b: Stream, b': Stream)
    requires base + a == base' + a' && base + b == base' + b'
    ensures a == b <==> a' == b'
  {
    if a == b { assert a' == (base' + a')[|base'|..] && b' == (base' + b')[|base'|..]; }
    if a' == b' { assert a == (base + a)[|base|..] && b == (base + b)[|base|..]; }
  }

  /** Walking back to the head and trimming change neither the timers' inputs nor which streams are equal. */
  lemma {:induction false} PreparedStale(s: Sender, h: History, now: nat, rto: nat, interval: nat)
    requires Inv(s, h) && Timed(s.sent, now) && Stale(s, now, rto)
    ensures var p := Prepared(s, now, rto);
            && p.Live() && p.assumed == 0
            && (p.current == p.Front().state <==> s.current == s.Front().state)
            && (AckDue(p, now, interval) <==> AckDue(s, now, interval))
            && (SendDue(p, now, interval) <==> SendDue(s, now, interval))
  {
    StaleWalk(s, now, rto);
    PreparedFront(s, now, rto);
    var w := s.(assumed := Walk(s.sent, now, rto, 1));
    InvCore(s, w, h);
    RationalizeShifts(w, h);
    hide Inv, Rationalize, Walk, Timed;
    var p, base := Prepared(s, now, rto), Rebase(h, w).base;
    SameBehind(base, p.current, h.base, s.current, p.Front().state, s.Front().state);
    SameBehind(base, p.current, h.base, s.current, p.Back().state, s.Back().state);
  }

  /** The timer pass finds something due exactly when the ack or a send of unacked data is. */
  lemma {:induction false} TimersDue(p: Sender, now: nat, rto: nat, interval: nat)
    requires p.Live() && p.assumed == 0
    ensures var (t, send) := Timers(p, now, rto, interval);
            && t == p.(nextAck := t.nextAck, mindelayClock := t.mindelayClock)
            && (now >= t.nextAck <==> AckDue(p, now, interval))
            && (p.current != p.Front().state ==> (send.Some? && now >= send.value <==> SendDue(p, now, interval)))
  {
  }

  /** From the head, a due ack or anything unacked is framed against the head's number. */
  lemma {:induction false} HeadSends(t: Sender, h: History, now: nat, dueSend: bool, dueAck: bool)
    requires Inv(t, h) && t.assumed == 0 && (dueAck || t.current != t.Front().state)
    ensures var r := Send(t, now, dueSend, dueAck);
            r.inst.Some? && r.inst.value.oldNum == t.Front().num
  {
    HeadIsPrefix(t, h, 0);
    DiffEmptyIff(t.current, t.Front().state);
    hide DiffFrom, Inv, AddSent;
  }

  /**
   With every sent state stale, a tick that sends does so from the head; it sends when the ack is
   due, and with something unacked exactly when the ack or a send is due.
   */
  lemma {:induction false} StaleTick(s: Sender, h: History, now: nat, rto: nat, interval: nat)
    requires Inv(s, h) && Timed(s.sent, now) && Stale(s, now, rto)
    ensures var t := Tick(s, now, rto, interval);
            && (AckDue(s, now, interval) ==> t.inst.Some?)
            && (s.current != s.Front().state ==> (t.inst.Some? <==> AckDue(s, now, interval) || SendDue(s, now, interval)))
            && (t.inst.Some? && (AckDue(s, now, interval) || s.current != s.Front().state)
                ==> t.inst.value.oldNum == s.Front().num)
  {
    hide Inv, Prepared, Timers, Send, Timed, AckDue, SendDue, Stale;
    InvLive(s, h);
    PreparedStale(s, h, now, rto, interval);
    PreparedKeeps(s, h, now, rto);
    PreparedFront(s, now, rto);
    var p, g := Prepared(s, now, rto), Rebase(h, s);
    TimersDue(p, now, rto, interval);
    var (t, send) := Timers(p, now, rto, interval);
    InvCore(p, t, g);
    if now >= t.nextAck || t.current != t.Front().state {
      HeadSends(t, g, now, send.Some? && now >= send.value, now >= t.nextAck);
    }
  }

  /**
   When something typed is unacked and every sent state is stale, a tick sends, from the head, if
   and only if the ack deadline has passed or a send is due.
   */
  lemma {:induction false} StalledResends(s: Sender, h: History, now: nat, rto: nat, interval: nat)
    requires Inv(s, h) && Timed(s.sent, now) && Stalled(s, now, rto)
    ensures var t := Tick(s, now, rto, interval);
            && (t.inst.Some? <==> AckDue(s, now, interval) || SendDue(s, now, interval))
            && (t.inst.Some? ==> t.inst.value.oldNum == s.Front().num)
  {
    StaleTick(s, h, now, rto, interval);
    hide Tick, Inv, AckDue, SendDue, Timed;
  }

  /** In every reachable state a stale sender whose ack is due, or which has something to send, emits from the head. */
  lemma {:induction false} StaleTickEmits(o: Out, now: nat, rto: nat, interval: nat, mtu: nat, z: Zlib)
    requires OutInv(o, z) && o.sender.Live() && Enabled(o, DoTick(now, rto, interval, mtu))
    requires Stale(o.sender, now, rto)
    requires AckDue(o.sender, now, interval) ||
             (o.sender.current != o.sender.Front().state && SendDue(o.sender, now, interval))
    requires Frames(o, DoTick(now, rto, interval, mtu), z)
    ensures var p := Apply(o, DoTick(now, rto, interval, mtu), z);
            && p.sender.Live() && |p.emissions| == |o.emissions| + 1 && o.emissions <= p.emissions
            && Last(p.emissions).inst.oldNum == o.sender.Front().num
            && Last(p.emissions).inst.newNum == p.sender.Back().num
            && p.sender.Back().num in p.history.states && p.history.states[p.sender.Back().num] == o.history.typed
            && p.history.typed == o.history.typed
  {
    hide Inv, Tick, MakeFragments, Stale, Coherent, Timed, AckDue, SendDue, EmissionsOk, IdsOk;
    InvLive(o.sender, o.history);
    SameTimes(o.sender.sent, o.sender.sent, o.clock, now);
    StaleTick(o.sender, o.history, now, rto, interval);
    TickKeeps(o.sender, o.history, now, rto, interval);
    var t := Tick(o.sender, now, rto, interval);
    InvLive(t.sender, TickHistory(o.sender, o.history, t));
  }

  /**
   From every reachable state: if a sender with something unacked has gone stale and its timers let
   it send, its next tick emits an instruction that the peer, whatever was lost before and whenever
   it arrives, can apply; and handling it leaves the peer with everything typed, and with the ack
   that says so.
   */
  lemma {:induction false} OneDeliveryRecovers(
    c: Setup, steps: seq<Step>, z: Zlib, fromA: bool, now: nat, rto: nat, interval: nat, mtu: nat, arrival: nat)
    requires Lawful(z)
    requires var p, q := From(Reached(c, steps, z), fromA), To(Reached(c, steps, z), fromA);
             && p.out.sender.Live() && q.out.sender.Live()
             && Enabled(p.out, DoTick(now, rto, interval, mtu)) && Frames(p.out, DoTick(now, rto, interval, mtu), z)
             && Stalled(p.out.sender, now, rto)
             && (AckDue(p.out.sender, now, interval) || SendDue(p.out.sender, now, interval))
             && (|q.receiver.received| <= RECEIVED_QUEUE_CAP || arrival >= q.receiver.quenchUntil)
    ensures var p, q := From(Reached(c, steps, z), fromA), To(Reached(c, steps, z), fromA);
            var o := Apply(p.out, DoTick(now, rto, interval, mtu), z);
            && |o.emissions| == |p.out.emissions| + 1
            && var q' := Handle(q, Last(o.emissions).inst, arrival);
               && |q'.receiver.received| > 0
               && Newest(q'.receiver).state == p.out.history.typed
               && q'.out.sender.ackNum == Newest(q'.receiver).num == Last(o.emissions).inst.newNum
  {
    var p, q := From(Reached(c, steps, z), fromA), To(Reached(c, steps, z), fromA);
    EndToEnd.ReachedKeeps(c, steps, z);
    Direction(Reached(c, steps, z), z, fromA);
    hide Exec, Reached, SysInv, OutInv, AsmOk, AcksOk, FramerOk, Mirrors, Strict, Has, Handle, Apply, Frames, Enabled;
    hide AckDue, SendDue;
    var op := DoTick(now, rto, interval, mtu);
    var p' := p.(out := Apply(p.out, op, z));
    StaleTickEmits(p.out, now, rto, interval, mtu, z);
    SenderSteps(p, q, op, z);
    NewestTaken(p', q, |p'.out.emissions| - 1, arrival, z);
  }
}
