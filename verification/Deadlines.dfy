/**
 When the sender acts: what a timer pass finds due, how long `wait_time` waits, and exactly which
 instruction a tick emits, in terms of the fields and of the recorded streams.
 */
module Deadlines {
  import opened Basics
  import opened Wire
  import opened Streams
  import opened Queues
  import opened Fragments
  import opened Sender
  import opened SenderLaws
  import opened Outbound
  import opened Timing

  // ----- a timer pass -----

  /** The peer was heard in the last ten seconds. */
  predicate Heard(s: Sender, now: nat) {
    s.lastHeard + 10_000 > now
  }

  /** By `t` the ack is due, for a pass at `now`: its deadline, or the ack delay for data received. */
  predicate AckPast(s: Sender, now: nat, t: nat, interval: nat)
    requires s.Live()
  {
    if s.shutdown || s.ackNum == SHUTDOWN_NUM then s.Back().timestamp + interval <= t
    else s.nextAck <= t || (s.pendingDataAck && now + 100 <= t)
  }

  /** The batching delay is over by `t`; it starts with the first pass that sees something new. */
  predicate BatchedBy(s: Sender, now: nat, t: nat)
    requires s.Live()
  {
    match s.mindelayClock
    case Some(c) => c + s.mindelay <= t
    case None => s.current != s.Back().state ==> now + s.mindelay <= t
  }

  /** By `t` a send is due, for a pass at `now`: something new, something unassumed, or something unacked. */
  predicate SendPast(s: Sender, now: nat, t: nat, rto: nat, interval: nat)
    requires s.Live()
  {
    if s.current != s.Back().state || (s.current != s.sent[s.assumed].state && Heard(s, now)) then
      s.Back().timestamp + interval <= t && BatchedBy(s, now, t)
    else
      |s.sent| > 1 && s.current != s.Front().state && Heard(s, now) && s.Back().timestamp + rto + ACK_DELAY <= t
  }

  /** What a pass at `now` leaves due at any later moment. */
  lemma {:induction false} PassExact(s: Sender, now: nat, t: nat, rto: nat, interval: nat)
    requires s.Live() && now <= t
    ensures var (s', send) := Timers(s, now, rto, interval);
            && (t >= s'.nextAck <==> AckPast(s, now, t, interval))
            && (send.Some? && t >= send.value <==> SendPast(s, now, t, rto, interval))
  {
  }

  /** And what it changes: the ack deadline, and the batching clock, which starts when something is new. */
  lemma {:induction false} PassChanges(s: Sender, now: nat, rto: nat, interval: nat)
    requires s.Live()
    ensures var s' := Timers(s, now, rto, interval).0;
            && s' == s.(nextAck := s'.nextAck, mindelayClock := s'.mindelayClock)
            && (s.mindelayClock.Some? || s.current == s.Back().state ==> s'.mindelayClock == s.mindelayClock)
            && (s.mindelayClock.None? && s.current != s.Back().state ==> s'.mindelayClock == Some(now))
  {
  }

  /**
   The wait answered at `now` ends at the first moment at which the ack or a send is due: a moment
   is past the wait if and only if something is due by it. So the wait is zero exactly when
   something is due at once, nothing is due before it ends, and something is when it does.
   */
  lemma {:induction false} WaitEndsWhenDue(s: Sender, now: nat, rto: nat, interval: nat, t: nat)
    requires s.Live() && now <= t
    ensures now + WaitTime(s, now, rto, interval).1 <= t
       <==> AckPast(s, now, t, interval) || SendPast(s, now, t, rto, interval)
  {
    PassExact(s, now, t, rto, interval);
    hide Timers, AckPast, SendPast;
  }

  /** The wait is never longer than the time to the ack deadline it leaves; a pending ack bounds it by the ack delay. */
  lemma {:induction false} WaitIsBounded(s: Sender, now: nat, rto: nat, interval: nat)
    requires s.Live()
    ensures var (s', w) := WaitTime(s, now, rto, interval);
            && (w == 0 <==> AckPast(s, now, now, interval) || SendPast(s, now, now, rto, interval))
            && (w > 0 ==> now + w <= s'.nextAck)
            && (s.pendingDataAck && !s.shutdown && s.ackNum != SHUTDOWN_NUM ==> w <= 100)
  {
    WaitEndsWhenDue(s, now, rto, interval, now);
    hide NextSend;
  }

  /** What the question changes: the deadline it leaves, and the batching clock it starts when something is new. */
  lemma {:induction false} WaitChanges(s: Sender, now: nat, rto: nat, interval: nat, t: nat)
    requires s.Live() && now <= t
    ensures var s' := WaitTime(s, now, rto, interval).0;
            && s' == s.(nextAck := s'.nextAck, mindelayClock := s'.mindelayClock)
            && (t >= s'.nextAck <==> AckPast(s, now, t, interval))
            && s'.mindelayClock == (if s.mindelayClock.None? && s.current != s.Back().state then Some(now) else s.mindelayClock)
  {
    PassExact(s, now, t, rto, interval);
    PassChanges(s, now, rto, interval);
    hide Timers, AckPast, SendPast;
  }

  /** A new endpoint owes an ack after three seconds and nothing else, and counts the peer as heard for ten. */
  lemma {:induction false} StartsQuiet(initial: Stream, now: nat, mindelay: nat, t: nat, rto: nat, interval: nat)
    requires now <= t
    ensures var s := NewSender(initial, now, mindelay);
            && s.Live() && !s.shutdown && s.tries == 0 && s.ackNum == 0 && s.current == initial
            && (AckPast(s, t, t, interval) <==> t >= now + 3000)
            && !SendPast(s, t, t, rto, interval)
            && (Heard(s, t) <==> t < now + 10_000)
  {
  }

  // ----- a tick -----

  /** The second queued state was sent recently enough for the peer to be given the benefit of the doubt. */
  predicate SecondFresh(s: Sender, now: nat, rto: nat) {
    |s.sent| > 1 && now < s.sent[1].timestamp + rto + 100
  }

  function HeadOf(s: Sender, h: History): Stream
    requires |s.sent| > 0 && s.Front().num in h.states
  {
    h.states[s.Front().num]
  }

  function NewestOf(s: Sender, h: History): Stream
    requires |s.sent| > 0 && s.Back().num in h.states
  {
    h.states[s.Back().num]
  }

  predicate Ends(s: Sender, h: History) {
    |s.sent| > 0 && s.Front().num in h.states && s.Back().num in h.states
  }

  /** Something goes out: the ack is due, or a frame and the batching delay are over and there is something to send. */
  predicate TickDue(s: Sender, h: History, now: nat, rto: nat, interval: nat)
    requires s.Live() && Ends(s, h)
  {
    || AckPast(s, now, now, interval)
    || (&& s.Back().timestamp + interval <= now
        && (match s.mindelayClock
            case Some(c) => c + s.mindelay <= now
            case None => h.typed == NewestOf(s, h) || s.mindelay == 0)
        && (h.typed != NewestOf(s, h) ||
            (h.typed != HeadOf(s, h) && !SecondFresh(s, now, rto) && Heard(s, now))))
  }

  /** The head's number, unless the newest state may be assumed and a diff against the head costs too much. */
  function BaseNum(s: Sender, h: History, now: nat, rto: nat): u64
    requires s.Live() && Ends(s, h)
  {
    var resend, proposed := |DiffFrom(h.typed, HeadOf(s, h))|, |DiffFrom(h.typed, NewestOf(s, h))|;
    if SecondFresh(s, now, rto) && resend > proposed && (resend >= 1000 || resend >= proposed + 100)
    then s.Back().num else s.Front().num
  }

  /** In shutdown the reserved number; the newest number again for its own stream; else the next one. */
  function FreshNum(s: Sender, h: History, base: Stream): int
    requires s.Live() && Ends(s, h)
  {
    if s.shutdown then SHUTDOWN_NUM
    else if h.typed == NewestOf(s, h) && base != h.typed then s.Back().num
    else s.Back().num + 1
  }

  lemma {:induction false} Cancel(base: Stream, a: Stream, b: Stream)
    ensures base + a == base + b <==> a == b
  {
    if base + a == base + b {
      assert a == (base + a)[|base|..] && b == (base + b)[|base|..];
    }
  }

  /** Comparing trimmed streams compares the recorded ones, and so do their diffs. */
  lemma {:induction false} AsRecorded(s: Sender, h: History, i: nat)
    requires Inv(s, h) && i < |s.sent|
    ensures s.sent[i].num in h.states && h.states[s.sent[i].num] <= h.typed
    ensures s.current == s.sent[i].state <==> h.typed == h.states[s.sent[i].num]
    ensures DiffFrom(s.current, s.sent[i].state) == DiffFrom(h.typed, h.states[s.sent[i].num])
    ensures DiffFrom(h.typed, h.states[s.sent[i].num]) == [] <==> h.typed == h.states[s.sent[i].num]
  {
    hide DiffFrom, Rising;
    Cancel(h.base, s.current, s.sent[i].state);
    DiffShift(h.base, s.current, s.sent[i].state);
    DiffEmptyIff(h.typed, h.states[s.sent[i].num]);
  }

  /** If the head or any state is everything typed, so is the newest. */
  lemma {:induction false} NewestLast(s: Sender, h: History)
    requires Inv(s, h)
    ensures Ends(s, h) && HeadOf(s, h) <= NewestOf(s, h) <= h.typed
  {
    assert s.Front() == s.sent[0] && s.Back() == s.sent[|s.sent| - 1];
  }

  lemma {:induction false} SecondBeforeLast(q: SentQueue, now: nat)
    requires |q| > 1 && Timed(q, now)
    ensures q[1].timestamp <= Last(q).timestamp
  {
  }

  lemma {:induction false} Squeezed(a: Stream, b: Stream, c: Stream)
    requires a <= b <= c && a == c
    ensures b == c
  {
  }

  /** The same pass at the head or at the newest state, said of recorded streams. */
  lemma {:induction false} PassInRecordedTerms(p: Sender, s: Sender, h: History, now: nat, rto: nat, interval: nat)
    requires Ends(s, h) && s.Live() && p.Live() && HeadOf(s, h) <= NewestOf(s, h) <= h.typed
    requires p == s.(current := p.current, sent := p.sent, assumed := p.assumed) && |p.sent| == |s.sent|
    requires p.Back().timestamp == s.Back().timestamp
    requires p.assumed == (if SecondFresh(s, now, rto) then |p.sent| - 1 else 0)
    requires |s.sent| > 1 ==> s.sent[1].timestamp <= s.Back().timestamp
    requires p.current == p.Front().state <==> h.typed == HeadOf(s, h)
    requires p.current == p.Back().state <==> h.typed == NewestOf(s, h)
    ensures AckPast(p, now, now, interval) <==> AckPast(s, now, now, interval)
    ensures AckPast(p, now, now, interval) || SendPast(p, now, now, rto, interval) <==> TickDue(s, h, now, rto, interval)
  {
    if h.typed == HeadOf(s, h) { Squeezed(HeadOf(s, h), NewestOf(s, h), h.typed); }
  }

  /** The pass of a tick, in recorded terms. */
  lemma {:induction false} TickPass(s: Sender, h: History, now: nat, rto: nat, interval: nat)
    requires Inv(s, h) && Timed(s.sent, now)
    ensures Ends(s, h)
    ensures var p := Prepared(s, now, rto);
            && Inv(p, Rebase(h, s)) && p.Live()
            && p.assumed == (if SecondFresh(s, now, rto) then |p.sent| - 1 else 0)
            && (AckPast(p, now, now, interval) || SendPast(p, now, now, rto, interval) <==> TickDue(s, h, now, rto, interval))
            && (AckPast(p, now, now, interval) <==> AckPast(s, now, now, interval))
  {
    hide Inv, Prepared, Walk, Timed, DiffFrom, AckPast, SendPast, TickDue;
    InvLive(s, h);
    NewestLast(s, h);
    PreparedKeeps(s, h, now, rto);
    PreparedFront(s, now, rto);
    WalkLands(s.sent, now, rto);
    var p, g := Prepared(s, now, rto), Rebase(h, s);
    AsRecorded(p, g, 0);
    AsRecorded(p, g, |p.sent| - 1);
    if |s.sent| > 1 { SecondBeforeLast(s.sent, now); }
    PassInRecordedTerms(p, s, h, now, rto, interval);
  }

  /** The instruction against the stream recorded as `base`. */
  function Against(s: Sender, h: History, base: u64): TransportInstruction
    requires s.Live() && Ends(s, h) && Room(s) && base in h.states
  {
    TransportInstruction(PROTOCOL_VERSION, base, FreshNum(s, h, h.states[base]), s.ackNum, s.Front().num,
                         DiffFrom(h.typed, h.states[base]), [])
  }

  /** The bet, from an end of the queue: the head, unless its diff is too long next to the other. */
  lemma {:induction false} BetExact(t: Sender, g: History)
    requires Inv(t, g) && (t.assumed == 0 || t.assumed == |t.sent| - 1)
    ensures Ends(t, g)
    ensures var (b, diff) := Bet(t);
            var resend, proposed := |DiffFrom(g.typed, HeadOf(t, g))|, |DiffFrom(g.typed, NewestOf(t, g))|;
            && b == t.(assumed := if t.assumed != 0 && resend > proposed && (resend >= 1000 || resend >= proposed + 100)
                                  then |t.sent| - 1 else 0)
            && diff == DiffFrom(g.typed, g.states[t.sent[b.assumed].num])
            && (diff == [] <==> g.typed == g.states[t.sent[b.assumed].num])
  {
    hide Inv, DiffFrom;
    InvLive(t, g);
    NewestLast(t, g);
    AsRecorded(t, g, 0);
    AsRecorded(t, g, |t.sent| - 1);
  }

  /** What is sent from an entry, in recorded terms: a diff, or the empty ack. */
  lemma {:induction false} DiffSentExact(b: Sender, g: History, now: nat)
    requires Inv(b, g) && Room(b) && Ends(b, g) && b.sent[b.assumed].num in g.states
    requires DiffFrom(g.typed, g.states[b.sent[b.assumed].num]) != []
    ensures SendDiff(b, now, DiffFrom(g.typed, g.states[b.sent[b.assumed].num])).inst
         == Some(Against(b, g, b.sent[b.assumed].num))
  {
    hide Inv, DiffFrom, AddSent;
    InvLive(b, g);
    AsRecorded(b, g, b.assumed);
    AsRecorded(b, g, |b.sent| - 1);
    RoomToCount(b, g);
    AddSentQueue(b, now, DiffNum(b), b.current);
    AddSentFields(b, now, DiffNum(b), b.current);
  }

  lemma {:induction false} EmptySentExact(b: Sender, g: History, now: nat)
    requires Inv(b, g) && Room(b) && Ends(b, g) && b.sent[b.assumed].num in g.states
    requires DiffFrom(g.typed, g.states[b.sent[b.assumed].num]) == []
    ensures SendEmptyAck(b, now).inst == Some(Against(b, g, b.sent[b.assumed].num))
  {
    hide Inv, DiffFrom, AddSent;
    InvLive(b, g);
    AsRecorded(b, g, b.assumed);
    RoomToCount(b, g);
    AddSentQueue(b, now, EmptyAckNum(b), b.current);
    AddSentFields(b, now, EmptyAckNum(b), b.current);
  }

  lemma {:induction false} RoomToCount(b: Sender, g: History)
    requires Inv(b, g) && Room(b)
    ensures !b.shutdown ==> NextNum(b.Back().num) == b.Back().num + 1
  {
  }

  lemma {:induction false} SendExact(t: Sender, g: History, now: nat, dueSend: bool, dueAck: bool)
    requires Inv(t, g) && Room(t) && Ends(t, g) && (t.assumed == 0 || t.assumed == |t.sent| - 1)
    requires dueAck || g.typed != NewestOf(t, g) || (t.assumed == 0 && g.typed != HeadOf(t, g))
    ensures t.sent[Bet(t).0.assumed].num in g.states
    ensures Send(t, now, dueSend, dueAck).inst == Some(Against(t, g, t.sent[Bet(t).0.assumed].num))
  {
    hide Inv, DiffFrom, Bet, SendDiff, SendEmptyAck, Against;
    InvLive(t, g);
    BetExact(t, g);
    var b := Bet(t).0;
    InvCore(t, b, g);
    AsRecorded(b, g, b.assumed);
    SameAgainst(b, t, g, t.sent[b.assumed].num);
    NewestLast(t, g);
    if g.typed == HeadOf(t, g) { Squeezed(HeadOf(t, g), NewestOf(t, g), g.typed); }
    if Bet(t).1 != [] { DiffSentExact(b, g, now); } else { EmptySentExact(b, g, now); }
  }

  lemma {:induction false} SameAgainst(b: Sender, t: Sender, g: History, base: u64)
    requires b.Live() && t.Live() && b == t.(assumed := b.assumed) && Ends(t, g) && Room(t) && base in g.states
    ensures Against(b, g, base) == Against(t, g, base)
  {
  }

  /** Trimming and the timer pass change nothing an instruction says. */
  lemma {:induction false} PreparedAgainst(p: Sender, g: History, s: Sender, h: History, base: u64)
    requires p.Live() && s.Live() && Ends(s, h) && Room(s) && base in h.states
    requires g.typed == h.typed && g.states == h.states && |p.sent| == |s.sent|
    requires p.Front().num == s.Front().num && p.Back().num == s.Back().num
    requires p.ackNum == s.ackNum && p.shutdown == s.shutdown
    ensures Ends(p, g) && Room(p) && Against(p, g, base) == Against(s, h, base)
  {
  }

  /**
   A tick emits if and only if something is due, and then exactly one instruction: from the head
   unless the newest state may be assumed and the bet is too dear, under the next number unless the
   newest state is everything typed, with the diff between the recorded streams.
   */
  lemma {:induction false} TickDecides(s: Sender, h: History, now: nat, rto: nat, interval: nat)
    requires Inv(s, h) && Timed(s.sent, now) && Room(s)
    ensures s.Live() && Ends(s, h)
    ensures var t := Tick(s, now, rto, interval);
            && (t.inst.Some? <==> TickDue(s, h, now, rto, interval))
            && (t.inst.Some? ==> t.inst.value == Against(s, h, BaseNum(s, h, now, rto)))
  {
    hide Inv, Prepared, Walk, Timed, DiffFrom, AckPast, SendPast, TickDue, Timers, Send, Bet, Against;
    InvLive(s, h);
    TickPass(s, h, now, rto, interval);
    PreparedFront(s, now, rto);
    var p, g := Prepared(s, now, rto), Rebase(h, s);
    PassExact(p, now, now, rto, interval);
    PassChanges(p, now, rto, interval);
    var (t, send) := Timers(p, now, rto, interval);
    InvCore(p, t, g);
    PreparedAgainst(t, g, s, h, BaseNum(s, h, now, rto));
    if TickDue(s, h, now, rto, interval) {
      DueHasSomething(s, h, now, rto, interval);
      SendExact(t, g, now, send.Some? && now >= send.value, now >= t.nextAck);
      BetExact(t, g);
    }
  }

  lemma {:induction false} DueHasSomething(s: Sender, h: History, now: nat, rto: nat, interval: nat)
    requires s.Live() && Ends(s, h) && TickDue(s, h, now, rto, interval)
    ensures AckPast(s, now, now, interval) || h.typed != NewestOf(s, h) ||
            (!SecondFresh(s, now, rto) && h.typed != HeadOf(s, h))
  {
  }

  // ----- what a tick leaves behind -----

  /** A tick that emits clears the batching clock, restarts the ack deadline and stamps the newest state. */
  predicate Restarted(s: Sender, now: nat, num: u64) {
    && |s.sent| > 0 && s.Back().num == num && s.Back().timestamp == now
    && s.nextAck == now + ACK_INTERVAL && s.mindelayClock == None
  }

  /** A recorded send, before the batching clock is cleared. */
  predicate Stamped(t: Ticked, now: nat) {
    t.inst.Some? && Restarted(t.sender.(mindelayClock := None), now, t.inst.value.newNum)
  }

  lemma {:induction false} AppendStamps(b: Sender, now: nat, num: u64)
    requires b.Live() && |b.sent| <= SENT_QUEUE_CAP
    ensures var r := AddSent(b, now, num, b.current);
            && |r.sent| > 0 && r.Back() == Timestamped(now, num, b.current)
            && r == b.(sent := r.sent, assumed := r.assumed)
  {
    AddSentQueue(b, now, num, b.current);
    AddSentFields(b, now, num, b.current);
    hide AddSent;
  }

  lemma {:induction false} DiffStamps(b: Sender, now: nat, diff: seq<byte>)
    requires b.Live() && |b.sent| <= SENT_QUEUE_CAP
    ensures Stamped(SendDiff(b, now, diff), now)
  {
    AppendStamps(b, now, DiffNum(b));
    hide AddSent;
  }

  lemma {:induction false} EmptyAckStamps(b: Sender, now: nat)
    requires b.Live() && |b.sent| <= SENT_QUEUE_CAP
    ensures Stamped(SendEmptyAck(b, now), now)
  {
    AppendStamps(b, now, EmptyAckNum(b));
    hide AddSent;
  }

  lemma {:induction false} SendLeaves(t: Sender, now: nat, dueSend: bool, dueAck: bool)
    requires t.Live() && |t.sent| <= SENT_QUEUE_CAP
    ensures var r := Send(t, now, dueSend, dueAck);
            if r.inst.Some? then Restarted(r.sender, now, r.inst.value.newNum)
            else r.sender == t.(assumed := r.sender.assumed, mindelayClock := None)
  {
    hide Bet, DiffFrom, SendDiff, SendEmptyAck;
    BetBase(t);
    var (b, diff) := Bet(t);
    DiffStamps(b, now, diff);
    EmptyAckStamps(b, now);
  }

  /** What an idle tick leaves: the pass's deadline and batching clock, and the queue's numbers and times. */
  predicate Idled(s: Sender, h: History, s': Sender, now: nat)
    requires s.Live() && Ends(s, h)
  {
    && |s'.sent| == |s.sent| && (forall i | 0 <= i < |s.sent| ::
         s'.sent[i].num == s.sent[i].num && s'.sent[i].timestamp == s.sent[i].timestamp)
    && s'.mindelayClock == (if s.mindelayClock.None? && h.typed != NewestOf(s, h) then Some(now) else s.mindelayClock)
    && s'.mindelay == s.mindelay && s'.pendingDataAck == s.pendingDataAck && s'.lastHeard == s.lastHeard
  }

  lemma {:induction false} TickLeaves(s: Sender, h: History, now: nat, rto: nat, interval: nat, t': nat)
    requires Inv(s, h) && Timed(s.sent, now) && Room(s) && now <= t'
    ensures s.Live() && Ends(s, h)
    ensures var t := Tick(s, now, rto, interval);
            && (t.inst.Some? ==> Restarted(t.sender, now, t.inst.value.newNum))
            && (t.inst.None? ==> Idled(s, h, t.sender, now) && (t' >= t.sender.nextAck <==> AckPast(s, now, t', interval)))
  {
    hide Inv, Prepared, Walk, Timed, DiffFrom, AckPast, SendPast, TickDue, Timers, Send, Against;
    InvLive(s, h);
    TickDecides(s, h, now, rto, interval);
    TickPass(s, h, now, rto, interval);
    PreparedFront(s, now, rto);
    var p, g := Prepared(s, now, rto), Rebase(h, s);
    PassExact(p, now, t', rto, interval);
    PassExact(p, now, now, rto, interval);
    PassChanges(p, now, rto, interval);
    AsRecorded(p, g, |p.sent| - 1);
    var (t, send) := Timers(p, now, rto, interval);
    AckPastOf(p, s, now, t', interval);
    if TickDue(s, h, now, rto, interval) {
      SendLeaves(t, now, send.Some? && now >= send.value, now >= t.nextAck);
    }
  }

  lemma {:induction false} AckPastOf(p: Sender, s: Sender, now: nat, t: nat, interval: nat)
    requires p.Live() && s.Live() && p.Back().timestamp == s.Back().timestamp
    requires p == s.(current := p.current, sent := p.sent, assumed := p.assumed)
    ensures AckPast(p, now, t, interval) <==> AckPast(s, now, t, interval)
  {
  }

  // ----- over runs -----

  /**
   In every reachable state, with any timers and any mixture of fresh and stale states: a tick whose
   instruction can be framed emits if and only if something is due, and it emits exactly that one.
   */
  lemma {:induction false} EveryTickDecides(
    now0: nat, mindelay: nat, ops: seq<Op>, now: nat, rto: nat, interval: nat, mtu: nat, z: Zlib)
    requires var o := RunFromStart(now0, mindelay, ops, z);
             o.sender.Live() && Enabled(o, DoTick(now, rto, interval, mtu)) && Frames(o, DoTick(now, rto, interval, mtu), z)
    ensures var o := RunFromStart(now0, mindelay, ops, z);
            var p := Apply(o, DoTick(now, rto, interval, mtu), z);
            && Ends(o.sender, o.history)
            && (|p.emissions| > |o.emissions| <==> TickDue(o.sender, o.history, now, rto, interval))
            && (|p.emissions| > |o.emissions| ==>
                  && Last(p.emissions).inst == Against(o.sender, o.history, BaseNum(o.sender, o.history, now, rto))
                  && Restarted(p.sender, now, Last(p.emissions).inst.newNum) && !p.sender.pendingDataAck)
            && (|p.emissions| == |o.emissions| ==> Idled(o.sender, o.history, p.sender, now))
  {
    var o := RunFromStart(now0, mindelay, ops, z);
    ReachedKeeps(now0, mindelay, ops, z);
    hide RunFromStart, Run, Inv, Timed, EmissionsOk, IdsOk, Tick, TickDue, Against, BaseNum, MakeFragments, Idled, TickHistory;
    OutLive(o, z);
    SameTimes(o.sender.sent, o.sender.sent, o.clock, now);
    TickDecides(o.sender, o.history, now, rto, interval);
    TickLeaves(o.sender, o.history, now, rto, interval, now);
  }
}
