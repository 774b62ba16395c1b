/** The sending half of the state synchronization engine, as functions on its fields. */
module Sender {
  import opened Basics
  import opened Wire
  import opened Streams
  import opened Queues

  const ACK_INTERVAL: nat := 3000
  const ACK_DELAY: nat := 100
  const ACTIVE_RETRY_TIMEOUT: nat := 10_000
  const SHUTDOWN_RETRIES: nat := 16
  const SENT_QUEUE_CAP: nat := 32

  type SentQueue = seq<Timestamped<Stream>>

  datatype Sender = Sender(
    current: Stream,
    sent: SentQueue,
    assumed: nat,
    ackNum: u64,
    nextAck: nat,
    mindelayClock: Option<nat>,
    pendingDataAck: bool,
    shutdown: bool,
    tries: nat,
    shutdownStart: Option<nat>,
    lastHeard: nat,
    mindelay: nat)
  {
    /** What every read of the queue relies on. */
    predicate Live() {
      |sent| > 0 && assumed < |sent|
    }

    function Back(): Timestamped<Stream>
      requires |sent| > 0
    {
      Last(sent)
    }

    function Front(): Timestamped<Stream>
      requires |sent| > 0
    {
      sent[0]
    }
  }

  function NewSender(initial: Stream, now: nat, mindelay: nat): Sender {
    Sender(initial, [Timestamped(now, 0, initial)], 0, 0, now + ACK_INTERVAL, None, false, false, 0, None, now, mindelay)
  }

  predicate ShutdownAcknowledged(s: Sender)
    requires |s.sent| > 0
  {
    s.Front().num == SHUTDOWN_NUM
  }

  predicate ShutdownAckTimedOut(s: Sender, now: nat) {
    s.shutdown &&
    (s.tries >= SHUTDOWN_RETRIES ||
     (s.shutdownStart.Some? && now - s.shutdownStart.value >= ACTIVE_RETRY_TIMEOUT))
  }

  function StartShutdown(s: Sender, now: nat): Sender {
    if s.shutdown then s else s.(shutdownStart := Some(now), shutdown := true)
  }

  /** An ack naming a state no longer held is ignored; the assumed index is only clamped. */
  function ProcessAck(s: Sender, ack: u64): Sender
    requires s.Live()
  {
    if !Has(s.sent, ack) then s
    else
      var kept := Retain(s.sent, ack);
      s.(sent := kept, assumed := if s.assumed < |kept| then s.assumed else |kept| - 1)
  }

  // ----- the assumed receiver state -----

  predicate Fresh(e: Timestamped<Stream>, now: nat, rto: nat) {
    now - e.timestamp < rto + ACK_DELAY
  }

  /** The freshness walk from index `i` on: the index before the first stale state. */
  function Walk(q: SentQueue, now: nat, rto: nat, i: nat): (k: nat)
    requires 1 <= i <= |q|
    ensures k < |q|
    decreases |q| - i
  {
    if i < |q| && Fresh(q[i], now, rto) then Walk(q, now, rto, i + 1) else i - 1
  }

  function Trimmed(q: SentQueue, known: Stream): (r: SentQueue)
    ensures |r| == |q|
    ensures forall i | 0 <= i < |q| :: r[i] == q[i].(state := Subtract(q[i].state, known))
  {
    seq(|q|, i requires 0 <= i < |q| => q[i].(state := Subtract(q[i].state, known)))
  }

  function Rationalize(s: Sender): Sender {
    if |s.sent| < 2 then s
    else
      var known := s.sent[0].state;
      s.(current := Subtract(s.current, known), sent := Trimmed(s.sent, known))
  }

  // ----- timers -----

  /** When the next diff may go out, once the mindelay clock `clock` is settled. */
  function NextSend(s: Sender, clock: Option<nat>, now: nat, rto: nat, interval: nat): Option<nat>
    requires s.Live()
  {
    var back := s.Back();
    var heard := s.lastHeard + ACTIVE_RETRY_TIMEOUT > now;
    if s.current != back.state then
      var floor := if clock.Some? then clock.value + s.mindelay else now;
      Some(Max(floor, back.timestamp + interval))
    else if s.current != s.sent[s.assumed].state && heard then
      var t := back.timestamp + interval;
      Some(if clock.Some? then Max(t, clock.value + s.mindelay) else t)
    else if |s.sent| > 1 && s.current != s.sent[0].state && heard then
      Some(back.timestamp + rto + ACK_DELAY)
    else None
  }

  function Max(a: nat, b: nat): nat {
    if a < b then b else a
  }

  /** The timer pass shared by `wait_time` and `tick`: the persisted deadlines and the next send time. */
  function Timers(s: Sender, now: nat, rto: nat, interval: nat): (Sender, Option<nat>)
    requires s.Live()
  {
    var ack := if s.pendingDataAck && s.nextAck > now + ACK_DELAY then now + ACK_DELAY else s.nextAck;
    var clock := if s.current != s.Back().state && s.mindelayClock.None? then Some(now) else s.mindelayClock;
    var ack' := if s.shutdown || s.ackNum == SHUTDOWN_NUM then s.Back().timestamp + interval else ack;
    (s.(nextAck := ack', mindelayClock := clock), NextSend(s, clock, now, rto, interval))
  }

  /** Milliseconds until the next event; the ack deadline is always scheduled. */
  function WaitTime(s: Sender, now: nat, rto: nat, interval: nat): (Sender, nat)
    requires s.Live()
  {
    var (s', send) := Timers(s, now, rto, interval);
    var earliest := if send.Some? && send.value < s'.nextAck then send.value else s'.nextAck;
    (s', if earliest < now then 0 else earliest - now)
  }

  // ----- sending -----

  /** `num + 1` in 64 bits. */
  function NextNum(num: u64): u64 {
    (num + 1) % 0x1_0000_0000_0000_0000
  }

  /** Append, and past the cap drop the entry 16 from the end. */
  function AddSent(s: Sender, timestamp: nat, num: u64, state: Stream): Sender {
    var q := s.sent + [Timestamped(timestamp, num, state)];
    if |q| <= SENT_QUEUE_CAP then s.(sent := q)
    else
      var idx := |q| - 16;
      s.(sent := q[..idx] + q[idx + 1..],
         assumed := if s.assumed > idx then s.assumed - 1 else if s.assumed == idx then 0 else s.assumed)
  }

  /** The bet that the peer holds only the head: swap when the longer diff is cheap enough. */
  predicate BetTaken(resend: nat, proposed: nat) {
    resend <= proposed || (resend < 1000 && resend - proposed < 100)
  }

  function Bet(s: Sender): (Sender, seq<byte>)
    requires s.Live()
  {
    var proposed := DiffFrom(s.current, s.sent[s.assumed].state);
    if s.assumed == 0 || |s.sent| < 2 then (s, proposed)
    else
      var resend := DiffFrom(s.current, s.sent[0].state);
      if BetTaken(|resend|, |proposed|) then (s.(assumed := 0), resend) else (s, proposed)
  }

  function Framed(s: Sender, oldNum: u64, newNum: u64, diff: seq<byte>): TransportInstruction
    requires |s.sent| > 0
  {
    TransportInstruction(PROTOCOL_VERSION, oldNum, newNum, s.ackNum, s.sent[0].num, diff, [])
  }

  function TryCounted(s: Sender, newNum: u64): Sender {
    if newNum == SHUTDOWN_NUM then s.(tries := s.tries + 1) else s
  }

  function EmptyAckNum(s: Sender): u64
    requires s.Live()
  {
    if s.shutdown then SHUTDOWN_NUM else NextNum(s.Back().num)
  }

  function DiffNum(s: Sender): u64
    requires s.Live()
  {
    if s.shutdown then SHUTDOWN_NUM
    else if s.current == s.Back().state then s.Back().num
    else NextNum(s.Back().num)
  }

  datatype Ticked = Ticked(sender: Sender, inst: Option<TransportInstruction>)

  function SendEmptyAck(s: Sender, now: nat): Ticked
    requires s.Live()
  {
    var newNum := EmptyAckNum(s);
    var s' := AddSent(s, now, newNum, s.current);
    Ticked(TryCounted(s', newNum).(nextAck := now + ACK_INTERVAL),
           Some(Framed(s', s.sent[s.assumed].num, newNum, [])))
  }

  function Refreshed(s: Sender, now: nat): Sender
    requires s.Live()
  {
    s.(sent := s.sent[|s.sent| - 1 := s.Back().(timestamp := now)])
  }

  function SendDiff(s: Sender, now: nat, diff: seq<byte>): Ticked
    requires s.Live()
  {
    var newNum := DiffNum(s);
    var s' := if newNum == s.Back().num then Refreshed(s, now) else AddSent(s, now, newNum, s.current);
    Ticked(TryCounted(s', newNum).(assumed := |s'.sent| - 1, nextAck := now + ACK_INTERVAL),
           Some(Framed(s', s.sent[s.assumed].num, newNum, diff)))
  }

  /** Everything `tick` does before it looks at the timers. */
  function Prepared(s: Sender, now: nat, rto: nat): Sender
    requires s.Live()
  {
    Rationalize(s.(assumed := Walk(s.sent, now, rto, 1)))
  }

  /** What `tick` does once a send or an ack is due. */
  function Send(s: Sender, now: nat, dueSend: bool, dueAck: bool): Ticked
    requires s.Live()
  {
    var (b, diff) := Bet(s);
    if diff != [] then
      var t := SendDiff(b, now, diff);
      t.(sender := t.sender.(mindelayClock := None))
    else if dueAck then
      var t := SendEmptyAck(b, now);
      t.(sender := t.sender.(mindelayClock := None))
    else Ticked(b.(mindelayClock := None), None)
  }

  /** One tick, up to the fragmenter's answer: the instruction to frame, if any. */
  function Tick(s: Sender, now: nat, rto: nat, interval: nat): Ticked
    requires s.Live()
  {
    var (t, send) := Timers(Prepared(s, now, rto), now, rto, interval);
    var dueSend := send.Some? && now >= send.value;
    var dueAck := now >= t.nextAck;
    if !dueSend && !dueAck then Ticked(t, None) else Send(t, now, dueSend, dueAck)
  }

  /** A framed instruction carries the ack out, so none is pending any more. */
  function Acked(s: Sender, framed: bool): Sender {
    if framed then s.(pendingDataAck := false) else s
  }
}
