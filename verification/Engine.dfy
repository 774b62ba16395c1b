/** The two halves of the synchronization engine as the objects a session owns. */
module Engine {
  import opened Basics
  import opened Wire
  import opened Streams
  import opened Queues
  import opened Fragments
  import opened Framing
  import opened Sender
  import SenderSpec = Sender
  import opened SenderLaws
  import opened Receiver

  // ----- the receiver -----

  class SspReceiver<S> {
    var received: seq<Timestamped<S>>
    var quenchUntil: nat

    function State(): Receiver<S>
      reads this
    {
      Receiver(received, quenchUntil)
    }

    constructor (initial: S, now: nat)
      ensures State() == NewReceiver(initial, now)
    {
      received, quenchUntil := [Timestamped(now, 0, initial)], 0;
    }

    /** Refuses a throwaway number that would empty the queue. */
    method ProcessThrowawayUntil(num: u64) returns (ok: bool)
      modifies this`received
      ensures ok <==> exists i | 0 <= i < |old(received)| :: old(received)[i].num >= num
      ensures received == if ok then Retain(old(received), num) else old(received)
    {
      var i := 0;
      while i < |received| && received[i].num < num
        invariant i <= |received|
        invariant forall j | 0 <= j < i :: received[j].num < num
      {
        i := i + 1;
      }
      ok := i < |received|;
      if ok { received := RetainFrom(received, num); }
    }

    /** Everything up to the point where the reference state is cloned. */
    method AdmitInstruction(m: TransportInstruction, now: nat) returns (a: Admission<S>)
      modifies this
      ensures (State(), a) == Admit(old(State()), m, now)
    {
      hide Retain, Find;
      if m.protocolVersion != PROTOCOL_VERSION { return Fatal(m.protocolVersion); }
      var dup := FindNum(received, m.newNum);
      if dup < |received| { return Refused(Duplicate); }
      var base := FindNum(received, m.oldNum);
      if base == |received| { return Refused(NoReference); }
      ghost var kept := Retain(received, m.throwawayNum);
      var ok := ProcessThrowawayUntil(m.throwawayNum);
      if !ok {
        RetainNone(received, m.throwawayNum);
        return Refused(NoReference);
      }
      assert received == kept != [];
      var reference := FindNum(received, m.oldNum);
      if reference == |received| { return Refused(NoReference); }
      if |received| > RECEIVED_QUEUE_CAP && now < quenchUntil { return Refused(Quenched); }
      if |received| > RECEIVED_QUEUE_CAP { quenchUntil := now + QUENCH_WINDOW; }
      FindIsFirst(received, m.oldNum, reference);
      a := Admitted(received[reference]);
    }

    /** Adds one entry so that the queue stays in order of number. */
    method CommitState(e: Timestamped<S>, hadDiff: bool) returns (o: Outcome<S>)
      requires |received| > 0
      modifies this`received
      ensures (State(), o) == Commit(old(State()), e, hadDiff)
    {
      if received[|received| - 1].num < e.num {
        received := received + [e];
        return Latest(e.num, hadDiff, e.state);
      }
      var k := 0;
      while k < |received| && received[k].num <= e.num
        invariant k <= |received|
        invariant forall i | 0 <= i < k :: received[i].num <= e.num
      {
        k := k + 1;
      }
      PositionIsFirst(received, e.num, k);
      received := received[..k] + [e] + received[k..];
      o := OutOfOrder(e.num, hadDiff);
    }

    method ProcessInstruction(m: TransportInstruction, now: nat, apply: (S, seq<byte>) -> Result<S, WireError>)
      returns (r: Result<Outcome<S>, SspError>)
      modifies this
      ensures (State(), r) == Process(old(State()), m, now, apply)
    {
      hide Admit, Commit;
      var a := AdmitInstruction(m, now);
      AdmitNonEmpty(old(State()), m, now);
      match a {
        case Fatal(v) => return Failure(WrongVersion(v));
        case Refused(o) => return Success(o);
        case Admitted(reference) =>
          var e := reference.(timestamp := now, num := m.newNum);
          if m.diff != [] {
            var applied := apply(e.state, m.diff);
            if applied.Failure? { return Failure(BadDiff(applied.error)); }
            e := e.(state := applied.value);
          }
          var o := CommitState(e, m.diff != []);
          return Success(o);
      }
    }
  }

  lemma {:induction false} RetainNone<S>(q: seq<Timestamped<S>>, num: u64)
    requires forall i | 0 <= i < |q| :: q[i].num < num
    ensures Retain(q, num) == []
  {
    if q != [] { RetainNone(q[1..], num); }
  }

  lemma {:induction false} FindIsFirst<S>(q: seq<Timestamped<S>>, num: u64, k: nat)
    requires k < |q| && q[k].num == num && forall i | 0 <= i < k :: q[i].num != num
    ensures Has(q, num) && Find(q, num) == q[k]
  {
    assert Has(q, num);
    if k > 0 {
      assert forall i | 0 <= i < k - 1 :: q[1..][i].num != num;
      FindIsFirst(q[1..], num, k - 1);
    }
  }

  lemma {:induction false} PositionIsFirst<S>(q: seq<Timestamped<S>>, num: u64, k: nat)
    requires k <= |q| && (forall i | 0 <= i < k :: q[i].num <= num) && (k < |q| ==> q[k].num > num)
    ensures Position(q, num) == k
  {
    if k > 0 { PositionIsFirst(q[1..], num, k - 1); }
  }

  lemma {:induction false} AdmitNonEmpty<S>(r: Receiver<S>, m: TransportInstruction, now: nat)
    ensures Admit(r, m, now).1.Admitted? ==> |Admit(r, m, now).0.received| > 0
  {
    hide Retain, Find;
  }

  // ----- the sender -----

  class SspSender {
    var current: Stream
    var sent: SentQueue
    var assumed: nat
    var ackNum: u64
    var nextAck: nat
    var mindelayClock: Option<nat>
    var pendingDataAck: bool
    var shutdown: bool
    var tries: nat
    var shutdownStart: Option<nat>
    var lastHeard: nat
    var mindelay: nat

    function State(): Sender
      reads this
    {
      SenderSpec.Sender(current, sent, assumed, ackNum, nextAck, mindelayClock, pendingDataAck,
                    shutdown, tries, shutdownStart, lastHeard, mindelay)
    }

    constructor (initial: Stream, now: nat, delay: nat)
      ensures State() == NewSender(initial, now, delay)
    {
      current, sent, assumed := initial, [Timestamped(now, 0, initial)], 0;
      ackNum, nextAck, mindelayClock := 0, now + ACK_INTERVAL, None;
      pendingDataAck, shutdown, tries, shutdownStart := false, false, 0, None;
      lastHeard, mindelay := now, delay;
    }

    method BeginShutdown(now: nat)
      modifies this
      ensures State() == StartShutdown(old(State()), now)
    {
      if !shutdown { shutdownStart, shutdown := Some(now), true; }
    }

    method ShutdownAckTimedOut(now: nat) returns (timedOut: bool)
      ensures timedOut == SenderSpec.ShutdownAckTimedOut(State(), now)
    {
      timedOut := false;
      if shutdown {
        if tries >= SHUTDOWN_RETRIES { return true; }
        if shutdownStart.Some? { return now - shutdownStart.value >= ACTIVE_RETRY_TIMEOUT; }
      }
    }

    method ProcessAcknowledgmentThrough(ack: u64)
      requires State().Live()
      modifies this
      ensures State() == ProcessAck(old(State()), ack) && State().Live()
    {
      hide Retain;
      var k := FindNum(sent, ack);
      if k == |sent| { return; }
      assert sent[k] in Retain(sent, ack);
      sent := RetainFrom(sent, ack);
      if assumed >= |sent| { assumed := |sent| - 1; }
    }

    method UpdateAssumedReceiverState(now: nat, rto: nat)
      requires |sent| > 0
      modifies this`assumed
      ensures assumed == Walk(sent, now, rto, 1)
    {
      assumed := 0;
      var i := 1;
      while i < |sent|
        invariant 1 <= i <= |sent| && assumed == i - 1
        invariant Walk(sent, now, rto, 1) == Walk(sent, now, rto, i)
      {
        if now - sent[i].timestamp < rto + ACK_DELAY {
          assumed := i;
        } else {
          return;
        }
        i := i + 1;
      }
    }

    method RationalizeStates()
      modifies this
      ensures State() == Rationalize(old(State()))
    {
      hide Subtract;
      if |sent| < 2 { return; }
      var known := sent[0].state;
      current := Subtract(current, known);
      ghost var q := sent;
      var i := 0;
      while i < |sent|
        invariant i <= |sent| == |q|
        invariant forall j | 0 <= j < i :: sent[j] == q[j].(state := Subtract(q[j].state, known))
        invariant forall j | i <= j < |q| :: sent[j] == q[j]
        invariant State() == old(State()).(current := Subtract(old(current), known), sent := sent)
      {
        sent := sent[i := sent[i].(state := Subtract(sent[i].state, known))];
        i := i + 1;
      }
      assert sent == Trimmed(q, known);
    }

    method ComputeTimers(now: nat, rto: nat, interval: nat) returns (nextSend: Option<nat>)
      requires State().Live()
      modifies this`nextAck, this`mindelayClock
      ensures (State(), nextSend) == Timers(old(State()), now, rto, interval)
    {
      if pendingDataAck && nextAck > now + ACK_DELAY { nextAck := now + ACK_DELAY; }
      var back := Last(sent);
      if current != back.state && mindelayClock.None? { mindelayClock := Some(now); }
      var heard := lastHeard + ACTIVE_RETRY_TIMEOUT > now;
      if current != back.state {
        var floor := if mindelayClock.Some? then mindelayClock.value + mindelay else now;
        nextSend := Some(Max(floor, back.timestamp + interval));
      } else if current != sent[assumed].state && heard {
        var t := back.timestamp + interval;
        if mindelayClock.Some? { t := Max(t, mindelayClock.value + mindelay); }
        nextSend := Some(t);
      } else if |sent| > 1 && current != sent[0].state && heard {
        nextSend := Some(back.timestamp + rto + ACK_DELAY);
      } else {
        nextSend := None;
      }
      if shutdown || ackNum == SHUTDOWN_NUM { nextAck := back.timestamp + interval; }
    }

    method WaitTime(now: nat, rto: nat, interval: nat) returns (wait: nat)
      requires State().Live()
      modifies this`nextAck, this`mindelayClock
      ensures (State(), wait) == SenderSpec.WaitTime(old(State()), now, rto, interval)
    {
      hide NextSend;
      var nextSend := ComputeTimers(now, rto, interval);
      var earliest := if nextSend.Some? && nextSend.value < nextAck then nextSend.value else nextAck;
      wait := if earliest < now then 0 else earliest - now;
    }

    /** The diff to send; a taken bet moves the assumed state to the head. */
    method AttemptProspectiveResend(proposed: seq<byte>) returns (diff: seq<byte>)
      requires State().Live() && proposed == DiffFrom(current, sent[assumed].state)
      modifies this`assumed
      ensures (State(), diff) == Bet(old(State()))
    {
      hide DiffFrom;
      diff := proposed;
      if assumed == 0 || |sent| < 2 { return; }
      var resend := DiffFrom(current, sent[0].state);
      if |resend| <= |proposed| || (|resend| < 1000 && |resend| - |proposed| < 100) {
        assumed, diff := 0, resend;
      }
    }

    method AddSentState(timestamp: nat, num: u64, state: Stream)
      modifies this`sent, this`assumed
      ensures State() == AddSent(old(State()), timestamp, num, state)
    {
      sent := sent + [Timestamped(timestamp, num, state)];
      if |sent| > SENT_QUEUE_CAP {
        var idx := |sent| - 16;
        sent := sent[..idx] + sent[idx + 1..];
        if assumed > idx { assumed := assumed - 1; }
        else if assumed == idx { assumed := 0; }
      }
    }

    /** Frames one instruction; on failure the data ack stays pending and nothing goes out. */
    method SendInFragments(m: TransportInstruction, mtu: nat, fragmenter: Fragmenter, z: Zlib)
      returns (out: seq<Fragment>)
      modifies this`tries, this`pendingDataAck, fragmenter
      ensures var (f, r) := MakeFragments(old(fragmenter.State()), m, mtu, z);
              && fragmenter.State() == f
              && State() == Acked(TryCounted(old(State()), m.newNum), r.Success?)
              && out == if r.Success? then r.value else []
    {
      hide MakeFragments;
      if m.newNum == SHUTDOWN_NUM { tries := tries + 1; }
      var r := fragmenter.Make(m, mtu, z);
      if r.Failure? { return []; }
      out := r.value;
      pendingDataAck := false;
    }

    method SendEmptyAck(now: nat, mtu: nat, fragmenter: Fragmenter, z: Zlib) returns (out: seq<Fragment>)
      requires State().Live()
      modifies this, fragmenter
      ensures Emits(old(fragmenter.State()), SenderSpec.SendEmptyAck(old(State()), now), mtu, z,
                     State(), fragmenter.State(), out)
    {
      hide MakeFragments, AddSent;
      var newNum := EmptyAckNum(State());
      var oldNum := sent[assumed].num;
      AddSentState(now, newNum, current);
      AddSentNonEmpty(old(State()), now, newNum, current);
      out := SendInFragments(Framed(State(), oldNum, newNum, []), mtu, fragmenter, z);
      nextAck := now + ACK_INTERVAL;
    }

    /** The current stream goes on record under `num`: a known number is only touched, a new one appended. */
    method RecordSent(now: nat, num: u64)
      requires State().Live()
      modifies this`sent, this`assumed
      ensures |sent| > 0
      ensures State() == if num == old(State()).Back().num then Refreshed(old(State()), now)
                         else AddSent(old(State()), now, num, old(current))
    {
      hide AddSent;
      if num == Last(sent).num {
        sent := sent[|sent| - 1 := Last(sent).(timestamp := now)];
      } else {
        AddSentNonEmpty(State(), now, num, current);
        AddSentState(now, num, current);
      }
    }

    method SendToReceiver(now: nat, diff: seq<byte>, mtu: nat, fragmenter: Fragmenter, z: Zlib)
      returns (out: seq<Fragment>)
      requires State().Live()
      modifies this, fragmenter
      ensures Emits(old(fragmenter.State()), SendDiff(old(State()), now, diff), mtu, z,
                     State(), fragmenter.State(), out)
    {
      hide MakeFragments, AddSent, Refreshed;
      var newNum := if current == Last(sent).state then Last(sent).num else NextNum(Last(sent).num);
      if shutdown { newNum := SHUTDOWN_NUM; }
      var oldNum := sent[assumed].num;
      RecordSent(now, newNum);
      out := SendInFragments(Framed(State(), oldNum, newNum, diff), mtu, fragmenter, z);
      assumed := |sent| - 1;
      nextAck := now + ACK_INTERVAL;
    }

    /** The end of a tick, once a send or an ack is due. */
    method SendDue(now: nat, dueSend: bool, dueAck: bool, mtu: nat, fragmenter: Fragmenter, z: Zlib)
      returns (out: seq<Fragment>)
      requires State().Live() && (dueSend || dueAck)
      modifies this, fragmenter
      ensures Emits(old(fragmenter.State()), Send(old(State()), now, dueSend, dueAck), mtu, z,
                    State(), fragmenter.State(), out)
    {
      hide DiffFrom, Bet, SenderSpec.SendEmptyAck, SendDiff, Emits;
      BetBase(State());
      var diff := AttemptProspectiveResend(DiffFrom(current, sent[assumed].state));
      ghost var b, f := State(), fragmenter.State();
      if diff == [] {
        out := [];
        if dueAck {
          out := SendEmptyAck(now, mtu, fragmenter, z);
          EmitsClock(f, SenderSpec.SendEmptyAck(b, now), mtu, z, State(), fragmenter.State(), out);
          mindelayClock := None;
        } else {
          NothingEmitted(f, Send(old(State()), now, dueSend, dueAck), mtu, z);
        }
        if dueSend { mindelayClock := None; }
      } else {
        out := SendToReceiver(now, diff, mtu, fragmenter, z);
        EmitsClock(f, SendDiff(b, now, diff), mtu, z, State(), fragmenter.State(), out);
        mindelayClock := None;
      }
    }

    /** One tick: what went out, and the new state of sender and fragmenter. */
    method Tick(now: nat, rto: nat, interval: nat, mtu: nat, fragmenter: Fragmenter, z: Zlib)
      returns (out: seq<Fragment>)
      requires State().Live()
      modifies this, fragmenter
      ensures Emits(old(fragmenter.State()), SenderSpec.Tick(old(State()), now, rto, interval), mtu, z,
                    State(), fragmenter.State(), out)
    {
      hide MakeFragments, Walk, Rationalize, NextSend, Send;
      PreparedFront(State(), now, rto);
      UpdateAssumedReceiverState(now, rto);
      RationalizeStates();
      var nextSend := ComputeTimers(now, rto, interval);
      var dueSend := nextSend.Some? && now >= nextSend.value;
      var dueAck := now >= nextAck;
      if !dueSend && !dueAck { return []; }
      out := SendDue(now, dueSend, dueAck, mtu, fragmenter, z);
    }
  }

  /** The fragmenter's part of a tick that decided on `t`. */
  predicate Emits(f: Framer, t: Ticked, mtu: nat, z: Zlib,
                  s': Sender, f': Framer, out: seq<Fragment>)
  {
    if t.inst.None? then s' == t.sender && f' == f && out == []
    else
      var (g, r) := MakeFragments(f, t.inst.value, mtu, z);
      s' == Acked(t.sender, r.Success?) && f' == g && out == if r.Success? then r.value else []
  }

  /** Clearing the mindelay clock commutes with the fragmenter's part. */
  lemma {:induction false} EmitsClock(
    f: Framer, t: Ticked, mtu: nat, z: Zlib, s': Sender, f': Framer, out: seq<Fragment>)
    requires Emits(f, t, mtu, z, s', f', out)
    ensures Emits(f, t.(sender := t.sender.(mindelayClock := None)), mtu, z, s'.(mindelayClock := None), f', out)
  {
    hide MakeFragments;
  }

  lemma {:induction false} NothingEmitted(f: Framer, t: Ticked, mtu: nat, z: Zlib)
    requires t.inst.None?
    ensures Emits(f, t, mtu, z, t.sender, f, [])
  {
  }

  lemma {:induction false} AddSentNonEmpty(s: Sender, now: nat, num: u64, state: Stream)
    ensures |AddSent(s, now, num, state).sent| > 0
  {
  }
}
