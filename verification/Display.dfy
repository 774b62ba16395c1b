/**
 The client's copy of the host stream and the display that follows it. Received states share
 log nodes; the display advances by a suffix or is rebuilt, and always shows the newest log.
 */
module Display {
  import opened Basics
  import opened Wire
  import opened WireLaws
  import opened Queues
  import opened EventLogs
  import opened Receiver
  import opened ReceiverLaws
  import opened Engine
  import opened Predictions

  datatype HostState = HostState(log: EventLog, echoAck: u64)

  /** A host state as a value: its events in order, and its echo ack. */
  datatype View = View(events: seq<HostEvent>, echoAck: u64)

  ghost function ViewOf(s: HostState): View {
    View(if s.log.Valid() then s.log.Events() else [], s.echoAck)
  }

  // ----- applying a host diff -----

  function Applied(v: View, h: HostInstruction): View {
    match h
    case HostBytes(bytes) => if bytes == [] then v else v.(events := v.events + [BytesEvent(bytes)])
    case HostResize(width, height) => v.(events := v.events + [ResizeEvent(width, height)])
    case EchoAck(num) => if v.echoAck < num then v.(echoAck := num) else v
  }

  function AppliedAll(v: View, hs: seq<HostInstruction>): View {
    if hs == [] then v else Applied(AppliedAll(v, hs[..|hs| - 1]), Last(hs))
  }

  function ApplyHostDiff(v: View, diff: seq<byte>): Result<View, WireError> {
    match DecodeHostMessage(diff)
    case Failure(e) => Failure(e)
    case Success(hs) => Success(AppliedAll(v, hs))
  }

  /** A diff only appends events, and the echo ack never falls. */
  lemma {:induction false} AppliedGrows(v: View, hs: seq<HostInstruction>)
    ensures v.events <= AppliedAll(v, hs).events && v.echoAck <= AppliedAll(v, hs).echoAck
  {
    if hs != [] { AppliedGrows(v, hs[..|hs| - 1]); }
  }

  /** The instruction that carries one event. */
  function Carrying(e: HostEvent): HostInstruction {
    match e
    case BytesEvent(bytes) => HostBytes(bytes)
    case ResizeEvent(width, height) => HostResize(width, height)
  }

  function CarryingAll(es: seq<HostEvent>): (hs: seq<HostInstruction>)
    ensures |hs| == |es| && forall i | 0 <= i < |es| :: hs[i] == Carrying(es[i])
  {
    seq(|es|, i requires 0 <= i < |es| => Carrying(es[i]))
  }

  /** Events as the log holds them: no empty byte string, and none a buffer could not hold. */
  predicate Loggable(e: HostEvent) {
    e.BytesEvent? ==> e.bytes != [] && |e.bytes| < VEC_LIMIT
  }

  lemma {:induction false} EventsApplied(v: View, es: seq<HostEvent>)
    requires forall e <- es :: Loggable(e)
    ensures AppliedAll(v, CarryingAll(es)) == v.(events := v.events + es)
  {
    var hs := CarryingAll(es);
    if es == [] {
      assert v.events + es == v.events;
    } else {
      var front, last := es[..|es| - 1], Last(es);
      EventsApplied(v, front);
      assert hs[..|hs| - 1] == CarryingAll(front) && Last(hs) == Carrying(last);
      assert last in es && Loggable(last);
      assert v.events + front + [last] == v.events + es;
    }
  }

  lemma {:induction false} AppliedConcat(v: View, a: seq<HostInstruction>, b: seq<HostInstruction>)
    ensures AppliedAll(v, a + b) == AppliedAll(AppliedAll(v, a), b)
  {
    if b == [] {
      assert a + b == a;
    } else {
      assert (a + b)[..|a + b| - 1] == a + b[..|b| - 1];
      AppliedConcat(v, a, b[..|b| - 1]);
    }
  }

  /**
   The encoded message that carries events and an echo ack, applied to any state, appends exactly
   those events, sizes and order included, and leaves the higher of the two echo acks.
   */
  lemma {:induction false} HostDiffRestores(v: View, es: seq<HostEvent>, ack: u64)
    requires forall e <- es :: Loggable(e)
    ensures ApplyHostDiff(v, EncodeHostMessage(CarryingAll(es) + [EchoAck(ack)]))
         == Success(View(v.events + es, if ack > v.echoAck then ack else v.echoAck))
  {
    hide EncodeHostMessage, DecodeHostMessage;
    var hs := CarryingAll(es);
    forall h | h in hs + [EchoAck(ack)] ensures HostFits(h) {
      if h in hs {
        var i :| 0 <= i < |hs| && hs[i] == h;
        assert Loggable(es[i]);
      }
    }
    HostMessageRoundTrip(hs + [EchoAck(ack)]);
    AppliedConcat(v, hs, [EchoAck(ack)]);
    EventsApplied(v, es);
    assert [EchoAck(ack)][..0] == [];
  }

  /** Two messages applied one after the other are one message; so events and acks may come in any grouping. */
  lemma {:induction false} HostDiffsCompose(v: View, a: seq<HostInstruction>, b: seq<HostInstruction>)
    requires forall h <- a + b :: HostFits(h)
    ensures ApplyHostDiff(v, EncodeHostMessage(a)).Success?
    ensures ApplyHostDiff(v, EncodeHostMessage(a + b))
         == ApplyHostDiff(ApplyHostDiff(v, EncodeHostMessage(a)).value, EncodeHostMessage(b))
  {
    hide EncodeHostMessage, DecodeHostMessage;
    forall h | h in a ensures HostFits(h) { assert h in a + b; }
    forall h | h in b ensures HostFits(h) { assert h in a + b; }
    HostMessageRoundTrip(a);
    HostMessageRoundTrip(b);
    HostMessageRoundTrip(a + b);
    AppliedConcat(v, a, b);
  }

  /** An empty byte string logs nothing. */
  lemma {:induction false} EmptyBytesAddNothing(v: View)
    ensures ApplyHostDiff(v, EncodeHostMessage([HostBytes([])])) == Success(v)
  {
    hide EncodeHostMessage, DecodeHostMessage;
    HostMessageRoundTrip([HostBytes([])]);
    assert [HostBytes([])][..0] == [];
    assert AppliedAll(v, []) == v;
  }

  /** The tree form of the same: the old log stays an ancestor of the new one. */
  method ApplyString(s: HostState, diff: seq<byte>) returns (r: Result<HostState, WireError>)
    requires s.log.Valid()
    ensures match ApplyHostDiff(ViewOf(s), diff)
            case Failure(e) => r == Failure(e)
            case Success(v) =>
              r.Success? && r.value.log.Valid() && ViewOf(r.value) == v && Ancestor(s.log.node, r.value.log.node)
  {
    hide DecodeHostMessage;
    var message := DecodeHostMessage(diff);
    if message.Failure? { return Failure(message.error); }
    var hs, t := message.value, s;
    for i := 0 to |hs|
      invariant t.log.Valid() && ViewOf(t) == AppliedAll(ViewOf(s), hs[..i])
      invariant Ancestor(s.log.node, t.log.node)
    {
      assert hs[..i + 1][..i] == hs[..i];
      match hs[i] {
        case HostBytes(bytes) =>
          if bytes != [] {
            var log := t.log.Push(BytesEvent(bytes));
            AncestorTransitive(s.log.node, t.log.node, log.node);
            t := t.(log := log);
          }
        case HostResize(width, height) =>
          var log := t.log.Push(ResizeEvent(width, height));
          AncestorTransitive(s.log.node, t.log.node, log.node);
          t := t.(log := log);
        case EchoAck(num) =>
          if t.echoAck < num { t := t.(echoAck := num); }
      }
    }
    assert hs[..|hs|] == hs;
    r := Success(t);
  }

  // ----- the receiver over shared logs, and over values -----

  ghost function SeenEntry(e: Timestamped<HostState>): (t: Timestamped<View>)
    ensures t.timestamp == e.timestamp && t.num == e.num
  {
    Timestamped(e.timestamp, e.num, ViewOf(e.state))
  }

  ghost function SeenQueue(q: seq<Timestamped<HostState>>): (r: seq<Timestamped<View>>)
    ensures |r| == |q| && forall i | 0 <= i < |q| :: r[i] == SeenEntry(q[i])
  {
    seq(|q|, i requires 0 <= i < |q| => SeenEntry(q[i]))
  }

  ghost function Seen(r: Receiver<HostState>): Receiver<View> {
    Receiver(SeenQueue(r.received), r.quenchUntil)
  }

  ghost function SeenOutcome(o: Outcome<HostState>): Outcome<View> {
    match o
    case Latest(num, hadDiff, s) => Latest(num, hadDiff, ViewOf(s))
    case OutOfOrder(num, hadDiff) => OutOfOrder(num, hadDiff)
    case Duplicate => Duplicate
    case NoReference => NoReference
    case Quenched => Quenched
  }

  ghost function SeenAdmission(a: Admission<HostState>): Admission<View> {
    match a
    case Fatal(v) => Fatal(v)
    case Refused(o) => Refused(SeenOutcome(o))
    case Admitted(e) => Admitted(SeenEntry(e))
  }

  lemma {:induction false} SeenHas(q: seq<Timestamped<HostState>>, num: u64)
    ensures Has(SeenQueue(q), num) <==> Has(q, num)
  {
    if Has(q, num) {
      var i :| 0 <= i < |q| && q[i].num == num;
      assert SeenQueue(q)[i].num == num;
    }
    if Has(SeenQueue(q), num) {
      var i :| 0 <= i < |q| && SeenQueue(q)[i].num == num;
      assert q[i].num == num;
    }
  }

  lemma {:induction false} SeenRetain(q: seq<Timestamped<HostState>>, num: u64)
    ensures SeenQueue(Retain(q, num)) == Retain(SeenQueue(q), num)
  {
    hide SeenQueue, SeenEntry;
    if q != [] {
      SeenRetain(q[1..], num);
      assert SeenQueue(q)[1..] == SeenQueue(q[1..]);
      SeenConcat([q[0]], Retain(q[1..], num));
      assert SeenQueue([q[0]]) == [SeenEntry(q[0])];
    }
  }

  lemma {:induction false} SeenFind(q: seq<Timestamped<HostState>>, num: u64)
    requires Has(q, num)
    ensures Has(SeenQueue(q), num) && SeenEntry(Find(q, num)) == Find(SeenQueue(q), num)
  {
    hide SeenQueue, SeenEntry;
    SeenHas(q, num);
    if q[0].num != num {
      var i :| 0 <= i < |q| && q[i].num == num;
      assert q[1..][i - 1].num == num;
      SeenFind(q[1..], num);
      assert SeenQueue(q)[1..] == SeenQueue(q[1..]);
    }
  }

  lemma {:induction false} SeenAdmit(r: Receiver<HostState>, m: TransportInstruction, now: nat)
    ensures Admit(Seen(r), m, now) == (Seen(Admit(r, m, now).0), SeenAdmission(Admit(r, m, now).1))
  {
    hide Has, Retain, Find, SeenQueue, SeenEntry;
    var kept := Retain(r.received, m.throwawayNum);
    SeenHas(r.received, m.newNum);
    SeenHas(r.received, m.oldNum);
    SeenRetain(r.received, m.throwawayNum);
    SeenHas(kept, m.oldNum);
    if Has(kept, m.oldNum) { SeenFind(kept, m.oldNum); }
  }

  lemma {:induction false} SeenPosition(q: seq<Timestamped<HostState>>, num: u64)
    ensures Position(SeenQueue(q), num) == Position(q, num)
  {
    hide SeenQueue, SeenEntry;
    if q != [] {
      SeenPosition(q[1..], num);
      assert SeenQueue(q)[1..] == SeenQueue(q[1..]);
    }
  }

  lemma {:induction false} SeenInserted(q: seq<Timestamped<HostState>>, e: Timestamped<HostState>)
    ensures SeenQueue(Inserted(q, e)) == Inserted(SeenQueue(q), SeenEntry(e))
  {
    hide SeenQueue, SeenEntry, Position;
    SeenPosition(q, e.num);
    var k := Position(q, e.num);
    SeenConcat(q[..k] + [e], q[k..]);
    SeenConcat(q[..k], [e]);
    assert SeenQueue(q[..k]) == SeenQueue(q)[..k] && SeenQueue(q[k..]) == SeenQueue(q)[k..];
    assert SeenQueue([e]) == [SeenEntry(e)];
  }

  lemma {:induction false} SeenConcat(p: seq<Timestamped<HostState>>, q: seq<Timestamped<HostState>>)
    ensures SeenQueue(p + q) == SeenQueue(p) + SeenQueue(q)
  {
    hide SeenQueue, SeenEntry;
  }

  lemma {:induction false} SeenCommit(r: Receiver<HostState>, e: Timestamped<HostState>, hadDiff: bool)
    requires |r.received| > 0
    ensures Commit(Seen(r), SeenEntry(e), hadDiff) == (Seen(Commit(r, e, hadDiff).0), SeenOutcome(Commit(r, e, hadDiff).1))
  {
    hide ViewOf, Inserted, SeenQueue;
    SeenConcat(r.received, [e]);
    assert SeenQueue([e]) == [SeenEntry(e)];
    SeenInserted(r.received, e);
  }

  lemma {:induction false} SimulatesUnlessAdmitted(r: Receiver<HostState>, m: TransportInstruction, now: nat)
    ensures var (r', a) := Admit(r, m, now);
            && (a.Fatal? ==> Simulates(Seen(r), m, now, Seen(r'), Failure(WrongVersion(a.version))))
            && (a.Refused? ==> Simulates(Seen(r), m, now, Seen(r'), Success(a.outcome)))
  {
    hide Admit, Seen;
    SeenAdmit(r, m, now);
  }

  lemma {:induction false} SimulatesApplied(
    r: Receiver<HostState>, m: TransportInstruction, now: nat, applied: Result<HostState, WireError>)
    requires RecvInv(r) && Admit(r, m, now).1.Admitted?
    requires Yields(Admit(r, m, now).1.reference.state, m.diff, applied)
    ensures |Admit(r, m, now).0.received| > 0
    ensures match applied
            case Failure(e) => Simulates(Seen(r), m, now, Seen(Admit(r, m, now).0), Failure(BadDiff(e)))
            case Success(s) =>
              var (r', o) := Commit(Admit(r, m, now).0, Timestamped(now, m.newNum, s), m.diff != []);
              Simulates(Seen(r), m, now, Seen(r'), Success(o))
  {
    hide Admit, Commit, Seen, ApplyHostDiff, ViewOf, Strict;
    SeenAdmit(r, m, now);
    AdmitKeeps(r, m, now);
    if applied.Success? {
      SeenCommit(Admit(r, m, now).0, Timestamped(now, m.newNum, applied.value), m.diff != []);
    }
  }

  /** `applied` is what the diff makes of `s`, seen as values. */
  ghost predicate Yields(s: HostState, diff: seq<byte>, applied: Result<HostState, WireError>) {
    if diff == [] then applied == Success(s)
    else
      match ApplyHostDiff(ViewOf(s), diff)
      case Failure(e) => applied == Failure(e)
      case Success(v) => applied.Success? && ViewOf(applied.value) == v
  }

  ghost predicate AllValid(q: seq<Timestamped<HostState>>) {
    forall i | 0 <= i < |q| :: q[i].state.log.Valid()
  }

  lemma {:induction false} CommitValid(r: Receiver<HostState>, e: Timestamped<HostState>, hadDiff: bool)
    requires RecvInv(r) && !Has(r.received, e.num) && AllValid(r.received) && e.state.log.Valid()
    ensures var (r', o) := Commit(r, e, hadDiff);
            && RecvInv(r') && AllValid(r'.received)
            && (if o.Latest? then Newest(r').state == o.state else Newest(r') == Newest(r))
  {
    hide Commit, Rooted, Depth, Has, Strict;
    CommitKeeps(r, e, hadDiff);
    CommitAdds(r, e, hadDiff);
  }

  // ----- the session's side of it -----

  class HostSession {
    const receiver: SspReceiver<HostState>
    const prediction: PredictionState
    /** Where the display stands, as a log compared by identity. */
    var engineAt: EventLog
    /** Everything the live display was fed since its creation. */
    var display: seq<HostEvent>

    ghost predicate Follows(log: EventLog)
      reads this
    {
      log.Valid() && engineAt.Valid() && display == engineAt.Events() == log.Events()
    }

    ghost predicate Valid()
      reads this, receiver, prediction
    {
      && RecvInv(receiver.State()) && AllValid(receiver.received)
      && Follows(Newest(receiver.State()).state.log)
      && prediction.Valid()
    }

    constructor (now: nat, predict: bool)
      ensures Valid() && fresh(receiver) && fresh(prediction)
      ensures Seen(receiver.State()) == NewReceiver(View([], 0), now)
    {
      receiver := new SspReceiver(HostState(EventLog(null, 0), 0), now);
      prediction := new PredictionState(predict);
      engineAt, display := EventLog(null, 0), [];
    }

    /** Moves the display to `latest`: a suffix when it is ahead on the same branch, else a rebuild. */
    method AdvanceDisplay(latest: EventLog) returns (fed: bool)
      requires engineAt.Valid() && display == engineAt.Events() && latest.Valid()
      modifies this
      ensures Follows(latest) && engineAt.node == latest.node
      ensures fed <==> old(engineAt).node != latest.node
      ensures Ancestor(old(engineAt).node, latest.node) ==> old(display) <= display
    {
      var suffix := latest.SuffixOver(engineAt);
      AncestorIsUp(engineAt.node, latest.node);
      if suffix.Some? {
        fed := suffix.value != [];
        if fed {
          display := Replay(display, suffix.value);
          engineAt := latest;
        }
      } else {
        var events := latest.Iter();
        display := Replay([], events);
        engineAt, fed := latest, true;
      }
    }

    /** The receiver's part of an instruction: logs are shared, the values are those of the pure receiver. */
    method ProcessInstruction(m: TransportInstruction, now: nat) returns (r: Result<Outcome<HostState>, SspError>)
      requires RecvInv(receiver.State()) && AllValid(receiver.received)
      modifies receiver
      ensures RecvInv(receiver.State()) && AllValid(receiver.received)
      ensures Simulates(old(Seen(receiver.State())), m, now, Seen(receiver.State()), r)
      ensures if r.Success? && r.value.Latest? then Newest(receiver.State()).state == r.value.state
              else Newest(receiver.State()) == old(Newest(receiver.State()))
    {
      hide Admit, Commit, ViewOf, Strict, Seen, Simulates, Rooted, Trail, Ancestor, Depth, Has, ApplyHostDiff, Retain;
      ghost var was := receiver.State();
      AdmitKeeps(was, m, now);
      RefusalsRefuse(was, m, now);
      SimulatesUnlessAdmitted(was, m, now);
      var a := receiver.AdmitInstruction(m, now);
      if a.Fatal? { return Failure(WrongVersion(a.version)); }
      if a.Refused? { return Success(a.outcome); }
      assert AllValid(receiver.received);
      var state := a.reference.state;
      if m.diff != [] {
        var applied := ApplyString(state, m.diff);
        SimulatesApplied(was, m, now, applied);
        if applied.Failure? { return Failure(BadDiff(applied.error)); }
        state := applied.value;
      } else {
        SimulatesApplied(was, m, now, Success(state));
      }
      var e := Timestamped(now, m.newNum, state);
      CommitValid(receiver.State(), e, m.diff != []);
      var o := receiver.CommitState(e, m.diff != []);
      r := Success(o);
    }

    /** One received instruction; on a newest state the display and the predictions follow. */
    method HandleInstruction(m: TransportInstruction, now: nat)
      returns (r: Result<Outcome<HostState>, SspError>, changed: bool)
      requires Valid()
      modifies this, receiver, prediction
      ensures Valid()
      ensures Simulates(old(Seen(receiver.State())), m, now, Seen(receiver.State()), r)
      ensures !(r.Success? && r.value.Latest?) ==>
                !changed && display == old(display) && prediction.State() == old(prediction.State())
      ensures r.Success? && r.value.Latest? ==>
                && r.value.state.log.Valid() && display == r.value.state.log.Events()
                && prediction.State() == Retired(old(prediction.State()), r.value.state.echoAck)
                && (changed <==> (
                      || old(engineAt).node != r.value.state.log.node
                      || exists i | 0 <= i < |old(prediction.frames)| ::
                           old(prediction.frames)[i] <= r.value.state.echoAck))
                && (!changed ==> display == old(display) && prediction.cells == old(prediction.cells))
    {
      hide Simulates, Seen, Retired, Strict;
      changed := false;
      r := ProcessInstruction(m, now);
      if r.Success? && r.value.Latest? {
        var latest := Newest(receiver.State()).state;
        var fed := AdvanceDisplay(latest.log);
        var retired := prediction.Retire(latest.echoAck);
        changed := fed || retired;
      }
    }
  }

  /** Feeds events to a display one by one. */
  method Replay(display: seq<HostEvent>, events: seq<HostEvent>) returns (after: seq<HostEvent>)
    ensures after == display + events
  {
    after := display;
    for i := 0 to |events|
      invariant after == display + events[..i]
    {
      after := after + [events[i]];
    }
  }

  /** The receiver over shared logs did what the receiver over plain values does. */
  ghost predicate Simulates(was: Receiver<View>, m: TransportInstruction, now: nat, r: Receiver<View>,
                          o: Result<Outcome<HostState>, SspError>)
  {
    var (r', o') := Process(was, m, now, ApplyHostDiff);
    r == r' && (match o case Success(x) => o' == Success(SeenOutcome(x)) case Failure(e) => o' == Failure(e))
  }
}
