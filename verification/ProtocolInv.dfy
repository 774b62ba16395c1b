/** The invariant of the two-party system, direction by direction. */
module ProtocolInv {
  import opened Basics
  import opened Wire
  import opened Streams
  import opened Queues
  import opened Fragments
  import opened FragmentLaws
  import opened Sender
  import opened SenderLaws
  import opened Outbound
  import opened Sending
  import opened Receiver
  import opened ReceiverLaws
  import opened Protocol

  /** Each state the receiver holds is the stream the sender recorded under its number. */
  predicate Mirrors(r: Receiver<Stream>, h: History) {
    forall e <- r.received :: e.num in h.states && e.state == h.states[e.num]
  }

  /** An ack on its way is one the receiver gave, and it still holds what it acked, if it matters. */
  predicate AcksOk(es: seq<Emission>, r: Receiver<Stream>, front: u64)
    requires |r.received| > 0
  {
    forall k | 0 <= k < |es| ::
      var ack := es[k].inst.ackNum;
      ack <= Newest(r).num && (ack >= front ==> Has(r.received, ack))
  }

  /** The last ack put in a header was never beyond what the receiver held. */
  predicate FramerOk(f: Framer, r: Receiver<Stream>)
    requires |r.received| > 0
  {
    LastAckSent(f).Some? ==> LastAckSent(f).value <= Newest(r).num
  }

  predicate Blank(a: Assembly) {
    a.slots == [] && a.arrived == 0 && a.total == None && a.bytes == 0
  }

  /** The instruction of this emission respects both size caps. */
  predicate Sendable(e: Emission, z: Zlib) {
    WithinCaps(Sent(e.inst, e.fragments), z)
  }

  /**
   The assembly holds pieces of what the peer emitted under its current id, and nothing else; only
   an instruction over a cap can have left its byte count behind.
   */
  predicate AsmOk(a: Assembly, es: seq<Emission>, z: Zlib) {
    && (forall k | 0 <= k < |es| && es[k].id == a.currentId :: Holds(a, es[k].fragments))
    && (forall k | 0 <= k < |es| && es[k].id == a.currentId && Sendable(es[k], z) :: a.bytes == 0)
    && ((forall k | 0 <= k < |es| :: es[k].id != a.currentId) ==> Blank(a))
  }

  /** Everything that ties the sender at `p` to the receiver at `q`. */
  ghost predicate DirInv(p: Endpoint, q: Endpoint, z: Zlib) {
    && OutInv(p.out, z)
    && RecvInv(q.receiver)
    && Mirrors(q.receiver, p.out.history)
    && Has(q.receiver.received, p.out.sender.Front().num)
    && q.out.sender.ackNum == Newest(q.receiver).num
    && AcksOk(q.out.emissions, q.receiver, p.out.sender.Front().num)
    && FramerOk(q.out.framer, q.receiver)
    && AsmOk(q.asm, p.out.emissions, z)
  }

  ghost predicate SysInv(s: System, z: Zlib) {
    DirInv(s.a, s.b, z) && DirInv(s.b, s.a, z)
  }

  lemma {:induction false} InitDir(now: nat, mindelay: nat, now': nat, mindelay': nat, z: Zlib)
    ensures DirInv(InitEndpoint(now, mindelay), InitEndpoint(now', mindelay'), z)
  {
    InitOutInv(now, mindelay, z);
    assert NewReceiver<Stream>([], now').received[0].num == 0;
  }

  // ----- the sender moves on its own -----

  lemma {:induction false} MirrorsStay(r: Receiver<Stream>, h: History, g: History)
    requires Mirrors(r, h) && Extends(h, g)
    ensures Mirrors(r, g)
  {
  }

  lemma {:induction false} BlankHolds(a: Assembly, p: seq<Fragment>)
    requires Blank(a) && |p| >= 1
    ensures Holds(a, p)
  {
  }

  lemma {:induction false} EmissionCut(o: Out, z: Zlib, k: nat)
    requires OutInv(o, z) && k < |o.emissions|
    ensures |o.emissions[k].fragments| >= 1
  {
    assert EmissionOk(o.emissions[k], o.history, z);
  }

  /** New emissions do not disturb an assembly: a known id comes back with the same fragments. */
  lemma {:induction false} AsmStays(a: Assembly, o: Out, o': Out, z: Zlib)
    requires OutInv(o', z) && AsmOk(a, o.emissions, z) && o.emissions <= o'.emissions
    ensures AsmOk(a, o'.emissions, z)
  {
    hide Holds, Sendable, OutInv;
    var es := o'.emissions;
    forall k | 0 <= k < |es| && es[k].id == a.currentId
      ensures Holds(a, es[k].fragments) && (Sendable(es[k], z) ==> a.bytes == 0)
    {
      if j :| 0 <= j < |o.emissions| && o.emissions[j].id == a.currentId {
        assert es[j] == o.emissions[j];
        SameIdSamePayload(o', z, j, k);
        SameSendable(es[j], es[k], z);
      } else {
        EmissionCut(o', z, k);
        BlankHolds(a, es[k].fragments);
      }
    }
    if forall k | 0 <= k < |es| :: es[k].id != a.currentId {
      assert forall k | 0 <= k < |o.emissions| :: o.emissions[k] == es[k];
    }
  }

  /** A local operation never moves the queue's head. */
  lemma {:induction false} OwnOpFront(o: Out, op: Op, z: Zlib)
    requires OutInv(o, z) && OwnOp(op)
    ensures |Apply(o, op, z).sender.sent| > 0 && Apply(o, op, z).sender.Front().num == o.sender.Front().num
  {
    InvLive(o.sender, o.history);
    if op.DoTick? && Enabled(o, op) {
      TickKeeps(o.sender, o.history, op.now, op.rto, op.interval);
    }
    hide Tick, MakeFragments, NextSend, OutInv, Inv, Coherent;
  }

  /** What a local operation emits carries the sender's ack number, and does not change it. */
  lemma {:induction false} OwnOpAcks(o: Out, op: Op, z: Zlib)
    requires o.sender.Live() && OwnOp(op)
    ensures var p := Apply(o, op, z);
            && p.sender.ackNum == o.sender.ackNum
            && (p.emissions == o.emissions ||
                (p.emissions == o.emissions + [Last(p.emissions)] && Last(p.emissions).inst.ackNum == o.sender.ackNum))
            && LastAckSent(p.framer) in {LastAckSent(o.framer), Some(o.sender.ackNum)}
  {
    if op.DoTick? && Enabled(o, op) {
      TickFields(o.sender, op.now, op.rto, op.interval);
      var t := Tick(o.sender, op.now, op.rto, op.interval);
      if t.inst.Some? { FramerAcks(o.framer, t.inst.value, op.mtu, z); }
    }
    hide Tick, MakeFragments, NextSend;
  }

  lemma {:induction false} FramerAcks(f: Framer, m: TransportInstruction, mtu: nat, z: Zlib)
    ensures LastAckSent(MakeFragments(f, m, mtu, z).0) in {LastAckSent(f), Some(m.ackNum)}
  {
  }

  /** The sender's side of a direction takes a local step. */
  lemma {:induction false} SenderSteps(p: Endpoint, q: Endpoint, op: Op, z: Zlib)
    requires DirInv(p, q, z) && OwnOp(op)
    ensures DirInv(p.(out := Apply(p.out, op, z)), q, z)
  {
    hide Apply, OutInv, AsmOk, Mirrors, Has, AcksOk, Grows;
    OutLive(p.out, z);
    ApplyKeeps(p.out, op, z);
    OwnOpFront(p.out, op, z);
    GrowsFacts(p.out, Apply(p.out, op, z), z);
    MirrorsStay(q.receiver, p.out.history, Apply(p.out, op, z).history);
    AsmStays(q.asm, p.out, Apply(p.out, op, z), z);
  }

  lemma {:induction false} GrowsFacts(o: Out, p: Out, z: Zlib)
    requires |o.sender.sent| > 0 && |p.sender.sent| > 0 && Grows(o, p)
    ensures Extends(o.history, p.history) && o.emissions <= p.emissions
  {
  }

  lemma {:induction false} NewestHeld(r: Receiver<Stream>)
    requires |r.received| > 0
    ensures Has(r.received, Newest(r).num)
  {
    assert r.received[|r.received| - 1].num == Newest(r).num;
  }

  /** The receiver's side of a direction takes a local step: only its acks may grow. */
  lemma {:induction false} ReceiverIdles(p: Endpoint, q: Endpoint, op: Op, z: Zlib)
    requires DirInv(p, q, z) && OwnOp(op) && q.out.sender.Live()
    ensures DirInv(p, q.(out := Apply(q.out, op, z)), z)
  {
    hide Apply, OutInv, AsmOk, Mirrors, Has;
    OwnOpAcks(q.out, op, z);
    NewestHeld(q.receiver);
  }

  // ----- a fragment arrives -----

  lemma {:induction false} CutFromEmission(o: Out, z: Zlib, k: nat)
    requires OutInv(o, z) && k < |o.emissions|
    ensures CutFrom(Sent(o.emissions[k].inst, o.emissions[k].fragments), o.emissions[k].id, z)
  {
    hide Slices, PayloadOf, DiffFrom, Inv, OutInv, Contents, Packet;
    var e := o.emissions[k];
    SenderFacts(o, z);
    EmissionFacts(o, z, k);
    EmissionSliced(o, z, k);
    var ss := Slices(PayloadOf(e.inst, z), e.budget);
    FlattenSlices(PayloadOf(e.inst, z), e.budget);
    PacketContents(e.id, ss);
    RecordedIsTyped(o.sender, o.history, e.inst.newNum);
    DiffSize(o.history.states[e.inst.newNum], o.history.states[e.inst.oldNum]);
  }

  lemma {:induction false} EmissionSliced(o: Out, z: Zlib, k: nat)
    requires OutInv(o, z) && k < |o.emissions|
    ensures var e := o.emissions[k];
            && e.budget > 0 && |Slices(PayloadOf(e.inst, z), e.budget)| <= MAX_FRAGMENT_INDEX + 1
            && e.fragments == Packet(e.id, Slices(PayloadOf(e.inst, z), e.budget))
  {
    assert EmissionOk(o.emissions[k], o.history, z);
  }

  /** One fragment of the packet `s.p`: the assembly still holds that packet, and yields `s.m` or nothing. */
  lemma {:induction false} AddOfPacket(a: Assembly, f: Fragment, s: Sent, z: Zlib)
    requires Lawful(z) && CutFrom(s, f.id, z) && f.num < |s.p| && f == s.p[f.num]
    requires a.currentId == f.id ==> Holds(a, s.p)
    ensures var (a', m) := AddFragment(a, f, z);
            && a'.currentId == f.id && Holds(a', s.p) && (m == None || m == Some(s.m))
            && (WithinCaps(s, z) && (a.currentId == f.id ==> a.bytes == 0) ==>
                  a'.bytes == 0
                  && if Have(a, f.id) + {f.num as nat} == Upto(|s.p|) then m == Some(s.m)
                     else m == None && Indices(a'.slots) == Have(a, f.id) + {f.num as nat})
  {
    hide TakeAssembly, Place, Conclude, Holds, Upto, Indices, Have, PayloadOf, WithinCaps;
    HonestEntered(a, f, s.p);
    var c := Entered(a, f);
    if c.total == Some(c.arrived) {
      TakeComplete(c, s, z);
      TakenHolds(c, s.p, TakeAssembly(c, z).0, |PayloadOf(s.m, z)|);
    }
  }

  /** What the assembly makes of any fragment the peer emitted: its instruction, or nothing yet. */
  lemma {:induction false} AddHonest(a: Assembly, o: Out, k: nat, i: nat, z: Zlib)
    requires Lawful(z) && OutInv(o, z) && AsmOk(a, o.emissions, z)
    requires k < |o.emissions| && i < |o.emissions[k].fragments|
    ensures var (a', m) := AddFragment(a, o.emissions[k].fragments[i], z);
            AsmOk(a', o.emissions, z) && (m == None || m == Some(o.emissions[k].inst))
  {
    hide OutInv, AddFragment, Holds, Contents, PayloadOf, WithinCaps, Have;
    var e := o.emissions[k];
    CutFromEmission(o, z, k);
    AddOfPacket(a, e.fragments[i], Sent(e.inst, e.fragments), z);
    SameIdHolds(AddFragment(a, e.fragments[i], z).0, o, k, z);
  }

  lemma {:induction false} TakenHolds(c: Assembly, p: seq<Fragment>, t: Assembly, n: nat)
    requires Holds(c, p) && t in {Reset(c), c.(bytes := c.bytes + n)}
    ensures Holds(t, p) && t.currentId == c.currentId
  {
  }

  lemma {:induction false} SameIdHolds(a: Assembly, o: Out, k: nat, z: Zlib)
    requires OutInv(o, z) && k < |o.emissions|
    requires a.currentId == o.emissions[k].id && Holds(a, o.emissions[k].fragments)
    requires Sendable(o.emissions[k], z) ==> a.bytes == 0
    ensures AsmOk(a, o.emissions, z)
  {
    hide OutInv, Sendable, Holds;
    forall j | 0 <= j < |o.emissions| && o.emissions[j].id == a.currentId
      ensures Holds(a, o.emissions[j].fragments) && (Sendable(o.emissions[j], z) ==> a.bytes == 0)
    {
      SameIdSamePayload(o, z, j, k);
      SameSendable(o.emissions[j], o.emissions[k], z);
    }
  }

  lemma {:induction false} SameSendable(e: Emission, e': Emission, z: Zlib)
    requires e.inst == e'.inst && e.fragments == e'.fragments
    ensures Sendable(e, z) <==> Sendable(e', z)
  {
  }

  /** The datagram of an emitted fragment parses back to it. */
  lemma {:induction false} DatagramIsFragment(o: Out, z: Zlib, k: nat, i: nat)
    requires OutInv(o, z) && k < |o.emissions| && i < |o.emissions[k].fragments|
    ensures Parse(ToBytes(o.emissions[k].fragments[i])) == Success(o.emissions[k].fragments[i])
  {
    assert EmissionOk(o.emissions[k], o.history, z);
    FragmentRoundTrip(o.emissions[k].fragments[i]);
    hide Parse, ToBytes, OutInv;
  }

  // ----- an instruction is handled -----

  /** An added state mirrors the sender's record. */
  lemma {:induction false} AddedMirrors(
    r: Receiver<Stream>, h: History, s: Sender, m: TransportInstruction, now: nat, e: Timestamped<Stream>)
    requires Inv(s, h) && |h.typed| < STREAM_LIMIT && Coherent(m, h) && Mirrors(r, h)
    requires Adds(r, m, now, e, ApplyString)
    ensures e.num in h.states && e.state == h.states[e.num]
  {
    hide ApplyString, DiffFrom, Inv;
    var x :| x in r.received && x.num == m.oldNum &&
      (if m.diff == [] then e.state == x.state else ApplyString(x.state, m.diff) == Success(e.state));
    RecordedIsTyped(s, h, m.newNum);
    DiffRestores(h.states[m.newNum], h.states[m.oldNum]);
    DiffEmptyIff(h.states[m.newNum], h.states[m.oldNum]);
  }

  lemma {:induction false} ProcessMirrors(r: Receiver<Stream>, h: History, s: Sender, m: TransportInstruction, now: nat)
    requires Inv(s, h) && |h.typed| < STREAM_LIMIT && Coherent(m, h) && Mirrors(r, h) && RecvInv(r)
    ensures Mirrors(Process(r, m, now, ApplyString).0, h)
  {
    ProcessKeeps(r, m, now, ApplyString);
    var r' := Process(r, m, now, ApplyString).0;
    hide Process, ApplyString, Inv, Coherent, RecvInv, Adds;
    forall e | e in r'.received ensures e.num in h.states && e.state == h.states[e.num] {
      if e !in r.received { AddedMirrors(r, h, s, m, now, e); }
    }
  }

  /** Nothing at or above the throwaway number is lost. */
  lemma {:induction false} StillHas(r: Receiver<Stream>, m: TransportInstruction, now: nat, num: u64)
    requires RecvInv(r) && Has(r.received, num) && num >= m.throwawayNum
    ensures Has(Process(r, m, now, ApplyString).0.received, num)
  {
    ProcessKeeps(r, m, now, ApplyString);
    var r' := Process(r, m, now, ApplyString).0;
    hide Process, ApplyString, Adds;
    var i :| 0 <= i < |r.received| && r.received[i].num == num;
    assert r.received[i] in r'.received;
    var j :| 0 <= j < |r'.received| && r'.received[j] == r.received[i];
  }

  lemma {:induction false} AcksStay(es: seq<Emission>, r: Receiver<Stream>, front: u64, m: TransportInstruction, now: nat)
    requires RecvInv(r) && AcksOk(es, r, front) && m.throwawayNum <= front
    ensures RecvInv(Process(r, m, now, ApplyString).0)
    ensures AcksOk(es, Process(r, m, now, ApplyString).0, front)
  {
    ProcessKeeps(r, m, now, ApplyString);
    var r' := Process(r, m, now, ApplyString).0;
    assert RecvInv(r') && Newest(r).num <= Newest(r').num;
    hide ApplyString, Adds, Process, RecvInv, Has;
    forall k | 0 <= k < |es|
      ensures es[k].inst.ackNum <= Newest(r').num && (es[k].inst.ackNum >= front ==> Has(r'.received, es[k].inst.ackNum))
    {
      if es[k].inst.ackNum >= front { StillHas(r, m, now, es[k].inst.ackNum); }
    }
  }

  /** The receiving direction of a handled instruction. */
  lemma {:induction false} HandledByReceiver(p: Endpoint, q: Endpoint, k: nat, now: nat, z: Zlib)
    requires DirInv(p, q, z) && k < |p.out.emissions| && q.out.sender.Live()
    ensures DirInv(p, Handle(q, p.out.emissions[k].inst, now), z)
  {
    var m, h, front := p.out.emissions[k].inst, p.out.history, p.out.sender.Front().num;
    EmissionFacts(p.out, z, k);
    hide OutInv, AsmOk, ApplyString, Coherent, ProcessAck;
    SenderFacts(p.out, z);
    ProcessMirrors(q.receiver, h, p.out.sender, m, now);
    StillHas(q.receiver, m, now, front);
    AcksStay(q.out.emissions, q.receiver, front, m, now);
    OutcomeTells(q.receiver, m, now, ApplyString);
    hide Process, Mirrors, Has, AcksOk, RecvInv;
  }

  lemma {:induction false} EmissionFacts(o: Out, z: Zlib, k: nat)
    requires OutInv(o, z) && k < |o.emissions|
    ensures Coherent(o.emissions[k].inst, o.history) && o.emissions[k].inst.throwawayNum <= o.sender.Front().num
    ensures o.emissions[k].inst.protocolVersion == PROTOCOL_VERSION
  {
    assert EmissionOk(o.emissions[k], o.history, z);
  }

  lemma {:induction false} SenderFacts(o: Out, z: Zlib)
    requires OutInv(o, z)
    ensures Inv(o.sender, o.history) && |o.history.typed| < STREAM_LIMIT && o.sender.Live()
  {
  }

  // ----- an ack is handled -----

  lemma {:induction false} SenderOnlyTimers(o: Out, s: Sender, clock: nat, z: Zlib)
    requires OutInv(o, z) && o.clock <= clock
    requires s.current == o.sender.current && s.sent == o.sender.sent && s.shutdown == o.sender.shutdown
    requires s.assumed == o.sender.assumed
    ensures OutInv(o.(sender := s, clock := clock), z)
  {
    InvCore(o.sender, s, o.history);
    SameTimes(o.sender.sent, s.sent, o.clock, clock);
    SameEmissions(o.emissions, o.sender, s, o.history, z);
    hide Inv, Timed, EmissionsOk, IdsOk;
  }

  lemma {:induction false} AckHandled(o: Out, ack: u64, z: Zlib)
    requires OutInv(o, z)
    ensures var s := ProcessAck(o.sender, ack);
            && OutInv(o.(sender := s), z)
            && (s.Front().num == o.sender.Front().num || (s.Front().num == ack && ack >= o.sender.Front().num))
  {
    ApplyKeeps(o, PeerAck(ack), z);
    AckKeeps(o.sender, o.history, ack);
    hide OutInv, Inv;
    assert Apply(o, PeerAck(ack), z) == o.(sender := ProcessAck(o.sender, ack));
  }

  /** The sender's fields after a handled instruction: the ack is processed, timers may move. */
  lemma {:induction false} HandledOut(q: Endpoint, m: TransportInstruction, now: nat, z: Zlib)
    requires OutInv(q.out, z)
    ensures q.out.sender.Live()
    ensures var o := Handle(q, m, now).out;
            && OutInv(o, z) && o.history == q.out.history && o.emissions == q.out.emissions
            && (o.sender.Front().num == q.out.sender.Front().num ||
                (o.sender.Front().num == m.ackNum && m.ackNum >= q.out.sender.Front().num))
  {
    OutLive(q.out, z);
    AckHandled(q.out, m.ackNum, z);
    hide OutInv, Process, ApplyString, ProcessAck;
    var s := ProcessAck(q.out.sender, m.ackNum);
    var o := Handle(q, m, now).out;
    if m.protocolVersion == PROTOCOL_VERSION {
      SenderOnlyTimers(q.out.(sender := s), o.sender, o.clock, z);
      assert q.out.(sender := s).(sender := o.sender, clock := o.clock) == o;
    }
  }

  lemma {:induction false} AcksRaise(es: seq<Emission>, r: Receiver<Stream>, front: u64, front': u64)
    requires |r.received| > 0 && AcksOk(es, r, front) && front <= front'
    ensures AcksOk(es, r, front')
  {
  }

  lemma {:induction false} AckIsHeld(es: seq<Emission>, r: Receiver<Stream>, front: u64, k: nat)
    requires |r.received| > 0 && AcksOk(es, r, front) && k < |es| && es[k].inst.ackNum >= front
    ensures Has(r.received, es[k].inst.ackNum)
  {
  }

  /** The sending direction of a handled instruction: the head moves only to a held state. */
  lemma {:induction false} HandledBySender(p: Endpoint, q: Endpoint, k: nat, now: nat, z: Zlib)
    requires DirInv(q, p, z) && k < |p.out.emissions|
    ensures q.out.sender.Live()
    ensures DirInv(Handle(q, p.out.emissions[k].inst, now), p, z)
  {
    var m, front := p.out.emissions[k].inst, q.out.sender.Front().num;
    hide OutInv, AsmOk, Mirrors, Handle, Has, AcksOk, RecvInv;
    HandledOut(q, m, now, z);
    var front' := Handle(q, m, now).out.sender.Front().num;
    if m.ackNum >= front { AckIsHeld(p.out.emissions, p.receiver, front, k); }
    AcksRaise(p.out.emissions, p.receiver, front, front');
  }

  // ----- an endpoint takes a datagram in -----

  lemma {:induction false} ClockMoves(p: Endpoint, q: Endpoint, now: nat, z: Zlib)
    requires DirInv(p, q, z) && p.out.clock <= now
    ensures DirInv(p.(out := p.out.(clock := now)), q, z)
  {
    hide Mirrors, Has, AcksOk, RecvInv, AsmOk, OutInv;
    SenderOnlyTimers(p.out, p.out.sender, now, z);
    assert p.out.(sender := p.out.sender, clock := now) == p.out.(clock := now);
  }

  /** A delivery keeps both directions. */
  lemma {:induction false} ReceiveKeeps(p: Endpoint, q: Endpoint, k: nat, i: nat, now: nat, z: Zlib)
    requires Lawful(z) && DirInv(p, q, z) && DirInv(q, p, z)
    requires k < |p.out.emissions| && i < |p.out.emissions[k].fragments| && q.out.clock <= now
    ensures q.out.sender.Live()
    ensures var q' := Receive(q, ToBytes(p.out.emissions[k].fragments[i]), now, z);
            DirInv(p, q', z) && DirInv(q', p, z)
  {
    OutLive(q.out, z);
    hide OutInv, Handle, AddFragment, Parse, ToBytes, Mirrors, Has, AcksOk, AsmOk, RecvInv;
    var e := p.out.emissions[k];
    DatagramIsFragment(p.out, z, k, i);
    ClockMoves(q, p, now, z);
    AddHonest(q.asm, p.out, k, i, z);
    var q1 := q.(out := q.out.(clock := now), asm := AddFragment(q.asm, e.fragments[i], z).0);
    assert DirInv(p, q1, z) && DirInv(q1, p, z);
    HandledByReceiver(p, q1, k, now, z);
    HandledBySender(p, q1, k, now, z);
  }

  /** Whatever one endpoint does, both directions are kept. */
  lemma {:induction false} ActKeeps(p: Endpoint, q: Endpoint, action: Action, z: Zlib)
    requires Lawful(z) && DirInv(p, q, z) && DirInv(q, p, z)
    ensures q.out.sender.Live()
    ensures DirInv(p, Act(q, p, action, z), z) && DirInv(Act(q, p, action, z), p, z)
  {
    hide OutInv, Apply, Receive, Mirrors, Has, AcksOk, AsmOk, RecvInv;
    OutLive(q.out, z);
    match action
    case Local(op) =>
      if OwnOp(op) {
        SenderSteps(q, p, op, z);
        ReceiverIdles(p, q, op, z);
      }
    case Deliver(k, i, now) =>
      if k < |p.out.emissions| && i < |p.out.emissions[k].fragments| && q.out.clock <= now {
        ReceiveKeeps(p, q, k, i, now, z);
      }
  }
}
