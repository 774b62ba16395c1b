/**
 Two endpoints and the channel between them. The channel is everything the peer has ever
 emitted: a delivery picks any fragment of any emission, so loss, duplication and reordering
 are all covered.
 */
module Protocol {
  import opened Basics
  import opened Wire
  import opened Streams
  import opened Fragments
  import opened Sender
  import opened Outbound
  import opened Receiver

  datatype Endpoint = Endpoint(out: Out, receiver: Receiver<Stream>, asm: Assembly)

  datatype System = System(a: Endpoint, b: Endpoint)

  /** What an endpoint does: type, shut down, look at its timers, tick; or take a datagram in. */
  datatype Action =
    | Local(op: Op)
    | Deliver(emission: nat, index: nat, now: nat)

  datatype Step = Step(atA: bool, action: Action)

  function InitEndpoint(now: nat, mindelay: nat): Endpoint {
    Endpoint(InitOut(now, mindelay), NewReceiver([], now), EMPTY_ASSEMBLY)
  }

  predicate OwnOp(op: Op) {
    op.Type? || op.BeginShutdown? || op.Wait? || op.DoTick?
  }

  /** What the receiver's outcome does to our own sender. */
  function ApplyOutcome(s: Sender, o: Result<Outcome<Stream>, SspError>, now: nat): Sender {
    match o
    case Success(Latest(num, hadDiff, _)) =>
      s.(ackNum := num, lastHeard := now, pendingDataAck := hadDiff || s.pendingDataAck)
    case _ => s
  }

  /** A reassembled instruction: the version gate, the peer's ack, the receiver, our own ack. */
  function Handle(p: Endpoint, m: TransportInstruction, now: nat): Endpoint
    requires p.out.sender.Live()
  {
    if m.protocolVersion != PROTOCOL_VERSION then p
    else
      var s := ProcessAck(p.out.sender, m.ackNum);
      var (r, o) := Process(p.receiver, m, now, ApplyString);
      p.(out := p.out.(sender := ApplyOutcome(s, o, now)), receiver := r)
  }

  /** A datagram as it comes off the wire. */
  function Receive(p: Endpoint, datagram: seq<byte>, now: nat, z: Zlib): Endpoint
    requires p.out.sender.Live()
  {
    var q := p.(out := p.out.(clock := now));
    match Parse(datagram)
    case Failure(_) => q
    case Success(f) =>
      match AddFragment(q.asm, f, z)
      case (asm, None) => q.(asm := asm)
      case (asm, Some(m)) => Handle(q.(asm := asm), m, now)
  }

  function Act(p: Endpoint, peer: Endpoint, action: Action, z: Zlib): Endpoint
    requires p.out.sender.Live()
  {
    match action
    case Local(op) => if OwnOp(op) then p.(out := Apply(p.out, op, z)) else p
    case Deliver(k, i, now) =>
      if k < |peer.out.emissions| && i < |peer.out.emissions[k].fragments| && p.out.clock <= now
      then Receive(p, ToBytes(peer.out.emissions[k].fragments[i]), now, z)
      else p
  }

  function Next(s: System, step: Step, z: Zlib): System
    requires s.a.out.sender.Live() && s.b.out.sender.Live()
  {
    if step.atA then s.(a := Act(s.a, s.b, step.action, z)) else s.(b := Act(s.b, s.a, step.action, z))
  }
}
