/**
 One endpoint as an object: sender, fragmenter, receiver and assembly, driven by commands,
 timers and datagrams. The ghost fields hold what the two-party theorems talk about.
 */
module Session {
  import opened Basics
  import opened Wire
  import opened Streams
  import opened Fragments
  import opened Framing
  import opened Sender
  import SenderSpec = Sender
  import opened SenderLaws
  import opened Outbound
  import opened Receiver
  import opened Protocol
  import opened Engine

  class Peer {
    const sender: SspSender
    const fragmenter: Fragmenter
    const receiver: SspReceiver<Stream>
    const assembly: FragmentAssembly
    ghost var history: History
    ghost var clock: nat
    ghost var emissions: seq<Emission>

    ghost function State(): Endpoint
      reads this, sender, fragmenter, receiver, assembly
    {
      Endpoint(Out(sender.State(), history, clock, fragmenter.State(), emissions), receiver.State(), assembly.State())
    }

    /** What the endpoint is made of. */
    ghost function Footprint(): set<object> {
      {this, sender, fragmenter, receiver, assembly}
    }

    constructor (now: nat, mindelay: nat)
      ensures State() == InitEndpoint(now, mindelay) && fresh(Footprint())
    {
      sender := new SspSender([], now, mindelay);
      fragmenter := new Fragmenter();
      receiver := new SspReceiver([], now);
      assembly := new FragmentAssembly();
      history, clock, emissions := EMPTY_HISTORY, now, [];
    }

    /** Typing and resizing: ignored once shutdown has begun. */
    method Input(more: Stream, z: Zlib)
      requires sender.State().Live() && |history.typed| + |more| < STREAM_LIMIT
      modifies this, sender
      ensures State() == Act(old(State()), old(State()), Local(Type(more)), z)
    {
      if !sender.shutdown {
        sender.current := sender.current + more;
        history := history.(typed := history.typed + more);
      }
    }

    method Shutdown(now: nat, z: Zlib)
      requires sender.State().Live() && clock <= now
      modifies this, sender
      ensures State() == Act(old(State()), old(State()), Local(Op.BeginShutdown(now)), z)
    {
      sender.BeginShutdown(now);
      clock := now;
    }

    method WaitTime(now: nat, rto: nat, interval: nat, z: Zlib) returns (wait: nat)
      requires sender.State().Live() && clock <= now
      modifies this, sender
      ensures State() == Act(old(State()), old(State()), Local(Wait(now, rto, interval)), z)
      ensures wait == SenderSpec.WaitTime(old(sender.State()), now, rto, interval).1
    {
      wait := sender.WaitTime(now, rto, interval);
      clock := now;
    }

    /** A tick; what it hands out is what the emission record says. */
    method Tick(now: nat, rto: nat, interval: nat, mtu: nat, z: Zlib) returns (out: seq<Fragment>)
      requires sender.State().Live() && Enabled(State().out, DoTick(now, rto, interval, mtu))
      modifies this, sender, fragmenter
      ensures State() == Act(old(State()), old(State()), Local(DoTick(now, rto, interval, mtu)), z)
      ensures if emissions == old(emissions) then out == []
              else exists e :: emissions == old(emissions) + [e] && e.fragments == out
    {
      hide SenderSpec.Tick, TickHistory, MakeFragments;
      ghost var t := SenderSpec.Tick(sender.State(), now, rto, interval);
      ghost var f := fragmenter.State();
      history := TickHistory(sender.State(), history, t);
      out := sender.Tick(now, rto, interval, mtu, fragmenter, z);
      clock := now;
      if t.inst.Some? && MakeFragments(f, t.inst.value, mtu, z).1.Success? {
        emissions := emissions + [Emission(now, t.inst.value, Budget(mtu), fragmenter.nextId, out)];
      }
    }

    /** One datagram's payload: parse, reassemble, gate on the version, ack, receive, ack back. */
    method HandleDatagram(datagram: seq<byte>, now: nat, z: Zlib)
      requires sender.State().Live()
      modifies this, sender, receiver, assembly
      ensures State() == Receive(old(State()), datagram, now, z)
    {
      hide Parse, AddFragment, ProcessAck, Process, ApplyString;
      clock := now;
      var fragment := Parse(datagram);
      if fragment.Failure? { return; }
      var inst := assembly.Add(fragment.value, z);
      if inst.None? { return; }
      var m := inst.value;
      if m.protocolVersion != PROTOCOL_VERSION { return; }
      sender.ProcessAcknowledgmentThrough(m.ackNum);
      var outcome := receiver.ProcessInstruction(m, now, ApplyString);
      if outcome.Success? && outcome.value.Latest? {
        sender.ackNum := outcome.value.num;
        sender.lastHeard := now;
        if outcome.value.hadDiff { sender.pendingDataAck := true; }
      }
    }
  }
}
