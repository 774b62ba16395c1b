/** When an instruction id moves on, and when a retransmission keeps it. */
module InstructionIds {
  import opened Basics
  import opened Fragments
  import opened Sender
  import opened SenderLaws
  import opened Outbound
  import opened Timing

  /** The framer remembers the last emission. */
  predicate Remembers(o: Out) {
    o.emissions != [] ==>
      var e := Last(o.emissions);
      o.framer == Framer(e.id, Some(HeaderOf(e.inst)), e.budget)
  }

  /** Each emission keeps the id of the one before it exactly when header and budget are the same, else takes the next id. */
  predicate Sequenced(es: seq<Emission>) {
    forall k | 0 <= k < |es| - 1 ::
      es[k + 1].id == es[k].id + (if HeaderOf(es[k].inst) == HeaderOf(es[k + 1].inst) && es[k].budget == es[k + 1].budget then 0 else 1)
  }

  lemma {:induction false} TickIds(o: Out, now: nat, rto: nat, interval: nat, mtu: nat, z: Zlib)
    requires o.sender.Live() && Enabled(o, DoTick(now, rto, interval, mtu)) && Frames(o, DoTick(now, rto, interval, mtu), z)
    requires Remembers(o) && Sequenced(o.emissions)
    ensures var p := TickOut(o, now, rto, interval, mtu, z);
            Remembers(p) && Sequenced(p.emissions)
  {
    hide Tick, TickHistory, Slices, PayloadOf, Packet;
    var p := TickOut(o, now, rto, interval, mtu, z);
    if |p.emissions| > |o.emissions| {
      assert forall k | 0 <= k < |o.emissions| :: p.emissions[k] == o.emissions[k];
    }
  }

  lemma {:induction false} ApplyIds(o: Out, op: Op, z: Zlib)
    requires o.sender.Live() && Remembers(o) && Sequenced(o.emissions) && Frames(o, op, z)
    ensures Remembers(Apply(o, op, z)) && Sequenced(Apply(o, op, z).emissions)
  {
    hide TickOut, Frames, ProcessAck, NextSend;
    if op.DoTick? && Enabled(o, op) { TickIds(o, op.now, op.rto, op.interval, op.mtu, z); }
  }

  lemma {:induction false} RunIds(o: Out, ops: seq<Op>, z: Zlib)
    requires OutInv(o, z) && Remembers(o) && Sequenced(o.emissions) && AllFrame(o, ops, z)
    ensures Sequenced(Run(o, ops, z).emissions)
    decreases |ops|
  {
    OutLive(o, z);
    hide OutInv, Apply, Frames, Grows, Remembers, Sequenced;
    if ops != [] {
      ApplyIds(o, ops[0], z);
      ApplyKeeps(o, ops[0], z);
      RunIds(Apply(o, ops[0], z), ops[1..], z);
    }
  }

  /**
   In every run whose instructions could all be framed: an emission has the id of the one before it
   if and only if everything but the diff, and the payload budget, are the same; and else the next.
   So a retransmission completes the packet it repeats.
   */
  lemma {:induction false} IdMovesWithHeader(now: nat, mindelay: nat, ops: seq<Op>, z: Zlib, k: nat)
    requires AllFrame(InitOut(now, mindelay), ops, z)
    requires k + 1 < |RunFromStart(now, mindelay, ops, z).emissions|
    ensures var es := RunFromStart(now, mindelay, ops, z).emissions;
            var a, b := es[k], es[k + 1];
            && (b.id == a.id <==> a.inst.(diff := b.inst.diff) == b.inst && a.budget == b.budget)
            && (b.id == a.id || b.id == a.id + 1)
  {
    InitOutInv(now, mindelay, z);
    RunIds(InitOut(now, mindelay), ops, z);
    hide OutInv, Run;
  }
}
