/** What the receiver promises over every sequence of arrivals, from any sender at any times. */
module Receiving {
  import opened Basics
  import opened Wire
  import opened Queues
  import opened Receiver
  import opened ReceiverLaws

  datatype Arrival = Arrival(m: TransportInstruction, now: nat)

  type Diff<!S> = (S, seq<byte>) -> Result<S, WireError>

  function Arrive<S>(r: Receiver<S>, a: Arrival, apply: Diff<S>): Receiver<S> {
    Process(r, a.m, a.now, apply).0
  }

  /** The receiver after some arrivals. */
  function After<S>(r: Receiver<S>, arrivals: seq<Arrival>, apply: Diff<S>): Receiver<S>
    decreases |arrivals|
  {
    if arrivals == [] then r else After(Arrive(r, arrivals[0], apply), arrivals[1..], apply)
  }

  /** The numbers accepted on the way, in order. */
  function Accepted<S>(r: Receiver<S>, arrivals: seq<Arrival>, apply: Diff<S>): seq<u64>
    decreases |arrivals|
  {
    if arrivals == [] then []
    else
      var o := AcceptedNum(Process(r, arrivals[0].m, arrivals[0].now, apply).1);
      (if o.Some? then [o.value] else []) + Accepted(Arrive(r, arrivals[0], apply), arrivals[1..], apply)
  }

  // ----- the queue -----

  /** Never empty, strictly sorted, and the newest number never falls, over any run. */
  lemma {:induction false} QueueAlwaysSorted<S(!new)>(r: Receiver<S>, arrivals: seq<Arrival>, apply: Diff<S>)
    requires RecvInv(r)
    ensures RecvInv(After(r, arrivals, apply))
    ensures Newest(r).num <= Newest(After(r, arrivals, apply)).num
    decreases |arrivals|
  {
    if arrivals != [] {
      ProcessKeeps(r, arrivals[0].m, arrivals[0].now, apply);
      QueueAlwaysSorted(Arrive(r, arrivals[0], apply), arrivals[1..], apply);
    }
    hide RecvInv, Process;
  }

  // ----- a number is accepted at most once -----

  /** Every number accepted so far is still held, or lies below everything held. */
  ghost predicate Remembered<S(!new)>(r: Receiver<S>, accepted: set<u64>) {
    RecvInv(r) && forall n <- accepted :: Has(r.received, n) || n < r.received[0].num
  }

  predicate Forward(arrivals: seq<Arrival>) {
    forall a <- arrivals :: a.m.oldNum <= a.m.newNum
  }

  /** The queue's lowest number never falls, if instructions point forward. */
  lemma {:induction false} HeadRises<S(!new)>(r: Receiver<S>, a: Arrival, apply: Diff<S>)
    requires RecvInv(r) && a.m.oldNum <= a.m.newNum
    ensures RecvInv(Arrive(r, a, apply)) && r.received[0].num <= Arrive(r, a, apply).received[0].num
  {
    ProcessKeeps(r, a.m, a.now, apply);
    var r' := Arrive(r, a, apply);
    hide Process;
    var x := r'.received[0];
    assert x in r'.received;
    if x !in r.received {
      var y :| y in r.received && y.num == a.m.oldNum;
      LowestFirst(r, y);
    } else {
      LowestFirst(r, x);
    }
  }

  lemma {:induction false} LowestFirst<S>(r: Receiver<S>, x: Timestamped<S>)
    requires RecvInv(r) && x in r.received
    ensures r.received[0].num <= x.num
  {
  }

  lemma {:induction false} RememberStep<S(!new)>(r: Receiver<S>, a: Arrival, apply: Diff<S>, accepted: set<u64>)
    requires Remembered(r, accepted) && a.m.oldNum <= a.m.newNum
    ensures var o := AcceptedNum(Process(r, a.m, a.now, apply).1);
            && Remembered(Arrive(r, a, apply), accepted + (if o.Some? then {o.value} else {}))
            && (o.Some? ==> o.value !in accepted)
  {
    ProcessKeeps(r, a.m, a.now, apply);
    OutcomeTells(r, a.m, a.now, apply);
    HeadRises(r, a, apply);
    var (r', o) := Process(r, a.m, a.now, apply);
    hide Process, Adds;
    forall n | n in accepted ensures Has(r'.received, n) || n < r'.received[0].num {
      if Has(r.received, n) {
        var i :| 0 <= i < |r.received| && r.received[i].num == n;
        StillHeldOrLow(r, r', a, r.received[i], apply);
      }
    }
    if AcceptedNum(o).Some? {
      NewIsAboveHead(r, a, apply);
    }
  }

  /** An entry survives a step, or everything that survives is above it. */
  lemma {:induction false} StillHeldOrLow<S(!new)>(
    r: Receiver<S>, r': Receiver<S>, a: Arrival, x: Timestamped<S>, apply: Diff<S>)
    requires RecvInv(r) && r' == Arrive(r, a, apply) && x in r.received && a.m.oldNum <= a.m.newNum
    ensures |r'.received| > 0 && (Has(r'.received, x.num) || x.num < r'.received[0].num)
  {
    ProcessKeeps(r, a.m, a.now, apply);
    if x in r'.received {
      var i :| 0 <= i < |r'.received| && r'.received[i] == x;
    } else {
      CulledIsLow(r, a, apply, x);
    }
    hide Process;
  }

  lemma {:induction false} CulledIsLow<S(!new)>(r: Receiver<S>, a: Arrival, apply: Diff<S>, x: Timestamped<S>)
    requires RecvInv(r) && a.m.oldNum <= a.m.newNum
    requires x in r.received && x !in Arrive(r, a, apply).received
    ensures |Arrive(r, a, apply).received| > 0 && x.num < Arrive(r, a, apply).received[0].num
  {
    hide Process, Admit, Strict;
    AdmitKeeps(r, a.m, a.now);
    ProcessKeeps(r, a.m, a.now, apply);
    var (r1, ad) := Admit(r, a.m, a.now);
    var r' := Arrive(r, a, apply);
    assert x.num < a.m.throwawayNum;
    CommitOnly(r, a, apply);
    assert r1.received == Retain(r.received, a.m.throwawayNum) by { assert x !in r1.received; }
    hide Process, Admit, Retain, Adds;
    var y := r'.received[0];
    assert y in r'.received;
    if y !in r1.received {
      assert y.num == a.m.newNum && ad.Admitted?;
      assert ad.reference in r1.received;
    }
  }

  /** Beyond the admission, a step adds at most the instruction's own number. */
  lemma {:induction false} CommitOnly<S(!new)>(r: Receiver<S>, a: Arrival, apply: Diff<S>)
    requires RecvInv(r)
    ensures var (r1, ad) := Admit(r, a.m, a.now);
            && (forall y | y in Arrive(r, a, apply).received :: y in r1.received || (ad.Admitted? && y.num == a.m.newNum))
            && (forall y | y in r1.received :: y in Arrive(r, a, apply).received)
  {
    hide Admit, Commit, RecvInv, Has;
    AdmitKeeps(r, a.m, a.now);
    var (r1, ad) := Admit(r, a.m, a.now);
    if ad.Admitted? {
      var applied := if a.m.diff == [] then Success(ad.reference.state) else apply(ad.reference.state, a.m.diff);
      if applied.Success? {
        CommitKeeps(r1, Timestamped(a.now, a.m.newNum, applied.value), a.m.diff != []);
      }
    }
  }

  /** An accepted number lies at or above the lowest one held before. */
  lemma {:induction false} NewIsAboveHead<S(!new)>(r: Receiver<S>, a: Arrival, apply: Diff<S>)
    requires RecvInv(r) && a.m.oldNum <= a.m.newNum
    requires AcceptedNum(Process(r, a.m, a.now, apply).1).Some?
    ensures a.m.newNum >= r.received[0].num
  {
    AdmitKeeps(r, a.m, a.now);
    RefusalsRefuse(r, a.m, a.now);
    var (r1, ad) := Admit(r, a.m, a.now);
    hide Admit, Commit;
    assert ad.Admitted?;
    assert ad.reference in r.received;
    LowestFirst(r, ad.reference);
  }

  predicate Distinct(s: seq<u64>) {
    forall i, j | 0 <= i < j < |s| :: s[i] != s[j]
  }

  lemma {:induction false} AcceptedFresh<S(!new)>(
    r: Receiver<S>, arrivals: seq<Arrival>, apply: Diff<S>, accepted: set<u64>)
    requires Remembered(r, accepted) && Forward(arrivals)
    ensures Distinct(Accepted(r, arrivals, apply))
    ensures forall n <- Accepted(r, arrivals, apply) :: n !in accepted
    decreases |arrivals|
  {
    if arrivals != [] {
      assert arrivals[0] in arrivals;
      RememberStep(r, arrivals[0], apply, accepted);
      var o := AcceptedNum(Process(r, arrivals[0].m, arrivals[0].now, apply).1);
      var now' := accepted + (if o.Some? then {o.value} else {});
      AcceptedFresh(Arrive(r, arrivals[0], apply), arrivals[1..], apply, now');
      var rest := Accepted(Arrive(r, arrivals[0], apply), arrivals[1..], apply);
      hide Process, Arrive, Remembered;
      assert o.Some? ==> o.value !in rest;
    }
  }

  /**
   If every instruction has old_num <= new_num, each state number is accepted at most once
   over the whole run, throwaway culls included, and the initial number never again.
   */
  lemma {:induction false} EachNumberOnce<S(!new)>(initial: S, now: nat, arrivals: seq<Arrival>, apply: Diff<S>)
    requires Forward(arrivals)
    ensures Distinct(Accepted(NewReceiver(initial, now), arrivals, apply))
    ensures 0 !in Accepted(NewReceiver(initial, now), arrivals, apply)
  {
    var r := NewReceiver(initial, now);
    assert Has(r.received, 0) by { assert r.received[0].num == 0; }
    AcceptedFresh(r, arrivals, apply, {0});
  }

  function Empty(oldNum: u64, newNum: u64, throwaway: u64): TransportInstruction {
    TransportInstruction(PROTOCOL_VERSION, oldNum, newNum, 0, throwaway, [], [])
  }

  /** An empty instruction over a short queue: cull, copy the reference, insert. */
  lemma {:induction false} EmptyAccepted<S(!new)>(
    r: Receiver<S>, oldNum: u64, newNum: u64, throwaway: u64, now: nat, apply: Diff<S>, kept: seq<Timestamped<S>>)
    requires kept == Retain(r.received, throwaway) && 0 < |kept| <= 2
    requires !Has(r.received, newNum) && Has(r.received, oldNum) && Has(kept, oldNum)
    ensures var e := Timestamped(now, newNum, Find(kept, oldNum).state);
            && Arrive(r, Arrival(Empty(oldNum, newNum, throwaway), now), apply).received
               == (if Last(kept).num < newNum then kept + [e] else Inserted(kept, e))
            && AcceptedNum(Process(r, Empty(oldNum, newNum, throwaway), now, apply).1) == Some(newNum)
  {
    hide Has, Retain, Find, Inserted;
  }

  lemma {:induction false} RetainPair<S>(x: Timestamped<S>, y: Timestamped<S>, t: u64)
    ensures Retain([x], t) == if x.num >= t then [x] else []
    ensures Retain([x, y], t) == Retain([x], t) + Retain([y], t)
    ensures Has([x], x.num) && Has([x, y], x.num) && Has([x, y], y.num)
    ensures Find([x], x.num) == x && (x.num != y.num ==> Find([x, y], y.num) == y)
    ensures Find([x, y], x.num) == x
  {
    assert [x][1..] == [] && [x, y][1..] == [y] && [y][1..] == [];
    assert [x][0].num == x.num && [x, y][0].num == x.num && [x, y][1].num == y.num;
  }

  /** From [0, 2]: the backward instruction 2 -> 1 culls 0 and inserts 1 before 2. */
  lemma {:induction false} BackwardInserts<S(!new)>(
    r: Receiver<S>, low: Timestamped<S>, e2: Timestamped<S>, now: nat, apply: Diff<S>)
    requires r.received == [low, e2] && low.num == 0 && e2.num == 2
    ensures var a := Arrival(Empty(2, 1, 2), now);
            && Arrive(r, a, apply).received == [Timestamped(now, 1, e2.state), e2]
            && AcceptedNum(Process(r, a.m, now, apply).1) == Some(1)
  {
    hide Process, Retain, Has, Find, Inserted;
    RetainPair(low, e2, 2);
    RetainPair(e2, e2, 2);
    NotInPair(low, e2, 1);
    EmptyAccepted(r, 2, 1, 2, now, apply, [e2]);
    InsertedFirst(Timestamped(now, 1, e2.state), e2);
  }

  lemma {:induction false} NotInPair<S>(x: Timestamped<S>, y: Timestamped<S>, num: u64)
    requires x.num != num && y.num != num
    ensures !Has([x, y], num)
  {
  }

  lemma {:induction false} InsertedFirst<S>(e: Timestamped<S>, x: Timestamped<S>)
    requires e.num < x.num
    ensures Inserted([x], e) == [e, x]
  {
  }

  /** From [1, 2]: the instruction 2 -> 3 culls 1 and appends 3. */
  lemma {:induction false} CullForgets<S(!new)>(
    r: Receiver<S>, e1: Timestamped<S>, e2: Timestamped<S>, now: nat, apply: Diff<S>)
    requires r.received == [e1, e2] && e1.num == 1 && e2.num == 2
    ensures var a := Arrival(Empty(2, 3, 2), now);
            && Arrive(r, a, apply).received == [e2, Timestamped(now, 3, e2.state)]
            && AcceptedNum(Process(r, a.m, now, apply).1) == Some(3)
  {
    hide Process, Retain, Has, Find, Inserted;
    RetainPair(e1, e2, 2);
    RetainPair(e2, e2, 2);
    NotInPair(e1, e2, 3);
    EmptyAccepted(r, 2, 3, 2, now, apply, [e2]);
  }

  /** From [2, 3]: the instruction 2 -> 1 is accepted although 1 was held before. */
  lemma {:induction false} AcceptsAgain<S(!new)>(
    r: Receiver<S>, e2: Timestamped<S>, e3: Timestamped<S>, now: nat, apply: Diff<S>)
    requires r.received == [e2, e3] && e2.num == 2 && e3.num == 3
    ensures AcceptedNum(Process(r, Empty(2, 1, 2), now, apply).1) == Some(1)
  {
    hide Process, Retain, Has, Find, Inserted;
    RetainPair(e2, e3, 2);
    RetainPair(e3, e3, 2);
    NotInPair(e2, e3, 1);
    EmptyAccepted(r, 2, 1, 2, now, apply, [e2, e3]);
  }

  /** Without that condition the promise fails: this run accepts number 1 twice. */
  lemma {:induction false} BackwardInstructionsRepeat<S(!new)>(initial: S, apply: Diff<S>)
    ensures var run := [Arrival(Empty(0, 2, 0), 1), Arrival(Empty(2, 1, 2), 2), Arrival(Empty(2, 3, 2), 3),
                        Arrival(Empty(2, 1, 2), 4)];
            !Forward(run) && Accepted(NewReceiver(initial, 0), run, apply) == [2, 1, 3, 1]
  {
    hide Process, Arrive, Has, Retain, Accepted;
    var a0, a1 := Arrival(Empty(0, 2, 0), 1), Arrival(Empty(2, 1, 2), 2);
    var a2, a3 := Arrival(Empty(2, 3, 2), 3), Arrival(Empty(2, 1, 2), 4);
    assert a1 in [a0, a1, a2, a3] && a1.m.oldNum > a1.m.newNum;
    hide Forward;
    var e0, r0 := Timestamped(0, 0, initial), NewReceiver(initial, 0);
    RetainPair(e0, e0, 0);
    NotIn(e0, 2);
    EmptyAccepted(r0, 0, 2, 0, 1, apply, [e0]);
    var r1 := Arrive(r0, a0, apply);
    BackwardInserts(r1, e0, Timestamped(1, 2, initial), 2, apply);
    var r2 := Arrive(r1, a1, apply);
    CullForgets(r2, Timestamped(2, 1, initial), Timestamped(1, 2, initial), 3, apply);
    var r3 := Arrive(r2, a2, apply);
    AcceptsAgain(r3, Timestamped(1, 2, initial), Timestamped(3, 3, initial), 4, apply);
    AcceptedFour(r0, a0, a1, a2, a3, apply);
  }

  /** Four arrivals, each of which is accepted. */
  lemma {:induction false} AcceptedFour<S(!new)>(
    r0: Receiver<S>, a0: Arrival, a1: Arrival, a2: Arrival, a3: Arrival, apply: Diff<S>)
    requires AcceptedNum(Process(r0, a0.m, a0.now, apply).1).Some?
    requires AcceptedNum(Process(Arrive(r0, a0, apply), a1.m, a1.now, apply).1).Some?
    requires AcceptedNum(Process(Arrive(Arrive(r0, a0, apply), a1, apply), a2.m, a2.now, apply).1).Some?
    requires AcceptedNum(Process(Arrive(Arrive(Arrive(r0, a0, apply), a1, apply), a2, apply), a3.m, a3.now, apply).1).Some?
    ensures var r1 := Arrive(r0, a0, apply);
            var r2 := Arrive(r1, a1, apply);
            var r3 := Arrive(r2, a2, apply);
            Accepted(r0, [a0, a1, a2, a3], apply) == [
              AcceptedNum(Process(r0, a0.m, a0.now, apply).1).value,
              AcceptedNum(Process(r1, a1.m, a1.now, apply).1).value,
              AcceptedNum(Process(r2, a2.m, a2.now, apply).1).value,
              AcceptedNum(Process(r3, a3.m, a3.now, apply).1).value]
  {
    hide Process, Arrive, Accepted, AcceptedNum;
    var r1 := Arrive(r0, a0, apply);
    var r2 := Arrive(r1, a1, apply);
    var r3 := Arrive(r2, a2, apply);
    AcceptedFirst(r3, a3, [], apply);
    AcceptedFirst(r2, a2, [a3], apply);
    AcceptedFirst(r1, a1, [a2, a3], apply);
    AcceptedFirst(r0, a0, [a1, a2, a3], apply);
    AcceptedNothing(Arrive(r3, a3, apply), apply);
    assert [a3] + [] == [a3] && [a2] + [a3] == [a2, a3] && [a1] + [a2, a3] == [a1, a2, a3];
    assert [a0] + [a1, a2, a3] == [a0, a1, a2, a3];
  }

  lemma {:induction false} AcceptedFirst<S(!new)>(r: Receiver<S>, a: Arrival, rest: seq<Arrival>, apply: Diff<S>)
    requires AcceptedNum(Process(r, a.m, a.now, apply).1).Some?
    ensures Accepted(r, [a] + rest, apply)
         == [AcceptedNum(Process(r, a.m, a.now, apply).1).value] + Accepted(Arrive(r, a, apply), rest, apply)
  {
    hide Process, Arrive;
    assert ([a] + rest)[1..] == rest;
  }

  lemma {:induction false} AcceptedNothing<S(!new)>(r: Receiver<S>, apply: Diff<S>)
    ensures Accepted(r, [], apply) == []
  {
  }

  lemma {:induction false} NotIn<S>(x: Timestamped<S>, num: u64)
    requires x.num != num
    ensures !Has([x], num)
  {
  }

  // ----- the quench bound -----

  predicate Bounded<S>(r: Receiver<S>) {
    |r.received| <= RECEIVED_QUEUE_CAP + 1 + r.quenchUntil / QUENCH_WINDOW
  }

  /** The admission of this instruction finds the queue over its cap. */
  predicate OverCap<S>(r: Receiver<S>, a: Arrival) {
    Admit(r, a.m, a.now).1.Admitted? && |Retain(r.received, a.m.throwawayNum)| > RECEIVED_QUEUE_CAP
  }

  lemma {:induction false} AdmitQuench<S>(r: Receiver<S>, a: Arrival)
    ensures var (r1, ad) := Admit(r, a.m, a.now);
            && |r1.received| <= |r.received| && r.quenchUntil <= r1.quenchUntil
            && (OverCap(r, a) ==> a.now >= r.quenchUntil && r1.quenchUntil == a.now + QUENCH_WINDOW)
            && (ad.Admitted? && !OverCap(r, a) ==> |r1.received| <= RECEIVED_QUEUE_CAP && r1.quenchUntil == r.quenchUntil)
            && (!ad.Admitted? ==> r1.quenchUntil == r.quenchUntil)
  {
    hide Has, Find;
  }

  /** What one arrival does to length and timer. */
  lemma {:induction false} ArriveQuench<S(!new)>(r: Receiver<S>, a: Arrival, apply: Diff<S>)
    requires RecvInv(r)
    ensures var r' := Arrive(r, a, apply);
            && r'.quenchUntil == Admit(r, a.m, a.now).0.quenchUntil
            && |r'.received| <= |Admit(r, a.m, a.now).0.received| + (if Admit(r, a.m, a.now).1.Admitted? then 1 else 0)
  {
    hide Admit, Commit, RecvInv, Has;
    AdmitKeeps(r, a.m, a.now);
    var (r1, ad) := Admit(r, a.m, a.now);
    if ad.Admitted? {
      var applied := if a.m.diff == [] then Success(ad.reference.state) else apply(ad.reference.state, a.m.diff);
      if applied.Success? {
        CommitKeeps(r1, Timestamped(a.now, a.m.newNum, applied.value), a.m.diff != []);
      }
    }
  }

  lemma {:induction false} BoundStep<S(!new)>(r: Receiver<S>, a: Arrival, apply: Diff<S>)
    requires RecvInv(r) && Bounded(r)
    ensures Bounded(Arrive(r, a, apply)) && r.quenchUntil <= Arrive(r, a, apply).quenchUntil
    ensures Arrive(r, a, apply).quenchUntil <= r.quenchUntil || Arrive(r, a, apply).quenchUntil == a.now + QUENCH_WINDOW
  {
    AdmitQuench(r, a);
    ArriveQuench(r, a, apply);
    hide Admit, Arrive, Retain;
    if OverCap(r, a) {
      var q, q' := r.quenchUntil, Arrive(r, a, apply).quenchUntil;
      assert q' >= q + QUENCH_WINDOW;
      assert q' / QUENCH_WINDOW >= q / QUENCH_WINDOW + 1;
    }
  }

  /** Whatever arrives and whenever, the queue stays within 1025 + quench_until / 15000. */
  lemma {:induction false} QuenchBound<S(!new)>(r: Receiver<S>, arrivals: seq<Arrival>, apply: Diff<S>)
    requires RecvInv(r) && Bounded(r)
    ensures RecvInv(After(r, arrivals, apply)) && Bounded(After(r, arrivals, apply))
    ensures r.quenchUntil <= After(r, arrivals, apply).quenchUntil
    decreases |arrivals|
  {
    if arrivals != [] {
      ProcessKeeps(r, arrivals[0].m, arrivals[0].now, apply);
      BoundStep(r, arrivals[0], apply);
      QuenchBound(Arrive(r, arrivals[0], apply), arrivals[1..], apply);
    }
    hide RecvInv, Process, Bounded;
  }

  /** Arrival times that never go back, starting at `now`. */
  predicate ClockRises(now: nat, arrivals: seq<Arrival>)
    decreases |arrivals|
  {
    arrivals == [] || (now <= arrivals[0].now && ClockRises(arrivals[0].now, arrivals[1..]))
  }

  /** The last arrival's time, or `now`. */
  function ClockAfter(now: nat, arrivals: seq<Arrival>): nat {
    if arrivals == [] then now else Last(arrivals).now
  }

  lemma {:induction false} TimerFollowsClock<S(!new)>(r: Receiver<S>, now: nat, arrivals: seq<Arrival>, apply: Diff<S>)
    requires RecvInv(r) && Bounded(r) && ClockRises(now, arrivals) && r.quenchUntil <= now + QUENCH_WINDOW
    ensures After(r, arrivals, apply).quenchUntil <= ClockAfter(now, arrivals) + QUENCH_WINDOW
    decreases |arrivals|
  {
    hide Process, Bounded, Strict, Adds;
    if arrivals != [] {
      ProcessKeeps(r, arrivals[0].m, arrivals[0].now, apply);
      BoundStep(r, arrivals[0], apply);
      TimerFollowsClock(Arrive(r, arrivals[0], apply), arrivals[0].now, arrivals[1..], apply);
    }
  }

  /** Under a clock that never goes back, the queue grows by at most one state per window. */
  lemma {:induction false} QuenchBoundByClock<S(!new)>(initial: S, now: nat, arrivals: seq<Arrival>, apply: Diff<S>)
    requires ClockRises(now, arrivals)
    ensures |After(NewReceiver(initial, now), arrivals, apply).received|
         <= RECEIVED_QUEUE_CAP + 2 + ClockAfter(now, arrivals) / QUENCH_WINDOW
  {
    var r := NewReceiver(initial, now);
    QuenchBound(r, arrivals, apply);
    TimerFollowsClock(r, now, arrivals, apply);
    hide After;
    var q, t := After(r, arrivals, apply).quenchUntil, ClockAfter(now, arrivals);
    assert q / QUENCH_WINDOW <= (t + QUENCH_WINDOW) / QUENCH_WINDOW == t / QUENCH_WINDOW + 1;
  }

  /** Two admissions made while over the cap are at least one window apart, whatever lies between. */
  lemma {:induction false} OverCapAdmissionsSpaced<S(!new)>(
    r: Receiver<S>, first: Arrival, between: seq<Arrival>, second: Arrival, apply: Diff<S>)
    requires RecvInv(r) && Bounded(r)
    requires OverCap(r, first) && OverCap(After(r, [first] + between, apply), second)
    ensures second.now >= first.now + QUENCH_WINDOW
  {
    AdmitQuench(r, first);
    ArriveQuench(r, first, apply);
    ProcessKeeps(r, first.m, first.now, apply);
    BoundStep(r, first, apply);
    assert ([first] + between)[1..] == between;
    QuenchBound(Arrive(r, first, apply), between, apply);
    AdmitQuench(After(r, [first] + between, apply), second);
  }
}
