/** The receiving half: a sorted queue with duplicate, reference, throwaway and quench rules. */
module Receiver {
  import opened Basics
  import opened Wire
  import opened Queues

  const RECEIVED_QUEUE_CAP: nat := 1024
  const QUENCH_WINDOW: nat := 15_000

  datatype Receiver<+S> = Receiver(received: seq<Timestamped<S>>, quenchUntil: nat)

  datatype Outcome<+S> =
    | Latest(num: u64, hadDiff: bool, state: S)
    | OutOfOrder(num: u64, hadDiff: bool)
    | Duplicate
    | NoReference
    | Quenched

  datatype SspError = WrongVersion(version: u32) | BadDiff(error: WireError)

  function NewReceiver<S>(initial: S, now: nat): Receiver<S> {
    Receiver([Timestamped(now, 0, initial)], 0)
  }

  /** Everything `process_instruction` decides before it touches a state. */
  datatype Admission<+S> =
    | Fatal(version: u32)
    | Refused(outcome: Outcome<S>)
    | Admitted(reference: Timestamped<S>)

  /** The first entry numbered `num`. */
  function Find<S>(q: seq<Timestamped<S>>, num: u64): (e: Timestamped<S>)
    requires Has(q, num)
    ensures e in q && e.num == num
  {
    if q[0].num == num then q[0]
    else
      assert Has(q[1..], num) by {
        var i :| 0 <= i < |q| && q[i].num == num;
        assert q[1..][i - 1].num == num;
      }
      Find(q[1..], num)
  }

  function Admit<S>(r: Receiver<S>, m: TransportInstruction, now: nat): (Receiver<S>, Admission<S>) {
    if m.protocolVersion != PROTOCOL_VERSION then (r, Fatal(m.protocolVersion))
    else if Has(r.received, m.newNum) then (r, Refused(Duplicate))
    else if !Has(r.received, m.oldNum) then (r, Refused(NoReference))
    else
      var kept := Retain(r.received, m.throwawayNum);
      if kept == [] then (r, Refused(NoReference))
      else
        var culled := r.(received := kept);
        if !Has(kept, m.oldNum) then (culled, Refused(NoReference))
        else if |kept| > RECEIVED_QUEUE_CAP && now < r.quenchUntil then (culled, Refused(Quenched))
        else
          (if |kept| > RECEIVED_QUEUE_CAP then culled.(quenchUntil := now + QUENCH_WINDOW) else culled,
           Admitted(Find(kept, m.oldNum)))
  }

  /** How many entries are numbered no higher than `num`, in a sorted queue. */
  function Position<S>(q: seq<Timestamped<S>>, num: u64): (k: nat)
    ensures k <= |q|
    ensures forall i | 0 <= i < k :: q[i].num <= num
    ensures k < |q| ==> q[k].num > num
  {
    if q == [] || q[0].num > num then 0 else 1 + Position(q[1..], num)
  }

  function Inserted<S>(q: seq<Timestamped<S>>, e: Timestamped<S>): seq<Timestamped<S>> {
    q[..Position(q, e.num)] + [e] + q[Position(q, e.num)..]
  }

  function Commit<S>(r: Receiver<S>, e: Timestamped<S>, hadDiff: bool): (Receiver<S>, Outcome<S>)
    requires |r.received| > 0
  {
    if Last(r.received).num < e.num then
      (r.(received := r.received + [e]), Latest(e.num, hadDiff, e.state))
    else (r.(received := Inserted(r.received, e)), OutOfOrder(e.num, hadDiff))
  }

  /** One instruction, for a state type that `apply` turns a diff over. */
  function Process<S>(r: Receiver<S>, m: TransportInstruction, now: nat,
                      apply: (S, seq<byte>) -> Result<S, WireError>)
    : (Receiver<S>, Result<Outcome<S>, SspError>)
  {
    match Admit(r, m, now)
    case (r', Fatal(v)) => (r', Failure(WrongVersion(v)))
    case (r', Refused(o)) => (r', Success(o))
    case (r', Admitted(reference)) =>
      if m.diff == [] then
        var (r'', o) := Commit(r', Timestamped(now, m.newNum, reference.state), false);
        (r'', Success(o))
      else
        match apply(reference.state, m.diff)
        case Failure(e) => (r', Failure(BadDiff(e)))
        case Success(s) =>
          var (r'', o) := Commit(r', Timestamped(now, m.newNum, s), true);
          (r'', Success(o))
  }
}
