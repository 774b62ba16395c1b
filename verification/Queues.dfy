/** The numbered-state queues both halves of the protocol keep. */
module Queues {
  import opened Basics

  datatype Timestamped<+S> = Timestamped(timestamp: nat, num: u64, state: S)

  predicate Has<S>(q: seq<Timestamped<S>>, num: u64) {
    exists i :: 0 <= i < |q| && q[i].num == num
  }

  /** `retain(|s| s.num >= num)`. */
  function Retain<S>(q: seq<Timestamped<S>>, num: u64): (r: seq<Timestamped<S>>)
    ensures |r| <= |q|
    ensures forall i | 0 <= i < |r| :: r[i] in q && r[i].num >= num
    ensures forall i | 0 <= i < |q| && q[i].num >= num :: q[i] in r
  {
    if q == [] then []
    else if q[0].num >= num then [q[0]] + Retain(q[1..], num)
    else Retain(q[1..], num)
  }

  predicate Ascending<S>(q: seq<Timestamped<S>>) {
    forall i, j | 0 <= i < j < |q| :: q[i].num <= q[j].num
  }

  /** How many entries an ascending queue loses to a cull at `num`. */
  function Below<S>(q: seq<Timestamped<S>>, num: u64): (k: nat)
    ensures k <= |q|
    ensures forall i | 0 <= i < k :: q[i].num < num
    ensures k < |q| ==> q[k].num >= num
  {
    if q == [] || q[0].num >= num then 0 else 1 + Below(q[1..], num)
  }

  /** In an ascending queue a cull cuts off a prefix. */
  lemma {:induction false} RetainIsSuffix<S>(q: seq<Timestamped<S>>, num: u64)
    requires Ascending(q)
    ensures Retain(q, num) == q[Below(q, num)..]
  {
    if q != [] {
      if q[0].num >= num {
        RetainAll(q, num);
      } else {
        RetainIsSuffix(q[1..], num);
      }
    }
  }

  lemma {:induction false} RetainAll<S>(q: seq<Timestamped<S>>, num: u64)
    requires forall i | 0 <= i < |q| :: q[i].num >= num
    ensures Retain(q, num) == q
  {
    if q != [] { RetainAll(q[1..], num); }
  }

  lemma {:induction false} RetainSnoc<S>(q: seq<Timestamped<S>>, e: Timestamped<S>, num: u64)
    ensures Retain(q + [e], num) == Retain(q, num) + (if e.num >= num then [e] else [])
  {
    if q == [] {
      assert (q + [e])[1..] == [];
    } else {
      assert (q + [e])[1..] == q[1..] + [e];
      RetainSnoc(q[1..], e, num);
    }
  }

  /** The loop that `retain` runs. */
  method RetainFrom<S>(q: seq<Timestamped<S>>, num: u64) returns (kept: seq<Timestamped<S>>)
    ensures kept == Retain(q, num)
  {
    kept := [];
    for i := 0 to |q|
      invariant kept == Retain(q[..i], num)
    {
      RetainSnoc(q[..i], q[i], num);
      assert q[..i + 1] == q[..i] + [q[i]];
      if q[i].num >= num { kept := kept + [q[i]]; }
    }
    assert q[..|q|] == q;
  }

  /** The loop that `any(|s| s.num == num)` runs. */
  method FindNum<S>(q: seq<Timestamped<S>>, num: u64) returns (k: nat)
    ensures k <= |q| && (k < |q| ==> q[k].num == num)
    ensures forall i | 0 <= i < k :: q[i].num != num
    ensures k < |q| <==> Has(q, num)
  {
    k := 0;
    while k < |q| && q[k].num != num
      invariant k <= |q|
      invariant forall i | 0 <= i < k :: q[i].num != num
    {
      k := k + 1;
    }
  }
}
