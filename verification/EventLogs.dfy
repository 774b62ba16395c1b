/** The persistent log of host events: a tree of nodes compared by identity. */
module EventLogs {
  import opened Basics

  datatype HostEvent = BytesEvent(bytes: seq<byte>) | ResizeEvent(width: i32, height: i32)

  /** A node never changes once built. `depth` counts the nodes from the root down to it. */
  class LogNode {
    const parent: LogNode?
    const event: HostEvent
    ghost const depth: nat

    constructor (parent: LogNode?, event: HostEvent)
      ensures this.parent == parent && this.event == event
      ensures depth == 1 + Depth(parent)
    {
      this.parent, this.event := parent, event;
      depth := 1 + Depth(parent);
    }
  }

  ghost function Depth(n: LogNode?): nat {
    if n == null then 0 else n.depth
  }

  /** Depths count down to the root, so the parent chain is finite. */
  ghost predicate Rooted(n: LogNode?)
    decreases Depth(n)
  {
    n == null || (n.depth == 1 + Depth(n.parent) && Rooted(n.parent))
  }

  /** The events from the root to `n`, in order. */
  ghost function Trail(n: LogNode?): (es: seq<HostEvent>)
    requires Rooted(n)
    ensures |es| == Depth(n)
    decreases Depth(n)
  {
    if n == null then [] else Trail(n.parent) + [n.event]
  }

  /** `base` is `n` or lies on its parent chain; the empty log lies on every chain. */
  ghost predicate Ancestor(base: LogNode?, n: LogNode?)
    requires Rooted(n)
    decreases Depth(n)
  {
    base == n || (n != null && Ancestor(base, n.parent))
  }

  /** The node `k` steps up the chain. */
  ghost function Up(n: LogNode?, k: nat): (a: LogNode?)
    requires Rooted(n) && k <= Depth(n)
    ensures Rooted(a) && Depth(a) == Depth(n) - k
    decreases k
  {
    if k == 0 then n else Up(n.parent, k - 1)
  }

  lemma {:induction false} UpStep(n: LogNode?, k: nat)
    requires Rooted(n) && k < Depth(n)
    ensures Up(n, k) != null && Up(n, k).parent == Up(n, k + 1)
    decreases k
  {
    if k > 0 { UpStep(n.parent, k - 1); }
  }

  /** An ancestor is found at exactly one height: the difference of the depths. */
  lemma {:induction false} AncestorIsUp(base: LogNode?, n: LogNode?)
    requires Rooted(n) && Rooted(base)
    ensures Ancestor(base, n) <==> Depth(base) <= Depth(n) && Up(n, Depth(n) - Depth(base)) == base
    decreases Depth(n)
  {
    if n != null { AncestorIsUp(base, n.parent); }
  }

  lemma {:induction false} TrailPrefix(n: LogNode?, k: nat)
    requires Rooted(n) && k <= Depth(n)
    ensures Trail(Up(n, k)) == Trail(n)[..Depth(n) - k]
    decreases k
  {
    if k > 0 {
      TrailPrefix(n.parent, k - 1);
      assert Trail(n)[..Depth(n) - k] == Trail(n.parent)[..Depth(n) - k];
    }
  }

  lemma {:induction false} AncestorTransitive(a: LogNode?, b: LogNode?, c: LogNode?)
    requires Rooted(b) && Rooted(c) && Ancestor(a, b) && Ancestor(b, c)
    ensures Ancestor(a, c)
    decreases Depth(c)
  {
    if b != c { AncestorTransitive(a, b, c.parent); }
  }

  /** The nodes `k` steps down the walk read, newest first, what the trail holds there. */
  lemma {:induction false} TrailAt(n: LogNode?, k: nat)
    requires Rooted(n) && k < Depth(n)
    ensures Up(n, k) != null && Up(n, k).event == Trail(n)[Depth(n) - 1 - k]
    decreases k
  {
    if k > 0 { TrailAt(n.parent, k - 1); }
  }

  function Reverse<T>(s: seq<T>): (r: seq<T>)
    ensures |r| == |s| && forall i | 0 <= i < |s| :: r[i] == s[|s| - 1 - i]
  {
    seq(|s|, i requires 0 <= i < |s| => s[|s| - 1 - i])
  }

  /** A log is a node and a length; clones share the nodes. */
  datatype EventLog = EventLog(node: LogNode?, len: nat) {
    ghost predicate Valid() {
      Rooted(node) && len == Depth(node)
    }

    ghost function Events(): seq<HostEvent>
      requires Valid()
    {
      Trail(node)
    }

    /** One event longer; the old log is the parent of the result. */
    method Push(event: HostEvent) returns (r: EventLog)
      requires Valid()
      ensures r.Valid() && r.Events() == Events() + [event]
      ensures Ancestor(node, r.node)
    {
      var n := new LogNode(node, event);
      r := EventLog(n, len + 1);
    }

    method Iter() returns (out: seq<HostEvent>)
      requires Valid()
      ensures out == Events()
    {
      out := [];
      var cursor := node;
      ghost var k := 0;
      while cursor != null
        invariant k <= len && cursor == Up(node, k) && Rooted(cursor) && Depth(cursor) == len - k
        invariant |out| == k && forall i | 0 <= i < k :: out[i] == Trail(node)[len - 1 - i]
        decreases len - k
      {
        TrailAt(node, k);
        UpStep(node, k);
        out := out + [cursor.event];
        cursor := cursor.parent;
        k := k + 1;
      }
      out := Reverse(out);
    }

    /** The events beyond `base`, exactly when `base` is an ancestor by identity. */
    method SuffixOver(base: EventLog) returns (r: Option<seq<HostEvent>>)
      requires Valid() && base.Valid()
      ensures r.Some? <==> Ancestor(base.node, node)
      ensures r.Some? ==> Events() == base.Events() + r.value
    {
      AncestorIsUp(base.node, node);
      if base.len > len { return None; }
      var cursor, back := node, len;
      while back > base.len
        invariant base.len <= back <= len && cursor == Up(node, len - back)
      {
        UpStep(node, len - back);
        cursor := cursor.parent;
        back := back - 1;
      }
      if cursor != base.node { return None; }
      var suffix := [];
      cursor, back := node, len;
      while back > base.len
        invariant base.len <= back <= len && cursor == Up(node, len - back)
        invariant |suffix| == len - back && forall i | 0 <= i < |suffix| :: suffix[i] == Trail(node)[len - 1 - i]
      {
        TrailAt(node, len - back);
        UpStep(node, len - back);
        suffix := suffix + [cursor.event];
        cursor := cursor.parent;
        back := back - 1;
      }
      suffix := Reverse(suffix);
      TrailPrefix(node, len - base.len);
      assert suffix == Trail(node)[base.len..];
      r := Some(suffix);
    }
  }
}
