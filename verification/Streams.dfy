/** The user stream: an append-only log, its diffs, and what applying a diff restores. */
module Streams {
  import opened Basics
  import opened Wire
  import opened WireLaws

  datatype UserEvent = Byte(value: byte) | Resize(width: i32, height: i32)

  type Stream = seq<UserEvent>

  /** No stream held in memory reaches this length; its diffs then stay below 2^64 bytes. */
  const STREAM_LIMIT: int := 0x100_0000_0000_0000

  function CommonPrefix(a: Stream, b: Stream): (n: nat)
    ensures n <= |a| && n <= |b|
    ensures a[..n] == b[..n]
    ensures n < |a| && n < |b| ==> a[n] != b[n]
  {
    if a == [] || b == [] || a[0] != b[0] then 0
    else
      var n := CommonPrefix(a[1..], b[1..]);
      assert a[..n + 1] == [a[0]] + a[1..][..n] && b[..n + 1] == [b[0]] + b[1..][..n];
      n + 1
  }

  /** One event behind the instructions so far: a byte joins a keystroke that is last. */
  function Coalesced(us: seq<UserInstruction>, e: UserEvent): seq<UserInstruction> {
    match e
    case Byte(b) =>
      if us != [] && Last(us).Keystroke? then us[|us| - 1 := Keystroke(Last(us).keys + [b])]
      else us + [Keystroke([b])]
    case Resize(w, h) => us + [UserResize(w, h)]
  }

  function Coalesce(es: Stream): seq<UserInstruction> {
    if es == [] then [] else Coalesced(Coalesce(es[..|es| - 1]), Last(es))
  }

  /** The bytes that turn `existing` into `s`. */
  function DiffFrom(s: Stream, existing: Stream): seq<byte> {
    EncodeUserMessage(Coalesce(s[CommonPrefix(s, existing)..]))
  }

  function Subtract(s: Stream, known: Stream): Stream {
    if s == known then [] else s[CommonPrefix(s, known)..]
  }

  function Bytes(keys: seq<byte>): (es: Stream)
    ensures |es| == |keys| && forall i | 0 <= i < |keys| :: es[i] == Byte(keys[i])
  {
    seq(|keys|, i requires 0 <= i < |keys| => Byte(keys[i]))
  }

  function EventsOf(u: UserInstruction): Stream {
    match u
    case Keystroke(keys) => Bytes(keys)
    case UserResize(w, h) => [Resize(w, h)]
  }

  function Expand(us: seq<UserInstruction>): Stream {
    if us == [] then [] else EventsOf(us[0]) + Expand(us[1..])
  }

  function ApplyString(s: Stream, diff: seq<byte>): Result<Stream, WireError> {
    match DecodeUserMessage(diff)
    case Failure(e) => Failure(e)
    case Success(us) => Success(s + Expand(us))
  }

  // ----- laws -----

  lemma {:induction false} ExpandConcat(a: seq<UserInstruction>, b: seq<UserInstruction>)
    ensures Expand(a + b) == Expand(a) + Expand(b)
  {
    if a == [] {
      assert a + b == b;
    } else {
      assert (a + b)[1..] == a[1..] + b;
      ExpandConcat(a[1..], b);
    }
  }

  lemma {:induction false} ExpandNothing()
    ensures Expand([]) == []
  {
  }

  lemma {:induction false} ExpandOne(u: UserInstruction)
    ensures Expand([u]) == EventsOf(u)
  {
    assert [u][1..] == [];
  }

  lemma {:induction false} ExpandSnoc(us: seq<UserInstruction>, u: UserInstruction)
    ensures Expand(us + [u]) == Expand(us) + EventsOf(u)
  {
    ExpandConcat(us, [u]);
    ExpandOne(u);
  }

  lemma {:induction false} ExpandLongerKeystroke(front: seq<UserInstruction>, keys: seq<byte>, b: byte)
    ensures Expand(front + [Keystroke(keys + [b])]) == Expand(front + [Keystroke(keys)]) + [Byte(b)]
  {
    hide Expand;
    ExpandSnoc(front, Keystroke(keys));
    ExpandSnoc(front, Keystroke(keys + [b]));
    assert Bytes(keys + [b]) == Bytes(keys) + [Byte(b)];
  }

  lemma {:induction false} ExpandCoalesced(us: seq<UserInstruction>, e: UserEvent)
    ensures Expand(Coalesced(us, e)) == Expand(us) + [e]
  {
    hide Expand;
    if e.Byte? && us != [] && Last(us).Keystroke? {
      var front, keys := us[..|us| - 1], Last(us).keys;
      assert us == front + [Keystroke(keys)];
      assert Coalesced(us, e) == front + [Keystroke(keys + [e.value])];
      ExpandLongerKeystroke(front, keys, e.value);
    } else {
      var u := if e.Byte? then Keystroke([e.value]) else UserResize(e.width, e.height);
      assert Coalesced(us, e) == us + [u];
      ExpandSnoc(us, u);
      assert EventsOf(u) == [e];
    }
  }

  /** Coalescing keystrokes loses nothing and keeps the order. */
  lemma {:induction false} CoalesceExpands(es: Stream)
    ensures Expand(Coalesce(es)) == es
  {
    if es != [] {
      var front := es[..|es| - 1];
      CoalesceExpands(front);
      ExpandCoalesced(Coalesce(front), Last(es));
      assert es == front + [Last(es)];
    }
  }

  lemma {:induction false} CoalesceFits(es: Stream)
    ensures forall u <- Coalesce(es) :: u.Keystroke? ==> |u.keys| <= |es|
  {
    if es != [] {
      CoalesceFits(es[..|es| - 1]);
    }
  }

  /** No empty keystroke, and never two in a row. */
  predicate Maximal(us: seq<UserInstruction>) {
    && (forall i | 0 <= i < |us| :: us[i].Keystroke? ==> us[i].keys != [])
    && (forall i | 0 <= i < |us| - 1 :: !(us[i].Keystroke? && us[i + 1].Keystroke?))
  }

  /** Every run of consecutive bytes is one keystroke. */
  lemma {:induction false} CoalesceIsMaximal(es: Stream)
    ensures Maximal(Coalesce(es))
  {
    if es != [] { CoalesceIsMaximal(es[..|es| - 1]); }
  }

  lemma {:induction false} CoalesceNonEmpty(es: Stream)
    ensures Coalesce(es) == [] <==> es == []
  {
  }

  lemma {:induction false} PrefixIsCommon(s: Stream, existing: Stream)
    requires existing <= s
    ensures CommonPrefix(s, existing) == |existing|
  {
    var n := CommonPrefix(s, existing);
    assert forall i | 0 <= i < |existing| :: s[i] == existing[i];
  }

  /** Applying a diff to its base restores the stream it was taken from. */
  lemma {:induction false} DiffRestores(s: Stream, existing: Stream)
    requires existing <= s && |s| < STREAM_LIMIT
    ensures ApplyString(existing, DiffFrom(s, existing)) == Success(s)
  {
    PrefixIsCommon(s, existing);
    var suffix := s[|existing|..];
    CoalesceFits(suffix);
    UserMessageRoundTrip(Coalesce(suffix));
    CoalesceExpands(suffix);
    assert existing + suffix == s;
  }

  /** Over a base that is a prefix, the diff is empty exactly when nothing is new. */
  lemma {:induction false} DiffEmptyIff(s: Stream, existing: Stream)
    requires existing <= s
    ensures DiffFrom(s, existing) == [] <==> s == existing
  {
    PrefixIsCommon(s, existing);
    CoalesceNonEmpty(s[|existing|..]);
  }

  // ----- the size of a diff -----

  function Keys(us: seq<UserInstruction>): nat {
    if us == [] then 0 else (if us[0].Keystroke? then |us[0].keys| else 0) + Keys(us[1..])
  }

  lemma {:induction false} KeysConcat(a: seq<UserInstruction>, b: seq<UserInstruction>)
    ensures Keys(a + b) == Keys(a) + Keys(b)
  {
    if a == [] {
      assert a + b == b;
    } else {
      assert (a + b)[1..] == a[1..] + b;
      KeysConcat(a[1..], b);
    }
  }

  lemma {:induction false} CoalesceSize(es: Stream)
    ensures |Coalesce(es)| <= |es| && Keys(Coalesce(es)) <= |es|
  {
    if es != [] {
      var us := Coalesce(es[..|es| - 1]);
      CoalesceSize(es[..|es| - 1]);
      var e := Last(es);
      if e.Byte? && us != [] && Last(us).Keystroke? {
        var front, last := us[..|us| - 1], Last(us);
        var longer := Keystroke(last.keys + [e.value]);
        assert us == front + [last] && Coalesce(es) == front + [longer];
        KeysConcat(front, [last]);
        KeysConcat(front, [longer]);
      } else {
        var u := if e.Byte? then Keystroke([e.value]) else UserResize(e.width, e.height);
        assert Coalesce(es) == us + [u];
        KeysConcat(us, [u]);
      }
    }
  }

  lemma {:induction false} MessageSize(us: seq<UserInstruction>)
    requires forall u <- us :: u.Keystroke? ==> |u.keys| < STREAM_LIMIT
    ensures |EncodeUserMessage(us)| <= 80 * |us| + Keys(us)
  {
    if us != [] {
      MessageSize(us[1..]);
      InstructionSize(us[0]);
      FieldLength(1, EncodeUserInstruction(us[0]));
    }
  }

  lemma {:induction false} InstructionSize(u: UserInstruction)
    requires u.Keystroke? ==> |u.keys| < STREAM_LIMIT
    ensures |EncodeUserInstruction(u)| <= 60 + (if u.Keystroke? then |u.keys| else 0)
  {
    match u
    case Keystroke(keys) =>
      FieldLength(4, keys);
      FieldLength(2, WriteBytesField(4, keys));
    case UserResize(w, h) =>
      ResizeLength(w, h);
      FieldLength(3, WriteVarintField(5, SignExtend(w)) + WriteVarintField(6, SignExtend(h)));
  }

  lemma {:induction false} DiffSize(s: Stream, existing: Stream)
    requires |s| < STREAM_LIMIT
    ensures |DiffFrom(s, existing)| <= 81 * (|s| - CommonPrefix(s, existing))
    ensures |DiffFrom(s, existing)| < U64_LIMIT
  {
    var suffix := s[CommonPrefix(s, existing)..];
    CoalesceFits(suffix);
    CoalesceSize(suffix);
    MessageSize(Coalesce(suffix));
  }

  lemma {:induction false} CommonPrefixShift(base: Stream, a: Stream, b: Stream)
    ensures CommonPrefix(base + a, base + b) == |base| + CommonPrefix(a, b)
  {
    if base == [] {
      assert base + a == a && base + b == b;
    } else {
      assert (base + a)[1..] == base[1..] + a && (base + b)[1..] == base[1..] + b;
      CommonPrefixShift(base[1..], a, b);
    }
  }

  /** A prefix shared by both sides never shows in the diff. */
  lemma {:induction false} DiffShift(base: Stream, s: Stream, existing: Stream)
    ensures DiffFrom(base + s, base + existing) == DiffFrom(s, existing)
  {
    hide EncodeUserMessage, Coalesce, CommonPrefix;
    CommonPrefixShift(base, s, existing);
    var n := CommonPrefix(s, existing);
    assert (base + s)[|base| + n..] == s[n..];
  }

  /** Trimming by a prefix cuts exactly that prefix off. */
  lemma {:induction false} SubtractPrefix(s: Stream, known: Stream)
    requires known <= s
    ensures Subtract(s, known) == s[|known|..]
    ensures known + Subtract(s, known) == s
  {
    PrefixIsCommon(s, known);
  }

  // ----- the stream as the session holds it -----

  class UserStream {
    var events: Stream

    constructor ()
      ensures events == []
    {
      events := [];
    }

    method PushBytes(bytes: seq<byte>)
      modifies this
      ensures events == old(events) + Bytes(bytes)
    {
      for i := 0 to |bytes|
        invariant events == old(events) + Bytes(bytes[..i])
      {
        events := events + [Byte(bytes[i])];
        assert Bytes(bytes[..i + 1]) == Bytes(bytes[..i]) + [Byte(bytes[i])];
      }
      assert bytes[..|bytes|] == bytes;
    }

    method PushResize(width: i32, height: i32)
      modifies this
      ensures events == old(events) + [Resize(width, height)]
    {
      events := events + [Resize(width, height)];
    }

    method EncodeSuffix(from: nat) returns (diff: seq<byte>)
      requires from <= |events|
      ensures diff == EncodeUserMessage(Coalesce(events[from..]))
    {
      hide EncodeUserMessage;
      var suffix := events[from..];
      var instructions := [];
      for i := 0 to |suffix|
        invariant instructions == Coalesce(suffix[..i])
      {
        var e := suffix[i];
        match e {
          case Byte(b) =>
            if instructions != [] && Last(instructions).Keystroke? {
              instructions := instructions[|instructions| - 1 := Keystroke(Last(instructions).keys + [b])];
            } else {
              instructions := instructions + [Keystroke([b])];
            }
          case Resize(w, h) =>
            instructions := instructions + [UserResize(w, h)];
        }
        assert suffix[..i + 1][..i] == suffix[..i];
      }
      assert suffix[..|suffix|] == suffix;
      diff := EncodeUserMessage(instructions);
    }

    method CommonPrefixLen(other: Stream) returns (n: nat)
      ensures n == CommonPrefix(events, other)
    {
      n := 0;
      while n < |events| && n < |other| && events[n] == other[n]
        invariant n <= |events| && n <= |other|
        invariant events[..n] == other[..n]
      {
        n := n + 1;
      }
      CommonPrefixUnique(events, other, n);
    }

    /** `subtract`: the trimming step of the sender. */
    method SubtractKnown(known: Stream)
      modifies this
      ensures events == Subtract(old(events), known)
    {
      if events == known {
        events := [];
        return;
      }
      var prefix := CommonPrefixLen(known);
      events := events[prefix..];
    }

    method Apply(diff: seq<byte>) returns (r: Result<(), WireError>)
      modifies this
      ensures match ApplyString(old(events), diff)
              case Success(s) => r == Success(()) && events == s
              case Failure(e) => r == Failure(e) && events == old(events)
    {
      hide DecodeUserMessage, Expand;
      var message := DecodeUserMessage(diff);
      if message.Failure? { return Failure(message.error); }
      var us := message.value;
      assert Expand(us[..0]) == [] by { ExpandNothing(); }
      for i := 0 to |us|
        invariant events == old(events) + Expand(us[..i])
      {
        match us[i] {
          case Keystroke(keys) => PushBytes(keys);
          case UserResize(w, h) => PushResize(w, h);
        }
        ExpandSnoc(us[..i], us[i]);
        assert us[..i + 1] == us[..i] + [us[i]];
      }
      assert us[..|us|] == us;
      r := Success(());
    }
  }

  lemma {:induction false} CommonPrefixUnique(a: Stream, b: Stream, n: nat)
    requires n <= |a| && n <= |b| && a[..n] == b[..n]
    requires n < |a| && n < |b| ==> a[n] != b[n]
    ensures n == CommonPrefix(a, b)
  {
    var m := CommonPrefix(a, b);
    assert forall i | 0 <= i < n :: a[..n][i] == b[..n][i] && a[i] == b[i];
    assert forall i | 0 <= i < m :: a[..m][i] == b[..m][i] && a[i] == b[i];
  }
}
