/**
 The codec as it runs: writers that append to a buffer, readers that advance a
 position in loops. Each method is proved equal to its function in `Wire`.
 */
module WireCodec {
  import opened Basics
  import opened Wire
  import opened WireLaws

  function ResultOf<T>(r: Read<T>): Result<T, WireError> {
    match r
    case Ok(v, _) => Success(v)
    case Err(e, _) => Failure(e)
  }

  // ----- writers -----

  method AppendVarint(out: seq<byte>, v: u64) returns (out': seq<byte>)
    ensures out' == out + WriteVarint(v)
  {
    out' := out;
    var value: nat := v;
    while value >= 128
      invariant out' + WriteVarint(value) == out + WriteVarint(v)
    {
      out' := out' + [value % 128 + 128];
      value := value / 128;
    }
    out' := out' + [value];
  }

  method AppendVarintField(out: seq<byte>, field: nat, v: u64) returns (out': seq<byte>)
    requires field < 16
    ensures out' == out + WriteVarintField(field, v)
  {
    out' := AppendVarint(out, 8 * field);
    out' := AppendVarint(out', v);
  }

  method AppendBytesField(out: seq<byte>, field: nat, bytes: seq<byte>) returns (out': seq<byte>)
    requires field < 16 && |bytes| < U64_LIMIT
    ensures out' == out + WriteBytesField(field, bytes)
  {
    out' := AppendVarint(out, 8 * field + 2);
    out' := AppendVarint(out', |bytes|);
    out' := out' + bytes;
  }

  method EncodeUser(us: seq<UserInstruction>) returns (out: seq<byte>)
    requires forall u <- us :: UserFits(u)
    ensures out == EncodeUserMessage(us)
  {
    hide WriteBytesField, EncodeUserInstruction;
    out := [];
    for i := 0 to |us|
      invariant out == EncodeUserMessage(us[..i])
    {
      var inner := EncodeUserInner(us[i]);
      out := AppendBytesField(out, 1, inner);
      UserMessageGrows(us[..i], us[i]);
      assert us[..i] + [us[i]] == us[..i + 1];
    }
    assert us[..|us|] == us;
  }

  lemma {:induction false} UserMessageGrows(us: seq<UserInstruction>, u: UserInstruction)
    ensures EncodeUserMessage(us + [u]) == EncodeUserMessage(us) + WriteBytesField(1, EncodeUserInstruction(u))
  {
    var field := WriteBytesField(1, EncodeUserInstruction(u));
    if us == [] {
      assert (us + [u])[1..] == [];
      assert field + [] == field == [] + field;
    } else {
      var first := WriteBytesField(1, EncodeUserInstruction(us[0]));
      assert (us + [u])[1..] == us[1..] + [u];
      UserMessageGrows(us[1..], u);
      assert first + (EncodeUserMessage(us[1..]) + field) == first + EncodeUserMessage(us[1..]) + field;
    }
  }

  method EncodeUserInner(u: UserInstruction) returns (inner: seq<byte>)
    requires UserFits(u)
    ensures inner == EncodeUserInstruction(u)
    ensures |inner| < U64_LIMIT
  {
    hide WriteBytesField, WriteVarintField, WriteVarint, SignExtend;
    match u
    case Keystroke(keys) =>
      var block := AppendBytesField([], 4, keys);
      assert block == WriteBytesField(4, keys);
      FieldLength(4, keys);
      FieldLength(2, block);
      inner := AppendBytesField([], 2, block);
      assert inner == WriteBytesField(2, block);
    case UserResize(w, h) =>
      var block := AppendVarintField([], 5, SignExtend(w));
      block := AppendVarintField(block, 6, SignExtend(h));
      assert block == WriteVarintField(5, SignExtend(w)) + WriteVarintField(6, SignExtend(h));
      ResizeLength(w, h);
      FieldLength(3, block);
      inner := AppendBytesField([], 3, block);
      assert inner == WriteBytesField(3, block);
  }

  /** All seven fields go out, defaults included. */
  method EncodeInstructionBuffer(m: TransportInstruction) returns (out: seq<byte>)
    requires |m.diff| < U64_LIMIT && |m.chaff| < U64_LIMIT
    ensures out == EncodeInstruction(m)
  {
    hide WriteVarintField, WriteBytesField;
    out := AppendVarintField([], 1, m.protocolVersion);
    out := AppendVarintField(out, 2, m.oldNum);
    out := AppendVarintField(out, 3, m.newNum);
    out := AppendVarintField(out, 4, m.ackNum);
    out := AppendVarintField(out, 5, m.throwawayNum);
    out := AppendBytesField(out, 6, m.diff);
    out := AppendBytesField(out, 7, m.chaff);
    SevenFields(m);
  }

  lemma {:induction false} SevenFields(m: TransportInstruction)
    ensures EncodeInstruction(m)
         == WriteVarintField(1, m.protocolVersion) + WriteVarintField(2, m.oldNum) + WriteVarintField(3, m.newNum)
          + WriteVarintField(4, m.ackNum) + WriteVarintField(5, m.throwawayNum)
          + WriteBytesField(6, m.diff) + WriteBytesField(7, m.chaff)
  {
    hide WriteVarintField, WriteBytesField;
    var fs := FieldsOf(m);
    assert WriteFields(fs[7..]) == [];
    assert WriteFields(fs[6..]) == WriteField(fs[6]) by { assert fs[6..][1..] == fs[7..]; }
    assert WriteFields(fs[5..]) == WriteField(fs[5]) + WriteFields(fs[6..]) by { assert fs[5..][1..] == fs[6..]; }
    assert WriteFields(fs[4..]) == WriteField(fs[4]) + WriteFields(fs[5..]) by { assert fs[4..][1..] == fs[5..]; }
    assert WriteFields(fs[3..]) == WriteField(fs[3]) + WriteFields(fs[4..]) by { assert fs[3..][1..] == fs[4..]; }
    assert WriteFields(fs[2..]) == WriteField(fs[2]) + WriteFields(fs[3..]) by { assert fs[2..][1..] == fs[3..]; }
    assert WriteFields(fs[1..]) == WriteField(fs[1]) + WriteFields(fs[2..]) by { assert fs[1..][1..] == fs[2..]; }
    assert fs[0..] == fs;
  }

  method EncodeHost(hs: seq<HostInstruction>) returns (out: seq<byte>)
    requires forall h <- hs :: HostFits(h)
    ensures out == EncodeHostMessage(hs)
  {
    hide WriteBytesField, EncodeHostInstruction;
    out := [];
    for i := 0 to |hs|
      invariant out == EncodeHostMessage(hs[..i])
    {
      var inner := EncodeHostInner(hs[i]);
      out := AppendBytesField(out, 1, inner);
      HostMessageGrows(hs[..i], hs[i]);
      assert hs[..i] + [hs[i]] == hs[..i + 1];
    }
    assert hs[..|hs|] == hs;
  }

  lemma {:induction false} HostMessageGrows(hs: seq<HostInstruction>, h: HostInstruction)
    ensures EncodeHostMessage(hs + [h]) == EncodeHostMessage(hs) + WriteBytesField(1, EncodeHostInstruction(h))
  {
    hide WriteBytesField, EncodeHostInstruction;
    var field := WriteBytesField(1, EncodeHostInstruction(h));
    if hs == [] {
      assert (hs + [h])[1..] == [];
      assert field + [] == field == [] + field;
    } else {
      var first := WriteBytesField(1, EncodeHostInstruction(hs[0]));
      assert (hs + [h])[1..] == hs[1..] + [h];
      HostMessageGrows(hs[1..], h);
      assert first + (EncodeHostMessage(hs[1..]) + field) == first + EncodeHostMessage(hs[1..]) + field;
    }
  }

  method EncodeHostInner(h: HostInstruction) returns (inner: seq<byte>)
    requires HostFits(h)
    ensures inner == EncodeHostInstruction(h)
    ensures |inner| < U64_LIMIT
  {
    hide WriteBytesField, WriteVarintField, WriteVarint, SignExtend;
    match h
    case HostBytes(bytes) =>
      var block := AppendBytesField([], 4, bytes);
      assert block == WriteBytesField(4, bytes);
      FieldLength(4, bytes);
      FieldLength(2, block);
      inner := AppendBytesField([], 2, block);
      assert inner == WriteBytesField(2, block);
    case HostResize(w, h) =>
      var block := AppendVarintField([], 5, SignExtend(w));
      block := AppendVarintField(block, 6, SignExtend(h));
      assert block == WriteVarintField(5, SignExtend(w)) + WriteVarintField(6, SignExtend(h));
      ResizeLength(w, h);
      FieldLength(3, block);
      inner := AppendBytesField([], 3, block);
      assert inner == WriteBytesField(3, block);
    case EchoAck(num) =>
      var block := AppendVarintField([], 8, num);
      assert block == WriteVarintField(8, num);
      NumberFieldLength(8, num);
      FieldLength(7, block);
      inner := AppendBytesField([], 7, block);
      assert inner == WriteBytesField(7, block);
  }

  // ----- readers -----

  function Pow128(i: nat): (w: nat)
    ensures w >= 1
  {
    if i == 0 then 1 else 128 * Pow128(i - 1)
  }

  /** `(low as u64) << (7 * i)`: the bits shifted past the top are lost. */
  function Shifted(low: nat, i: nat): u64 {
    (low * Pow128(i)) % U64_LIMIT
  }

  lemma {:induction false} MoveFactor(a: int, b: int)
    ensures (128 * a) * b == a * (128 * b)
  {
  }

  lemma {:induction false} PowTimesLimit(i: nat)
    requires i <= 9
    ensures Pow128(i) * Limit(i) == U64_LIMIT
  {
    LimitIs64Bits();
    if i > 0 {
      PowTimesLimit(i - 1);
      assert Limit(i - 1) == 128 * Limit(i);
      MoveFactor(Pow128(i - 1), Limit(i));
    }
  }

  lemma {:induction false} TopBit(low: nat)
    ensures (low * 0x8000_0000_0000_0000) % 0x1_0000_0000_0000_0000 == (low % 2) * 0x8000_0000_0000_0000
  {
    var q := low / 2;
    assert low * 0x8000_0000_0000_0000 == q * 0x1_0000_0000_0000_0000 + (low % 2) * 0x8000_0000_0000_0000;
  }

  lemma {:induction false} BelowTop(low: int, w: int, limit: int)
    requires 0 <= low < 128 <= limit && w >= 1 && w * limit == U64_LIMIT
    ensures 0 <= low * w < U64_LIMIT
  {
    assert low * w < 128 * w <= limit * w;
  }

  /** Seven bits fit below the top, except in the tenth byte, where one does. */
  lemma {:induction false} ShiftedIs(low: nat, i: nat)
    requires low < 128 && i <= 9
    ensures Shifted(low, i) == (if i == 9 then low % 2 else low) * Pow128(i)
  {
    PowTimesLimit(i);
    LimitAtLeast(i);
    if i == 9 {
      TopBit(low);
      assert Pow128(9) == 0x8000_0000_0000_0000;
    } else {
      BelowTop(low, Pow128(i), Limit(i));
    }
  }

  /** A varint's value, given its first `i` bytes' value and what the rest reads as. */
  function Resume(value: nat, i: nat, rest: Read<nat>): Read<nat> {
    match rest
    case Ok(v, n) => Ok(value + Pow128(i) * v, i + n)
    case Err(e, n) => Err(e, i + n)
  }

  lemma {:induction false} Distribute(value: int, w: int, low: int, v: int)
    ensures value + w * (low + 128 * v) == (value + low * w) + (128 * w) * v
  {
  }

  lemma {:induction false} PowStep(i: nat)
    ensures Pow128(i + 1) == 128 * Pow128(i)
  {
  }

  lemma {:induction false} VarintUnfold(s: seq<byte>, i: nat, low: nat)
    requires i < 10 && s != [] && s[0] >= 128 && low == (if i == 9 then s[0] % 2 else s[0] % 128)
    ensures VarintFrom(s, i) == (
              match VarintFrom(s[1..], i + 1)
              case Ok(v, n) => Ok(low + 128 * v, n + 1)
              case Err(e, n) => Err(e, n + 1))
  {
    hide Limit;
  }

  lemma {:induction false} ResumeStep(s: seq<byte>, value: nat, i: nat)
    requires i < 10 && s != []
    requires s[0] >= 128
    ensures Resume(value, i, VarintFrom(s, i))
         == Resume(value + Shifted(s[0] % 128, i), i + 1, VarintFrom(s[1..], i + 1))
  {
    hide Shifted, Limit, Pow128;
    ShiftedIs(s[0] % 128, i);
    PowStep(i);
    var low := if i == 9 then s[0] % 2 else s[0] % 128;
    assert (s[0] % 128) % 2 == s[0] % 2;
    VarintUnfold(s, i, low);
    hide VarintFrom;
    var rest := VarintFrom(s[1..], i + 1);
    if rest.Ok? { Distribute(value, Pow128(i), low, rest.value); }
  }

  lemma {:induction false} ResumeLast(s: seq<byte>, value: nat, i: nat)
    requires i < 10 && s != []
    requires s[0] < 128
    ensures Resume(value, i, VarintFrom(s, i)) == Ok(value + Shifted(s[0] % 128, i), i + 1)
  {
    ShiftedIs(s[0] % 128, i);
    assert (s[0] % 128) % 2 == s[0] % 2;
    var low := if i == 9 then s[0] % 2 else s[0] % 128;
    assert Pow128(i) * low == low * Pow128(i);
  }

  lemma {:induction false} ResumeEnds(s: seq<byte>, value: nat, i: nat)
    requires i <= 10
    ensures i == 10 ==> Resume(value, i, VarintFrom(s, i)) == Err(BadVarint, 10)
    ensures i < 10 && s == [] ==> Resume(value, i, VarintFrom(s, i)) == Err(Truncated, i)
    ensures i == 0 && value == 0 ==> Resume(value, i, VarintFrom(s, i)) == VarintFrom(s, i)
  {
  }

  method ReadVarintAt(buf: seq<byte>, pos: nat) returns (r: Result<u64, WireError>, next: nat)
    requires pos <= |buf|
    ensures next == pos + ReadVarint(buf[pos..]).used
    ensures r == ResultOf(ReadVarint(buf[pos..]))
  {
    hide Shifted, Pow128, Resume, VarintFrom, Limit;
    LimitIs64Bits();
    next := pos;
    var value: nat := 0;
    ResumeEnds(buf[pos..], 0, 0);
    for i := 0 to 10
      invariant pos <= next <= |buf| && next == pos + i
      invariant VarintFrom(buf[pos..], 0) == Resume(value, i, VarintFrom(buf[next..], i))
    {
      ResumeEnds(buf[next..], value, i);
      if next == |buf| {
        return Failure(Truncated), next;
      }
      var b := buf[next];
      assert buf[next..][0] == b && buf[next..][1..] == buf[next + 1..];
      next := next + 1;
      if b < 128 {
        ResumeLast(buf[next - 1..], value, i);
        value := value + Shifted(b % 128, i);
        return Success(value), next;
      }
      ResumeStep(buf[next - 1..], value, i);
      value := value + Shifted(b % 128, i);
    }
    ResumeEnds(buf[next..], value, 10);
    r := Failure(BadVarint);
  }

  method ReadTagAt(buf: seq<byte>, pos: nat) returns (r: Result<(nat, nat), WireError>, next: nat)
    requires pos <= |buf|
    ensures next == pos + ReadTag(buf[pos..]).used
    ensures r == ResultOf(ReadTag(buf[pos..]))
  {
    var key;
    key, next := ReadVarintAt(buf, pos);
    match key
    case Success(k) => r := Success(((k / 8) % U32_LIMIT, k % 8));
    case Failure(e) => r := Failure(e);
  }

  method ReadLengthDelimitedAt(buf: seq<byte>, pos: nat) returns (r: Result<seq<byte>, WireError>, next: nat)
    requires pos <= |buf|
    ensures next == pos + ReadLengthDelimited(buf[pos..]).used
    ensures r == ResultOf(ReadLengthDelimited(buf[pos..]))
  {
    hide ReadVarint;
    var len;
    len, next := ReadVarintAt(buf, pos);
    match len
    case Failure(e) => r := Failure(e);
    case Success(n) =>
      var end := next + n;
      if end > |buf| {
        r := Failure(BadLength);
      } else {
        assert buf[next..end] == buf[pos..][next - pos..end - pos];
        r := Success(buf[next..end]);
        next := end;
      }
  }

  method SkipFieldAt(buf: seq<byte>, pos: nat, wireType: nat) returns (r: Result<(), WireError>, next: nat)
    requires pos <= |buf|
    ensures pos <= next <= |buf|
    ensures r == ResultOf(SkipField(buf[pos..], wireType))
    ensures r.Success? ==> next == pos + SkipField(buf[pos..], wireType).used
    decreases |buf| - pos, 1
  {
    next := pos;
    match wireType
    case 0 =>
      var v;
      v, next := ReadVarintAt(buf, pos);
      r := if v.Success? then Success(()) else Failure(v.error);
    case 1 =>
      if |buf| < pos + 8 { r := Failure(Truncated); } else { r, next := Success(()), pos + 8; }
    case 2 =>
      var b;
      b, next := ReadLengthDelimitedAt(buf, pos);
      r := if b.Success? then Success(()) else Failure(b.error);
    case 5 =>
      if |buf| < pos + 4 { r := Failure(Truncated); } else { r, next := Success(()), pos + 4; }
    case 3 =>
      r, next := SkipGroupAt(buf, pos);
    case _ =>
      r := Failure(UnmatchedGroup(wireType));
  }

  /** A reader that started at `pos` behaves, from here on, like one started at `next`. */
  ghost predicate SameGroup(buf: seq<byte>, pos: nat, next: nat)
    requires pos <= next <= |buf|
  {
    var a, b := SkipGroup(buf[pos..]), SkipGroup(buf[next..]);
    && ResultOf(a) == ResultOf(b)
    && (b.Ok? ==> pos + a.used == next + b.used)
  }

  lemma {:induction false} SameGroupStep(buf: seq<byte>, pos: nat, next: nat, n: nat, m: nat)
    requires pos <= next <= |buf| && SameGroup(buf, pos, next)
    requires ReadTag(buf[next..]).Ok? && n == ReadTag(buf[next..]).used
    requires ReadTag(buf[next..]).value.1 != 4
    requires SkipField(buf[next + n..], ReadTag(buf[next..]).value.1).Ok?
    requires SkipField(buf[next + n..], ReadTag(buf[next..]).value.1).used == m
    ensures next + n + m <= |buf|
    ensures SameGroup(buf, pos, next + n + m)
  {
    hide ReadTag, SkipField;
    DropDrop(buf, next, n);
    DropDrop(buf, next, n + m);
  }

  /** The loop over a group's members, up to the end marker. */
  method SkipGroupAt(buf: seq<byte>, pos: nat) returns (r: Result<(), WireError>, next: nat)
    requires pos <= |buf|
    ensures pos <= next <= |buf|
    ensures r == ResultOf(SkipGroup(buf[pos..]))
    ensures r.Success? ==> next == pos + SkipGroup(buf[pos..]).used
    decreases |buf| - pos, 0
  {
    hide ReadTag, SkipField;
    next := pos;
    while true
      invariant pos <= next <= |buf|
      invariant SameGroup(buf, pos, next)
      decreases |buf| - next
    {
      ghost var start := next;
      var tag;
      tag, next := ReadTagAt(buf, next);
      if tag.Failure? { return Failure(tag.error), next; }
      if tag.value.1 == 4 { return Success(()), next; }
      ghost var n := next - start;
      DropDrop(buf, start, n);
      var skipped;
      skipped, next := SkipFieldAt(buf, next, tag.value.1);
      if skipped.Failure? { return Failure(skipped.error), next; }
      SameGroupStep(buf, pos, start, n, next - start - n);
    }
  }

  // ----- decoders -----

  method DecodeInstructionBuffer(buf: seq<byte>) returns (r: Result<TransportInstruction, WireError>)
    ensures r == DecodeInstruction(buf)
  {
    hide InstructionField;
    var out := EMPTY_INSTRUCTION;
    var pos := 0;
    assert buf[0..] == buf;
    while pos < |buf|
      invariant pos <= |buf|
      invariant DecodeInstruction(buf) == DecodeInstructionFrom(buf[pos..], out)
    {
      var out', next := ReadInstructionField(buf, pos, out);
      if out'.Failure? { return Failure(out'.error); }
      DropDrop(buf, pos, next - pos);
      out, pos := out'.value, next;
    }
    r := Success(out);
  }

  method ReadInstructionField(buf: seq<byte>, pos: nat, m: TransportInstruction)
    returns (r: Result<TransportInstruction, WireError>, next: nat)
    requires pos < |buf|
    ensures r == ResultOf(InstructionField(buf[pos..], m))
    ensures r.Success? ==> next == pos + InstructionField(buf[pos..], m).used
  {
    hide ReadTag, ReadVarint, ReadLengthDelimited, SkipField;
    var tag;
    tag, next := ReadTagAt(buf, pos);
    if tag.Failure? { return Failure(tag.error), next; }
    DropDrop(buf, pos, next - pos);
    var (field, wireType) := tag.value;
    if wireType == 0 && 1 <= field <= 5 {
      var v;
      v, next := ReadVarintAt(buf, next);
      r := if v.Success? then Success(SetNumber(m, field, v.value)) else Failure(v.error);
    } else if wireType == 2 && 6 <= field <= 7 {
      var b;
      b, next := ReadLengthDelimitedAt(buf, next);
      r := if b.Failure? then Failure(b.error)
           else Success(if field == 6 then m.(diff := b.value) else m.(chaff := b.value));
    } else {
      var skipped;
      skipped, next := SkipFieldAt(buf, next, wireType);
      r := if skipped.Success? then Success(m) else Failure(skipped.error);
    }
  }

  lemma {:induction false} AppendNothing<T, E>(r: Result<seq<T>, E>)
    ensures Append([], r) == r
  {
    if r.Success? { assert [] + r.value == r.value; }
  }

  method DecodeUser(buf: seq<byte>) returns (r: Result<seq<UserInstruction>, WireError>)
    ensures r == DecodeUserMessage(buf)
  {
    hide EnvelopeField, DecodeUserInstruction;
    var out: seq<UserInstruction> := [];
    var pos := 0;
    assert buf[0..] == buf;
    AppendNothing(DecodeUserMessage(buf));
    while pos < |buf|
      invariant pos <= |buf|
      invariant DecodeUserMessage(buf) == Append(out, DecodeUserMessage(buf[pos..]))
    {
      var p, next := ReadEnvelopeField(buf, pos);
      if p.Failure? { return Failure(p.error); }
      DropDrop(buf, pos, next - pos);
      UserMessageStep(buf[pos..], out);
      if p.value.Some? {
        var u := DecodeUserInner(p.value.value);
        out := out + [u];
      }
      pos := next;
    }
    assert buf[pos..] == [] && out + [] == out;
    r := Success(out);
  }

  lemma {:induction false} UserMessageStep(s: seq<byte>, out: seq<UserInstruction>)
    requires s != [] && EnvelopeField(s).Ok?
    ensures Append(out, DecodeUserMessage(s))
         == Append(
              if EnvelopeField(s).value.Some? then out + [DecodeUserInstruction(EnvelopeField(s).value.value)] else out,
              DecodeUserMessage(s[EnvelopeField(s).used..]))
  {
    var p, rest := EnvelopeField(s).value, s[EnvelopeField(s).used..];
    if Payloads(rest).Success? && p.Some? {
      var ps := Payloads(rest).value;
      assert ([p.value] + ps)[1..] == ps;
      var u := DecodeUserInstruction(p.value);
      assert out + ([u] + UserInstructions(ps)) == out + [u] + UserInstructions(ps);
    }
  }

  method DecodeHost(buf: seq<byte>) returns (r: Result<seq<HostInstruction>, WireError>)
    ensures r == DecodeHostMessage(buf)
  {
    hide EnvelopeField, DecodeHostInstruction;
    var out: seq<HostInstruction> := [];
    var pos := 0;
    assert buf[0..] == buf;
    AppendNothing(DecodeHostMessage(buf));
    while pos < |buf|
      invariant pos <= |buf|
      invariant DecodeHostMessage(buf) == Append(out, DecodeHostMessage(buf[pos..]))
    {
      var p, next := ReadEnvelopeField(buf, pos);
      if p.Failure? { return Failure(p.error); }
      DropDrop(buf, pos, next - pos);
      HostMessageStep(buf[pos..], out);
      if p.value.Some? {
        var h := DecodeHostInner(p.value.value);
        out := out + [h];
      }
      pos := next;
    }
    assert buf[pos..] == [] && out + [] == out;
    r := Success(out);
  }

  lemma {:induction false} HostMessageStep(s: seq<byte>, out: seq<HostInstruction>)
    requires s != [] && EnvelopeField(s).Ok?
    ensures Append(out, DecodeHostMessage(s))
         == Append(
              if EnvelopeField(s).value.Some? then out + [DecodeHostInstruction(EnvelopeField(s).value.value)] else out,
              DecodeHostMessage(s[EnvelopeField(s).used..]))
  {
    var p, rest := EnvelopeField(s).value, s[EnvelopeField(s).used..];
    if Payloads(rest).Success? && p.Some? {
      var ps := Payloads(rest).value;
      assert ([p.value] + ps)[1..] == ps;
      var h := DecodeHostInstruction(p.value);
      assert out + ([h] + HostInstructions(ps)) == out + [h] + HostInstructions(ps);
    }
  }

  method ReadEnvelopeField(buf: seq<byte>, pos: nat) returns (r: Result<Option<seq<byte>>, WireError>, next: nat)
    requires pos < |buf|
    ensures r == ResultOf(EnvelopeField(buf[pos..]))
    ensures r.Success? ==> next == pos + EnvelopeField(buf[pos..]).used
  {
    hide ReadTag, ReadVarint, ReadLengthDelimited, SkipField;
    var tag;
    tag, next := ReadTagAt(buf, pos);
    if tag.Failure? { return Failure(tag.error), next; }
    DropDrop(buf, pos, next - pos);
    if tag.value == (1, 2) {
      var b;
      b, next := ReadLengthDelimitedAt(buf, next);
      r := if b.Success? then Success(Some(b.value)) else Failure(b.error);
    } else {
      var skipped;
      skipped, next := SkipFieldAt(buf, next, tag.value.1);
      r := if skipped.Success? then Success(None) else Failure(skipped.error);
    }
  }

  method DecodeUserInner(buf: seq<byte>) returns (u: UserInstruction)
    ensures u == DecodeUserInstruction(buf)
  {
    hide ReadTag, ReadVarint, ReadLengthDelimited, SkipField, UserBlock;
    u := Keystroke([]);
    var pos := 0;
    assert buf[0..] == buf;
    while pos < |buf|
      invariant pos <= |buf|
      invariant DecodeUserInstruction(buf) == UserInstructionOver(buf[pos..], u)
    {
      ghost var start := pos;
      var tag, next := ReadTagAt(buf, pos);
      if tag.Failure? { return; }
      DropDrop(buf, start, next - start);
      if tag.value == (2, 2) || tag.value == (3, 2) {
        var block;
        block, pos := ReadLengthDelimitedAt(buf, next);
        DropDrop(buf, start, pos - start);
        if block.Success? {
          u := ReadUserBlock(tag.value.0, block.value, u);
        }
      } else {
        var skipped;
        skipped, pos := SkipFieldAt(buf, next, tag.value.1);
        if skipped.Failure? { return; }
        DropDrop(buf, start, pos - start);
      }
    }
  }

  method ReadUserBlock(field: nat, block: seq<byte>, u: UserInstruction) returns (u': UserInstruction)
    requires 2 <= field <= 3
    ensures u' == UserBlock(field, block, u)
  {
    hide BytesBlock, ResizeBlock;
    u' := u;
    if field == 2 {
      var keys := ReadBytesBlock(block);
      if keys.Some? { u' := Keystroke(keys.value); }
    } else {
      var size := ReadResizeBlock(block);
      u' := UserResize(size.0, size.1);
    }
  }

  method DecodeHostInner(buf: seq<byte>) returns (h: HostInstruction)
    ensures h == DecodeHostInstruction(buf)
  {
    hide ReadTag, ReadVarint, ReadLengthDelimited, SkipField, HostBlock;
    h := HostBytes([]);
    var pos := 0;
    assert buf[0..] == buf;
    while pos < |buf|
      invariant pos <= |buf|
      invariant DecodeHostInstruction(buf) == HostInstructionOver(buf[pos..], h)
    {
      ghost var start := pos;
      var tag, next := ReadTagAt(buf, pos);
      if tag.Failure? { return; }
      DropDrop(buf, start, next - start);
      if tag.value == (2, 2) || tag.value == (3, 2) || tag.value == (7, 2) {
        var block;
        block, pos := ReadLengthDelimitedAt(buf, next);
        DropDrop(buf, start, pos - start);
        if block.Success? {
          h := ReadHostBlock(tag.value.0, block.value, h);
        }
      } else {
        var skipped;
        skipped, pos := SkipFieldAt(buf, next, tag.value.1);
        if skipped.Failure? { return; }
        DropDrop(buf, start, pos - start);
      }
    }
  }

  method ReadHostBlock(field: nat, block: seq<byte>, h: HostInstruction) returns (h': HostInstruction)
    requires field == 2 || field == 3 || field == 7
    ensures h' == HostBlock(field, block, h)
  {
    hide BytesBlock, ResizeBlock, EchoBlock;
    h' := h;
    if field == 2 {
      var b := ReadBytesBlock(block);
      if b.Some? { h' := HostBytes(b.value); }
    } else if field == 3 {
      var size := ReadResizeBlock(block);
      h' := HostResize(size.0, size.1);
    } else {
      var num := ReadEchoBlock(block);
      if num.Some? { h' := EchoAck(num.value); }
    }
  }

  method ReadBytesBlock(block: seq<byte>) returns (found: Option<seq<byte>>)
    ensures found == BytesBlock(block, None)
  {
    hide ReadTag, ReadVarint, ReadLengthDelimited, SkipField;
    found := None;
    var pos := 0;
    assert block[0..] == block;
    while pos < |block|
      invariant pos <= |block|
      invariant BytesBlock(block, None) == BytesBlock(block[pos..], found)
    {
      ghost var start := pos;
      var tag, next := ReadTagAt(block, pos);
      if tag.Failure? { return; }
      DropDrop(block, start, next - start);
      if tag.value == (4, 2) {
        var b;
        b, pos := ReadLengthDelimitedAt(block, next);
        if b.Success? { found := Some(b.value); }
      } else {
        var skipped;
        skipped, pos := SkipFieldAt(block, next, tag.value.1);
        if skipped.Failure? { return; }
      }
      DropDrop(block, start, pos - start);
    }
  }

  method ReadResizeBlock(block: seq<byte>) returns (size: (i32, i32))
    ensures size == ResizeBlock(block, (0, 0))
  {
    hide ResizeBlock;
    size := (0, 0);
    var pos, stop := 0, false;
    assert block[0..] == block;
    while pos < |block| && !stop
      invariant pos <= |block|
      invariant ResizeBlock(block, (0, 0)) == if stop then size else ResizeBlock(block[pos..], size)
      decreases |block| - pos, !stop
    {
      size, pos, stop := ReadResizeField(block, pos, size);
    }
    if !stop {
      assert block[pos..] == [];
      ResizeBlockEnd(size);
    }
  }

  function Resized(size: (i32, i32), field: nat, v: Read<u64>): (i32, i32) {
    if v.Err? then size
    else if field == 5 then (TruncateI32(v.value), size.1)
    else (size.0, TruncateI32(v.value))
  }

  lemma {:induction false} ResizeReads(s: seq<byte>, size: (i32, i32), field: nat, n: nat)
    requires s != [] && 5 <= field <= 6 && ReadTag(s) == Ok((field, 0), n) && n <= |s|
    ensures n + ReadVarint(s[n..]).used <= |s|
    ensures ResizeBlock(s, size)
         == ResizeBlock(s[n + ReadVarint(s[n..]).used..], Resized(size, field, ReadVarint(s[n..])))
  {
    hide ReadTag, ReadVarint, SkipField, TruncateI32;
  }

  lemma {:induction false} ResizeSkips(s: seq<byte>, size: (i32, i32), field: nat, wireType: nat, n: nat)
    requires s != [] && !(5 <= field <= 6 && wireType == 0) && ReadTag(s) == Ok((field, wireType), n) && n <= |s|
    ensures match SkipField(s[n..], wireType)
            case Ok(_, k) => n + k <= |s| && ResizeBlock(s, size) == ResizeBlock(s[n + k..], size)
            case Err(_, _) => ResizeBlock(s, size) == size
  {
    hide ReadTag, ReadVarint, SkipField, TruncateI32;
  }

  lemma {:induction false} ResizeEndsAtBadTag(s: seq<byte>, size: (i32, i32))
    requires ReadTag(s).Err?
    ensures ResizeBlock(s, size) == size
  {
    hide ReadTag;
  }

  lemma {:induction false} ResizeBlockEnd(size: (i32, i32))
    ensures ResizeBlock([], size) == size
  {
  }

  /** One field of a resize block: a failed size is passed over, a failed tag or skip ends the block. */
  method ReadResizeField(block: seq<byte>, pos: nat, size: (i32, i32))
    returns (size': (i32, i32), next: nat, stop: bool)
    requires pos < |block|
    ensures pos <= next <= |block| && (stop || pos < next)
    ensures ResizeBlock(block[pos..], size) == if stop then size' else ResizeBlock(block[next..], size')
  {
    hide ReadTag, ReadVarint, SkipField, TruncateI32, ResizeBlock;
    size', next, stop := size, pos, true;
    ghost var s := block[pos..];
    var tag, at := ReadTagAt(block, pos);
    if tag.Failure? {
      ResizeEndsAtBadTag(s, size);
      return;
    }
    var (field, wireType) := tag.value;
    DropDrop(block, pos, at - pos);
    if (field == 5 || field == 6) && wireType == 0 {
      ResizeReads(s, size, field, at - pos);
      var v;
      v, next := ReadVarintAt(block, at);
      if v.Success? {
        size' := if field == 5 then (TruncateI32(v.value), size.1) else (size.0, TruncateI32(v.value));
      }
    } else {
      ResizeSkips(s, size, field, wireType, at - pos);
      var skipped;
      skipped, next := SkipFieldAt(block, at, wireType);
      if skipped.Failure? { return; }
    }
    DropDrop(block, pos, next - pos);
    stop := false;
  }

  method ReadEchoBlock(block: seq<byte>) returns (found: Option<u64>)
    ensures found == EchoBlock(block, None)
  {
    hide ReadTag, ReadVarint, ReadLengthDelimited, SkipField;
    found := None;
    var pos := 0;
    assert block[0..] == block;
    while pos < |block|
      invariant pos <= |block|
      invariant EchoBlock(block, None) == EchoBlock(block[pos..], found)
    {
      ghost var start := pos;
      var tag, next := ReadTagAt(block, pos);
      if tag.Failure? { return; }
      DropDrop(block, start, next - start);
      if tag.value == (8, 0) {
        var v;
        v, pos := ReadVarintAt(block, next);
        if v.Success? { found := Some(v.value); }
      } else {
        var skipped;
        skipped, pos := SkipFieldAt(block, next, tag.value.1);
        if skipped.Failure? { return; }
      }
      DropDrop(block, start, pos - start);
    }
  }
}
