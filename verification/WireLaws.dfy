/** What the wire codec promises: round trips, and how decoding composes over concatenation. */
module WireLaws {
  import opened Basics
  import opened Wire

  /** Byte strings a `Vec<u8>` can hold: at most `isize::MAX` bytes. */
  const VEC_LIMIT: int := 0x8000_0000_0000_0000

  // ----- primitives: reading back what was written -----

  lemma {:induction false} VarintFromWritten(v: nat, i: nat, rest: seq<byte>)
    requires i <= 9 && v < Limit(i)
    ensures VarintFrom(WriteVarint(v) + rest, i) == Ok(v, |WriteVarint(v)|)
    decreases v
  {
    LimitAtLeast(i);
    var s := WriteVarint(v) + rest;
    if v >= 128 {
      assert i < 9;
      var tail := WriteVarint(v / 128);
      assert s[1..] == tail + rest;
      VarintFromWritten(v / 128, i + 1, rest);
    }
  }

  /** Every u64 varint is read back exactly, whatever follows it. */
  lemma {:induction false} VarintRoundTrip(v: u64, rest: seq<byte>)
    ensures ReadVarint(WriteVarint(v) + rest) == Ok(v, |WriteVarint(v)|)
  {
    LimitIs64Bits();
    VarintFromWritten(v, 0, rest);
  }

  lemma {:induction false} TagRoundTrip(field: nat, wireType: nat, rest: seq<byte>)
    requires field < 16 && wireType < 8
    ensures ReadTag(WriteTag(field, wireType) + rest) == Ok((field, wireType), |WriteTag(field, wireType)|)
  {
    VarintRoundTrip(8 * field + wireType, rest);
  }

  lemma {:induction false} LengthDelimitedRoundTrip(bytes: seq<byte>, rest: seq<byte>)
    requires |bytes| < U64_LIMIT
    ensures ReadLengthDelimited(WriteVarint(|bytes|) + bytes + rest)
         == Ok(bytes, |WriteVarint(|bytes|)| + |bytes|)
  {
    var head := WriteVarint(|bytes|);
    var s := head + bytes + rest;
    assert s == head + (bytes + rest);
    VarintRoundTrip(|bytes|, bytes + rest);
    assert s[|head|..|head| + |bytes|] == bytes;
  }

  /** A written field starts with its tag; behind the tag stands the value. */
  lemma {:induction false} BytesFieldRead(field: nat, bytes: seq<byte>, rest: seq<byte>)
    requires field < 16 && |bytes| < U64_LIMIT
    ensures var s := WriteBytesField(field, bytes) + rest;
            var n := |WriteTag(field, 2)|;
            var k := |WriteVarint(|bytes|)| + |bytes|;
            && ReadTag(s) == Ok((field, 2), n)
            && ReadLengthDelimited(s[n..]) == Ok(bytes, k)
            && n + k == |WriteBytesField(field, bytes)|
            && s[n + k..] == rest
  {
    var tag := WriteTag(field, 2);
    var body := WriteVarint(|bytes|) + bytes + rest;
    assert WriteBytesField(field, bytes) + rest == tag + body;
    TagRoundTrip(field, 2, body);
    LengthDelimitedRoundTrip(bytes, rest);
  }

  lemma {:induction false} VarintFieldRead(field: nat, v: u64, rest: seq<byte>)
    requires field < 16
    ensures var s := WriteVarintField(field, v) + rest;
            var n := |WriteTag(field, 0)|;
            var k := |WriteVarint(v)|;
            && ReadTag(s) == Ok((field, 0), n)
            && ReadVarint(s[n..]) == Ok(v, k)
            && n + k == |WriteVarintField(field, v)|
            && s[n + k..] == rest
  {
    var tag := WriteTag(field, 0);
    var body := WriteVarint(v) + rest;
    assert WriteVarintField(field, v) + rest == tag + body;
    TagRoundTrip(field, 0, body);
    VarintRoundTrip(v, rest);
  }

  lemma {:induction false} SizeRoundTrip(w: i32)
    ensures TruncateI32(SignExtend(w)) == w
  {
  }

  // ----- TransportInstruction -----

  predicate KnownFits(f: KnownField) {
    match f
    case NumberField(field, _) => 1 <= field <= 5
    case BytesField(field, bytes) => 6 <= field <= 7 && |bytes| < U64_LIMIT
  }

  /** What one known field does to the instruction read so far. */
  function SetField(m: TransportInstruction, f: KnownField): TransportInstruction
    requires KnownFits(f)
  {
    match f
    case NumberField(field, num) => SetNumber(m, field, num)
    case BytesField(field, bytes) => if field == 6 then m.(diff := bytes) else m.(chaff := bytes)
  }

  function SetFields(m: TransportInstruction, fs: seq<KnownField>): TransportInstruction
    requires forall f <- fs :: KnownFits(f)
    decreases |fs|
  {
    if fs == [] then m else SetFields(SetField(m, fs[0]), fs[1..])
  }

  lemma {:induction false} FieldDecoded(f: KnownField, rest: seq<byte>, m: TransportInstruction)
    requires KnownFits(f)
    ensures DecodeInstructionFrom(WriteField(f) + rest, m) == DecodeInstructionFrom(rest, SetField(m, f))
  {
    match f
    case NumberField(field, num) => VarintFieldRead(field, num, rest);
    case BytesField(field, bytes) => BytesFieldRead(field, bytes, rest);
  }

  /** Known fields in any order, repeated at will: the last occurrence of each wins. */
  lemma {:induction false} FieldsDecoded(fs: seq<KnownField>, rest: seq<byte>, m: TransportInstruction)
    requires forall f <- fs :: KnownFits(f)
    ensures DecodeInstructionFrom(WriteFields(fs) + rest, m) == DecodeInstructionFrom(rest, SetFields(m, fs))
    decreases |fs|
  {
    if fs == [] {
      assert WriteFields(fs) + rest == rest;
    } else {
      var tail := WriteFields(fs[1..]) + rest;
      assert WriteFields(fs) + rest == WriteField(fs[0]) + tail;
      FieldDecoded(fs[0], tail, m);
      FieldsDecoded(fs[1..], rest, SetField(m, fs[0]));
    }
  }

  lemma {:induction false} SetFirst(m: TransportInstruction, f: KnownField, rest: seq<KnownField>)
    requires KnownFits(f) && forall g <- rest :: KnownFits(g)
    ensures SetFields(m, [f] + rest) == SetFields(SetField(m, f), rest)
  {
    assert ([f] + rest)[1..] == rest;
  }

  lemma {:induction false} FieldsOfRestore(m: TransportInstruction)
    requires |m.diff| < U64_LIMIT && |m.chaff| < U64_LIMIT
    ensures SetFields(EMPTY_INSTRUCTION, FieldsOf(m)) == m
  {
    var fs := FieldsOf(m);
    assert SetField(SetField(SetField(SetField(SetField(SetField(SetField(EMPTY_INSTRUCTION,
      fs[0]), fs[1]), fs[2]), fs[3]), fs[4]), fs[5]), fs[6]) == m;
    SetSeven(EMPTY_INSTRUCTION, fs);
  }

  lemma {:induction false} SetSeven(m: TransportInstruction, fs: seq<KnownField>)
    requires |fs| == 7 && forall f <- fs :: KnownFits(f)
    ensures SetFields(m, fs)
         == SetField(SetField(SetField(SetField(SetField(SetField(SetField(m,
              fs[0]), fs[1]), fs[2]), fs[3]), fs[4]), fs[5]), fs[6])
  {
    hide SetField, KnownFits;
    var m3 := SetThree(m, fs[0], fs[1], fs[2], fs[3..]);
    assert fs == [fs[0]] + ([fs[1]] + ([fs[2]] + fs[3..]));
    var m6 := SetThree(m3, fs[3], fs[4], fs[5], fs[6..]);
    assert fs[3..] == [fs[3]] + ([fs[4]] + ([fs[5]] + fs[6..]));
    SetFirst(m6, fs[6], []);
    assert fs[6..] == [fs[6]] + [];
  }

  lemma {:induction false} SetThree(
    m: TransportInstruction, a: KnownField, b: KnownField, c: KnownField, rest: seq<KnownField>)
    returns (m': TransportInstruction)
    requires KnownFits(a) && KnownFits(b) && KnownFits(c) && forall g <- rest :: KnownFits(g)
    ensures m' == SetField(SetField(SetField(m, a), b), c)
    ensures SetFields(m, [a] + ([b] + ([c] + rest))) == SetFields(m', rest)
  {
    hide SetField, KnownFits, SetFields;
    m' := SetField(SetField(SetField(m, a), b), c);
    SetFirst(m, a, [b] + ([c] + rest));
    SetFirst(SetField(m, a), b, [c] + rest);
    SetFirst(SetField(SetField(m, a), b), c, rest);
  }

  /** decode(encode(m)) == m for every transport instruction. */
  lemma {:induction false} InstructionRoundTrip(m: TransportInstruction)
    requires |m.diff| < U64_LIMIT && |m.chaff| < U64_LIMIT
    ensures DecodeInstruction(EncodeInstruction(m)) == Success(m)
  {
    var s := WriteFields(FieldsOf(m));
    assert s + [] == s;
    FieldsDecoded(FieldsOf(m), [], EMPTY_INSTRUCTION);
    FieldsOfRestore(m);
  }

  // ----- embedded instructions -----

  lemma {:induction false} BytesBlockRoundTrip(bytes: seq<byte>, found: Option<seq<byte>>)
    requires |bytes| < U64_LIMIT
    ensures BytesBlock(WriteBytesField(4, bytes), found) == Some(bytes)
  {
    var s := WriteBytesField(4, bytes);
    assert s + [] == s;
    BytesFieldRead(4, bytes, []);
  }

  lemma {:induction false} ResizeBlockRoundTrip(w: i32, h: i32)
    ensures ResizeBlock(WriteVarintField(5, SignExtend(w)) + WriteVarintField(6, SignExtend(h)), (0, 0)) == (w, h)
  {
    var tail := WriteVarintField(6, SignExtend(h));
    VarintFieldRead(5, SignExtend(w), tail);
    assert tail + [] == tail;
    VarintFieldRead(6, SignExtend(h), []);
    SizeRoundTrip(w);
    SizeRoundTrip(h);
    assert ResizeBlock(tail, (w, 0)) == (w, h);
  }

  lemma {:induction false} EchoBlockRoundTrip(num: u64)
    ensures EchoBlock(WriteVarintField(8, num), None) == Some(num)
  {
    var s := WriteVarintField(8, num);
    assert s + [] == s;
    VarintFieldRead(8, num, []);
  }

  lemma {:induction false} VarintLength(v: nat, i: nat)
    requires i <= 9 && v < Limit(i)
    ensures |WriteVarint(v)| <= 10 - i
    decreases v
  {
    LimitAtLeast(i);
    if v >= 128 { VarintLength(v / 128, i + 1); }
  }

  lemma {:induction false} FieldLength(field: nat, bytes: seq<byte>)
    requires field < 16 && |bytes| < U64_LIMIT
    ensures |WriteBytesField(field, bytes)| <= |bytes| + 20
  {
    LimitIs64Bits();
    VarintLength(8 * field + 2, 0);
    VarintLength(|bytes|, 0);
  }

  lemma {:induction false} NumberFieldLength(field: nat, v: u64)
    requires field < 16
    ensures |WriteVarintField(field, v)| <= 20
  {
    LimitIs64Bits();
    VarintLength(8 * field, 0);
    VarintLength(v, 0);
  }

  /** A lone field-2, field-3 or field-7 block decides the embedded instruction. */
  lemma {:induction false} UserBlockDecides(field: nat, block: seq<byte>, u: UserInstruction)
    requires 2 <= field <= 3 && |block| < U64_LIMIT
    ensures UserInstructionOver(WriteBytesField(field, block), u) == UserBlock(field, block, u)
  {
    var s := WriteBytesField(field, block);
    assert s + [] == s;
    BytesFieldRead(field, block, []);
  }

  lemma {:induction false} HostBlockDecides(field: nat, block: seq<byte>, h: HostInstruction)
    requires (2 <= field <= 3 || field == 7) && |block| < U64_LIMIT
    ensures HostInstructionOver(WriteBytesField(field, block), h) == HostBlock(field, block, h)
  {
    var s := WriteBytesField(field, block);
    assert s + [] == s;
    BytesFieldRead(field, block, []);
  }

  lemma {:induction false} ResizeLength(w: i32, h: i32)
    ensures |WriteVarintField(5, SignExtend(w)) + WriteVarintField(6, SignExtend(h))| <= 40
  {
    NumberFieldLength(5, SignExtend(w));
    NumberFieldLength(6, SignExtend(h));
  }

  predicate UserFits(u: UserInstruction) {
    u.Keystroke? ==> |u.keys| < VEC_LIMIT
  }

  lemma {:induction false} UserInstructionRoundTrip(u: UserInstruction)
    requires UserFits(u)
    ensures |EncodeUserInstruction(u)| < U64_LIMIT
    ensures DecodeUserInstruction(EncodeUserInstruction(u)) == u
  {
    match u
    case Keystroke(keys) =>
      var block := WriteBytesField(4, keys);
      FieldLength(4, keys);
      FieldLength(2, block);
      BytesBlockRoundTrip(keys, None);
      UserBlockDecides(2, block, Keystroke([]));
    case UserResize(w, h) =>
      var block := WriteVarintField(5, SignExtend(w)) + WriteVarintField(6, SignExtend(h));
      ResizeLength(w, h);
      FieldLength(3, block);
      ResizeBlockRoundTrip(w, h);
      UserBlockDecides(3, block, Keystroke([]));
  }

  predicate HostFits(h: HostInstruction) {
    h.HostBytes? ==> |h.hoststring| < VEC_LIMIT
  }

  lemma {:induction false} HostInstructionRoundTrip(h: HostInstruction)
    requires HostFits(h)
    ensures |EncodeHostInstruction(h)| < U64_LIMIT
    ensures DecodeHostInstruction(EncodeHostInstruction(h)) == h
  {
    match h
    case HostBytes(b) =>
      var block := WriteBytesField(4, b);
      FieldLength(4, b);
      FieldLength(2, block);
      BytesBlockRoundTrip(b, None);
      HostBlockDecides(2, block, HostBytes([]));
    case HostResize(width, height) =>
      var block := WriteVarintField(5, SignExtend(width)) + WriteVarintField(6, SignExtend(height));
      ResizeLength(width, height);
      FieldLength(3, block);
      ResizeBlockRoundTrip(width, height);
      HostBlockDecides(3, block, HostBytes([]));
    case EchoAck(num) =>
      var block := WriteVarintField(8, num);
      NumberFieldLength(8, num);
      FieldLength(7, block);
      EchoBlockRoundTrip(num);
      HostBlockDecides(7, block, HostBytes([]));
  }

  // ----- repeated messages -----

  lemma {:induction false} PayloadFirst(payload: seq<byte>, rest: seq<byte>)
    requires |payload| < U64_LIMIT
    requires Payloads(rest).Success?
    ensures Payloads(WriteBytesField(1, payload) + rest) == Success([payload] + Payloads(rest).value)
  {
    BytesFieldRead(1, payload, rest);
  }

  lemma {:induction false} UserMessageFirst(first: seq<byte>, rest: seq<byte>)
    requires |first| < U64_LIMIT && DecodeUserMessage(rest).Success?
    ensures DecodeUserMessage(WriteBytesField(1, first) + rest)
         == Success([DecodeUserInstruction(first)] + DecodeUserMessage(rest).value)
  {
    PayloadFirst(first, rest);
    assert ([first] + Payloads(rest).value)[1..] == Payloads(rest).value;
  }

  lemma {:induction false} HostMessageFirst(first: seq<byte>, rest: seq<byte>)
    requires |first| < U64_LIMIT && DecodeHostMessage(rest).Success?
    ensures DecodeHostMessage(WriteBytesField(1, first) + rest)
         == Success([DecodeHostInstruction(first)] + DecodeHostMessage(rest).value)
  {
    PayloadFirst(first, rest);
    assert ([first] + Payloads(rest).value)[1..] == Payloads(rest).value;
  }

  /** decode(encode(m)) == m for every user message, negative sizes and empty keystrokes included. */
  lemma {:induction false} UserMessageRoundTrip(us: seq<UserInstruction>)
    requires forall u <- us :: UserFits(u)
    ensures DecodeUserMessage(EncodeUserMessage(us)) == Success(us)
  {
    if us != [] {
      hide DecodeUserMessage, DecodeUserInstruction, EncodeUserInstruction, WriteBytesField;
      UserInstructionRoundTrip(us[0]);
      UserMessageRoundTrip(us[1..]);
      UserMessageFirst(EncodeUserInstruction(us[0]), EncodeUserMessage(us[1..]));
      assert us == [us[0]] + us[1..];
    }
  }

  /** decode(encode(m)) == m for every host message. */
  lemma {:induction false} HostMessageRoundTrip(hs: seq<HostInstruction>)
    requires forall h <- hs :: HostFits(h)
    ensures DecodeHostMessage(EncodeHostMessage(hs)) == Success(hs)
  {
    if hs != [] {
      hide DecodeHostMessage, DecodeHostInstruction, EncodeHostInstruction, WriteBytesField;
      HostInstructionRoundTrip(hs[0]);
      HostMessageRoundTrip(hs[1..]);
      HostMessageFirst(EncodeHostInstruction(hs[0]), EncodeHostMessage(hs[1..]));
      assert hs == [hs[0]] + hs[1..];
    }
  }

  // ----- a successful read does not look past what it consumed -----

  lemma {:induction false} VarintFromPrefix(s: seq<byte>, t: seq<byte>, i: nat)
    requires i <= 10 && VarintFrom(s, i).Ok?
    ensures VarintFrom(s + t, i) == VarintFrom(s, i)
    decreases 10 - i
  {
    if s[0] >= 128 {
      assert (s + t)[1..] == s[1..] + t;
      VarintFromPrefix(s[1..], t, i + 1);
    }
  }

  lemma {:induction false} ReadPrefix(s: seq<byte>, t: seq<byte>)
    ensures ReadVarint(s).Ok? ==> ReadVarint(s + t) == ReadVarint(s)
    ensures ReadTag(s).Ok? ==> ReadTag(s + t) == ReadTag(s)
    ensures ReadLengthDelimited(s).Ok? ==> ReadLengthDelimited(s + t) == ReadLengthDelimited(s)
  {
    hide VarintFrom;
    if ReadVarint(s).Ok? {
      VarintFromPrefix(s, t, 0);
      var n, len := ReadVarint(s).used, ReadVarint(s).value;
      if n + len <= |s| { assert (s + t)[n..n + len] == s[n..n + len]; }
    }
  }

  lemma {:induction false} SkipFieldPrefix(s: seq<byte>, t: seq<byte>, wireType: nat)
    requires SkipField(s, wireType).Ok?
    ensures SkipField(s + t, wireType) == SkipField(s, wireType)
    decreases |s|, 1
  {
    ReadPrefix(s, t);
    if wireType == 3 { SkipGroupPrefix(s, t); }
  }

  lemma {:induction false} SkipGroupPrefix(s: seq<byte>, t: seq<byte>)
    requires SkipGroup(s).Ok?
    ensures SkipGroup(s + t) == SkipGroup(s)
    decreases |s|, 0
  {
    hide ReadTag, SkipField;
    ReadPrefix(s, t);
    var n := ReadTag(s).used;
    var wireType := ReadTag(s).value.1;
    if wireType != 4 {
      ConcatSlices(s, t, n);
      SkipFieldPrefix(s[n..], t, wireType);
      var m := SkipField(s[n..], wireType).used;
      ConcatSlices(s, t, n + m);
      SkipGroupPrefix(s[n + m..], t);
    }
  }

  lemma {:induction false} InstructionFieldPrefix(s: seq<byte>, t: seq<byte>, m: TransportInstruction)
    requires InstructionField(s, m).Ok?
    ensures InstructionField(s + t, m) == InstructionField(s, m)
  {
    ReadPrefix(s, t);
    var n := ReadTag(s).used;
    var (field, wireType) := ReadTag(s).value;
    ConcatSlices(s, t, n);
    ReadPrefix(s[n..], t);
    if SkipField(s[n..], wireType).Ok? { SkipFieldPrefix(s[n..], t, wireType); }
  }

  lemma {:induction false} EnvelopeFieldPrefix(s: seq<byte>, t: seq<byte>)
    requires EnvelopeField(s).Ok?
    ensures EnvelopeField(s + t) == EnvelopeField(s)
  {
    ReadPrefix(s, t);
    var n := ReadTag(s).used;
    var (field, wireType) := ReadTag(s).value;
    ConcatSlices(s, t, n);
    ReadPrefix(s[n..], t);
    if SkipField(s[n..], wireType).Ok? { SkipFieldPrefix(s[n..], t, wireType); }
  }

  // ----- decoding a concatenation -----

  lemma {:induction false} InstructionConcat(a: seq<byte>, b: seq<byte>, m: TransportInstruction)
    requires DecodeInstructionFrom(a, m).Success?
    ensures DecodeInstructionFrom(a + b, m) == DecodeInstructionFrom(b, DecodeInstructionFrom(a, m).value)
    decreases |a|
  {
    if a == [] {
      assert a + b == b;
    } else {
      InstructionFieldPrefix(a, b, m);
      var n := InstructionField(a, m).used;
      ConcatSlices(a, b, n);
      InstructionConcat(a[n..], b, InstructionField(a, m).value);
    }
  }

  /** Both halves read, the payload lists are appended; an error in the second half is the error. */
  function Append<T, E>(a: seq<T>, r: Result<seq<T>, E>): Result<seq<T>, E> {
    match r
    case Failure(e) => Failure(e)
    case Success(b) => Success(a + b)
  }

  lemma {:induction false} PayloadsConcat(a: seq<byte>, b: seq<byte>)
    requires Payloads(a).Success?
    ensures Payloads(a + b) == Append(Payloads(a).value, Payloads(b))
    decreases |a|
  {
    if a == [] {
      assert a + b == b;
      if Payloads(b).Success? { assert [] + Payloads(b).value == Payloads(b).value; }
    } else {
      EnvelopeFieldPrefix(a, b);
      var n := EnvelopeField(a).used;
      ConcatSlices(a, b, n);
      PayloadsConcat(a[n..], b);
      PayloadStep(a);
      PayloadStep(a + b);
      AppendAssociates(EnvelopeField(a).value, Payloads(a[n..]).value, Payloads(b));
    }
  }

  /** The payload list grows at the front by what one field contributes. */
  function Contribution(p: Option<seq<byte>>): seq<seq<byte>> {
    if p.Some? then [p.value] else []
  }

  lemma {:induction false} PayloadStep(s: seq<byte>)
    requires s != [] && EnvelopeField(s).Ok?
    ensures Payloads(s) == Append(Contribution(EnvelopeField(s).value), Payloads(s[EnvelopeField(s).used..]))
  {
    var rest := Payloads(s[EnvelopeField(s).used..]);
    if rest.Success? { assert [] + rest.value == rest.value; }
  }

  lemma {:induction false} AppendAssociates(p: Option<seq<byte>>, a: seq<seq<byte>>, r: Result<seq<seq<byte>>, WireError>)
    ensures Append(Contribution(p), Append(a, r)) == Append(Contribution(p) + a, r)
  {
    if r.Success? {
      assert Contribution(p) + (a + r.value) == Contribution(p) + a + r.value;
    }
  }

  lemma {:induction false} UserInstructionsConcat(a: seq<seq<byte>>, b: seq<seq<byte>>)
    ensures UserInstructions(a + b) == UserInstructions(a) + UserInstructions(b)
  {
    if a == [] {
      assert a + b == b;
    } else {
      assert (a + b)[1..] == a[1..] + b;
      UserInstructionsConcat(a[1..], b);
    }
  }

  lemma {:induction false} HostInstructionsConcat(a: seq<seq<byte>>, b: seq<seq<byte>>)
    ensures HostInstructions(a + b) == HostInstructions(a) + HostInstructions(b)
  {
    if a == [] {
      assert a + b == b;
    } else {
      assert (a + b)[1..] == a[1..] + b;
      HostInstructionsConcat(a[1..], b);
    }
  }

  /** A user message cut between two fields decodes to the appended instruction lists. */
  lemma {:induction false} UserMessageConcat(a: seq<byte>, b: seq<byte>)
    requires DecodeUserMessage(a).Success?
    ensures DecodeUserMessage(a + b) == Append(DecodeUserMessage(a).value, DecodeUserMessage(b))
  {
    PayloadsConcat(a, b);
    if Payloads(b).Success? {
      UserInstructionsConcat(Payloads(a).value, Payloads(b).value);
    }
  }

  /** The same for a host message. */
  lemma {:induction false} HostMessageConcat(a: seq<byte>, b: seq<byte>)
    requires DecodeHostMessage(a).Success?
    ensures DecodeHostMessage(a + b) == Append(DecodeHostMessage(a).value, DecodeHostMessage(b))
  {
    PayloadsConcat(a, b);
    if Payloads(b).Success? {
      HostInstructionsConcat(Payloads(a).value, Payloads(b).value);
    }
  }

  // ----- fields a decoder does not list -----

  /** One well-formed field, tag included, whose number and wire type are not among `known`. */
  predicate Unlisted(u: seq<byte>, known: set<(nat, nat)>) {
    var r := ReadTag(u);
    && r.Ok?
    && r.value !in known
    && SkipField(u[r.used..], r.value.1) == Ok((), |u| - r.used)
  }

  /** What the instruction decoder reads: five varints and two byte strings. */
  const INSTRUCTION_FIELDS: set<(nat, nat)> := {(1, 0), (2, 0), (3, 0), (4, 0), (5, 0), (6, 2), (7, 2)}

  /** What either message envelope reads. */
  const ENVELOPE_FIELDS: set<(nat, nat)> := {(1, 2)}

  const USER_FIELDS: set<(nat, nat)> := {(2, 2), (3, 2)}

  const HOST_FIELDS: set<(nat, nat)> := {(2, 2), (3, 2), (7, 2)}

  lemma {:induction false} UnlistedPrefix(u: seq<byte>, b: seq<byte>, known: set<(nat, nat)>)
    requires Unlisted(u, known)
    ensures var r := ReadTag(u);
            && u != [] && ReadTag(u + b) == r && (u + b)[|u|..] == b
            && SkipField((u + b)[r.used..], r.value.1) == Ok((), |u| - r.used)
  {
    hide ReadTag, SkipField;
    ReadPrefix(u, b);
    var r := ReadTag(u);
    ConcatSlices(u, b, r.used);
    SkipFieldPrefix(u[r.used..], b, r.value.1);
    TagNeedsBytes(u);
  }

  lemma {:induction false} TagNeedsBytes(u: seq<byte>)
    ensures ReadTag(u).Ok? ==> u != []
  {
  }

  lemma {:induction false} InstructionSkips(u: seq<byte>, b: seq<byte>, m: TransportInstruction)
    requires Unlisted(u, INSTRUCTION_FIELDS)
    ensures DecodeInstructionFrom(u + b, m) == DecodeInstructionFrom(b, m)
  {
    hide ReadTag, ReadVarint, ReadLengthDelimited, SkipField;
    UnlistedPrefix(u, b, INSTRUCTION_FIELDS);
  }

  lemma {:induction false} EnvelopeSkips(u: seq<byte>, b: seq<byte>)
    requires Unlisted(u, ENVELOPE_FIELDS)
    ensures Payloads(u + b) == Payloads(b)
  {
    hide ReadTag, ReadVarint, ReadLengthDelimited, SkipField;
    UnlistedPrefix(u, b, ENVELOPE_FIELDS);
  }

  /**
   Where the instruction decoder can stand between two fields, a field it does not list changes
   nothing: an unknown number, or a known one with another wire type.
   */
  lemma {:induction false} InstructionIgnores(a: seq<byte>, u: seq<byte>, b: seq<byte>)
    requires Unlisted(u, INSTRUCTION_FIELDS) && DecodeInstruction(a).Success?
    ensures DecodeInstruction(a + (u + b)) == DecodeInstruction(a + b)
  {
    InstructionConcat(a, u + b, EMPTY_INSTRUCTION);
    InstructionConcat(a, b, EMPTY_INSTRUCTION);
    InstructionSkips(u, b, DecodeInstruction(a).value);
  }

  /** The same for both message envelopes, which list only their field 1. */
  lemma {:induction false} EnvelopesIgnore(a: seq<byte>, u: seq<byte>, b: seq<byte>)
    requires Unlisted(u, ENVELOPE_FIELDS) && Payloads(a).Success?
    ensures DecodeUserMessage(a).Success? && DecodeUserMessage(a + (u + b)) == DecodeUserMessage(a + b)
    ensures DecodeHostMessage(a).Success? && DecodeHostMessage(a + (u + b)) == DecodeHostMessage(a + b)
  {
    PayloadsConcat(a, u + b);
    PayloadsConcat(a, b);
    EnvelopeSkips(u, b);
    assert Payloads(a + (u + b)) == Payloads(a + b);
  }

  // ----- the tolerant decoders of embedded instructions -----

  /** A run of well-formed fields, whatever their numbers: no tolerant loop breaks off inside it. */
  predicate WellFormed(s: seq<byte>)
    decreases |s|
  {
    s == [] ||
    (ReadTag(s).Ok? && SkipField(s[ReadTag(s).used..], ReadTag(s).value.1).Ok? &&
     WellFormed(s[ReadTag(s).used + SkipField(s[ReadTag(s).used..], ReadTag(s).value.1).used..]))
  }

  /** The bytes of the first field of a well-formed run. */
  function FirstField(s: seq<byte>): (n: nat)
    requires s != [] && WellFormed(s)
    ensures 1 <= n <= |s|
  {
    ReadTag(s).used + SkipField(s[ReadTag(s).used..], ReadTag(s).value.1).used
  }

  /** The first field is read alike, whether or not more follows; skipping it and reading it move alike. */
  lemma {:induction false} FirstFieldAlike(s: seq<byte>, b: seq<byte>)
    requires s != [] && WellFormed(s)
    ensures var r := ReadTag(s);
            var t := s[r.used..];
            && ReadTag(s + b) == r && (s + b)[r.used..] == t + b
            && SkipField(t + b, r.value.1) == SkipField(t, r.value.1)
            && (r.value.1 == 2 ==>
                  && ReadLengthDelimited(t).Ok? && ReadLengthDelimited(t).used == SkipField(t, 2).used
                  && ReadLengthDelimited(t + b) == ReadLengthDelimited(t))
            && (s + b)[FirstField(s)..] == s[FirstField(s)..] + b
  {
    ReadPrefix(s, b);
    var r := ReadTag(s);
    var t := s[r.used..];
    ConcatSlices(s, b, r.used);
    SkipFieldPrefix(t, b, r.value.1);
    ReadPrefix(t, b);
    ConcatSlices(s, b, FirstField(s));
    hide ReadTag, ReadVarint, SkipGroup;
  }

  lemma {:induction false} WellFormedFirst(s: seq<byte>)
    requires s != [] && WellFormed(s)
    ensures ReadTag(s).Ok? && SkipField(s[ReadTag(s).used..], ReadTag(s).value.1).Ok?
  {
    hide ReadTag, SkipField;
  }

  lemma {:induction false} RestWellFormed(s: seq<byte>)
    requires s != [] && WellFormed(s)
    ensures WellFormed(s[FirstField(s)..])
  {
    hide ReadTag, SkipField;
  }

  /** One well-formed field of an embedded user instruction. */
  lemma {:induction false} UserStep(s: seq<byte>, u: UserInstruction, r: Read<(nat, nat)>, k: nat, block: seq<byte>)
    requires s != [] && ReadTag(s) == r && r.Ok? && r.used + k <= |s|
    requires SkipField(s[r.used..], r.value.1).Ok? && SkipField(s[r.used..], r.value.1).used == k
    requires r.value.1 == 2 ==> ReadLengthDelimited(s[r.used..]) == Ok(block, k)
    ensures UserInstructionOver(s, u)
         == UserInstructionOver(s[r.used + k..], if r.value in USER_FIELDS then UserBlock(r.value.0, block, u) else u)
  {
    hide ReadTag, ReadLengthDelimited, SkipField, UserBlock;
  }

  /** What the first field of a well-formed run makes of the instruction so far. */
  function UserAfterFirst(s: seq<byte>, u: UserInstruction): UserInstruction
    requires s != [] && WellFormed(s)
  {
    var r := ReadTag(s);
    if r.value !in USER_FIELDS then u
    else
      match ReadLengthDelimited(s[r.used..])
      case Ok(block, _) => UserBlock(r.value.0, block, u)
      case Err(_, _) => u
  }

  lemma {:induction false} UserFirst(s: seq<byte>, b: seq<byte>, u: UserInstruction)
    requires s != [] && WellFormed(s)
    ensures UserInstructionOver(s, u) == UserInstructionOver(s[FirstField(s)..], UserAfterFirst(s, u))
    ensures UserInstructionOver(s + b, u) == UserInstructionOver(s[FirstField(s)..] + b, UserAfterFirst(s, u))
  {
    hide ReadTag, ReadLengthDelimited, SkipField, UserBlock, UserInstructionOver, WellFormed;
    FirstFieldAlike(s, b);
    WellFormedFirst(s);
    var r := ReadTag(s);
    var t := s[r.used..];
    var k, block := SkipField(t, r.value.1).used, if r.value.1 == 2 then ReadLengthDelimited(t).value else [];
    UserStep(s, u, r, k, block);
    UserStep(s + b, u, r, k, block);
  }

  /** An embedded user instruction cut between two fields is read over what the first half made of it. */
  lemma {:induction false} UserInstructionConcat(a: seq<byte>, b: seq<byte>, u: UserInstruction)
    requires WellFormed(a)
    ensures UserInstructionOver(a + b, u) == UserInstructionOver(b, UserInstructionOver(a, u))
    decreases |a|
  {
    if a == [] {
      assert a + b == b;
    } else {
      hide FirstField, WellFormed, UserInstructionOver, UserAfterFirst;
      RestWellFormed(a);
      UserFirst(a, b, u);
      UserInstructionConcat(a[FirstField(a)..], b, UserAfterFirst(a, u));
    }
  }

  /** One well-formed field of an embedded host instruction. */
  lemma {:induction false} HostStep(s: seq<byte>, h: HostInstruction, r: Read<(nat, nat)>, k: nat, block: seq<byte>)
    requires s != [] && ReadTag(s) == r && r.Ok? && r.used + k <= |s|
    requires SkipField(s[r.used..], r.value.1).Ok? && SkipField(s[r.used..], r.value.1).used == k
    requires r.value.1 == 2 ==> ReadLengthDelimited(s[r.used..]) == Ok(block, k)
    ensures HostInstructionOver(s, h)
         == HostInstructionOver(s[r.used + k..], if r.value in HOST_FIELDS then HostBlock(r.value.0, block, h) else h)
  {
    hide ReadTag, ReadLengthDelimited, SkipField, HostBlock;
  }

  /** What the first field of a well-formed run makes of the instruction so far. */
  function HostAfterFirst(s: seq<byte>, h: HostInstruction): HostInstruction
    requires s != [] && WellFormed(s)
  {
    var r := ReadTag(s);
    if r.value !in HOST_FIELDS then h
    else
      match ReadLengthDelimited(s[r.used..])
      case Ok(block, _) => HostBlock(r.value.0, block, h)
      case Err(_, _) => h
  }

  lemma {:induction false} HostFirst(s: seq<byte>, b: seq<byte>, h: HostInstruction)
    requires s != [] && WellFormed(s)
    ensures HostInstructionOver(s, h) == HostInstructionOver(s[FirstField(s)..], HostAfterFirst(s, h))
    ensures HostInstructionOver(s + b, h) == HostInstructionOver(s[FirstField(s)..] + b, HostAfterFirst(s, h))
  {
    hide ReadTag, ReadLengthDelimited, SkipField, HostBlock, HostInstructionOver, WellFormed;
    FirstFieldAlike(s, b);
    WellFormedFirst(s);
    var r := ReadTag(s);
    var t := s[r.used..];
    var k, block := SkipField(t, r.value.1).used, if r.value.1 == 2 then ReadLengthDelimited(t).value else [];
    HostStep(s, h, r, k, block);
    HostStep(s + b, h, r, k, block);
  }

  /** An embedded host instruction cut between two fields is read over what the first half made of it. */
  lemma {:induction false} HostInstructionConcat(a: seq<byte>, b: seq<byte>, h: HostInstruction)
    requires WellFormed(a)
    ensures HostInstructionOver(a + b, h) == HostInstructionOver(b, HostInstructionOver(a, h))
    decreases |a|
  {
    if a == [] {
      assert a + b == b;
    } else {
      hide FirstField, WellFormed, HostInstructionOver, HostAfterFirst;
      RestWellFormed(a);
      HostFirst(a, b, h);
      HostInstructionConcat(a[FirstField(a)..], b, HostAfterFirst(a, h));
    }
  }

  lemma {:induction false} UserInstructionSkips(f: seq<byte>, b: seq<byte>, u: UserInstruction)
    requires Unlisted(f, USER_FIELDS)
    ensures UserInstructionOver(f + b, u) == UserInstructionOver(b, u)
  {
    hide ReadTag, ReadVarint, ReadLengthDelimited, SkipField, UserBlock;
    UnlistedPrefix(f, b, USER_FIELDS);
  }

  lemma {:induction false} HostInstructionSkips(f: seq<byte>, b: seq<byte>, h: HostInstruction)
    requires Unlisted(f, HOST_FIELDS)
    ensures HostInstructionOver(f + b, h) == HostInstructionOver(b, h)
  {
    hide ReadTag, ReadVarint, ReadLengthDelimited, SkipField, HostBlock;
    UnlistedPrefix(f, b, HOST_FIELDS);
  }

  /** Between two fields of an embedded instruction, a field its decoder does not list changes nothing. */
  lemma {:induction false} EmbeddedIgnore(a: seq<byte>, f: seq<byte>, b: seq<byte>)
    requires WellFormed(a)
    ensures Unlisted(f, USER_FIELDS) ==> DecodeUserInstruction(a + (f + b)) == DecodeUserInstruction(a + b)
    ensures Unlisted(f, HOST_FIELDS) ==> DecodeHostInstruction(a + (f + b)) == DecodeHostInstruction(a + b)
  {
    hide Unlisted, WellFormed, UserInstructionOver, HostInstructionOver;
    UserInstructionConcat(a, f + b, Keystroke([]));
    UserInstructionConcat(a, b, Keystroke([]));
    HostInstructionConcat(a, f + b, HostBytes([]));
    HostInstructionConcat(a, b, HostBytes([]));
    if Unlisted(f, USER_FIELDS) { UserInstructionSkips(f, b, UserInstructionOver(a, Keystroke([]))); }
    if Unlisted(f, HOST_FIELDS) { HostInstructionSkips(f, b, HostInstructionOver(a, HostBytes([]))); }
  }

  /** The innermost blocks pass over what they do not list, too. */
  lemma {:induction false} BytesBlockSkips(f: seq<byte>, b: seq<byte>, found: Option<seq<byte>>)
    requires Unlisted(f, {(4, 2)})
    ensures BytesBlock(f + b, found) == BytesBlock(b, found)
  {
    hide ReadTag, ReadVarint, ReadLengthDelimited, SkipField;
    UnlistedPrefix(f, b, {(4, 2)});
  }

  lemma {:induction false} ResizeBlockSkips(f: seq<byte>, b: seq<byte>, size: (i32, i32))
    requires Unlisted(f, {(5, 0), (6, 0)})
    ensures ResizeBlock(f + b, size) == ResizeBlock(b, size)
  {
    hide ReadTag, ReadVarint, ReadLengthDelimited, SkipField, TruncateI32;
    UnlistedPrefix(f, b, {(5, 0), (6, 0)});
  }

  lemma {:induction false} EchoBlockSkips(f: seq<byte>, b: seq<byte>, found: Option<u64>)
    requires Unlisted(f, {(8, 0)})
    ensures EchoBlock(f + b, found) == EchoBlock(b, found)
  {
    hide ReadTag, ReadVarint, ReadLengthDelimited, SkipField;
    UnlistedPrefix(f, b, {(8, 0)});
  }
}
