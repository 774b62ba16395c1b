/**
 The wire codec as functions on byte sequences. A reader looks at the bytes still
 unread and reports how far the position moved, on failure as well as on success:
 the tolerant decoders go on reading after an error, so that distance is behaviour.
 */
module Wire {
  import opened Basics

  const PROTOCOL_VERSION: u32 := 2
  const SHUTDOWN_NUM: u64 := 0xFFFF_FFFF_FFFF_FFFF

  datatype TransportInstruction = TransportInstruction(
    protocolVersion: u32,
    oldNum: u64,
    newNum: u64,
    ackNum: u64,
    throwawayNum: u64,
    diff: seq<byte>,
    chaff: seq<byte>)

  datatype UserInstruction =
    | Keystroke(keys: seq<byte>)
    | UserResize(width: i32, height: i32)

  datatype HostInstruction =
    | HostBytes(hoststring: seq<byte>)
    | HostResize(width: i32, height: i32)
    | EchoAck(num: u64)

  datatype WireError = Truncated | BadVarint | BadLength | UnmatchedGroup(wireType: nat)

  datatype Read<+T> =
    | Ok(value: T, used: nat)
    | Err(error: WireError, used: nat)

  // ----- encoder primitives -----

  function WriteVarint(v: nat): (s: seq<byte>)
    ensures |s| >= 1
  {
    if v < 128 then [v] else [v % 128 + 128] + WriteVarint(v / 128)
  }

  function WriteTag(field: nat, wireType: nat): seq<byte> {
    WriteVarint(8 * field + wireType)
  }

  function WriteBytesField(field: nat, bytes: seq<byte>): seq<byte> {
    WriteTag(field, 2) + WriteVarint(|bytes|) + bytes
  }

  function WriteVarintField(field: nat, v: u64): seq<byte> {
    WriteTag(field, 0) + WriteVarint(v)
  }

  /** A signed size cast to u64: negative values are sign-extended. */
  function SignExtend(w: i32): u64 {
    if w < 0 then w + 0x1_0000_0000_0000_0000 else w
  }

  /** The low 32 bits of a varint, read back as a signed value. */
  function TruncateI32(v: u64): i32 {
    var low := v % 0x1_0000_0000;
    if low >= 0x8000_0000 then low - 0x1_0000_0000 else low
  }

  // ----- decoder primitives -----

  /** Values a varint can still denote at its `i`-th byte; the tenth byte keeps one bit. */
  function Limit(i: nat): nat
    requires i <= 9
    decreases 9 - i
  {
    if i == 9 then 2 else 128 * Limit(i + 1)
  }

  lemma {:induction false} LimitIs64Bits()
    ensures Limit(0) == U64_LIMIT
  {
    assert Limit(9) == 2;
    assert Limit(6) == 128 * 128 * 128 * 2;
    assert Limit(3) == 128 * 128 * 128 * Limit(6);
    assert Limit(0) == 128 * 128 * 128 * Limit(3);
  }

  /** A varint from its `i`-th byte on. */
  function VarintFrom(s: seq<byte>, i: nat): (r: Read<nat>)
    requires i <= 10
    ensures r.used <= |s|
    ensures r.Ok? ==> r.used >= 1 && i < 10 && r.value < Limit(i)
    decreases 10 - i
  {
    if i == 10 then Err(BadVarint, 0)
    else if s == [] then Err(Truncated, 0)
    else
      var low := if i == 9 then s[0] % 2 else s[0] % 128;
      if s[0] < 128 then
        assert i < 9 ==> Limit(i) >= 128 by { LimitAtLeast(i); }
        Ok(low, 1)
      else
        match VarintFrom(s[1..], i + 1)
        case Ok(v, n) => Ok(low + 128 * v, n + 1)
        case Err(e, n) => Err(e, n + 1)
  }

  lemma {:induction false} LimitAtLeast(i: nat)
    requires i <= 9
    ensures Limit(i) >= 2
    ensures i < 9 ==> Limit(i) >= 128
    decreases 9 - i
  {
    if i < 9 { LimitAtLeast(i + 1); }
  }

  function ReadVarint(s: seq<byte>): (r: Read<u64>)
    ensures r.used <= |s|
    ensures r.Ok? ==> r.used >= 1
  {
    LimitIs64Bits();
    match VarintFrom(s, 0)
    case Ok(v, n) => Ok(v, n)
    case Err(e, n) => Err(e, n)
  }

  /** The field number is cut to 32 bits, as the cast in the source does. */
  function ReadTag(s: seq<byte>): (r: Read<(nat, nat)>)
    ensures r.used <= |s|
    ensures r.Ok? ==> r.used >= 1
  {
    match ReadVarint(s)
    case Ok(key, n) => Ok(((key / 8) % U32_LIMIT, key % 8), n)
    case Err(e, n) => Err(e, n)
  }

  function ReadLengthDelimited(s: seq<byte>): (r: Read<seq<byte>>)
    ensures r.used <= |s|
    ensures r.Ok? ==> |r.value| < r.used
  {
    match ReadVarint(s)
    case Err(e, n) => Err(e, n)
    case Ok(len, n) =>
      if n + len > |s| then Err(BadLength, n) else Ok(s[n..n + len], n + len)
  }

  /** Skips one field value; a group is skipped up to its end marker. */
  function SkipField(s: seq<byte>, wireType: nat): (r: Read<()>)
    ensures r.used <= |s|
    decreases |s|, 1
  {
    match wireType
    case 0 => (match ReadVarint(s) case Ok(_, n) => Ok((), n) case Err(e, n) => Err(e, n))
    case 1 => if |s| < 8 then Err(Truncated, 0) else Ok((), 8)
    case 2 => (match ReadLengthDelimited(s) case Ok(_, n) => Ok((), n) case Err(e, n) => Err(e, n))
    case 5 => if |s| < 4 then Err(Truncated, 0) else Ok((), 4)
    case 3 => SkipGroup(s)
    case _ => Err(UnmatchedGroup(wireType), 0)
  }

  function SkipGroup(s: seq<byte>): (r: Read<()>)
    ensures r.used <= |s|
    decreases |s|, 0
  {
    match ReadTag(s)
    case Err(e, n) => Err(e, n)
    case Ok((_, wireType), n) =>
      if wireType == 4 then Ok((), n)
      else
        match SkipField(s[n..], wireType)
        case Err(e, m) => Err(e, n + m)
        case Ok(_, m) =>
          match SkipGroup(s[n + m..])
          case Err(e, k) => Err(e, n + m + k)
          case Ok(_, k) => Ok((), n + m + k)
  }

  // ----- TransportInstruction -----

  const EMPTY_INSTRUCTION := TransportInstruction(0, 0, 0, 0, 0, [], [])

  /** A field the instruction schema knows, as it stands on the wire. */
  datatype KnownField = NumberField(field: nat, num: u64) | BytesField(field: nat, bytes: seq<byte>)

  function WriteField(f: KnownField): seq<byte> {
    match f
    case NumberField(field, num) => WriteVarintField(field, num)
    case BytesField(field, bytes) => WriteBytesField(field, bytes)
  }

  function WriteFields(fs: seq<KnownField>): seq<byte> {
    if fs == [] then [] else WriteField(fs[0]) + WriteFields(fs[1..])
  }

  /** Exactly the seven fields that are always written, in this order. */
  function FieldsOf(m: TransportInstruction): seq<KnownField> {
    [NumberField(1, m.protocolVersion), NumberField(2, m.oldNum), NumberField(3, m.newNum),
     NumberField(4, m.ackNum), NumberField(5, m.throwawayNum), BytesField(6, m.diff), BytesField(7, m.chaff)]
  }

  function EncodeInstruction(m: TransportInstruction): seq<byte> {
    WriteFields(FieldsOf(m))
  }

  /** One varint field of the instruction; a later occurrence overwrites. */
  function SetNumber(m: TransportInstruction, field: nat, v: u64): TransportInstruction
    requires 1 <= field <= 5
  {
    match field
    case 1 => m.(protocolVersion := v % 0x1_0000_0000)
    case 2 => m.(oldNum := v)
    case 3 => m.(newNum := v)
    case 4 => m.(ackNum := v)
    case _ => m.(throwawayNum := v)
  }

  /** One pass of the decoding loop: a tag and the field behind it. */
  function InstructionField(s: seq<byte>, m: TransportInstruction): (r: Read<TransportInstruction>)
    ensures r.used <= |s|
    ensures r.Ok? ==> r.used >= 1
  {
    match ReadTag(s)
    case Err(e, n) => Err(e, n)
    case Ok((field, wireType), n) =>
      var t := s[n..];
      if wireType == 0 && 1 <= field <= 5 then
        match ReadVarint(t)
        case Ok(v, k) => Ok(SetNumber(m, field, v), n + k)
        case Err(e, k) => Err(e, n + k)
      else if wireType == 2 && 6 <= field <= 7 then
        match ReadLengthDelimited(t)
        case Ok(b, k) => Ok(if field == 6 then m.(diff := b) else m.(chaff := b), n + k)
        case Err(e, k) => Err(e, n + k)
      else
        match SkipField(t, wireType)
        case Ok(_, k) => Ok(m, n + k)
        case Err(e, k) => Err(e, n + k)
  }

  function DecodeInstructionFrom(s: seq<byte>, m: TransportInstruction): Result<TransportInstruction, WireError>
    decreases |s|
  {
    if s == [] then Success(m)
    else
      match InstructionField(s, m)
      case Err(e, _) => Failure(e)
      case Ok(m', n) => DecodeInstructionFrom(s[n..], m')
  }

  function DecodeInstruction(s: seq<byte>): Result<TransportInstruction, WireError> {
    DecodeInstructionFrom(s, EMPTY_INSTRUCTION)
  }

  // ----- the two repeated-message envelopes -----

  /** One field of an outer message: the payload of field 1, or nothing when it was skipped. */
  function EnvelopeField(s: seq<byte>): (r: Read<Option<seq<byte>>>)
    ensures r.used <= |s|
    ensures r.Ok? ==> r.used >= 1
    ensures r.Ok? && r.value.Some? ==> |r.value.value| < |s|
  {
    match ReadTag(s)
    case Err(e, n) => Err(e, n)
    case Ok((field, wireType), n) =>
      if field == 1 && wireType == 2 then
        match ReadLengthDelimited(s[n..])
        case Ok(b, k) => Ok(Some(b), n + k)
        case Err(e, k) => Err(e, n + k)
      else
        match SkipField(s[n..], wireType)
        case Ok(_, k) => Ok(None, n + k)
        case Err(e, k) => Err(e, n + k)
  }

  /** The payloads of all field-1 entries, in order. */
  function Payloads(s: seq<byte>): Result<seq<seq<byte>>, WireError>
    decreases |s|
  {
    if s == [] then Success([])
    else
      match EnvelopeField(s)
      case Err(e, _) => Failure(e)
      case Ok(p, n) =>
        match Payloads(s[n..])
        case Failure(e) => Failure(e)
        case Success(ps) => Success(if p.Some? then [p.value] + ps else ps)
  }

  // ----- blocks inside an embedded instruction; all of them tolerate a bad tail -----

  /** The last field-4 byte string of a keystroke or hostbytes block, or `found`. */
  function BytesBlock(s: seq<byte>, found: Option<seq<byte>>): Option<seq<byte>>
    decreases |s|
  {
    if s == [] then found
    else
      match ReadTag(s)
      case Err(_, _) => found
      case Ok((field, wireType), n) =>
        if field == 4 && wireType == 2 then
          match ReadLengthDelimited(s[n..])
          case Ok(b, k) => BytesBlock(s[n + k..], Some(b))
          case Err(_, k) => BytesBlock(s[n + k..], found)
        else
          match SkipField(s[n..], wireType)
          case Ok(_, k) => BytesBlock(s[n + k..], found)
          case Err(_, _) => found
  }

  /** Width and height of a resize block. */
  function ResizeBlock(s: seq<byte>, size: (i32, i32)): (i32, i32)
    decreases |s|
  {
    if s == [] then size
    else
      match ReadTag(s)
      case Err(_, _) => size
      case Ok((field, wireType), n) =>
        if 5 <= field <= 6 && wireType == 0 then
          match ReadVarint(s[n..])
          case Ok(v, k) =>
            ResizeBlock(s[n + k..], if field == 5 then (TruncateI32(v), size.1) else (size.0, TruncateI32(v)))
          case Err(_, k) => ResizeBlock(s[n + k..], size)
        else
          match SkipField(s[n..], wireType)
          case Ok(_, k) => ResizeBlock(s[n + k..], size)
          case Err(_, _) => size
  }

  /** The last field-8 number of an echo-ack block, or `found`. */
  function EchoBlock(s: seq<byte>, found: Option<u64>): Option<u64>
    decreases |s|
  {
    if s == [] then found
    else
      match ReadTag(s)
      case Err(_, _) => found
      case Ok((field, wireType), n) =>
        if field == 8 && wireType == 0 then
          match ReadVarint(s[n..])
          case Ok(v, k) => EchoBlock(s[n + k..], Some(v))
          case Err(_, k) => EchoBlock(s[n + k..], found)
        else
          match SkipField(s[n..], wireType)
          case Ok(_, k) => EchoBlock(s[n + k..], found)
          case Err(_, _) => found
  }

  // ----- UserMessage -----

  function EncodeUserInstruction(u: UserInstruction): seq<byte> {
    match u
    case Keystroke(keys) => WriteBytesField(2, WriteBytesField(4, keys))
    case UserResize(w, h) =>
      WriteBytesField(3, WriteVarintField(5, SignExtend(w)) + WriteVarintField(6, SignExtend(h)))
  }

  function EncodeUserMessage(us: seq<UserInstruction>): seq<byte> {
    if us == [] then []
    else WriteBytesField(1, EncodeUserInstruction(us[0])) + EncodeUserMessage(us[1..])
  }

  /** An embedded instruction, read over `u`; the loop's `result` variable. */
  function UserInstructionOver(s: seq<byte>, u: UserInstruction): UserInstruction
    decreases |s|
  {
    if s == [] then u
    else
      match ReadTag(s)
      case Err(_, _) => u
      case Ok((field, wireType), n) =>
        if wireType == 2 && 2 <= field <= 3 then
          match ReadLengthDelimited(s[n..])
          case Ok(block, k) => UserInstructionOver(s[n + k..], UserBlock(field, block, u))
          case Err(_, k) => UserInstructionOver(s[n + k..], u)
        else
          match SkipField(s[n..], wireType)
          case Ok(_, k) => UserInstructionOver(s[n + k..], u)
          case Err(_, _) => u
  }

  function UserBlock(field: nat, block: seq<byte>, u: UserInstruction): UserInstruction {
    if field == 2 then
      match BytesBlock(block, None)
      case Some(keys) => Keystroke(keys)
      case None => u
    else
      var (w, h) := ResizeBlock(block, (0, 0));
      UserResize(w, h)
  }

  function DecodeUserInstruction(s: seq<byte>): UserInstruction {
    UserInstructionOver(s, Keystroke([]))
  }

  function UserInstructions(ps: seq<seq<byte>>): (us: seq<UserInstruction>)
    ensures |us| == |ps|
  {
    if ps == [] then [] else [DecodeUserInstruction(ps[0])] + UserInstructions(ps[1..])
  }

  function DecodeUserMessage(s: seq<byte>): Result<seq<UserInstruction>, WireError> {
    match Payloads(s)
    case Failure(e) => Failure(e)
    case Success(ps) => Success(UserInstructions(ps))
  }

  // ----- HostMessage -----

  function EncodeHostInstruction(h: HostInstruction): seq<byte> {
    match h
    case HostBytes(b) => WriteBytesField(2, WriteBytesField(4, b))
    case HostResize(width, height) =>
      WriteBytesField(3, WriteVarintField(5, SignExtend(width)) + WriteVarintField(6, SignExtend(height)))
    case EchoAck(num) => WriteBytesField(7, WriteVarintField(8, num))
  }

  function EncodeHostMessage(hs: seq<HostInstruction>): seq<byte> {
    if hs == [] then []
    else WriteBytesField(1, EncodeHostInstruction(hs[0])) + EncodeHostMessage(hs[1..])
  }

  function HostInstructionOver(s: seq<byte>, h: HostInstruction): HostInstruction
    decreases |s|
  {
    if s == [] then h
    else
      match ReadTag(s)
      case Err(_, _) => h
      case Ok((field, wireType), n) =>
        if wireType == 2 && (field == 2 || field == 3 || field == 7) then
          match ReadLengthDelimited(s[n..])
          case Ok(block, k) => HostInstructionOver(s[n + k..], HostBlock(field, block, h))
          case Err(_, k) => HostInstructionOver(s[n + k..], h)
        else
          match SkipField(s[n..], wireType)
          case Ok(_, k) => HostInstructionOver(s[n + k..], h)
          case Err(_, _) => h
  }

  function HostBlock(field: nat, block: seq<byte>, h: HostInstruction): HostInstruction {
    if field == 2 then
      match BytesBlock(block, None)
      case Some(b) => HostBytes(b)
      case None => h
    else if field == 3 then
      var (width, height) := ResizeBlock(block, (0, 0));
      HostResize(width, height)
    else
      match EchoBlock(block, None)
      case Some(num) => EchoAck(num)
      case None => h
  }

  function DecodeHostInstruction(s: seq<byte>): HostInstruction {
    HostInstructionOver(s, HostBytes([]))
  }

  function HostInstructions(ps: seq<seq<byte>>): (hs: seq<HostInstruction>)
    ensures |hs| == |ps|
  {
    if ps == [] then [] else [DecodeHostInstruction(ps[0])] + HostInstructions(ps[1..])
  }

  function DecodeHostMessage(s: seq<byte>): Result<seq<HostInstruction>, WireError> {
    match Payloads(s)
    case Failure(e) => Failure(e)
    case Success(ps) => Success(HostInstructions(ps))
  }
}
