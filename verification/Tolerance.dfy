/** What the decoders make of fields they cannot read: which errors end a message, and which are passed over. */
module Tolerance {
  import opened Basics
  import opened Wire
  import opened WireLaws
  import opened Layouts

  // ----- the readers -----

  /** The number that base-128 digits denote, the lowest first. */
  function Denoted(s: seq<byte>): nat {
    if s == [] then 0 else s[0] % 128 + 128 * Denoted(s[1..])
  }

  lemma {:induction false} Multiples(n: nat, a: int, b: int)
    requires a < b
    ensures n * a + n <= n * b
  {
    assert n * b == n * a + n * (b - a);
    assert n * (b - a - 1) >= 0;
  }

  /** A quotient and a remainder that add up are the quotient and the remainder. */
  lemma {:induction false} Remainder(x: nat, q: nat, r: nat, n: nat)
    requires r < n && x == n * q + r
    ensures x % n == r
  {
    var k, m := x / n, x % n;
    assert x == n * k + m;
    if k < q { Multiples(n, k, q); } else if q < k { Multiples(n, q, k); }
  }

  /** `v` is the number `x`, cut to fewer than `n` values. */
  predicate Cut(v: nat, x: nat, n: nat) {
    n > 0 && v == x % n
  }

  lemma {:induction false} DigitCut(low: nat, v: nat, high: nat, limit: nat)
    requires low < 128 && Cut(v, high, limit)
    ensures Cut(low + 128 * v, low + 128 * high, 128 * limit)
  {
    var q := high / limit;
    assert high == limit * q + v;
    assert 128 * (limit * q) == (128 * limit) * q;
    Remainder(low + 128 * high, q, low + 128 * v, 128 * limit);
  }

  lemma {:induction false} LastCut(b: byte, i: nat)
    requires i <= 9 && b < 128
    ensures Cut(if i == 9 then b % 2 else b, b, Limit(i))
  {
    hide Limit;
    LimitAtLeast(i);
    LimitStep(i);
  }

  lemma {:induction false} VarintStep(s: seq<byte>, i: nat)
    requires i <= 10 && VarintFrom(s, i).Ok?
    ensures i < 10 && s != []
    ensures s[0] < 128 ==> VarintFrom(s, i).used == 1 && VarintFrom(s, i).value == if i == 9 then s[0] % 2 else s[0]
    ensures s[0] >= 128 ==>
              && i < 9 && VarintFrom(s[1..], i + 1).Ok?
              && VarintFrom(s, i).used == 1 + VarintFrom(s[1..], i + 1).used
              && VarintFrom(s, i).value == s[0] % 128 + 128 * VarintFrom(s[1..], i + 1).value
  {
    hide Limit;
  }

  lemma {:induction false} DenotedStep(s: seq<byte>, used: nat)
    requires 1 <= used <= |s|
    ensures Denoted(s[..used]) == s[0] % 128 + 128 * Denoted(s[1..][..used - 1])
    ensures used == 1 ==> Denoted(s[..used]) == s[0] % 128
  {
    assert s[..used][1..] == s[1..][..used - 1];
  }

  lemma {:induction false} LimitStep(i: nat)
    requires i <= 9
    ensures Limit(i) == if i == 9 then 2 else 128 * Limit(i + 1)
  {
  }

  lemma {:induction false} DenotedFrom(s: seq<byte>, i: nat)
    requires i <= 10 && VarintFrom(s, i).Ok?
    ensures i < 10 && Cut(VarintFrom(s, i).value, Denoted(s[..VarintFrom(s, i).used]), Limit(i))
    decreases 10 - i
  {
    VarintStep(s, i);
    LimitStep(i);
    hide VarintFrom, Limit, Denoted, Cut;
    DenotedStep(s, VarintFrom(s, i).used);
    if s[0] >= 128 {
      var r := VarintFrom(s[1..], i + 1);
      DenotedFrom(s[1..], i + 1);
      DigitCut(s[0] % 128, r.value, Denoted(s[1..][..r.used]), Limit(i + 1));
    } else {
      LastCut(s[0], i);
    }
  }

  /** Whatever bytes a varint has, its value is the number they denote, cut to 64 bits. */
  lemma {:induction false} VarintIsCut(s: seq<byte>)
    requires ReadVarint(s).Ok?
    ensures ReadVarint(s).value == Denoted(s[..ReadVarint(s).used]) % U64_LIMIT
  {
    LimitIs64Bits();
    DenotedFrom(s, 0);
    hide VarintFrom, Limit;
  }

  /** A field number is cut to 32 bits, so one that is larger passes for a small one. */
  lemma {:induction false} FieldNumbersAlias(field: nat, wireType: nat, turns: nat, rest: seq<byte>)
    requires field < U32_LIMIT && wireType < 8 && turns < 0x2000_0000
    ensures var key := 8 * (field + 0x1_0000_0000 * turns) + wireType;
            ReadTag(WriteVarint(key) + rest) == Ok((field, wireType), |WriteVarint(key)|)
  {
    var number := field + 0x1_0000_0000 * turns;
    var key := 8 * number + wireType;
    VarintRoundTrip(key, rest);
    Remainder(number, turns, field, 0x1_0000_0000);
    assert key / 8 == number && key % 8 == wireType;
    hide WriteVarint, ReadVarint;
  }

  lemma {:induction false} OneTag(field: nat, wireType: nat, rest: seq<byte>)
    requires 1 <= field <= 15 && wireType < 8
    ensures var s := [8 * field + wireType] + rest;
            ReadTag(s) == Ok((field, wireType), 1) && s[1..] == rest && s != []
  {
    SmallTag(field, wireType);
    TagRoundTrip(field, wireType, rest);
    hide ReadTag, WriteTag;
  }

  /** A length that promises more bytes than there are. */
  predicate Overlong(len: u64, rest: seq<byte>) {
    len > |rest|
  }

  lemma {:induction false} OverlongFails(len: u64, rest: seq<byte>)
    requires Overlong(len, rest)
    ensures ReadLengthDelimited(WriteVarint(len) + rest) == Err(BadLength, |WriteVarint(len)|)
    ensures (WriteVarint(len) + rest)[|WriteVarint(len)|..] == rest
  {
    VarintRoundTrip(len, rest);
    hide WriteVarint, VarintFrom;
  }

  /** Ten bytes that do not end a varint. */
  predicate Unended(s: seq<byte>) {
    |s| == 10 && forall i | 0 <= i < 10 :: s[i] >= 128
  }

  lemma {:induction false} UnendedFrom(s: seq<byte>, i: nat)
    requires i <= 10 && |s| >= 10 - i && forall k | 0 <= k < 10 - i :: s[k] >= 128
    ensures VarintFrom(s, i) == Err(BadVarint, 10 - i)
    decreases 10 - i
  {
    hide Limit;
    if i < 10 {
      assert s[0] >= 128;
      UnendedFrom(s[1..], i + 1);
    }
  }

  lemma {:induction false} UnendedFails(s: seq<byte>, rest: seq<byte>)
    requires Unended(s)
    ensures ReadVarint(s + rest) == Err(BadVarint, 10) && (s + rest)[10..] == rest
    ensures ReadTag(s + rest) == Err(BadVarint, 10)
  {
    UnendedFrom(s + rest, 0);
    hide VarintFrom;
  }

  // ----- the strict decoders: every error ends the message -----

  /** In an instruction or an envelope, a length beyond the end is an error, whatever follows. */
  lemma {:induction false} StrictLength(len: u64, rest: seq<byte>, m: TransportInstruction, field: nat)
    requires Overlong(len, rest) && 6 <= field <= 7
    ensures DecodeInstructionFrom([8 * field + 2] + (WriteVarint(len) + rest), m) == Failure(BadLength)
    ensures Payloads([0x0A] + (WriteVarint(len) + rest)) == Failure(BadLength)
  {
    hide ReadTag, ReadLengthDelimited, ReadVarint, SkipField, WriteVarint, UserInstructionOver, HostInstructionOver;
    OverlongFails(len, rest);
    OneTag(field, 2, WriteVarint(len) + rest);
    OneTag(1, 2, WriteVarint(len) + rest);
    hide ReadTag, ReadLengthDelimited, WriteVarint, SkipField;
  }

  /** And so is a number, or a tag, that ten bytes do not end. */
  lemma {:induction false} StrictVarint(s: seq<byte>, rest: seq<byte>, m: TransportInstruction, field: nat)
    requires Unended(s) && 1 <= field <= 5
    ensures DecodeInstructionFrom([8 * field] + (s + rest), m) == Failure(BadVarint)
    ensures DecodeInstructionFrom(s + rest, m) == Failure(BadVarint) && Payloads(s + rest) == Failure(BadVarint)
  {
    hide ReadTag, ReadLengthDelimited, ReadVarint, SkipField;
    UnendedFails(s, rest);
    OneTag(field, 0, s + rest);
  }

  /** And an end of a group that was not begun, or a wire type that does not exist. */
  lemma {:induction false} StrictWireType(field: nat, wireType: nat, rest: seq<byte>, m: TransportInstruction)
    requires 1 <= field <= 15 && wireType in {4, 6, 7}
    ensures DecodeInstructionFrom([8 * field + wireType] + rest, m) == Failure(UnmatchedGroup(wireType))
    ensures Payloads([8 * field + wireType] + rest) == Failure(UnmatchedGroup(wireType))
  {
    OneTag(field, wireType, rest);
    hide ReadTag, ReadVarint, ReadLengthDelimited;
  }

  // ----- the embedded instructions: a listed field that cannot be read is passed over -----

  lemma {:induction false} LengthPassed(field: nat, s: seq<byte>, u: UserInstruction, h: HostInstruction)
    requires field in {2, 3, 7} && ReadTag([8 * field + 2] + s) == Ok((field, 2), 1) && ReadLengthDelimited(s).Err?
    ensures field != 7 ==>
              UserInstructionOver([8 * field + 2] + s, u) == UserInstructionOver(s[ReadLengthDelimited(s).used..], u)
    ensures HostInstructionOver([8 * field + 2] + s, h) == HostInstructionOver(s[ReadLengthDelimited(s).used..], h)
  {
    var t := [8 * field + 2] + s;
    assert t[1..] == s && t[1 + ReadLengthDelimited(s).used..] == s[ReadLengthDelimited(s).used..];
    hide ReadTag, ReadLengthDelimited, SkipField;
  }

  /** Behind a length beyond the end, an embedded instruction is read on right after the length. */
  lemma {:induction false} TolerantLength(len: u64, rest: seq<byte>, field: nat, u: UserInstruction, h: HostInstruction)
    requires Overlong(len, rest) && field in {2, 3, 7}
    ensures field != 7 ==> UserInstructionOver([8 * field + 2] + (WriteVarint(len) + rest), u) == UserInstructionOver(rest, u)
    ensures HostInstructionOver([8 * field + 2] + (WriteVarint(len) + rest), h) == HostInstructionOver(rest, h)
  {
    OverlongFails(len, rest);
    OneTag(field, 2, WriteVarint(len) + rest);
    LengthPassed(field, WriteVarint(len) + rest, u, h);
  }

  lemma {:induction false} BytesPassed(s: seq<byte>, found: Option<seq<byte>>)
    requires ReadTag([0x22] + s) == Ok((4, 2), 1) && ReadLengthDelimited(s).Err?
    ensures BytesBlock([0x22] + s, found) == BytesBlock(s[ReadLengthDelimited(s).used..], found)
  {
    var t := [0x22] + s;
    assert t[1..] == s && t[1 + ReadLengthDelimited(s).used..] == s[ReadLengthDelimited(s).used..];
    hide ReadTag, ReadLengthDelimited, SkipField;
  }

  /** And so is a block of bytes. */
  lemma {:induction false} TolerantBytes(len: u64, rest: seq<byte>, found: Option<seq<byte>>)
    requires Overlong(len, rest)
    ensures BytesBlock([0x22] + (WriteVarint(len) + rest), found) == BytesBlock(rest, found)
  {
    hide ReadTag, ReadLengthDelimited, ReadVarint, SkipField, WriteVarint, BytesBlock;
    OverlongFails(len, rest);
    OneTag(4, 2, WriteVarint(len) + rest);
    BytesPassed(WriteVarint(len) + rest, found);
  }

  lemma {:induction false} NumberPassed(field: nat, s: seq<byte>, size: (i32, i32), found: Option<u64>)
    requires field in {5, 6, 8} && ReadTag([8 * field] + s) == Ok((field, 0), 1) && ReadVarint(s).Err?
    ensures field in {5, 6} ==> ResizeBlock([8 * field] + s, size) == ResizeBlock(s[ReadVarint(s).used..], size)
    ensures field == 8 ==> EchoBlock([8 * field] + s, found) == EchoBlock(s[ReadVarint(s).used..], found)
  {
    var t := [8 * field] + s;
    assert t[1..] == s && t[1 + ReadVarint(s).used..] == s[ReadVarint(s).used..];
    hide ReadTag, ReadVarint, SkipField;
  }

  /** Behind ten bytes that do not end a number, a block is read on. */
  lemma {:induction false} TolerantVarint(s: seq<byte>, rest: seq<byte>, field: nat, size: (i32, i32), found: Option<u64>)
    requires Unended(s) && field in {5, 6, 8}
    ensures field != 8 ==> ResizeBlock([8 * field] + (s + rest), size) == ResizeBlock(rest, size)
    ensures field == 8 ==> EchoBlock([8 * field] + (s + rest), found) == EchoBlock(rest, found)
  {
    hide ReadTag, ReadLengthDelimited, ReadVarint, SkipField, WriteVarint, ResizeBlock, EchoBlock;
    UnendedFails(s, rest);
    OneTag(field, 0, s + rest);
    NumberPassed(field, s + rest, size, found);
  }

  /** A tag that cannot be read, or a wire type that cannot be skipped, ends each of them with what was found. */
  lemma {:induction false} TolerantEnd(
    s: seq<byte>, found: Option<seq<byte>>, size: (i32, i32), ack: Option<u64>, u: UserInstruction, h: HostInstruction)
    requires ReadTag(s).Err? || ReadTag(s).value.1 in {4, 6, 7}
    ensures BytesBlock(s, found) == found && ResizeBlock(s, size) == size && EchoBlock(s, ack) == ack
    ensures UserInstructionOver(s, u) == u && HostInstructionOver(s, h) == h
  {
    hide ReadTag, ReadLengthDelimited, ReadVarint;
  }

  /** What was not sent: a size is zero, and a block without its field leaves the instruction as it was. */
  lemma {:induction false} Defaults(w: i32, u: UserInstruction, h: HostInstruction)
    ensures UserBlock(3, WriteVarintField(5, SignExtend(w)), u) == UserResize(w, 0)
    ensures UserBlock(3, WriteVarintField(6, SignExtend(w)), u) == UserResize(0, w)
    ensures HostBlock(3, WriteVarintField(5, SignExtend(w)), h) == HostResize(w, 0)
    ensures HostBlock(3, WriteVarintField(6, SignExtend(w)), h) == HostResize(0, w)
    ensures UserBlock(2, [], u) == u && HostBlock(2, [], h) == h && HostBlock(7, [], h) == h
  {
    OneSize(5, w);
    OneSize(6, w);
    hide WriteVarintField, SignExtend;
  }

  lemma {:induction false} OneSize(field: nat, w: i32)
    requires 5 <= field <= 6
    ensures ResizeBlock(WriteVarintField(field, SignExtend(w)), (0, 0)) == if field == 5 then (w, 0) else (0, w)
  {
    var s := WriteVarintField(field, SignExtend(w));
    assert s + [] == s;
    VarintFieldRead(field, SignExtend(w), []);
    hide ReadTag, ReadVarint, SkipField, WriteVarintField;
    SizeRoundTrip(w);
  }

  /** The version is cut to 32 bits. */
  lemma {:induction false} VersionIsCut(v: u64, rest: seq<byte>, m: TransportInstruction)
    ensures DecodeInstructionFrom(WriteVarintField(1, v) + rest, m)
         == DecodeInstructionFrom(rest, m.(protocolVersion := v % 0x1_0000_0000))
  {
    hide WriteVarintField, DecodeInstructionFrom;
    FieldDecoded(NumberField(1, v), rest, m);
  }

  /** A size is the signed value of the low 32 bits. */
  lemma {:induction false} SizeIsCut(v: u64)
    ensures (v - TruncateI32(v)) % 0x1_0000_0000 == 0
  {
    var low := v % 0x1_0000_0000;
    assert v - low == 0x1_0000_0000 * (v / 0x1_0000_0000);
  }

  // ----- what is skipped -----

  /** Any field a message may hold, groups within groups included. */
  datatype Item =
    | Number(field: u32, v: u64)
    | Wide(field: u32, eight: seq<byte>)
    | Narrow(field: u32, four: seq<byte>)
    | Blob(field: u32, bytes: seq<byte>)
    | Group(field: u32, items: seq<Item>, end: u32)

  predicate ItemFits(i: Item) {
    match i
    case Number(_, _) => true
    case Wide(_, eight) => |eight| == 8
    case Narrow(_, four) => |four| == 4
    case Blob(_, bytes) => |bytes| < U64_LIMIT
    case Group(_, items, _) => forall x <- items :: ItemFits(x)
  }

  function WireType(i: Item): nat {
    match i
    case Number(_, _) => 0
    case Wide(_, _) => 1
    case Blob(_, _) => 2
    case Group(_, _, _) => 3
    case Narrow(_, _) => 5
  }

  function WriteBody(i: Item): seq<byte> {
    match i
    case Number(_, v) => WriteVarint(v)
    case Wide(_, eight) => eight
    case Narrow(_, four) => four
    case Blob(_, bytes) => WriteVarint(|bytes|) + bytes
    case Group(_, items, end) => WriteItems(items) + WriteTag(end, 4)
  }

  function WriteItems(items: seq<Item>): seq<byte> {
    if items == [] then []
    else WriteTag(items[0].field, WireType(items[0])) + WriteBody(items[0]) + WriteItems(items[1..])
  }

  lemma {:induction false} AnyTag(field: u32, wireType: nat, rest: seq<byte>)
    requires wireType < 8
    ensures ReadTag(WriteTag(field, wireType) + rest) == Ok((field, wireType), |WriteTag(field, wireType)|)
    ensures (WriteTag(field, wireType) + rest)[|WriteTag(field, wireType)|..] == rest
  {
    FieldNumbersAlias(field, wireType, 0, rest);
    hide ReadTag, WriteVarint;
  }

  /** A well-formed body is skipped whole, whatever follows. */
  lemma {:induction false} BodySkipped(i: Item, rest: seq<byte>)
    requires ItemFits(i)
    ensures SkipField(WriteBody(i) + rest, WireType(i)) == Ok((), |WriteBody(i)|)
    decreases i, 1
  {
    match i
    case Number(_, v) => VarintRoundTrip(v, rest); hide ReadVarint;
    case Wide(_, _) =>
    case Narrow(_, _) =>
    case Blob(_, bytes) => LengthDelimitedRoundTrip(bytes, rest); hide ReadLengthDelimited;
    case Group(_, items, end) => GroupSkipped(items, end, rest);
  }

  lemma {:induction false} SkipGroupStep(s: seq<byte>, field: nat, wireType: nat, n: nat, m: nat, k: nat)
    requires ReadTag(s) == Ok((field, wireType), n) && wireType != 4
    requires SkipField(s[n..], wireType) == Ok((), m)
    requires SkipGroup(s[n..][m..]) == Ok((), k)
    ensures SkipGroup(s) == Ok((), n + m + k)
  {
    hide ReadTag, SkipField;
    assert s[n..][m..] == s[n + m..];
  }

  lemma {:induction false} GroupStep(items: seq<Item>, end: u32, rest: seq<byte>)
    requires items != []
    requires var tail := WriteItems(items[1..]) + WriteTag(end, 4);
             && SkipField(WriteBody(items[0]) + (tail + rest), WireType(items[0])) == Ok((), |WriteBody(items[0])|)
             && SkipGroup(tail + rest) == Ok((), |tail|)
    ensures SkipGroup(WriteItems(items) + WriteTag(end, 4) + rest) == Ok((), |WriteItems(items) + WriteTag(end, 4)|)
  {
    hide WriteBody, WriteTag, ReadTag, SkipField, SkipGroup;
    var tag, body := WriteTag(items[0].field, WireType(items[0])), WriteBody(items[0]);
    var tail := WriteItems(items[1..]) + WriteTag(end, 4);
    var s := tag + (body + (tail + rest));
    assert WriteItems(items) + WriteTag(end, 4) + rest == s;
    AnyTag(items[0].field, WireType(items[0]), body + (tail + rest));
    assert (body + (tail + rest))[|body|..] == tail + rest;
    SkipGroupStep(s, items[0].field, WireType(items[0]), |tag|, |body|, |tail|);
  }

  lemma {:induction false} GroupEnd(end: u32, rest: seq<byte>)
    ensures SkipGroup(WriteTag(end, 4) + rest) == Ok((), |WriteTag(end, 4)|)
  {
    AnyTag(end, 4, rest);
    hide ReadTag, WriteTag, SkipField;
  }

  /** A group is skipped up to the end marker of its own depth, whatever field number that bears. */
  lemma {:induction false} GroupSkipped(items: seq<Item>, end: u32, rest: seq<byte>)
    requires forall x <- items :: ItemFits(x)
    ensures SkipGroup(WriteItems(items) + WriteTag(end, 4) + rest) == Ok((), |WriteItems(items) + WriteTag(end, 4)|)
    decreases items, 0
  {
    hide SkipField, SkipGroup, WriteTag, WriteBody;
    if items == [] {
      assert WriteItems(items) + WriteTag(end, 4) == WriteTag(end, 4);
      GroupEnd(end, rest);
    } else {
      hide WriteItems;
      var tail := WriteItems(items[1..]) + WriteTag(end, 4);
      BodySkipped(items[0], tail + rest);
      GroupSkipped(items[1..], end, rest);
      GroupStep(items, end, rest);
    }
  }

  /** So any well-formed field, whatever it nests, is one that a decoder passes over unless it lists it. */
  lemma {:induction false} ItemIsUnlisted(i: Item, known: set<(nat, nat)>)
    requires ItemFits(i) && (i.field, WireType(i)) !in known
    ensures Unlisted(WriteTag(i.field, WireType(i)) + WriteBody(i), known)
  {
    hide WriteBody, WriteTag, ReadTag, SkipField, WireType;
    var body := WriteBody(i);
    WireTypeSmall(i);
    AnyTag(i.field, WireType(i), body);
    BodySkipped(i, []);
    assert body + [] == body;
  }

  lemma {:induction false} WireTypeSmall(i: Item)
    ensures WireType(i) < 8
  {
  }
}
