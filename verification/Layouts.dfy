/** The bytes themselves: what each message looks like on the wire, and when a reader gives up. */
module Layouts {
  import opened Basics
  import opened Wire
  import WireCodec
  import opened Streams
  import opened Fragments
  import opened Sealing

  // ----- varints -----

  /** Digit `i` of a number, the lowest being digit 0. */
  function Digit(v: nat, base: nat, i: nat): nat
    requires base > 0
    decreases i
  {
    if i == 0 then v % base else Digit(v / base, base, i - 1)
  }

  /** A written varint: seven bits a byte, the lowest first, and a top bit on every byte but the last. */
  lemma {:induction false} VarintDigits(v: nat, i: nat)
    requires i < |WriteVarint(v)|
    ensures WriteVarint(v)[i] % 128 == Digit(v, 128, i)
    ensures WriteVarint(v)[i] >= 128 <==> i < |WriteVarint(v)| - 1
    decreases i
  {
    if i > 0 { VarintDigits(v / 128, i - 1); }
  }

  /** How many bytes with the top bit set the string starts with. */
  function Continued(s: seq<byte>): (n: nat)
    ensures n <= |s| && (forall i | 0 <= i < n :: s[i] >= 128) && (n < |s| ==> s[n] < 128)
  {
    if s == [] || s[0] < 128 then 0 else 1 + Continued(s[1..])
  }

  lemma {:induction false} VarintOutcomeFrom(s: seq<byte>, i: nat)
    requires i <= 10
    ensures var n, r := Continued(s), VarintFrom(s, i);
            && (r.Ok? <==> i + n < 10 && n < |s|)
            && (r.Ok? ==> r.used == n + 1)
            && (r.Err? ==> r.error == (if i + n >= 10 then BadVarint else Truncated))
    decreases |s|
  {
    hide Limit;
    if i < 10 && s != [] && s[0] >= 128 { VarintOutcomeFrom(s[1..], i + 1); }
  }

  /** A varint is read if one of the first ten bytes ends it; ten that do not are malformed, fewer are truncated. */
  lemma {:induction false} VarintOutcome(s: seq<byte>)
    ensures var n, r := Continued(s), ReadVarint(s);
            && (r.Ok? <==> n < 10 && n < |s|)
            && (r.Ok? ==> r.used == n + 1)
            && (r.Err? ==> r.error == (if n >= 10 then BadVarint else Truncated))
  {
    VarintOutcomeFrom(s, 0);
    hide VarintFrom;
  }

  /** A length and its bytes are read if the length is and the bytes are there; nothing else fails. */
  lemma {:induction false} LengthOutcome(s: seq<byte>)
    ensures var len, r := ReadVarint(s), ReadLengthDelimited(s);
            && (r.Ok? <==> len.Ok? && len.used + len.value <= |s|)
            && (r.Ok? ==> r.value == s[len.used..len.used + len.value] && r.used == len.used + len.value)
            && (r.Err? && len.Ok? ==> r.error == BadLength)
  {
    hide VarintFrom;
  }

  /** Fixed-width fields need their bytes, and wire types 4, 6 and 7 are never skipped. */
  lemma {:induction false} SkipOutcome(s: seq<byte>)
    ensures SkipField(s, 1) == if |s| >= 8 then Ok((), 8) else Err(Truncated, 0)
    ensures SkipField(s, 5) == if |s| >= 4 then Ok((), 4) else Err(Truncated, 0)
    ensures SkipField(s, 4).Err? && SkipField(s, 6).Err? && SkipField(s, 7).Err?
  {
  }

  // ----- messages -----

  lemma {:induction false} SmallTag(field: nat, wireType: nat)
    requires 1 <= field <= 15 && wireType < 8
    ensures WriteTag(field, wireType) == [8 * field + wireType]
  {
  }

  /** A byte-string field and a varint field of a small number. */
  lemma {:induction false} FieldShape(field: nat, bytes: seq<byte>, v: u64)
    requires 1 <= field <= 15
    ensures WriteBytesField(field, bytes) == [8 * field + 2] + WriteVarint(|bytes|) + bytes
    ensures WriteVarintField(field, v) == [8 * field] + WriteVarint(v)
  {
    SmallTag(field, 2);
    SmallTag(field, 0);
  }

  /** The seven fields of an instruction, tag by tag. */
  lemma {:induction false} InstructionShape(m: TransportInstruction)
    ensures EncodeInstruction(m)
         == [0x08] + WriteVarint(m.protocolVersion) + ([0x10] + WriteVarint(m.oldNum)) + ([0x18] + WriteVarint(m.newNum))
          + ([0x20] + WriteVarint(m.ackNum)) + ([0x28] + WriteVarint(m.throwawayNum))
          + ([0x32] + WriteVarint(|m.diff|) + m.diff) + ([0x3A] + WriteVarint(|m.chaff|) + m.chaff)
  {
    hide WriteVarint, EncodeInstruction;
    WireCodec.SevenFields(m);
    FieldShape(1, [], m.protocolVersion);
    FieldShape(2, [], m.oldNum);
    FieldShape(3, [], m.newNum);
    FieldShape(4, [], m.ackNum);
    FieldShape(5, [], m.throwawayNum);
    FieldShape(6, m.diff, 0);
    FieldShape(7, m.chaff, 0);
  }

  /** A length before its bytes. */
  function Sized(tag: byte, bytes: seq<byte>): seq<byte> {
    [tag] + WriteVarint(|bytes|) + bytes
  }

  /** A keystroke or a resize, alone in a user message. */
  lemma {:induction false} UserShape(keys: seq<byte>, width: i32, height: i32)
    ensures EncodeUserMessage([Keystroke(keys)]) == Sized(0x0A, Sized(0x12, Sized(0x22, keys)))
    ensures EncodeUserMessage([UserResize(width, height)])
         == Sized(0x0A, Sized(0x1A, [0x28] + WriteVarint(SignExtend(width)) + ([0x30] + WriteVarint(SignExtend(height)))))
  {
    hide WriteVarint, WriteBytesField, WriteVarintField, SignExtend;
    var k, r: UserInstruction := Keystroke(keys), UserResize(width, height);
    assert [k][1..] == [] && [r][1..] == [];
    var size := WriteVarintField(5, SignExtend(width)) + WriteVarintField(6, SignExtend(height));
    FieldShape(4, keys, 0);
    FieldShape(5, [], SignExtend(width));
    FieldShape(6, [], SignExtend(height));
    FieldShape(2, WriteBytesField(4, keys), 0);
    FieldShape(3, size, 0);
    FieldShape(1, EncodeUserInstruction(k), 0);
    FieldShape(1, EncodeUserInstruction(r), 0);
  }

  /** Host bytes, a resize or an echo ack, alone in a host message. */
  lemma {:induction false} HostShape(bytes: seq<byte>, width: i32, height: i32, ack: u64)
    ensures EncodeHostMessage([HostBytes(bytes)]) == Sized(0x0A, Sized(0x12, Sized(0x22, bytes)))
    ensures EncodeHostMessage([HostResize(width, height)])
         == Sized(0x0A, Sized(0x1A, [0x28] + WriteVarint(SignExtend(width)) + ([0x30] + WriteVarint(SignExtend(height)))))
    ensures EncodeHostMessage([EchoAck(ack)]) == Sized(0x0A, Sized(0x3A, [0x40] + WriteVarint(ack)))
  {
    hide WriteVarint, WriteBytesField, WriteVarintField, SignExtend;
    var b, r, e: HostInstruction := HostBytes(bytes), HostResize(width, height), EchoAck(ack);
    assert [b][1..] == [] && [r][1..] == [] && [e][1..] == [];
    var size := WriteVarintField(5, SignExtend(width)) + WriteVarintField(6, SignExtend(height));
    FieldShape(4, bytes, 0);
    FieldShape(5, [], SignExtend(width));
    FieldShape(6, [], SignExtend(height));
    FieldShape(8, [], ack);
    FieldShape(2, WriteBytesField(4, bytes), 0);
    FieldShape(3, size, 0);
    FieldShape(7, WriteVarintField(8, ack), 0);
    FieldShape(1, EncodeHostInstruction(b), 0);
    FieldShape(1, EncodeHostInstruction(r), 0);
    FieldShape(1, EncodeHostInstruction(e), 0);
  }

  lemma {:induction false} CoalesceOne(e: UserEvent)
    ensures Coalesce([e]) == [if e.Byte? then Keystroke([e.value]) else UserResize(e.width, e.height)]
  {
    assert [e][..0] == [] && Coalesce([]) == [];
  }

  /** The diff of one more resize, or one more byte, is that message. */
  lemma {:induction false} DiffShape(s: Stream, b: byte, width: i32, height: i32)
    ensures DiffFrom(s + [Byte(b)], s) == EncodeUserMessage([Keystroke([b])])
    ensures DiffFrom(s + [Resize(width, height)], s) == EncodeUserMessage([UserResize(width, height)])
  {
    hide EncodeUserMessage;
    PrefixIsCommon(s + [Byte(b)], s);
    PrefixIsCommon(s + [Resize(width, height)], s);
    assert (s + [Byte(b)])[|s|..] == [Byte(b)] && (s + [Resize(width, height)])[|s|..] == [Resize(width, height)];
    CoalesceOne(Byte(b));
    CoalesceOne(Resize(width, height));
  }

  // ----- datagrams -----

  /** Byte `i` of an `n`-byte big-endian number. */
  lemma {:induction false} BigEndianDigits(v: nat, n: nat, i: nat)
    requires i < n
    ensures BigEndian(v, n)[i] == Digit(v, 256, n - 1 - i)
    decreases n
  {
    if i < n - 1 { BigEndianDigits(v / 256, n - 1, i); }
  }

  lemma {:induction false} TwoBytes(v: u16)
    ensures BigEndian(v, 2) == [v / 256, v % 256]
  {
    assert v / 256 / 256 == 0;
  }

  /** Ten bytes of header: the id, highest byte first, then the final flag over the 15-bit number. */
  lemma {:induction false} FragmentShape(f: Fragment, i: nat)
    requires f.num <= MAX_FRAGMENT_INDEX && i < 8
    ensures var s := ToBytes(f);
            && |s| == 10 + |f.contents| && s[10..] == f.contents
            && s[i] == Digit(f.id, 256, 7 - i)
            && s[8] == f.num / 256 + (if f.isFinal then 128 else 0) && s[9] == f.num % 256
  {
    hide BigEndian, Digit;
    BigEndianDigits(f.id, 8, i);
    TwoBytes(Flags(f));
  }

  /** Twelve bytes of nonce: four zeros, then the direction bit over the sequence number, highest byte first. */
  lemma {:induction false} NonceShape(d: Direction, n: u64, i: nat)
    requires n < SEQ_LIMIT && i < 8
    ensures var s := Nonce12(NonceValue(d, n));
            && s[..4] == [0, 0, 0, 0]
            && s[4 + i] == Digit(n + (if d == ToClient then 0x8000_0000_0000_0000 else 0), 256, 7 - i)
  {
    BigEndianDigits(NonceValue(d, n), 8, i);
    hide BigEndian, Digit;
  }

  /** Four bytes of packet header: timestamp and reply, highest byte first; and sixteen bytes to a block. */
  lemma {:induction false} PacketShape(h: PacketHeader, fragment: seq<byte>)
    ensures Plaintext(h, fragment)
         == [h.timestamp / 256, h.timestamp % 256, h.timestampReply / 256, h.timestampReply % 256] + fragment
    ensures 16 * (Blocks(fragment) - 1) < |Plaintext(h, fragment)| <= 16 * Blocks(fragment)
  {
    hide BigEndian;
    TwoBytes(h.timestamp);
    TwoBytes(h.timestampReply);
    PlaintextLength(h, fragment);
  }
}
