/** Fragment framing: the datagram layout, slicing with the id rule, and reassembly. */
module Fragments {
  import opened Basics
  import opened Wire

  const FRAG_HEADER_LEN: nat := 10
  const DECOMPRESS_LIMIT: nat := 4 * 1024 * 1024
  const ASSEMBLY_LIMIT: nat := 8 * 1024 * 1024
  const MAX_FRAGMENT_INDEX: nat := 0x7FFF

  type u16 = x: int | 0 <= x < 0x1_0000

  datatype FragmentError = TooShort | IndexTooLarge | MtuTooSmall

  datatype Fragment = Fragment(id: u64, num: u16, isFinal: bool, contents: seq<byte>)

  // ----- layout -----

  function BigEndian(v: nat, n: nat): (s: seq<byte>)
    ensures |s| == n
  {
    if n == 0 then [] else BigEndian(v / 256, n - 1) + [v % 256]
  }

  function FromBigEndian(s: seq<byte>): nat {
    if s == [] then 0 else 256 * FromBigEndian(s[..|s| - 1]) + Last(s)
  }

  function Pow256(n: nat): nat {
    if n == 0 then 1 else 256 * Pow256(n - 1)
  }

  /** `((final as u16) << 15) | num`: the top bit of an oversized number is already set. */
  function Flags(f: Fragment): u16 {
    if f.isFinal && f.num < 0x8000 then f.num + 0x8000 else f.num
  }

  function ToBytes(f: Fragment): seq<byte> {
    BigEndian(f.id, 8) + BigEndian(Flags(f), 2) + f.contents
  }

  function Parse(bytes: seq<byte>): Result<Fragment, FragmentError> {
    if |bytes| < FRAG_HEADER_LEN then Failure(TooShort)
    else
      FromBigEndianBound(bytes[..8]);
      FromBigEndianBound(bytes[8..10]);
      Pow256Values();
      var flags := FromBigEndian(bytes[8..10]);
      Success(Fragment(FromBigEndian(bytes[..8]), flags % 0x8000, flags >= 0x8000, bytes[10..]))
  }

  lemma {:induction false} Pow256Values()
    ensures Pow256(2) == 0x1_0000
    ensures Pow256(8) == U64_LIMIT
  {
    assert Pow256(2) == 256 * 256;
    assert Pow256(4) == 256 * 256 * Pow256(2);
    assert Pow256(6) == 256 * 256 * Pow256(4);
    assert Pow256(8) == 256 * 256 * Pow256(6);
  }

  lemma {:induction false} FromBigEndianBound(s: seq<byte>)
    ensures FromBigEndian(s) < Pow256(|s|)
  {
    if s != [] { FromBigEndianBound(s[..|s| - 1]); }
  }

  // ----- compression, known only by its law -----

  datatype Zlib = Zlib(compress: seq<byte> -> seq<byte>, inflate: seq<byte> -> Option<seq<byte>>)

  ghost predicate Lawful(z: Zlib) {
    forall x: seq<byte> :: z.inflate(z.compress(x)) == Some(x)
  }

  /** Inflation capped at the decompression limit. */
  function Decompress(z: Zlib, s: seq<byte>): Option<seq<byte>> {
    match z.inflate(s)
    case Some(x) => if |x| > DECOMPRESS_LIMIT then None else Some(x)
    case None => None
  }

  // ----- slicing -----

  datatype Header = Header(
    protocolVersion: u32, oldNum: u64, newNum: u64, ackNum: u64, throwawayNum: u64, chaff: seq<byte>)

  /** Everything but the diff: what the id rule compares. */
  function HeaderOf(m: TransportInstruction): Header {
    Header(m.protocolVersion, m.oldNum, m.newNum, m.ackNum, m.throwawayNum, m.chaff)
  }

  datatype Framer = Framer(nextId: u64, lastHeader: Option<Header>, lastMtu: nat)

  const FRESH_FRAMER := Framer(0, None, 0xFFFF_FFFF_FFFF_FFFF)

  function LastAckSent(f: Framer): Option<u64> {
    match f.lastHeader
    case Some(h) => Some(h.ackNum)
    case None => None
  }

  /** The payload budget of one fragment. */
  function Budget(mtu: nat): nat {
    if mtu < FRAG_HEADER_LEN then 0 else mtu - FRAG_HEADER_LEN
  }

  function Slices(payload: seq<byte>, size: nat): (ss: seq<seq<byte>>)
    requires size > 0
    ensures |ss| >= 1
    decreases |payload|
  {
    if |payload| <= size then [payload] else [payload[..size]] + Slices(payload[size..], size)
  }

  function Flatten(ss: seq<seq<byte>>): seq<byte> {
    if ss == [] then [] else ss[0] + Flatten(ss[1..])
  }

  function Packet(id: u64, ss: seq<seq<byte>>): (fs: seq<Fragment>)
    requires |ss| <= MAX_FRAGMENT_INDEX + 1
    ensures |fs| == |ss|
    ensures forall i | 0 <= i < |ss| :: fs[i] == Fragment(id, i, i == |ss| - 1, ss[i])
  {
    seq(|ss|, i requires 0 <= i < |ss| => Fragment(id, i, i == |ss| - 1, ss[i]))
  }

  /** The framer after a send; the id moves only when the header or the budget did. */
  function Stamp(f: Framer, m: TransportInstruction, mtu: nat): Framer {
    var same := f.lastHeader == Some(HeaderOf(m)) && f.lastMtu == Budget(mtu);
    Framer(if same then f.nextId else (f.nextId + 1) % 0x1_0000_0000_0000_0000, Some(HeaderOf(m)), Budget(mtu))
  }

  function PayloadOf(m: TransportInstruction, z: Zlib): seq<byte> {
    z.compress(EncodeInstruction(m))
  }

  function MakeFragments(f: Framer, m: TransportInstruction, mtu: nat, z: Zlib)
    : (Framer, Result<seq<Fragment>, FragmentError>)
  {
    if Budget(mtu) == 0 then (f, Failure(MtuTooSmall))
    else
      var g := Stamp(f, m, mtu);
      var ss := Slices(PayloadOf(m, z), Budget(mtu));
      (g, if |ss| > MAX_FRAGMENT_INDEX + 1 then Failure(IndexTooLarge) else Success(Packet(g.nextId, ss)))
  }

  // ----- reassembly -----

  type Slots = seq<Option<Fragment>>

  datatype Assembly = Assembly(slots: Slots, currentId: u64, arrived: nat, total: Option<nat>, bytes: nat)

  const EMPTY_ASSEMBLY := Assembly([], 0, 0, None, 0)

  function Holes(n: nat): (s: Slots)
    ensures |s| == n && forall i | 0 <= i < n :: s[i] == None
  {
    seq(n, _ => None)
  }

  function CountSome(s: Slots): nat {
    if s == [] then 0 else CountSome(s[..|s| - 1]) + (if Last(s).Some? then 1 else 0)
  }

  /** The contents in index order, or nothing when a slot is a hole. */
  function Gathered(s: Slots): Option<seq<byte>> {
    if s == [] then Some([])
    else
      match Gathered(s[..|s| - 1])
      case None => None
      case Some(x) => if Last(s).Some? then Some(x + Last(s).value.contents) else None
  }

  function Reset(a: Assembly): Assembly {
    Assembly([], a.currentId, 0, None, 0)
  }

  function TakeAssembly(a: Assembly, z: Zlib): (Assembly, Option<TransportInstruction>) {
    match Gathered(a.slots)
    case None => (Reset(a), None)
    case Some(encoded) =>
      if a.slots != [] && a.bytes + |encoded| > ASSEMBLY_LIMIT then (Reset(a), None)
      else
        var stuck := a.(bytes := a.bytes + |encoded|);
        match Decompress(z, encoded)
        case None => (stuck, None)
        case Some(x) =>
          match DecodeInstruction(x)
          case Failure(_) => (stuck, None)
          case Success(m) => (Reset(a), Some(m))
  }

  /** The fragment put in its slot; nothing when it conflicts with the one already there. */
  function Place(a: Assembly, f: Fragment): (r: Option<Assembly>)
    ensures r.Some? ==> f.num < |r.value.slots|
  {
    if a.currentId != f.id then
      Some(Assembly(Holes(f.num) + [Some(f)], f.id, 1, None, 0))
    else
      var slots := if f.num >= |a.slots| then a.slots + Holes(f.num + 1 - |a.slots|) else a.slots;
      match slots[f.num]
      case Some(existing) => if existing != f then None else Some(a.(slots := slots))
      case None => Some(a.(slots := slots[f.num := Some(f)], arrived := a.arrived + 1))
  }

  /** A final fragment fixes the total; slots past it are dropped and the rest recounted. */
  function Conclude(a: Assembly, f: Fragment): Assembly
    requires f.num < |a.slots|
  {
    if !f.isFinal then a
    else if f.num + 1 < |a.slots| then
      a.(slots := a.slots[..f.num + 1], arrived := CountSome(a.slots[..f.num + 1]), total := Some(f.num + 1))
    else a.(total := Some(f.num + 1))
  }

  function AddFragment(a: Assembly, f: Fragment, z: Zlib): (Assembly, Option<TransportInstruction>) {
    match Place(a, f)
    case None => (a, None)
    case Some(b) =>
      var c := Conclude(b, f);
      if c.total == Some(c.arrived) then TakeAssembly(c, z) else (c, None)
  }
}
