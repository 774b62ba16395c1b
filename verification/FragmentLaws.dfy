/** The datagram layout is faithful, slicing loses nothing, and reassembly refines a set of indices. */
module FragmentLaws {
  import opened Basics
  import opened Wire
  import opened WireLaws
  import opened Fragments

  // ----- layout -----

  lemma {:induction false} BigEndianRead(v: nat, n: nat)
    requires v < Pow256(n)
    ensures FromBigEndian(BigEndian(v, n)) == v
  {
    if n > 0 {
      BigEndianRead(v / 256, n - 1);
      assert BigEndian(v, n)[..n - 1] == BigEndian(v / 256, n - 1);
    }
  }

  lemma {:induction false} SplitByte(high: nat, low: byte)
    ensures (256 * high + low) / 256 == high && (256 * high + low) % 256 == low
  {
  }

  lemma {:induction false} BigEndianWritten(s: seq<byte>)
    ensures BigEndian(FromBigEndian(s), |s|) == s
  {
    if s != [] {
      var front, v := s[..|s| - 1], FromBigEndian(s);
      BigEndianWritten(front);
      assert v == 256 * FromBigEndian(front) + Last(s);
      hide FromBigEndian;
      SplitByte(FromBigEndian(front), Last(s));
      assert BigEndian(v, |s|) == BigEndian(v / 256, |s| - 1) + [v % 256];
      hide BigEndian;
      assert s == front + [Last(s)];
    }
  }

  lemma {:induction false} ParseOfBytes(f: Fragment)
    ensures Parse(ToBytes(f))
         == Success(f.(num := Flags(f) % 0x8000, isFinal := Flags(f) >= 0x8000))
  {
    hide BigEndian, FromBigEndian, Pow256;
    var id, flags := BigEndian(f.id, 8), BigEndian(Flags(f), 2);
    var s := ToBytes(f);
    Pow256Values();
    BigEndianRead(f.id, 8);
    BigEndianRead(Flags(f), 2);
    assert s == id + (flags + f.contents);
    assert s[..8] == id && s[8..10] == flags && s[10..] == f.contents;
  }

  /** parse(tostring(f)) == f exactly for fragment numbers that fit the 15-bit index. */
  lemma {:induction false} FragmentRoundTrip(f: Fragment)
    ensures Parse(ToBytes(f)) == Success(f) <==> f.num <= MAX_FRAGMENT_INDEX
  {
    ParseOfBytes(f);
  }

  /** A parsed datagram, written again, is the datagram. */
  lemma {:induction false} DatagramRoundTrip(bytes: seq<byte>)
    requires |bytes| >= FRAG_HEADER_LEN
    ensures Parse(bytes).Success? && ToBytes(Parse(bytes).value) == bytes
  {
    hide BigEndian, FromBigEndian, Pow256;
    var f := Parse(bytes).value;
    FromBigEndianBound(bytes[8..10]);
    Pow256Values();
    assert Flags(f) == FromBigEndian(bytes[8..10]);
    BigEndianWritten(bytes[..8]);
    BigEndianWritten(bytes[8..10]);
    assert bytes == bytes[..8] + bytes[8..10] + bytes[10..];
  }

  // ----- slicing -----

  lemma {:induction false} FlattenSlices(payload: seq<byte>, size: nat)
    requires size > 0
    ensures Flatten(Slices(payload, size)) == payload
    ensures forall i | 0 <= i < |Slices(payload, size)| :: |Slices(payload, size)[i]| <= size
    decreases |payload|
  {
    var ss := Slices(payload, size);
    if |payload| <= size {
      assert ss[1..] == [];
    } else {
      FlattenSlices(payload[size..], size);
      assert ss[1..] == Slices(payload[size..], size);
      assert payload == payload[..size] + payload[size..];
    }
  }

  lemma {:induction false} FlattenSnoc(ss: seq<seq<byte>>, x: seq<byte>)
    ensures Flatten(ss + [x]) == Flatten(ss) + x
  {
    if ss == [] {
      assert (ss + [x])[1..] == [];
    } else {
      assert (ss + [x])[1..] == ss[1..] + [x];
      FlattenSnoc(ss[1..], x);
    }
  }

  // ----- counting and gathering slots -----

  /** The indices whose fragment has arrived. */
  function Indices(s: Slots): set<nat> {
    set i: nat | i < |s| && s[i].Some?
  }

  lemma {:induction false} CountIsIndices(s: Slots)
    ensures CountSome(s) == |Indices(s)|
  {
    if s != [] {
      var front := s[..|s| - 1];
      CountIsIndices(front);
      if Last(s).Some? {
        assert Indices(s) == Indices(front) + {|s| - 1};
      } else {
        assert Indices(s) == Indices(front);
      }
    }
  }

  lemma {:induction false} CountOfHoles(s: Slots, n: nat)
    ensures CountSome(s + Holes(n)) == CountSome(s)
  {
    CountIsIndices(s);
    CountIsIndices(s + Holes(n));
    assert Indices(s + Holes(n)) == Indices(s);
  }

  lemma {:induction false} CountFilled(s: Slots, i: nat, f: Fragment)
    requires i < |s| && s[i] == None
    ensures CountSome(s[i := Some(f)]) == CountSome(s) + 1
  {
    CountIsIndices(s);
    CountIsIndices(s[i := Some(f)]);
    assert Indices(s[i := Some(f)]) == Indices(s) + {i};
  }

  /** The indices of a packet of `n` fragments. */
  function Upto(n: nat): (s: set<nat>)
    ensures |s| == n && forall i: nat :: i in s <==> i < n
  {
    if n == 0 then {} else Upto(n - 1) + {n - 1}
  }

  /** As many fragments as slots means no hole. */
  lemma {:induction false} FullCount(s: Slots)
    ensures CountSome(s) == |s| <==> Indices(s) == Upto(|s|)
  {
    CountIsIndices(s);
    assert Indices(s) <= Upto(|s|);
    if |Indices(s)| == |s| { SubsetSameSize(Indices(s), Upto(|s|)); }
  }

  lemma {:induction false} SubsetSameSize<T>(a: set<T>, b: set<T>)
    requires a <= b && |a| == |b|
    ensures a == b
  {
    assert |b - a| == |b| - |a|;
  }

  // ----- the bookkeeping holds for arbitrary fragments -----

  /** The counter always equals the number of filled slots, whoever sends. */
  predicate Counted(a: Assembly) {
    a.arrived == CountSome(a.slots)
  }

  /** No input, hostile or not, makes the arrival counter drift from the slots. */
  lemma {:induction false} CountedAlways(a: Assembly, f: Fragment, z: Zlib)
    requires Counted(a)
    ensures Counted(AddFragment(a, f, z).0)
  {
    hide DecodeInstruction, Gathered, Decompress, Place;
    if Place(a, f).Some? {
      PlaceCounted(a, f);
    }
  }

  lemma {:induction false} PlaceCounted(a: Assembly, f: Fragment)
    requires Counted(a) && Place(a, f).Some?
    ensures Counted(Place(a, f).value)
  {
    if a.currentId != f.id {
      var s := Holes(f.num) + [Some(f)];
      CountOfHoles([], f.num);
      assert [] + Holes(f.num) == Holes(f.num);
      assert s[..|s| - 1] == Holes(f.num);
    } else if f.num >= |a.slots| {
      var s := a.slots + Holes(f.num + 1 - |a.slots|);
      CountOfHoles(a.slots, f.num + 1 - |a.slots|);
      CountFilled(s, f.num, f);
    } else if a.slots[f.num].None? {
      CountFilled(a.slots, f.num, f);
    }
  }

  // ----- honest fragments: a packet is one list of slices under one id -----

  /** The assembly holds part of the packet `p`, and knows the total once the last piece is in. */
  predicate Holds(a: Assembly, p: seq<Fragment>) {
    && |p| >= 1
    && Counted(a)
    && |a.slots| <= |p|
    && (forall i | 0 <= i < |a.slots| :: a.slots[i].Some? ==> a.slots[i].value == p[i])
    && (a.total == None || a.total == Some(|p|))
    && (a.total.Some? <==> |a.slots| == |p| && a.slots[|p| - 1].Some?)
  }

  predicate IsPacket(p: seq<Fragment>, id: u64) {
    && 1 <= |p| <= MAX_FRAGMENT_INDEX + 1
    && forall i | 0 <= i < |p| :: p[i].id == id && p[i].num == i && p[i].isFinal == (i == |p| - 1)
  }

  function Contents(p: seq<Fragment>): seq<byte> {
    if p == [] then [] else Contents(p[..|p| - 1]) + Last(p).contents
  }

  lemma {:induction false} GatheredIsContents(s: Slots, p: seq<Fragment>)
    requires |s| == |p| && forall i | 0 <= i < |p| :: s[i] == Some(p[i])
    ensures Gathered(s) == Some(Contents(p))
  {
    if s != [] {
      GatheredIsContents(s[..|s| - 1], p[..|p| - 1]);
    }
  }

  lemma {:induction false} PacketContents(id: u64, ss: seq<seq<byte>>)
    requires |ss| <= MAX_FRAGMENT_INDEX + 1
    ensures Contents(Packet(id, ss)) == Flatten(ss)
  {
    ContentsFlatten(Packet(id, ss), ss);
  }

  lemma {:induction false} ContentsFlatten(p: seq<Fragment>, ss: seq<seq<byte>>)
    requires |p| == |ss| && forall i | 0 <= i < |p| :: p[i].contents == ss[i]
    ensures Contents(p) == Flatten(ss)
  {
    if p != [] {
      var front := ss[..|ss| - 1];
      ContentsFlatten(p[..|p| - 1], front);
      FlattenSnoc(front, Last(ss));
      assert ss == front + [Last(ss)];
    }
  }

  /** Where the assembly stands for a fragment of id `id`: a new id starts from nothing. */
  function Have(a: Assembly, id: u64): set<nat> {
    if a.currentId == id then Indices(a.slots) else {}
  }

  /** The state in which the completion test of `add_fragment` is made. */
  function Entered(a: Assembly, f: Fragment): Assembly
    requires Place(a, f).Some?
  {
    Conclude(Place(a, f).value, f)
  }

  lemma {:induction false} HonestPlaced(a: Assembly, f: Fragment, p: seq<Fragment>)
    requires IsPacket(p, f.id) && f.num < |p| && f == p[f.num]
    requires a.currentId == f.id ==> Holds(a, p)
    ensures Place(a, f).Some?
    ensures var b := Place(a, f).value;
            && b.currentId == f.id && |b.slots| <= |p|
            && (forall i | 0 <= i < |b.slots| :: b.slots[i].Some? ==> b.slots[i].value == p[i])
            && Indices(b.slots) == Have(a, f.id) + {f.num as nat}
            && Counted(b)
            && b.total == (if a.currentId == f.id then a.total else None)
            && b.bytes == (if a.currentId == f.id then a.bytes else 0)
  {
    if a.currentId != f.id {
      var b := Place(a, f).value;
      assert Indices(b.slots) == {f.num as nat};
      CountIsIndices(b.slots);
    } else {
      PlaceCounted(a, f);
    }
  }

  /** One honest fragment adds its index; the test for completion is "all indices are in". */
  lemma {:induction false} HonestEntered(a: Assembly, f: Fragment, p: seq<Fragment>)
    requires IsPacket(p, f.id) && f.num < |p| && f == p[f.num]
    requires a.currentId == f.id ==> Holds(a, p)
    ensures Place(a, f).Some?
    ensures var c := Entered(a, f);
            && c.currentId == f.id && Holds(c, p)
            && Indices(c.slots) == Have(a, f.id) + {f.num as nat}
            && (c.total == Some(c.arrived) <==> Have(a, f.id) + {f.num as nat} == Upto(|p|))
            && c.bytes == (if a.currentId == f.id then a.bytes else 0)
  {
    hide CountSome, Place, Upto;
    HonestPlaced(a, f, p);
    var b, c, last: nat := Place(a, f).value, Entered(a, f), |p| - 1;
    assert f.isFinal <==> f.num == last;
    assert a.currentId == f.id ==> (a.total.Some? <==> last in Indices(a.slots));
    assert last in Indices(b.slots) <==> |b.slots| == |p| && b.slots[last].Some?;
    assert c.slots == b.slots && c.arrived == b.arrived;
    FullCount(c.slots);
    assert Holds(c, p);
    assert last in Upto(|p|);
  }

  // ----- what a complete packet turns into -----

  datatype Sent = Sent(m: TransportInstruction, p: seq<Fragment>)

  /** A packet as the sender cut it from one instruction. */
  predicate CutFrom(s: Sent, id: u64, z: Zlib) {
    && IsPacket(s.p, id)
    && Contents(s.p) == PayloadOf(s.m, z)
    && |s.m.diff| < U64_LIMIT && |s.m.chaff| < U64_LIMIT
  }

  /** Both size caps are respected. */
  predicate WithinCaps(s: Sent, z: Zlib) {
    && |EncodeInstruction(s.m)| <= DECOMPRESS_LIMIT
    && |PayloadOf(s.m, z)| <= ASSEMBLY_LIMIT
  }

  lemma {:induction false} FullSlots(c: Assembly, p: seq<Fragment>)
    requires Holds(c, p) && Indices(c.slots) == Upto(|p|)
    ensures |c.slots| == |p| && forall i | 0 <= i < |p| :: c.slots[i] == Some(p[i])
  {
    assert |p| - 1 in Upto(|p|);
    forall i | 0 <= i < |p| ensures c.slots[i] == Some(p[i]) {
      assert i in Upto(|p|);
    }
  }

  lemma {:induction false} TakeComplete(c: Assembly, s: Sent, z: Zlib)
    requires Lawful(z) && CutFrom(s, c.currentId, z) && Holds(c, s.p)
    requires Indices(c.slots) == Upto(|s.p|)
    ensures TakeAssembly(c, z).1 == None || TakeAssembly(c, z) == (Reset(c), Some(s.m))
    ensures c.bytes == 0 && WithinCaps(s, z) ==> TakeAssembly(c, z) == (Reset(c), Some(s.m))
    ensures TakeAssembly(c, z).0 in {Reset(c), c.(bytes := c.bytes + |PayloadOf(s.m, z)|)}
  {
    hide DecodeInstruction, EncodeInstruction, Gathered, CountSome, Contents, Upto;
    FullSlots(c, s.p);
    GatheredIsContents(c.slots, s.p);
    InstructionRoundTrip(s.m);
    assert z.inflate(z.compress(EncodeInstruction(s.m))) == Some(EncodeInstruction(s.m));
  }

  // ----- the simple form: one set of indices -----

  datatype Collector = Collector(current: u64, have: set<nat>)

  /** Remember which indices of the current id arrived; report and forget when all `size` have. */
  function Collect(c: Collector, f: Fragment, size: nat): (Collector, bool) {
    var have := (if c.current == f.id then c.have else {}) + {f.num as nat};
    if have == Upto(size) then (Collector(f.id, {}), true) else (Collector(f.id, have), false)
  }

  predicate Genuine(f: Fragment, packets: map<u64, Sent>) {
    f.id in packets && f.num < |packets[f.id].p| && f == packets[f.id].p[f.num]
  }

  predicate Matches(a: Assembly, c: Collector, packets: map<u64, Sent>) {
    && a.currentId == c.current
    && Indices(a.slots) == c.have
    && a.bytes == 0
    && (a.currentId in packets ==> Holds(a, packets[a.currentId].p))
  }

  lemma {:induction false} ReassemblyStep(a: Assembly, c: Collector, f: Fragment, packets: map<u64, Sent>, z: Zlib)
    requires Lawful(z) && Genuine(f, packets) && Matches(a, c, packets)
    requires CutFrom(packets[f.id], f.id, z) && WithinCaps(packets[f.id], z)
    ensures var (c', done) := Collect(c, f, |packets[f.id].p|);
            var (a', out) := AddFragment(a, f, z);
            Matches(a', c', packets) && out == (if done then Some(packets[f.id].m) else None)
  {
    var s := packets[f.id];
    HonestEntered(a, f, s.p);
    hide TakeAssembly, Place, Conclude;
    var e := Entered(a, f);
    if e.total == Some(e.arrived) {
      TakeComplete(e, s, z);
      assert Indices(Reset(e).slots) == {};
      assert Holds(Reset(e), s.p);
    }
  }

  /** The outputs of the assembly over a sequence of arrivals. */
  function Reassemble(a: Assembly, fs: seq<Fragment>, z: Zlib): seq<Option<TransportInstruction>>
    decreases |fs|
  {
    if fs == [] then [] else [AddFragment(a, fs[0], z).1] + Reassemble(AddFragment(a, fs[0], z).0, fs[1..], z)
  }

  function CollectAll(c: Collector, fs: seq<Fragment>, packets: map<u64, Sent>): seq<Option<TransportInstruction>>
    requires forall f <- fs :: Genuine(f, packets)
    decreases |fs|
  {
    if fs == [] then []
    else
      assert Genuine(fs[0], packets);
      var s := packets[fs[0].id];
      var (c', done) := Collect(c, fs[0], |s.p|);
      [if done then Some(s.m) else None] + CollectAll(c', fs[1..], packets)
  }

  ghost predicate AllCut(packets: map<u64, Sent>, z: Zlib) {
    forall id <- packets :: CutFrom(packets[id], id, z) && WithinCaps(packets[id], z)
  }

  lemma {:induction false} ReassemblyFollows(
    a: Assembly, c: Collector, fs: seq<Fragment>, packets: map<u64, Sent>, z: Zlib)
    requires Lawful(z) && AllCut(packets, z) && Matches(a, c, packets)
    requires forall f <- fs :: Genuine(f, packets)
    ensures Reassemble(a, fs, z) == CollectAll(c, fs, packets)
    decreases |fs|
  {
    if fs != [] {
      assert Genuine(fs[0], packets);
      ReassemblyStep(a, c, fs[0], packets, z);
      hide AddFragment, Collect;
      var c' := Collect(c, fs[0], |packets[fs[0].id].p|).0;
      ReassemblyFollows(AddFragment(a, fs[0], z).0, c', fs[1..], packets, z);
    }
  }

  /**
   For any order, interleaving and repetition of fragments the sender cut, the assembly
   reports exactly what a set of indices would: an instruction when the last missing index
   of its id arrives, the one that was sent, and nothing otherwise.
   */
  lemma {:induction false} ReassemblyRefinesCollector(fs: seq<Fragment>, packets: map<u64, Sent>, z: Zlib)
    requires Lawful(z) && AllCut(packets, z)
    requires forall f <- fs :: Genuine(f, packets)
    ensures Reassemble(EMPTY_ASSEMBLY, fs, z) == CollectAll(Collector(0, {}), fs, packets)
  {
    assert Indices([]) == {};
    assert Matches(EMPTY_ASSEMBLY, Collector(0, {}), packets);
    ReassemblyFollows(EMPTY_ASSEMBLY, Collector(0, {}), fs, packets, z);
  }
}
