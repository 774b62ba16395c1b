/** The size of what is cut, and what the assembly makes of arbitrary fragments, whoever sent them. */
module Arrivals {
  import opened Basics
  import opened Wire
  import opened Fragments
  import opened FragmentLaws

  // ----- cutting -----

  /** All slices but the last are full, and the last is not empty unless the payload is. */
  lemma {:induction false} SlicesFull(payload: seq<byte>, size: nat)
    requires size > 0
    ensures var ss := Slices(payload, size);
            && (forall i | 0 <= i < |ss| - 1 :: |ss[i]| == size)
            && |payload| == size * (|ss| - 1) + |Last(ss)|
            && |Last(ss)| <= size && (payload != [] ==> Last(ss) != [])
    decreases |payload|
  {
    if |payload| > size { SlicesFull(payload[size..], size); }
  }

  lemma {:induction false} TimesRises(size: nat, a: nat, b: nat)
    requires a <= b
    ensures size * a <= size * b
  {
    var d := b - a;
    assert size * b == size * a + size * d;
  }

  /** `n` pieces hold a payload of more than `n - 1` and at most `n` sizes. */
  lemma {:induction false} Pieces(length: nat, size: nat, n: nat, last: nat)
    requires n >= 1 && size > 0 && length == size * (n - 1) + last && last <= size && (length > 0 ==> last > 0)
    ensures n <= 32768 <==> length <= size * 32768
  {
    if n <= 32768 {
      TimesRises(size, n - 1, 32767);
    } else {
      TimesRises(size, 32768, n - 1);
    }
  }

  /**
   An instruction is cut if and only if a datagram has room behind the ten bytes of header and 32768
   of them hold the payload. Then every datagram fits the MTU, all but the last fill it, and the
   contents in order are the payload; and otherwise which error it is.
   */
  lemma {:induction false} MakeExact(f: Framer, m: TransportInstruction, mtu: nat, z: Zlib)
    ensures var (g, r) := MakeFragments(f, m, mtu, z);
            var payload := PayloadOf(m, z);
            && (r == Failure(MtuTooSmall) <==> mtu <= 10)
            && (mtu <= 10 ==> g == f)
            && (mtu > 10 ==> (r.Success? <==> |payload| <= (mtu - 10) * 32768) && (r.Failure? ==> r.error == IndexTooLarge))
            && (r.Success? ==>
                  && IsPacket(r.value, g.nextId) && Contents(r.value) == payload
                  && (forall i | 0 <= i < |r.value| :: |ToBytes(r.value[i])| <= mtu)
                  && (forall i | 0 <= i < |r.value| - 1 :: |ToBytes(r.value[i])| == mtu))
  {
    if mtu > 10 {
      var payload, size := PayloadOf(m, z), mtu - 10;
      hide PayloadOf, Stamp, Slices, Contents, Flatten, BigEndian;
      var ss := Slices(payload, size);
      SlicesFull(payload, size);
      FlattenSlices(payload, size);
      Pieces(|payload|, size, |ss|, |Last(ss)|);
      if |ss| <= 32768 { PacketContents(Stamp(f, m, mtu).nextId, ss); }
    }
  }

  // ----- arbitrary fragments -----

  /**
   What the slots hold was seen, under the current id and its own number; the known total is the
   place behind a final fragment; and the counter counts.
   */
  predicate Known(a: Assembly, seen: set<Fragment>) {
    && Counted(a)
    && (forall i | 0 <= i < |a.slots| && a.slots[i].Some? ::
          a.slots[i].value in seen && a.slots[i].value.id == a.currentId && a.slots[i].value.num == i)
    && (a.total.Some? ==> Ended(a.slots, a.total.value))
  }

  /** A final fragment is in the slot before `n`. */
  predicate Ended(s: Slots, n: nat) {
    1 <= n <= |s| && s[n - 1].Some? && s[n - 1].value.isFinal
  }

  /** The fragments of a full set of slots. */
  function Filled(s: Slots): (p: seq<Fragment>)
    requires forall i | 0 <= i < |s| :: s[i].Some?
    ensures |p| == |s| && forall i | 0 <= i < |s| :: s[i] == Some(p[i])
  {
    seq(|s|, i requires 0 <= i < |s| => s[i].value)
  }

  predicate Full(s: Slots) {
    s != [] && (forall i | 0 <= i < |s| :: s[i].Some?) && Last(s).value.isFinal
  }

  /** What a packet's contents stand for, within the limits of eight and four megabytes. */
  function Opened(encoded: seq<byte>, z: Zlib): Option<TransportInstruction> {
    match z.inflate(encoded)
    case None => None
    case Some(x) =>
      if |x| > 4_194_304 then None
      else
        match DecodeInstruction(x)
        case Failure(_) => None
        case Success(m) => Some(m)
  }

  lemma {:induction false} ConcludeKnows(b: Assembly, f: Fragment, seen: set<Fragment>)
    requires Known(b, seen) && f.num < |b.slots| && b.slots[f.num] == Some(f)
    ensures Known(Conclude(b, f), seen)
  {
  }

  lemma {:induction false} PlaceKnows(a: Assembly, f: Fragment, seen: set<Fragment>)
    requires Known(a, seen) && Place(a, f).Some?
    ensures var b := Place(a, f).value;
            Known(b, seen + {f}) && f.num < |b.slots| && b.slots[f.num] == Some(f)
  {
    PlaceCounted(a, f);
    hide CountSome;
  }

  lemma {:induction false} FullSlotsCount(s: Slots)
    ensures CountSome(s) == |s| <==> forall i | 0 <= i < |s| :: s[i].Some?
  {
    FullCount(s);
    assert forall i: nat | i < |s| :: i in Indices(s) <==> s[i].Some?;
    hide CountSome;
  }

  /** When the counter meets the total, either every slot is filled, or there is a hole to reset for. */
  lemma {:induction false} GatheredExact(c: Assembly)
    requires c.total == Some(c.arrived) && Counted(c) && Ended(c.slots, c.arrived)
    ensures Full(c.slots) ==> Gathered(c.slots) == Some(Contents(Filled(c.slots)))
    ensures !Full(c.slots) ==> Gathered(c.slots) == None
  {
    hide CountSome, Gathered, Contents;
    FullSlotsCount(c.slots);
    if Full(c.slots) { GatheredIsContents(c.slots, Filled(c.slots)); } else { HoleStops(c.slots); }
  }

  lemma {:induction false} HoleStops(s: Slots)
    requires exists i | 0 <= i < |s| :: s[i].None?
    ensures Gathered(s) == None
  {
    if Last(s).Some? {
      var i :| 0 <= i < |s| && s[i].None?;
      assert s[..|s| - 1][i].None?;
      HoleStops(s[..|s| - 1]);
    }
  }

  /**
   What follows once the test for completion is made: full slots are opened, within the limit of
   eight megabytes over all attempts; as many fragments as the total but with a hole among them are
   forgotten; and else more is waited for. A packet that does not open stays, and adds to the limit.
   */
  predicate Tested(c: Assembly, a': Assembly, out: Option<TransportInstruction>, z: Zlib) {
    if c.total == Some(|c.slots|) && Full(c.slots) then
      var encoded := Contents(Filled(c.slots));
      if c.bytes + |encoded| > 8_388_608 then a' == Reset(c) && out == None
      else out == Opened(encoded, z) && a' == if out.Some? then Reset(c) else c.(bytes := c.bytes + |encoded|)
    else
      out == None && a' == if c.total == Some(CountSome(c.slots)) then Reset(c) else c
  }

  lemma {:induction false} TakeExact(c: Assembly, seen: set<Fragment>, z: Zlib)
    requires Known(c, seen)
    ensures var (a', out) := if c.total == Some(c.arrived) then TakeAssembly(c, z) else (c, None);
            Tested(c, a', out, z)
  {
    FullSlotsCount(c.slots);
    if c.total == Some(c.arrived) { GatheredExact(c); }
    hide DecodeInstruction, Gathered, Contents, Filled, CountSome;
  }

  /** Where an arrival leaves the slots before completion is tested: under its id, in its place, cut behind a final one. */
  predicate Arrived(a: Assembly, f: Fragment, c: Assembly) {
    && c.currentId == f.id && f.num < |c.slots| && c.slots[f.num] == Some(f)
    && c.bytes == (if a.currentId == f.id then a.bytes else 0)
    && (f.isFinal ==> |c.slots| == f.num + 1 && c.total == Some(|c.slots|))
    && (!f.isFinal ==> c.total == if a.currentId == f.id then a.total else None)
    && forall i: nat | i < |c.slots| && i != f.num ::
         c.slots[i] == if a.currentId == f.id && i < |a.slots| then a.slots[i] else None
  }

  /** A fragment that contradicts the one in its place is dropped. */
  predicate Contradicts(a: Assembly, f: Fragment) {
    a.currentId == f.id && f.num < |a.slots| && a.slots[f.num].Some? && a.slots[f.num] != Some(f)
  }

  lemma {:induction false} EntersExact(a: Assembly, f: Fragment)
    ensures Place(a, f).None? <==> Contradicts(a, f)
    ensures Place(a, f).Some? ==> Arrived(a, f, Entered(a, f))
  {
    hide CountSome;
  }

  /**
   One arrival of any fragment, whatever came before: dropped if it contradicts what is in its place,
   else put there, the slots of another id forgotten; and then the packet is tested.
   */
  lemma {:induction false} AddExact(a: Assembly, f: Fragment, seen: set<Fragment>, z: Zlib)
    requires Known(a, seen)
    ensures var (a', out) := AddFragment(a, f, z);
            && Known(a', seen + {f})
            && (if Contradicts(a, f) then a' == a && out == None
                else exists c :: Arrived(a, f, c) && Known(c, seen + {f}) && Tested(c, a', out, z))
  {
    hide TakeAssembly, CountSome, Contents, Opened;
    EntersExact(a, f);
    if !Contradicts(a, f) {
      PlaceKnows(a, f, seen);
      ConcludeKnows(Place(a, f).value, f, seen + {f});
      var c := Entered(a, f);
      hide Place, Conclude;
      TakeExact(c, seen + {f}, z);
      ResetKnows(c, seen + {f});
    }
  }

  lemma {:induction false} ResetKnows(c: Assembly, seen: set<Fragment>)
    ensures Known(Reset(c), seen)
    ensures forall n: nat :: Known(c, seen) ==> Known(c.(bytes := n), seen)
  {
  }

  // ----- over runs -----

  /** Fragments under one id, in order from the first to a final one, all of them seen. */
  predicate Complete(p: seq<Fragment>, id: u64, seen: set<Fragment>) {
    && p != [] && Last(p).isFinal
    && forall i | 0 <= i < |p| :: p[i] in seen && p[i].id == id && p[i].num == i
  }

  /** An instruction stands for a complete packet of what was seen, within the limits. */
  ghost predicate Founded(m: TransportInstruction, id: u64, seen: set<Fragment>, z: Zlib) {
    exists p :: Complete(p, id, seen) && |Contents(p)| <= 8_388_608 && Opened(Contents(p), z) == Some(m)
  }

  lemma {:induction false} OutputFounded(c: Assembly, a': Assembly, m: TransportInstruction, seen: set<Fragment>, z: Zlib)
    requires Known(c, seen) && Tested(c, a', Some(m), z)
    ensures Founded(m, c.currentId, seen, z)
  {
    hide CountSome, Contents, Opened;
    assert Complete(Filled(c.slots), c.currentId, seen);
  }

  function SeenBy(fs: seq<Fragment>, k: nat): set<Fragment>
    requires k <= |fs|
  {
    set i | 0 <= i < k :: fs[i]
  }

  lemma {:induction false} RunFounded(a: Assembly, fs: seq<Fragment>, seen: set<Fragment>, k: nat, z: Zlib)
    requires Known(a, seen) && k < |fs|
    ensures |Reassemble(a, fs, z)| == |fs|
    ensures var out := Reassemble(a, fs, z)[k];
            out.Some? ==> Founded(out.value, fs[k].id, seen + SeenBy(fs, k + 1), z)
    decreases |fs|
  {
    hide AddFragment, Tested, Known, Founded;
    AddExact(a, fs[0], seen, z);
    var (a', out) := AddFragment(a, fs[0], z);
    if |fs| > 1 { RunFounded(a', fs[1..], seen + {fs[0]}, if k > 0 then k - 1 else 0, z); }
    if k == 0 {
      assert SeenBy(fs, 1) == {fs[0]};
      if out.Some? {
        var c :| Arrived(a, fs[0], c) && Known(c, seen + {fs[0]}) && Tested(c, a', out, z);
        OutputFounded(c, a', out.value, seen + {fs[0]}, z);
      }
    } else {
      assert seen + {fs[0]} + SeenBy(fs[1..], k) == seen + SeenBy(fs, k + 1);
    }
  }

  /**
   Whatever fragments arrive, from anyone and in any order: an instruction that comes out stands for
   fragments that all arrived, under the id of the one that completed it, one for each number from
   the first to a final one; at most eight megabytes of them, that inflate to at most four.
   */
  lemma {:induction false} OutputsAreFounded(fs: seq<Fragment>, k: nat, z: Zlib)
    requires k < |fs|
    ensures |Reassemble(EMPTY_ASSEMBLY, fs, z)| == |fs|
    ensures var out := Reassemble(EMPTY_ASSEMBLY, fs, z)[k];
            out.Some? ==> Founded(out.value, fs[k].id, SeenBy(fs, k + 1), z)
  {
    hide Founded, Reassemble;
    RunFounded(EMPTY_ASSEMBLY, fs, {}, k, z);
    assert {} + SeenBy(fs, k + 1) == SeenBy(fs, k + 1);
  }
}
