/** The fragmenter and the assembly as the objects the endpoints own. */
module Framing {
  import opened Basics
  import opened Wire
  import opened Fragments

  class Fragmenter {
    var nextId: u64
    var lastHeader: Option<Header>
    var lastMtu: nat

    function State(): Framer
      reads this
    {
      Framer(nextId, lastHeader, lastMtu)
    }

    constructor ()
      ensures State() == FRESH_FRAMER
    {
      nextId, lastHeader, lastMtu := 0, None, 0xFFFF_FFFF_FFFF_FFFF;
    }

    method Make(m: TransportInstruction, mtu: nat, z: Zlib) returns (r: Result<seq<Fragment>, FragmentError>)
      modifies this
      ensures (State(), r) == MakeFragments(old(State()), m, mtu, z)
    {
      hide EncodeInstruction;
      var size := if mtu < FRAG_HEADER_LEN then 0 else mtu - FRAG_HEADER_LEN;
      if size == 0 {
        return Failure(MtuTooSmall);
      }
      var header := HeaderOf(m);
      if lastHeader != Some(header) || lastMtu != size {
        nextId := (nextId + 1) % 0x1_0000_0000_0000_0000;
      }
      lastHeader, lastMtu := Some(header), size;
      assert State() == Stamp(old(State()), m, mtu);

      r := Slice(PayloadOf(m, z), size);
    }

    /** The slicing loop: `rest` shrinks from the front, `index` counts the pieces. */
    method Slice(payload: seq<byte>, size: nat) returns (r: Result<seq<Fragment>, FragmentError>)
      requires size > 0
      ensures r == var ss := Slices(payload, size);
                   if |ss| > MAX_FRAGMENT_INDEX + 1 then Failure(IndexTooLarge) else Success(Packet(nextId, ss))
    {
      ghost var ss := Slices(payload, size);
      var rest, index: nat := payload, 0;
      var fragments: seq<Fragment> := [];
      assert ss[0..] == ss;
      while true
        invariant index < |ss| && index == |fragments| <= MAX_FRAGMENT_INDEX + 1
        invariant Slices(rest, size) == ss[index..]
        invariant forall i | 0 <= i < index :: fragments[i] == Fragment(nextId, i, false, ss[i])
        decreases |rest|
      {
        if index > MAX_FRAGMENT_INDEX {
          return Failure(IndexTooLarge);
        }
        var isFinal := |rest| <= size;
        var chunk := if isFinal then rest else rest[..size];
        assert chunk == ss[index..][0];
        fragments := fragments + [Fragment(nextId, index, isFinal, chunk)];
        index := index + 1;
        if isFinal {
          assert |ss[index - 1..]| == 1;
          assert fragments == Packet(nextId, ss);
          return Success(fragments);
        }
        assert ss[index - 1..][1..] == ss[index..];
        rest := rest[|chunk|..];
      }
    }
  }

  /** Gathering more slots never yields fewer bytes, and never mends a hole. */
  lemma {:induction false} GatheredGrows(s: Slots, n: nat)
    requires n <= |s|
    ensures Gathered(s).Some? ==>
              Gathered(s[..n]).Some? && |Gathered(s[..n]).value| <= |Gathered(s).value|
  {
    if n == |s| {
      assert s[..n] == s;
    } else {
      GatheredGrows(s[..|s| - 1], n);
      assert s[..|s| - 1][..n] == s[..n];
    }
  }

  class FragmentAssembly {
    var slots: Slots
    var currentId: u64
    var arrived: nat
    var total: Option<nat>
    var bytes: nat

    function State(): Assembly
      reads this
    {
      Assembly(slots, currentId, arrived, total, bytes)
    }

    constructor ()
      ensures State() == EMPTY_ASSEMBLY
    {
      slots, currentId, arrived, total, bytes := [], 0, 0, None, 0;
    }

    method Add(f: Fragment, z: Zlib) returns (out: Option<TransportInstruction>)
      modifies this
      ensures (State(), out) == AddFragment(old(State()), f, z)
    {
      hide TakeAssembly, CountSome;
      if currentId != f.id {
        slots := Holes(f.num) + [Some(f)];
        arrived, total, bytes, currentId := 1, None, 0, f.id;
      } else {
        if f.num >= |slots| {
          slots := slots + Holes(f.num + 1 - |slots|);
        }
        match slots[f.num]
        case Some(existing) =>
          if existing != f { return None; }
        case None =>
          slots := slots[f.num := Some(f)];
          arrived := arrived + 1;
      }
      assert Place(old(State()), f) == Some(State());
      label placed:
      if f.isFinal {
        var count := f.num + 1;
        if count < |slots| {
          slots := slots[..count];
          Recount();
        }
        total := Some(count);
      }
      assert State() == Conclude(old@placed(State()), f);
      if total == Some(arrived) {
        out := Take(z);
      } else {
        out := None;
      }
    }

    method Recount()
      modifies this`arrived
      ensures arrived == CountSome(slots)
    {
      arrived := 0;
      for i := 0 to |slots|
        invariant arrived == CountSome(slots[..i])
      {
        assert slots[..i + 1][..i] == slots[..i];
        if slots[i].Some? { arrived := arrived + 1; }
      }
      assert slots[..|slots|] == slots;
    }

    method Clear()
      modifies this
      ensures State() == Reset(old(State()))
    {
      slots, arrived, total, bytes := [], 0, None, 0;
    }

    method Take(z: Zlib) returns (out: Option<TransportInstruction>)
      modifies this
      ensures (State(), out) == TakeAssembly(old(State()), z)
    {
      hide DecodeInstruction;
      var encoded := [];
      out := None;
      for i := 0 to |slots|
        invariant slots == old(slots)
        invariant Gathered(slots[..i]) == Some(encoded)
        invariant bytes == old(bytes) + |encoded| && (i > 0 ==> bytes <= ASSEMBLY_LIMIT)
        invariant State() == old(State()).(bytes := bytes)
      {
        assert slots[..i + 1][..i] == slots[..i];
        if slots[i].None? {
          GatheredGrows(slots, i + 1);
          Clear();
          return;
        }
        var contents := slots[i].value.contents;
        GatheredGrows(slots, i + 1);
        if bytes + |contents| > ASSEMBLY_LIMIT {
          Clear();
          return;
        }
        bytes := bytes + |contents|;
        encoded := encoded + contents;
      }
      assert slots[..|slots|] == slots;
      var inflated := Decompress(z, encoded);
      if inflated.None? { return; }
      var decoded := DecodeInstruction(inflated.value);
      if decoded.Failure? { return; }
      Clear();
      out := Some(decoded.value);
    }
  }
}
