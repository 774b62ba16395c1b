/** The sealed datagram: nonces, the sequence counter and the block budget, over an abstract cipher. */
module Sealing {
  import opened Basics
  import opened Fragments
  import opened FragmentLaws

  const WIRE_NONCE_LEN: nat := 8
  const TAG_LEN: nat := 16
  const MIN_DATAGRAM_LEN: nat := 24
  const SEQ_LIMIT: nat := 0x8000_0000_0000_0000
  const BLOCK_LIMIT: nat := 0x8000_0000_0000

  datatype Direction = ToServer | ToClient

  datatype CryptoError =
    | DatagramTooShort | TagMismatch | PacketTooShort | DirectionMismatch
    | SequenceExhausted | SessionExhausted | EncryptFailed

  datatype PacketHeader = PacketHeader(timestamp: u16, timestampReply: u16)

  /** The cipher, known only by its law: what is decrypted under its nonce is what was encrypted. */
  datatype Aead = Aead(
    encrypt: (seq<byte>, seq<byte>) -> Option<seq<byte>>,
    decrypt: (seq<byte>, seq<byte>) -> Option<seq<byte>>)

  ghost predicate Sound(aead: Aead) {
    forall nonce: seq<byte>, packet: seq<byte> ::
      match aead.encrypt(nonce, packet)
      case None => true
      case Some(c) => |c| == |packet| + TAG_LEN && aead.decrypt(nonce, c) == Some(packet)
  }

  // ----- nonces -----

  /** Bit 63 is the direction; a sequence number's own bit 63 is masked off. */
  function NonceValue(d: Direction, n: u64): u64 {
    (if d == ToClient then 0x8000_0000_0000_0000 else 0) + n % 0x8000_0000_0000_0000
  }

  function SeqOf(value: u64): u64 {
    value % 0x8000_0000_0000_0000
  }

  function DirectionOf(value: u64): Direction {
    if value / 0x8000_0000_0000_0000 == 0 then ToServer else ToClient
  }

  function WireSuffix(value: u64): (s: seq<byte>)
    ensures |s| == WIRE_NONCE_LEN
  {
    BigEndian(value, 8)
  }

  function FromWireSuffix(s: seq<byte>): u64
    requires |s| == WIRE_NONCE_LEN
  {
    FromBigEndianBound(s);
    Pow256Values();
    FromBigEndian(s)
  }

  /** The twelve bytes the cipher sees. */
  function Nonce12(value: u64): (s: seq<byte>)
    ensures |s| == 12
  {
    [0, 0, 0, 0] + BigEndian(value, 8)
  }

  lemma {:induction false} SuffixRoundTrip(value: u64)
    ensures FromWireSuffix(WireSuffix(value)) == value
  {
    Pow256Values();
    BigEndianRead(value, 8);
  }

  /** A nonce names its direction and its sequence number, and nothing else has the same twelve bytes. */
  lemma {:induction false} NonceIsInjective(d: Direction, n: u64, d': Direction, n': u64)
    requires n < SEQ_LIMIT && n' < SEQ_LIMIT
    ensures SeqOf(NonceValue(d, n)) == n && DirectionOf(NonceValue(d, n)) == d
    ensures Nonce12(NonceValue(d, n)) == Nonce12(NonceValue(d', n')) ==> d == d' && n == n'
  {
    hide BigEndian, FromWireSuffix, FromBigEndian;
    var v, v' := NonceValue(d, n), NonceValue(d', n');
    SuffixRoundTrip(v);
    SuffixRoundTrip(v');
    assert Nonce12(v)[4..] == WireSuffix(v) && Nonce12(v')[4..] == WireSuffix(v');
    if Nonce12(v) == Nonce12(v') {
      assert v == v';
    }
  }

  // ----- sealing -----

  datatype SealerState = SealerState(direction: Direction, nextSeq: u64, blocks: u64)

  function NewSealer(d: Direction): SealerState {
    SealerState(d, 0, 0)
  }

  function Plaintext(header: PacketHeader, fragment: seq<byte>): seq<byte> {
    BigEndian(header.timestamp, 2) + BigEndian(header.timestampReply, 2) + fragment
  }

  function ParsePacket(packet: seq<byte>): Option<(PacketHeader, seq<byte>)> {
    if |packet| < 4 then None
    else
      FromBigEndianBound(packet[..2]);
      FromBigEndianBound(packet[2..4]);
      Pow256Values();
      Some((PacketHeader(FromBigEndian(packet[..2]), FromBigEndian(packet[2..4])), packet[4..]))
  }

  function Blocks(fragment: seq<byte>): nat {
    (4 + |fragment| + 15) / 16
  }

  /** The counter after an attempt; it is a 64-bit sum and counts refused attempts too. */
  function Charged(s: SealerState, fragment: seq<byte>): u64 {
    (s.blocks + Blocks(fragment)) % 0x1_0000_0000_0000_0000
  }

  function Seal(s: SealerState, header: PacketHeader, fragment: seq<byte>, aead: Aead)
    : (SealerState, Result<seq<byte>, CryptoError>)
  {
    var charged := s.(blocks := Charged(s, fragment));
    if charged.blocks >= BLOCK_LIMIT then (charged, Failure(SessionExhausted))
    else if s.nextSeq >= SEQ_LIMIT then (charged, Failure(SequenceExhausted))
    else
      var value := NonceValue(s.direction, s.nextSeq);
      var taken := charged.(nextSeq := s.nextSeq + 1);
      match aead.encrypt(Nonce12(value), Plaintext(header, fragment))
      case None => (taken, Failure(EncryptFailed))
      case Some(c) => (taken, Success(WireSuffix(value) + c))
  }

  function Open(peer: Direction, datagram: seq<byte>, aead: Aead)
    : Result<(u64, PacketHeader, seq<byte>), CryptoError>
  {
    if |datagram| < MIN_DATAGRAM_LEN then Failure(DatagramTooShort)
    else
      var value := FromWireSuffix(datagram[..8]);
      if DirectionOf(value) != peer then Failure(DirectionMismatch)
      else
        match aead.decrypt(Nonce12(value), datagram[8..])
        case None => Failure(TagMismatch)
        case Some(packet) =>
          match ParsePacket(packet)
          case None => Failure(PacketTooShort)
          case Some((header, fragment)) => Success((SeqOf(value), header, fragment))
  }

  lemma {:induction false} PacketRoundTrip(header: PacketHeader, fragment: seq<byte>)
    ensures ParsePacket(Plaintext(header, fragment)) == Some((header, fragment))
  {
    hide BigEndian, FromBigEndian, Pow256;
    Pow256Values();
    BigEndianRead(header.timestamp, 2);
    BigEndianRead(header.timestampReply, 2);
    var p := Plaintext(header, fragment);
    assert p == BigEndian(header.timestamp, 2) + (BigEndian(header.timestampReply, 2) + fragment);
    assert p[..2] == BigEndian(header.timestamp, 2) && p[2..4] == BigEndian(header.timestampReply, 2);
    assert p[4..] == fragment;
  }

  /** A sealed datagram opens on the peer's side to what was sealed, and is refused when reflected. */
  lemma {:induction false} SealedOpens(s: SealerState, header: PacketHeader, fragment: seq<byte>, aead: Aead)
    requires Sound(aead) && Seal(s, header, fragment, aead).1.Success?
    ensures var datagram := Seal(s, header, fragment, aead).1.value;
            && Open(s.direction, datagram, aead) == Success((s.nextSeq, header, fragment))
            && forall d | d != s.direction :: Open(d, datagram, aead) == Failure(DirectionMismatch)
  {
    hide BigEndian, FromWireSuffix, ParsePacket, Nonce12, Plaintext;
    var value, datagram := NonceValue(s.direction, s.nextSeq), Seal(s, header, fragment, aead).1.value;
    NonceIsInjective(s.direction, s.nextSeq, s.direction, s.nextSeq);
    SuffixRoundTrip(value);
    PacketRoundTrip(header, fragment);
    assert |Plaintext(header, fragment)| >= 4 by { PlaintextLength(header, fragment); }
    var c := aead.encrypt(Nonce12(value), Plaintext(header, fragment)).value;
    assert datagram[..8] == WireSuffix(value) && datagram[8..] == c;
  }

  lemma {:induction false} SuffixWritten(s: seq<byte>)
    requires |s| == WIRE_NONCE_LEN
    ensures WireSuffix(FromWireSuffix(s)) == s
  {
    BigEndianWritten(s);
  }

  lemma {:induction false} PacketWritten(packet: seq<byte>)
    requires |packet| >= 4
    ensures ParsePacket(packet).Some?
    ensures var (header, fragment) := ParsePacket(packet).value;
            Plaintext(header, fragment) == packet
  {
    hide BigEndian, FromBigEndian, Pow256;
    BigEndianWritten(packet[..2]);
    BigEndianWritten(packet[2..4]);
    assert packet == packet[..2] + packet[2..4] + packet[4..];
  }

  lemma {:induction false} NonceSplits(value: u64)
    ensures value == NonceValue(DirectionOf(value), SeqOf(value)) && SeqOf(value) < SEQ_LIMIT
  {
  }

  /**
   What an opener accepts, and nothing else: at least 24 bytes, the nonce's eight bytes under the
   peer's direction and the number, and behind them what deciphers to header and fragment under
   exactly that nonce. So the number it reports is the one that was authenticated.
   */
  lemma {:induction false} AcceptedExactly(
    peer: Direction, datagram: seq<byte>, n: u64, header: PacketHeader, fragment: seq<byte>, aead: Aead)
    ensures Open(peer, datagram, aead) == Success((n, header, fragment))
       <==> && |datagram| >= 24 && n < SEQ_LIMIT
            && datagram[..8] == Nonce12(NonceValue(peer, n))[4..]
            && aead.decrypt(Nonce12(NonceValue(peer, n)), datagram[8..]) == Some(Plaintext(header, fragment))
  {
    if |datagram| >= 24 {
      hide BigEndian, FromWireSuffix, ParsePacket, Plaintext;
      var value := FromWireSuffix(datagram[..8]);
      SuffixWritten(datagram[..8]);
      NonceSplits(value);
      NonceReadBack(peer, n);
      PacketRoundTrip(header, fragment);
      var packet := aead.decrypt(Nonce12(value), datagram[8..]);
      if packet.Some? { ReadBack(packet.value, header, fragment); }
    }
  }

  lemma {:induction false} NonceReadBack(d: Direction, n: u64)
    ensures Nonce12(NonceValue(d, n))[4..] == WireSuffix(NonceValue(d, n))
    ensures FromWireSuffix(WireSuffix(NonceValue(d, n))) == NonceValue(d, n)
    ensures n < SEQ_LIMIT ==> SeqOf(NonceValue(d, n)) == n && DirectionOf(NonceValue(d, n)) == d
  {
    hide BigEndian, FromWireSuffix;
    SuffixRoundTrip(NonceValue(d, n));
  }

  lemma {:induction false} ReadBack(packet: seq<byte>, header: PacketHeader, fragment: seq<byte>)
    ensures ParsePacket(packet) == Some((header, fragment)) <==> packet == Plaintext(header, fragment)
  {
    hide BigEndian, FromBigEndian;
    PacketRoundTrip(header, fragment);
    if |packet| >= 4 { PacketWritten(packet); } else { PlaintextLength(header, fragment); }
  }

  lemma {:induction false} PlaintextLength(header: PacketHeader, fragment: seq<byte>)
    ensures |Plaintext(header, fragment)| == 4 + |fragment|
  {
  }

  class MoshSealer {
    const direction: Direction
    var nextSeq: u64
    var blocksEncrypted: u64

    function State(): SealerState
      reads this
    {
      SealerState(direction, nextSeq, blocksEncrypted)
    }

    constructor (d: Direction)
      ensures State() == NewSealer(d)
    {
      direction, nextSeq, blocksEncrypted := d, 0, 0;
    }

    method NextNonce() returns (r: Result<u64, CryptoError>)
      modifies this`nextSeq
      ensures r.Success? <==> old(nextSeq) < SEQ_LIMIT
      ensures nextSeq == old(nextSeq) + (if r.Success? then 1 else 0)
      ensures match r
              case Success(v) => v == NonceValue(direction, old(nextSeq))
              case Failure(e) => e == SequenceExhausted
    {
      if nextSeq > 0x7FFF_FFFF_FFFF_FFFF { return Failure(SequenceExhausted); }
      r := Success(NonceValue(direction, nextSeq));
      nextSeq := nextSeq + 1;
    }

    method SealPacket(header: PacketHeader, fragment: seq<byte>, aead: Aead) returns (r: Result<seq<byte>, CryptoError>)
      modifies this
      ensures (State(), r) == Seal(old(State()), header, fragment, aead)
    {
      hide BigEndian;
      var packet := Plaintext(header, fragment);
      PlaintextLength(header, fragment);
      blocksEncrypted := (blocksEncrypted + (|packet| + 15) / 16) % 0x1_0000_0000_0000_0000;
      if blocksEncrypted >= BLOCK_LIMIT { return Failure(SessionExhausted); }
      var nonce := NextNonce();
      if nonce.Failure? { return Failure(nonce.error); }
      var sealed := aead.encrypt(Nonce12(nonce.value), packet);
      if sealed.None? { return Failure(EncryptFailed); }
      r := Success(WireSuffix(nonce.value) + sealed.value);
    }
  }

  // ----- both sealers of one key, interleaved -----

  datatype Attempt = Attempt(side: Direction, header: PacketHeader, fragment: seq<byte>)

  datatype Logged = Logged(side: Direction, num: u64, blocks: nat, datagram: seq<byte>)

  datatype Traffic = Traffic(client: SealerState, server: SealerState, log: seq<Logged>) {
    function Side(d: Direction): SealerState {
      if d == ToServer then client else server
    }
  }

  const NO_TRAFFIC := Traffic(NewSealer(ToServer), NewSealer(ToClient), [])

  function Try(t: Traffic, a: Attempt, aead: Aead): Traffic {
    var s := t.Side(a.side);
    var (s', r) := Seal(s, a.header, a.fragment, aead);
    var u := if a.side == ToServer then t.(client := s') else t.(server := s');
    if r.Success? then u.(log := t.log + [Logged(a.side, s.nextSeq, Blocks(a.fragment), r.value)]) else u
  }

  function TryAll(t: Traffic, attempts: seq<Attempt>, aead: Aead): Traffic
    decreases |attempts|
  {
    if attempts == [] then t else TryAll(Try(t, attempts[0], aead), attempts[1..], aead)
  }

  predicate LogOk(t: Traffic) {
    && t.client.direction == ToServer && t.server.direction == ToClient
    && (forall i | 0 <= i < |t.log| ::
          && t.log[i].num < t.Side(t.log[i].side).nextSeq <= SEQ_LIMIT
          && |t.log[i].datagram| >= 8
          && t.log[i].datagram[..8] == WireSuffix(NonceValue(t.log[i].side, t.log[i].num)))
    && (forall i, j | 0 <= i < j < |t.log| && t.log[i].side == t.log[j].side :: t.log[i].num < t.log[j].num)
    && t.client.nextSeq <= SEQ_LIMIT && t.server.nextSeq <= SEQ_LIMIT
  }

  lemma {:induction false} SealMoves(s: SealerState, header: PacketHeader, fragment: seq<byte>, aead: Aead)
    requires s.nextSeq <= SEQ_LIMIT
    ensures var (s', r) := Seal(s, header, fragment, aead);
            && s'.direction == s.direction && s.nextSeq <= s'.nextSeq <= SEQ_LIMIT
            && s'.blocks == Charged(s, fragment)
            && (r.Success? ==>
                  && s.nextSeq < SEQ_LIMIT && s'.nextSeq == s.nextSeq + 1 && s'.blocks < BLOCK_LIMIT
                  && |r.value| >= 8 && r.value[..8] == WireSuffix(NonceValue(s.direction, s.nextSeq)))
  {
    hide BigEndian;
  }

  lemma {:induction false} TryKeeps(t: Traffic, a: Attempt, aead: Aead)
    requires LogOk(t)
    ensures LogOk(Try(t, a, aead))
  {
    hide Seal, WireSuffix, NonceValue;
    SealMoves(t.Side(a.side), a.header, a.fragment, aead);
  }

  lemma {:induction false} TryAllKeeps(t: Traffic, attempts: seq<Attempt>, aead: Aead)
    requires LogOk(t)
    ensures LogOk(TryAll(t, attempts, aead))
    decreases |attempts|
  {
    hide Try, LogOk;
    if attempts != [] {
      TryKeeps(t, attempts[0], aead);
      TryAllKeeps(Try(t, attempts[0], aead), attempts[1..], aead);
    }
  }

  /**
   For every interleaving of seals by the two sides of one key: no two datagrams carry the same
   twelve-byte nonce, and each side's sequence numbers strictly rise below 2^63.
   */
  lemma {:induction false} NoncesNeverRepeat(attempts: seq<Attempt>, aead: Aead, i: nat, j: nat)
    requires i < j < |TryAll(NO_TRAFFIC, attempts, aead).log|
    ensures var log := TryAll(NO_TRAFFIC, attempts, aead).log;
            && |log[i].datagram| >= 8 && |log[j].datagram| >= 8
            && [0, 0, 0, 0] + log[i].datagram[..8] != [0, 0, 0, 0] + log[j].datagram[..8]
            && (log[i].side == log[j].side ==> log[i].num < log[j].num < SEQ_LIMIT)
  {
    TryAllKeeps(NO_TRAFFIC, attempts, aead);
    hide TryAll, BigEndian;
    var log := TryAll(NO_TRAFFIC, attempts, aead).log;
    NonceIsInjective(log[i].side, log[i].num, log[j].side, log[j].num);
    assert [0, 0, 0, 0] + log[i].datagram[..8] == Nonce12(NonceValue(log[i].side, log[i].num));
    assert [0, 0, 0, 0] + log[j].datagram[..8] == Nonce12(NonceValue(log[j].side, log[j].num));
  }

  // ----- the block budget -----

  /** Blocks of everything one side tried to seal. */
  function Tried(attempts: seq<Attempt>, d: Direction): nat {
    if attempts == [] then 0
    else (if attempts[0].side == d then Blocks(attempts[0].fragment) else 0) + Tried(attempts[1..], d)
  }

  /** Blocks of everything one side did seal. */
  function Sealed(log: seq<Logged>, d: Direction): nat {
    if log == [] then 0 else Sealed(log[..|log| - 1], d) + (if Last(log).side == d then Last(log).blocks else 0)
  }

  lemma {:induction false} SealedSnoc(log: seq<Logged>, e: Logged, d: Direction)
    ensures Sealed(log + [e], d) == Sealed(log, d) + (if e.side == d then e.blocks else 0)
  {
    assert (log + [e])[..|log|] == log;
  }

  /** What was sealed is within the counter, and the counter was within its limit at each seal. */
  predicate Budgeted(t: Traffic, d: Direction) {
    LogOk(t) && Sealed(t.log, d) <= t.Side(d).blocks && Sealed(t.log, d) < BLOCK_LIMIT
  }

  lemma {:induction false} SideInRange(t: Traffic, d: Direction)
    requires LogOk(t)
    ensures t.Side(d).nextSeq <= SEQ_LIMIT
  {
  }

  lemma {:induction false} ChargedSum(s: SealerState, fragment: seq<byte>)
    requires s.blocks + Blocks(fragment) < U64_LIMIT
    ensures Charged(s, fragment) == s.blocks + Blocks(fragment)
  {
  }

  lemma {:induction false} TryBudget(t: Traffic, a: Attempt, aead: Aead, d: Direction)
    requires Budgeted(t, d)
    requires a.side == d ==> t.Side(d).blocks + Blocks(a.fragment) < U64_LIMIT
    ensures Budgeted(Try(t, a, aead), d)
    ensures Try(t, a, aead).Side(d).blocks == t.Side(d).blocks + (if a.side == d then Blocks(a.fragment) else 0)
  {
    hide Seal, WireSuffix, NonceValue, Sealed, LogOk, Blocks, Charged;
    TryKeeps(t, a, aead);
    SideInRange(t, a.side);
    SealMoves(t.Side(a.side), a.header, a.fragment, aead);
    if a.side == d { ChargedSum(t.Side(d), a.fragment); }
    var r := Seal(t.Side(a.side), a.header, a.fragment, aead).1;
    if r.Success? {
      SealedSnoc(t.log, Logged(a.side, t.Side(a.side).nextSeq, Blocks(a.fragment), r.value), d);
    }
  }

  lemma {:induction false} TryAllBudget(t: Traffic, attempts: seq<Attempt>, aead: Aead, d: Direction)
    requires Budgeted(t, d) && t.Side(d).blocks + Tried(attempts, d) < U64_LIMIT
    ensures Budgeted(TryAll(t, attempts, aead), d)
    decreases |attempts|
  {
    hide Try, Budgeted;
    if attempts != [] {
      TryBudget(t, attempts[0], aead, d);
      TryAllBudget(Try(t, attempts[0], aead), attempts[1..], aead, d);
    }
  }

  /** While the 64-bit count of attempted blocks has not wrapped, each side seals fewer than 2^47 blocks. */
  lemma {:induction false} BlockBudgetHolds(attempts: seq<Attempt>, aead: Aead, d: Direction)
    requires Tried(attempts, d) < U64_LIMIT
    ensures Sealed(TryAll(NO_TRAFFIC, attempts, aead).log, d) < BLOCK_LIMIT
  {
    assert LogOk(NO_TRAFFIC);
    TryAllBudget(NO_TRAFFIC, attempts, aead, d);
  }

  /** An exhausted sealer stays exhausted exactly until its counter of refused blocks wraps. */
  lemma {:induction false} ExhaustedUntilWrap(s: SealerState, header: PacketHeader, fragment: seq<byte>, aead: Aead)
    requires s.blocks >= BLOCK_LIMIT && Blocks(fragment) <= BLOCK_LIMIT
    ensures Seal(s, header, fragment, aead).1 == Failure(SessionExhausted)
       <==> s.blocks + Blocks(fragment) < U64_LIMIT
  {
    hide BigEndian, Blocks;
    var n := s.blocks + Blocks(fragment);
    assert n < U64_LIMIT ==> n % 0x1_0000_0000_0000_0000 == n;
    assert n >= U64_LIMIT ==> n % 0x1_0000_0000_0000_0000 == n - U64_LIMIT;
  }

  // ----- the budget of a session, and a run beyond it -----

  /** No buffer in memory is this long. */
  const PACKET_LIMIT: nat := 0x4000_0000_0000_0000

  /** More blocks than the fragments that one tick can still hold. */
  const REST_LIMIT: nat := 0x8000_0000_0000_0000

  /** After a refusal for the budget this side tries only what its tick had left, as a session then ends. */
  predicate StopsAfterRefusal(t: Traffic, attempts: seq<Attempt>, aead: Aead, d: Direction)
    decreases |attempts|
  {
    attempts == [] ||
    (var a := attempts[0];
     if a.side == d && Seal(t.Side(d), a.header, a.fragment, aead).1 == Failure(SessionExhausted)
     then Tried(attempts[1..], d) < REST_LIMIT
     else StopsAfterRefusal(Try(t, a, aead), attempts[1..], aead, d))
  }

  lemma {:induction false} PacketBlocks(fragment: seq<byte>)
    requires |fragment| < PACKET_LIMIT
    ensures Blocks(fragment) < REST_LIMIT - BLOCK_LIMIT
  {
  }

  lemma {:induction false} SealBelowLimit(s: SealerState, header: PacketHeader, fragment: seq<byte>, aead: Aead)
    ensures var (s', r) := Seal(s, header, fragment, aead);
            r == Failure(SessionExhausted) <==> s'.blocks >= BLOCK_LIMIT
  {
    hide NonceValue, Nonce12, Plaintext, WireSuffix;
  }

  lemma {:induction false} SessionKeepsBudget(t: Traffic, attempts: seq<Attempt>, aead: Aead, d: Direction)
    requires Budgeted(t, d) && t.Side(d).blocks < BLOCK_LIMIT
    requires (forall a <- attempts :: |a.fragment| < PACKET_LIMIT) && StopsAfterRefusal(t, attempts, aead, d)
    ensures Budgeted(TryAll(t, attempts, aead), d)
    decreases |attempts|
  {
    if attempts != [] {
      var a := attempts[0];
      hide Seal, Budgeted, Blocks;
      assert a in attempts;
      PacketBlocks(a.fragment);
      TryBudget(t, a, aead, d);
      SealBelowLimit(t.Side(a.side), a.header, a.fragment, aead);
      var t' := Try(t, a, aead);
      if a.side == d && Seal(t.Side(d), a.header, a.fragment, aead).1 == Failure(SessionExhausted) {
        TryAllBudget(t', attempts[1..], aead, d);
      } else {
        SessionKeepsBudget(t', attempts[1..], aead, d);
      }
    }
  }

  /** In a session, which ends with the tick of the first refusal, a side never seals 2^47 blocks. */
  lemma {:induction false} SessionWithinBudget(attempts: seq<Attempt>, aead: Aead, d: Direction)
    requires (forall a <- attempts :: |a.fragment| < PACKET_LIMIT) && StopsAfterRefusal(NO_TRAFFIC, attempts, aead, d)
    ensures Sealed(TryAll(NO_TRAFFIC, attempts, aead).log, d) < BLOCK_LIMIT
  {
    assert LogOk(NO_TRAFFIC);
    SessionKeepsBudget(NO_TRAFFIC, attempts, aead, d);
    hide TryAll;
  }

  function Repeated(a: Attempt, n: nat): seq<Attempt> {
    seq(n, _ => a)
  }

  lemma {:induction false} TryAllSnoc(t: Traffic, attempts: seq<Attempt>, a: Attempt, aead: Aead)
    ensures TryAll(t, attempts + [a], aead) == Try(TryAll(t, attempts, aead), a, aead)
    decreases |attempts|
  {
    hide Try;
    if attempts == [] {
      assert (attempts + [a])[1..] == [];
    } else {
      assert (attempts + [a])[1..] == attempts[1..] + [a];
      TryAllSnoc(Try(t, attempts[0], aead), attempts[1..], a, aead);
    }
  }

  /** Blocks sealed by `n` one-block attempts: one each, then none, and one more when the counter has wrapped. */
  function SealedOnes(n: nat): nat {
    if n < BLOCK_LIMIT then n else if n < U64_LIMIT then BLOCK_LIMIT - 1 else BLOCK_LIMIT
  }

  lemma {:induction false} OneBlockSeal(s: SealerState, a: Attempt, aead: Aead)
    requires Blocks(a.fragment) == 1 && s.nextSeq < BLOCK_LIMIT
    requires forall nonce: seq<byte> :: aead.encrypt(nonce, Plaintext(a.header, a.fragment)).Some?
    ensures var (s', r) := Seal(s, a.header, a.fragment, aead);
            && s'.blocks == (s.blocks + 1) % 0x1_0000_0000_0000_0000
            && (r.Success? <==> s'.blocks < BLOCK_LIMIT)
            && s'.nextSeq == s.nextSeq + (if r.Success? then 1 else 0)
  {
    hide Blocks, NonceValue, Nonce12, Plaintext, WireSuffix;
  }

  /** The client has made `n` of these attempts. */
  predicate Ones(t: Traffic, n: nat) {
    t.client.blocks == n % 0x1_0000_0000_0000_0000 && t.client.nextSeq == Sealed(t.log, ToServer) == SealedOnes(n)
  }

  lemma {:induction false} OnesStep(t: Traffic, a: Attempt, aead: Aead, n: nat)
    requires n < U64_LIMIT && Ones(t, n) && a.side == ToServer && Blocks(a.fragment) == 1
    requires forall nonce: seq<byte> :: aead.encrypt(nonce, Plaintext(a.header, a.fragment)).Some?
    ensures Ones(Try(t, a, aead), n + 1)
  {
    hide Seal, Blocks, Plaintext, Sealed;
    OneBlockSeal(t.client, a, aead);
    var r := Seal(t.client, a.header, a.fragment, aead).1;
    if r.Success? { SealedSnoc(t.log, Logged(ToServer, t.client.nextSeq, 1, r.value), ToServer); }
  }

  lemma {:induction false} OnesRun(a: Attempt, aead: Aead, n: nat)
    requires n <= U64_LIMIT && a.side == ToServer && Blocks(a.fragment) == 1
    requires forall nonce: seq<byte> :: aead.encrypt(nonce, Plaintext(a.header, a.fragment)).Some?
    ensures Ones(TryAll(NO_TRAFFIC, Repeated(a, n), aead), n)
    decreases n
  {
    if n > 0 {
      hide Try, TryAll, Blocks, Plaintext, Ones;
      OnesRun(a, aead, n - 1);
      OnesStep(TryAll(NO_TRAFFIC, Repeated(a, n - 1), aead), a, aead, n - 1);
      assert Repeated(a, n) == Repeated(a, n - 1) + [a];
      TryAllSnoc(NO_TRAFFIC, Repeated(a, n - 1), a, aead);
    }
  }

  /** Without a session that stops, the budget can be exceeded: 2^64 one-block attempts seal 2^47 blocks. */
  lemma {:induction false} WrapExceedsBudget(a: Attempt, aead: Aead)
    requires a.side == ToServer && Blocks(a.fragment) == 1
    requires forall nonce: seq<byte> :: aead.encrypt(nonce, Plaintext(a.header, a.fragment)).Some?
    ensures Sealed(TryAll(NO_TRAFFIC, Repeated(a, U64_LIMIT), aead).log, ToServer) == BLOCK_LIMIT
  {
    OnesRun(a, aead, U64_LIMIT);
  }
}
