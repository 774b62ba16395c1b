/**
 What the sender keeps. `History` is what an observer knows besides the fields: the prefix
 trimmed away so far, everything typed, and the absolute stream recorded under each number.
 */
module SenderLaws {
  import opened Basics
  import opened Wire
  import opened Streams
  import opened Queues
  import opened Sender

  datatype History = History(base: Stream, typed: Stream, states: map<u64, Stream>)

  /** At the start the initial stream is state 0 and all that was ever typed. */
  function FreshHistory(initial: Stream): History {
    History([], initial, map[0 := initial])
  }

  const EMPTY_HISTORY := FreshHistory([])

  /** The prefix that a tick's trimming adds to the common base. */
  function Rebase(h: History, s: Sender): History {
    if |s.sent| < 2 then h else h.(base := h.base + s.sent[0].state)
  }

  function Record(h: History, num: u64): History {
    h.(states := h.states[num := h.typed])
  }

  /** Numbers rise strictly, except that shutdown entries repeat. */
  predicate Rising(q: SentQueue) {
    forall i, j | 0 <= i < j < |q| :: q[i].num < q[j].num || q[i].num == q[j].num == SHUTDOWN_NUM
  }

  predicate Monotone(h: History) {
    && (forall n <- h.states :: h.states[n] <= h.typed)
    && (forall m, n | m in h.states && n in h.states && m <= n :: h.states[m] <= h.states[n])
  }

  /** Each queued state, put back behind the base, is the stream recorded under its number. */
  predicate Faithful(s: Sender, h: History) {
    && h.typed == h.base + s.current
    && forall i | 0 <= i < |s.sent| ::
         s.sent[i].num in h.states && h.states[s.sent[i].num] == h.base + s.sent[i].state
  }

  /** No number above the newest is taken, and the shutdown number means the frozen stream. */
  predicate Numbered(s: Sender, h: History)
    requires |s.sent| > 0
  {
    && (forall n <- h.states :: n <= s.Back().num)
    && (!s.shutdown ==> s.Back().num < SHUTDOWN_NUM)
    && (SHUTDOWN_NUM in h.states ==> h.states[SHUTDOWN_NUM] == h.typed)
  }

  predicate Inv(s: Sender, h: History) {
    && s.Live() && |s.sent| <= SENT_QUEUE_CAP
    && Rising(s.sent)
    && Faithful(s, h)
    && Monotone(h)
    && Numbered(s, h)
  }

  /** Fewer states than numbers: the next ordinary number is not the shutdown number. */
  predicate Room(s: Sender)
    requires |s.sent| > 0
  {
    s.shutdown || s.Back().num + 1 < SHUTDOWN_NUM
  }

  /** The timers and counters play no part in the invariant. */
  lemma {:induction false} InvCore(s: Sender, t: Sender, h: History)
    requires Inv(s, h)
    requires t.current == s.current && t.sent == s.sent && t.shutdown == s.shutdown && t.assumed < |t.sent|
    ensures Inv(t, h)
  {
  }

  lemma {:induction false} InitInv(initial: Stream, now: nat, mindelay: nat)
    ensures Inv(NewSender(initial, now, mindelay), FreshHistory(initial))
  {
    assert [] + initial == initial;
  }

  lemma {:induction false} PrefixOfShifted(base: Stream, a: Stream, b: Stream)
    requires base + a <= base + b
    ensures a <= b
  {
    assert forall i | 0 <= i < |a| :: a[i] == (base + a)[|base| + i] && b[i] == (base + b)[|base| + i];
  }

  /** The head is a prefix of every queued state and of the current one. */
  lemma {:induction false} HeadIsPrefix(s: Sender, h: History, i: nat)
    requires Inv(s, h) && i < |s.sent|
    ensures s.sent[0].state <= s.sent[i].state <= s.current
  {
    assert h.states[s.sent[0].num] <= h.states[s.sent[i].num];
    assert h.states[s.sent[i].num] <= h.typed;
    PrefixOfShifted(h.base, s.sent[0].state, s.sent[i].state);
    PrefixOfShifted(h.base, s.sent[i].state, s.current);
  }

  // ----- the assumed receiver state -----

  predicate Timed(q: SentQueue, now: nat) {
    && (forall i, j | 0 <= i < j < |q| :: q[i].timestamp <= q[j].timestamp)
    && (forall i | 0 <= i < |q| :: q[i].timestamp <= now)
  }

  lemma {:induction false} WalkAllFresh(q: SentQueue, now: nat, rto: nat, i: nat)
    requires 1 <= i <= |q|
    requires forall j | i <= j < |q| :: Fresh(q[j], now, rto)
    ensures Walk(q, now, rto, i) == |q| - 1
    decreases |q| - i
  {
    if i < |q| { WalkAllFresh(q, now, rto, i + 1); }
  }

  /** Under a clock that never goes back, the walk stops at the head or at the newest state. */
  lemma {:induction false} WalkLands(q: SentQueue, now: nat, rto: nat)
    requires |q| > 0 && Timed(q, now)
    ensures Walk(q, now, rto, 1) == (if |q| > 1 && Fresh(q[1], now, rto) then |q| - 1 else 0)
  {
    if |q| > 1 && Fresh(q[1], now, rto) {
      WalkAllFresh(q, now, rto, 1);
    }
  }

  // ----- trimming -----

  lemma {:induction false} TrimOne(base: Stream, known: Stream, state: Stream)
    requires known <= state
    ensures base + known + Subtract(state, known) == base + state
  {
    SubtractPrefix(state, known);
    assert base + known + Subtract(state, known) == base + (known + Subtract(state, known));
  }

  /** Trimming moves the head's state from every entry into the base. */
  lemma {:induction false} RationalizeShifts(s: Sender, h: History)
    requires Inv(s, h)
    ensures Rebase(h, s).base + Rationalize(s).current == h.base + s.current
    ensures forall i | 0 <= i < |s.sent| ::
              Rebase(h, s).base + Rationalize(s).sent[i].state == h.base + s.sent[i].state
  {
    if |s.sent| >= 2 {
      forall i | 0 <= i < |s.sent|
        ensures Rebase(h, s).base + Rationalize(s).sent[i].state == h.base + s.sent[i].state
      {
        HeadIsPrefix(s, h, i);
        TrimOne(h.base, s.sent[0].state, s.sent[i].state);
      }
      HeadIsPrefix(s, h, 0);
      TrimOne(h.base, s.sent[0].state, s.current);
    }
  }

  lemma {:induction false} PreparedKeeps(s: Sender, h: History, now: nat, rto: nat)
    requires Inv(s, h)
    ensures Inv(Prepared(s, now, rto), Rebase(h, s))
  {
    var w := s.(assumed := Walk(s.sent, now, rto, 1));
    InvCore(s, w, h);
    hide Walk, Rationalize, Trimmed, Monotone, Rising;
    RationalizeShifts(w, h);
    PreparedFront(s, now, rto);
    var r, g := Prepared(s, now, rto), Rebase(h, s);
    assert r.Back().num == s.Back().num;
    RisingByNumbers(s.sent, r.sent);
  }

  lemma {:induction false} RisingByNumbers(q: SentQueue, r: SentQueue)
    requires Rising(q) && |r| == |q| && forall i | 0 <= i < |q| :: r[i].num == q[i].num
    ensures Rising(r)
  {
  }

  // ----- instructions -----

  /** Applying the diff to the state named by oldNum yields the state named by newNum. */
  predicate Coherent(m: TransportInstruction, h: History) {
    && m.protocolVersion == PROTOCOL_VERSION && m.chaff == []
    && m.oldNum in h.states && m.newNum in h.states
    && m.throwawayNum <= m.oldNum <= m.newNum
    && h.states[m.oldNum] <= h.states[m.newNum]
    && m.diff == DiffFrom(h.states[m.newNum], h.states[m.oldNum])
  }

  /** A bet only moves the assumed index; its diff is the one against the assumed state. */
  lemma {:induction false} BetBase(s: Sender)
    requires s.Live()
    ensures var (b, diff) := Bet(s);
            && b == s.(assumed := b.assumed) && b.assumed in {0, s.assumed}
            && diff == DiffFrom(b.current, b.sent[b.assumed].state)
  {
  }

  lemma {:induction false} DiffIsAbsolute(s: Sender, h: History)
    requires Inv(s, h)
    ensures var base := h.states[s.sent[s.assumed].num];
            && base <= h.typed
            && DiffFrom(h.typed, base) == DiffFrom(s.current, s.sent[s.assumed].state)
  {
    DiffShift(h.base, s.current, s.sent[s.assumed].state);
  }

  /** Recording the current stream under a number at least as high as all others. */
  lemma {:induction false} RecordKeeps(s: Sender, h: History, num: u64)
    requires Inv(s, h)
    requires num >= s.Back().num && (num in h.states ==> h.states[num] == h.typed)
    requires num == SHUTDOWN_NUM ==> s.shutdown
    ensures Monotone(Record(h, num))
    ensures forall n <- h.states :: Record(h, num).states[n] == h.states[n]
  {
  }

  /** Where the `i`-th entry stood before the cull of a queue that had grown to `len`. */
  function Origin(i: nat, len: nat): nat {
    if len > SENT_QUEUE_CAP && i >= len - 16 then i + 1 else i
  }

  /** An appended entry, with the cull, keeps the queue's head and its newest fifteen. */
  lemma {:induction false} AddSentQueue(s: Sender, now: nat, num: u64, state: Stream)
    requires s.Live() && |s.sent| <= SENT_QUEUE_CAP
    ensures var r, q := AddSent(s, now, num, state).sent, s.sent + [Timestamped(now, num, state)];
            && |r| == (if |q| <= 32 then |q| else 32) && |r| >= 2
            && r[0] == s.sent[0] && Last(r) == Last(q)
            && (|q| > 15 ==> |r| > 15 && r[|r| - 15..] == q[|q| - 15..])
            && (forall i | 0 <= i < |r| :: Origin(i, |q|) < |q| && r[i] == q[Origin(i, |q|)])
  {
    var r, q := AddSent(s, now, num, state).sent, s.sent + [Timestamped(now, num, state)];
    if |q| > SENT_QUEUE_CAP {
      var idx := |q| - 16;
      assert r == q[..idx] + q[idx + 1..];
      assert r[|r| - 15..] == q[idx + 1..];
    }
  }

  /** With the index on the head or the newest state, the cull never takes the assumed entry. */
  lemma {:induction false} CullSparesAssumed(s: Sender, now: nat, num: u64, state: Stream)
    requires s.Live() && |s.sent| <= SENT_QUEUE_CAP
    requires s.assumed == 0 || s.assumed == |s.sent| - 1
    ensures var r := AddSent(s, now, num, state);
            r.Live() && r.sent[r.assumed] == s.sent[s.assumed]
  {
  }

  lemma {:induction false} AddSentLive(s: Sender, now: nat, num: u64, state: Stream)
    requires s.Live() && |s.sent| <= SENT_QUEUE_CAP
    ensures AddSent(s, now, num, state).Live()
    ensures AddSent(s, now, num, state).(sent := s.sent, assumed := s.assumed) == s
  {
  }

  lemma {:induction false} CullRising(q: SentQueue, r: SentQueue)
    requires Rising(q)
    requires forall i | 0 <= i < |r| :: Origin(i, |q|) < |q| && r[i] == q[Origin(i, |q|)]
    ensures Rising(r)
  {
    forall i, j | 0 <= i < j < |r|
      ensures r[i].num < r[j].num || r[i].num == r[j].num == SHUTDOWN_NUM
    {
      assert Origin(i, |q|) < Origin(j, |q|);
    }
  }

  /** The queue after an append, in terms of what it stands for. */
  lemma {:induction false} AddSentKeeps(s: Sender, h: History, now: nat, num: u64)
    requires Inv(s, h)
    requires num > s.Back().num || num == s.Back().num == SHUTDOWN_NUM
    requires num == SHUTDOWN_NUM ==> s.shutdown
    ensures Inv(AddSent(s, now, num, s.current), Record(h, num))
    ensures AddSent(s, now, num, s.current).sent[0] == s.sent[0]
    ensures AddSent(s, now, num, s.current).Back().num == num
  {
    hide AddSent, Monotone, Rising, Origin;
    AddSentQueue(s, now, num, s.current);
    AddSentLive(s, now, num, s.current);
    RecordKeeps(s, h, num);
    var r, g := AddSent(s, now, num, s.current), Record(h, num);
    var q := s.sent + [Timestamped(now, num, s.current)];
    AppendRising(s.sent, Timestamped(now, num, s.current));
    CullRising(q, r.sent);
    assert forall i | 0 <= i < |q| :: q[i].num in g.states && g.states[q[i].num] == g.base + q[i].state;
    assert Faithful(r, g);
    assert Numbered(r, g);
  }

  lemma {:induction false} AppendRising(q: SentQueue, e: Timestamped<Stream>)
    requires |q| > 0 && Rising(q)
    requires e.num > Last(q).num || e.num == Last(q).num == SHUTDOWN_NUM
    ensures Rising(q + [e])
  {
    forall i | 0 <= i < |q|
      ensures q[i].num < e.num || q[i].num == e.num == SHUTDOWN_NUM
    {
      if i < |q| - 1 { assert q[i].num < Last(q).num || q[i].num == Last(q).num == SHUTDOWN_NUM; }
    }
  }

  /** Refreshing the newest entry's timestamp changes nothing it stands for. */
  lemma {:induction false} RefreshKeeps(s: Sender, h: History, now: nat)
    requires Inv(s, h)
    ensures Inv(Refreshed(s, now), h)
    ensures Refreshed(s, now).sent[0].num == s.sent[0].num
    ensures Refreshed(s, now).Back().num == s.Back().num
  {
    var r := Refreshed(s, now);
    assert forall i | 0 <= i < |s.sent| :: r.sent[i].num == s.sent[i].num && r.sent[i].state == s.sent[i].state;
  }

  lemma {:induction false} OldNumBounds(s: Sender, h: History)
    requires Inv(s, h)
    ensures s.sent[0].num <= s.sent[s.assumed].num <= s.Back().num
    ensures s.sent[s.assumed].num in h.states
  {
  }

  /** A sent diff: the invariant survives, and the instruction is coherent. */
  lemma {:induction false} SendDiffKeeps(s: Sender, h: History, now: nat)
    requires Inv(s, h) && Room(s)
    ensures var t := SendDiff(s, now, DiffFrom(s.current, s.sent[s.assumed].state));
            var g := Record(h, t.inst.value.newNum);
            && Inv(t.sender, g) && Coherent(t.inst.value, g)
            && t.inst.value.throwawayNum == t.sender.sent[0].num == s.sent[0].num
            && t.inst.value.newNum == t.sender.Back().num
            && (DiffNum(s) in h.states ==> h.states[DiffNum(s)] == h.typed)
  {
    hide AddSent, Refreshed, DiffFrom, Monotone, Rising, Faithful;
    var num := DiffNum(s);
    OldNumBounds(s, h);
    DiffIsAbsolute(s, h);
    DiffNumRecorded(s, h);
    var g, t := Record(h, num), SendDiff(s, now, DiffFrom(s.current, s.sent[s.assumed].state));
    if num == s.Back().num {
      RefreshKeeps(s, h, now);
      assert g == h by { assert h.states[num := h.typed] == h.states; }
      InvCore(Refreshed(s, now), t.sender, g);
    } else {
      AddSentKeeps(s, h, now, num);
      InvCore(AddSent(s, now, num, s.current), t.sender, g);
    }
  }

  /** A number is reused only for the stream it already names. */
  lemma {:induction false} DiffNumRecorded(s: Sender, h: History)
    requires Inv(s, h) && Room(s)
    ensures DiffNum(s) == s.Back().num ==> DiffNum(s) in h.states
    ensures DiffNum(s) != s.Back().num ==> DiffNum(s) > s.Back().num
    ensures DiffNum(s) in h.states ==> h.states[DiffNum(s)] == h.typed
  {
  }

  /** An empty ack: the same, with the empty diff being the diff against the assumed state. */
  lemma {:induction false} SendEmptyAckKeeps(s: Sender, h: History, now: nat)
    requires Inv(s, h) && Room(s)
    requires DiffFrom(s.current, s.sent[s.assumed].state) == []
    ensures var t := SendEmptyAck(s, now);
            var g := Record(h, t.inst.value.newNum);
            && Inv(t.sender, g) && Coherent(t.inst.value, g)
            && t.inst.value.throwawayNum == t.sender.sent[0].num == s.sent[0].num
            && t.inst.value.newNum == t.sender.Back().num
            && (EmptyAckNum(s) in h.states ==> h.states[EmptyAckNum(s)] == h.typed)
  {
    hide AddSent, DiffFrom, Monotone, Rising, Faithful;
    var num := EmptyAckNum(s);
    OldNumBounds(s, h);
    DiffIsAbsolute(s, h);
    AddSentKeeps(s, h, now, num);
    InvCore(AddSent(s, now, num, s.current), SendEmptyAck(s, now).sender, Record(h, num));
  }

  // ----- a whole tick -----

  /** The history after a tick: trimmed, and with the emitted number recorded. */
  function TickHistory(s: Sender, h: History, t: Ticked): History {
    var g := Rebase(h, s);
    if t.inst.Some? then Record(g, t.inst.value.newNum) else g
  }

  lemma {:induction false} SendKeeps(s: Sender, h: History, now: nat, dueSend: bool, dueAck: bool)
    requires Inv(s, h) && Room(s)
    ensures var t := Send(s, now, dueSend, dueAck);
            var g := if t.inst.Some? then Record(h, t.inst.value.newNum) else h;
            && Inv(t.sender, g) && t.sender.sent[0].num == s.sent[0].num
            && (t.inst.Some? ==>
                  && Coherent(t.inst.value, g)
                  && t.inst.value.throwawayNum == t.sender.sent[0].num
                  && t.inst.value.newNum == t.sender.Back().num
                  && (t.inst.value.newNum in h.states ==> h.states[t.inst.value.newNum] == h.typed))
  {
    BetBase(s);
    var (b, diff) := Bet(s);
    hide Bet, SendDiff, SendEmptyAck, DiffFrom, Coherent;
    InvCore(s, b, h);
    var t := Send(s, now, dueSend, dueAck);
    if diff != [] {
      SendDiffKeeps(b, h, now);
      InvCore(SendDiff(b, now, diff).sender, t.sender, Record(h, t.inst.value.newNum));
    } else if dueAck {
      SendEmptyAckKeeps(b, h, now);
      InvCore(SendEmptyAck(b, now).sender, t.sender, Record(h, t.inst.value.newNum));
    } else {
      InvCore(b, t.sender, h);
    }
  }

  /**
   Every tick keeps the invariant, and every instruction it hands to the fragmenter is
   coherent with the history, whatever was trimmed, culled, bet on or shut down before.
   */
  lemma {:induction false} TickKeeps(s: Sender, h: History, now: nat, rto: nat, interval: nat)
    requires Inv(s, h) && Room(s)
    ensures var t := Tick(s, now, rto, interval);
            var g := TickHistory(s, h, t);
            && Inv(t.sender, g) && t.sender.sent[0].num == s.sent[0].num
            && (t.inst.Some? ==>
                  && Coherent(t.inst.value, g)
                  && t.inst.value.throwawayNum == t.sender.sent[0].num
                  && t.inst.value.newNum == t.sender.Back().num
                  && (t.inst.value.newNum in h.states ==> h.states[t.inst.value.newNum] == h.typed))
  {
    PreparedKeeps(s, h, now, rto);
    PreparedFront(s, now, rto);
    hide Send, Coherent, Prepared, NextSend;
    var p := Prepared(s, now, rto);
    var (r, send) := Timers(p, now, rto, interval);
    InvCore(p, r, Rebase(h, s));
    var dueSend, dueAck := send.Some? && now >= send.value, now >= r.nextAck;
    if dueSend || dueAck {
      SendKeeps(r, Rebase(h, s), now, dueSend, dueAck);
    }
  }

  lemma {:induction false} PreparedFront(s: Sender, now: nat, rto: nat)
    requires s.Live()
    ensures var p := Prepared(s, now, rto);
            && |p.sent| == |s.sent|
            && (forall i | 0 <= i < |s.sent| ::
                  p.sent[i].num == s.sent[i].num && p.sent[i].timestamp == s.sent[i].timestamp)
            && p == s.(current := p.current, sent := p.sent, assumed := Walk(s.sent, now, rto, 1))
  {
  }

  // ----- what a tick leaves alone -----

  lemma {:induction false} AddSentFields(s: Sender, now: nat, num: u64, state: Stream)
    ensures var r := AddSent(s, now, num, state);
            r == s.(sent := r.sent, assumed := r.assumed) && |r.sent| > 0
  {
  }

  lemma {:induction false} SentFields(s: Sender, now: nat, diff: seq<byte>)
    requires s.Live()
    ensures var t := SendDiff(s, now, diff);
            t.sender.shutdown == s.shutdown && t.sender.ackNum == s.ackNum && t.sender.mindelay == s.mindelay
            && t.sender.pendingDataAck == s.pendingDataAck && t.sender.lastHeard == s.lastHeard
            && t.inst.Some? && t.inst.value.ackNum == s.ackNum
    ensures var t := SendEmptyAck(s, now);
            t.sender.shutdown == s.shutdown && t.sender.ackNum == s.ackNum && t.sender.mindelay == s.mindelay
            && t.sender.pendingDataAck == s.pendingDataAck && t.sender.lastHeard == s.lastHeard
            && t.inst.Some? && t.inst.value.ackNum == s.ackNum
  {
    hide AddSent;
    AddSentFields(s, now, DiffNum(s), s.current);
    AddSentFields(s, now, EmptyAckNum(s), s.current);
  }

  lemma {:induction false} SendFields(s: Sender, now: nat, dueSend: bool, dueAck: bool)
    requires s.Live()
    ensures var t := Send(s, now, dueSend, dueAck);
            && t.sender.shutdown == s.shutdown && t.sender.ackNum == s.ackNum && t.sender.mindelay == s.mindelay
            && t.sender.pendingDataAck == s.pendingDataAck && t.sender.lastHeard == s.lastHeard
            && (dueAck ==> t.inst.Some?)
            && (t.inst.Some? ==> t.inst.value.ackNum == s.ackNum)
            && (t.inst.None? ==> t.sender == s.(assumed := t.sender.assumed, mindelayClock := None))
  {
    hide Bet, DiffFrom, SendDiff, SendEmptyAck;
    BetBase(s);
    SentFields(Bet(s).0, now, Bet(s).1);
  }

  /** A tick changes neither the ack number it carries nor the shutdown flag. */
  lemma {:induction false} TickFields(s: Sender, now: nat, rto: nat, interval: nat)
    requires s.Live()
    ensures var t := Tick(s, now, rto, interval);
            && t.sender.shutdown == s.shutdown && t.sender.ackNum == s.ackNum && t.sender.mindelay == s.mindelay
            && t.sender.pendingDataAck == s.pendingDataAck && t.sender.lastHeard == s.lastHeard
            && (t.inst.Some? ==> t.inst.value.ackNum == s.ackNum)
  {
    hide Prepared, NextSend, Send;
    PreparedFront(s, now, rto);
    var (t, send) := Timers(Prepared(s, now, rto), now, rto, interval);
    SendFields(t, now, send.Some? && now >= send.value, now >= t.nextAck);
  }

  // ----- the other operations -----

  lemma {:induction false} SuffixKeeps(s: Sender, h: History, k: nat, assumed: nat)
    requires Inv(s, h) && k < |s.sent| && assumed < |s.sent| - k
    ensures Inv(s.(sent := s.sent[k..], assumed := assumed), h)
  {
    var q := s.sent[k..];
    assert forall i | 0 <= i < |q| :: q[i] == s.sent[k + i];
    assert Rising(q);
    hide Rising, Monotone;
  }

  lemma {:induction false} AckCuts(s: Sender, h: History, ack: u64)
    requires Inv(s, h) && Has(s.sent, ack)
    ensures var k := Below(s.sent, ack);
            k < |s.sent| && s.sent[0].num <= s.sent[k].num == ack && ProcessAck(s, ack).sent == s.sent[k..]
  {
    RetainIsSuffix(s.sent, ack);
    var k := Below(s.sent, ack);
    var i :| 0 <= i < |s.sent| && s.sent[i].num == ack;
    assert k <= i;
    hide Retain;
  }

  lemma {:induction false} AckKeeps(s: Sender, h: History, ack: u64)
    requires Inv(s, h)
    ensures Inv(ProcessAck(s, ack), h)
    ensures Has(s.sent, ack) ==> ProcessAck(s, ack).sent[0].num == ack
    ensures ProcessAck(s, ack).sent[0].num >= s.sent[0].num
    ensures ProcessAck(s, ack).Back() == s.Back()
  {
    hide Has, Retain, Below, Rising, Faithful, Monotone, Numbered;
    if Has(s.sent, ack) {
      AckCuts(s, h, ack);
      var r := ProcessAck(s, ack);
      SuffixKeeps(s, h, Below(s.sent, ack), r.assumed);
    }
  }

  /** An ack never moves the assumed index, unless the queue has become too short for it. */
  lemma {:induction false} AckClampsIndex(s: Sender, ack: u64)
    requires s.Live()
    ensures var r := ProcessAck(s, ack);
            && |r.sent| > 0 && r.current == s.current
            && (s.assumed < |r.sent| ==> r.assumed == s.assumed)
            && (s.assumed >= |r.sent| ==> r.assumed == |r.sent| - 1)
  {
    hide Retain;
    if Has(s.sent, ack) {
      var i :| 0 <= i < |s.sent| && s.sent[i].num == ack;
      assert s.sent[i] in Retain(s.sent, ack);
    }
  }

  /** Typing appends to the current stream and to everything typed, and touches nothing else. */
  lemma {:induction false} TypeKeeps(s: Sender, h: History, more: Stream)
    requires Inv(s, h) && !s.shutdown
    ensures Inv(s.(current := s.current + more), h.(typed := h.typed + more))
  {
    assert h.base + s.current + more == h.base + (s.current + more);
  }
}
