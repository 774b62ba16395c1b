/** What the receiver keeps against any instruction, honest or not. */
module ReceiverLaws {
  import opened Basics
  import opened Wire
  import opened Queues
  import opened Receiver

  predicate Strict<S>(q: seq<Timestamped<S>>) {
    forall i, j | 0 <= i < j < |q| :: q[i].num < q[j].num
  }

  predicate RecvInv<S>(r: Receiver<S>) {
    |r.received| > 0 && Strict(r.received)
  }

  function Newest<S>(r: Receiver<S>): Timestamped<S>
    requires |r.received| > 0
  {
    Last(r.received)
  }

  lemma {:induction false} RetainStrict<S>(q: seq<Timestamped<S>>, num: u64)
    requires Strict(q)
    ensures Strict(Retain(q, num))
    ensures Retain(q, num) != [] ==> Last(Retain(q, num)) == Last(q)
    ensures |q| > 0 && q[0].num >= num ==> Retain(q, num) == q
    ensures forall i | 0 <= i < |q| && q[i].num >= num :: q[i] in Retain(q, num)
  {
    hide Retain, Below;
    RetainIsSuffix(q, num);
    SuffixStrict(q, Below(q, num));
    if |q| > 0 && q[0].num >= num { RetainAll(q, num); }
  }

  lemma {:induction false} SuffixStrict<S>(q: seq<Timestamped<S>>, k: nat)
    requires k <= |q| && Strict(q)
    ensures Strict(q[k..]) && (k < |q| ==> Last(q[k..]) == Last(q))
  {
  }

  lemma {:induction false} RetainHas<S>(q: seq<Timestamped<S>>, t: u64, num: u64)
    ensures Has(Retain(q, t), num) ==> Has(q, num)
  {
    if Has(Retain(q, t), num) {
      var i :| 0 <= i < |Retain(q, t)| && Retain(q, t)[i].num == num;
      assert Retain(q, t)[i] in q;
    }
  }

  /** The checks before a state is touched: what is culled lies below the throwaway number. */
  lemma {:induction false} AdmitKeeps<S>(r: Receiver<S>, m: TransportInstruction, now: nat)
    requires RecvInv(r)
    ensures var (r', a) := Admit(r, m, now);
            && RecvInv(r') && Newest(r') == Newest(r)
            && (r'.received == r.received || r'.received == Retain(r.received, m.throwawayNum))
            && r.quenchUntil <= r'.quenchUntil
            && (a.Admitted? ==>
                  && m.protocolVersion == PROTOCOL_VERSION
                  && r'.received == Retain(r.received, m.throwawayNum)
                  && !Has(r.received, m.newNum) && !Has(r'.received, m.newNum)
                  && a.reference in r'.received && a.reference.num == m.oldNum)
  {
    hide Has, Retain, Find, Strict;
    RetainStrict(r.received, m.throwawayNum);
    RetainHas(r.received, m.throwawayNum, m.newNum);
  }

  /**
   Exactly when each refusal is given, and what it leaves: a reference is missing when its number is
   not held or lies below the throwaway number, and only in the second case may the cull have happened.
   */
  lemma {:induction false} AdmitExact<S>(r: Receiver<S>, m: TransportInstruction, now: nat)
    ensures var (r', a) := Admit(r, m, now);
            var kept := Retain(r.received, m.throwawayNum);
            var dup, missing := Has(r.received, m.newNum), !Has(r.received, m.oldNum);
            var full := |kept| > 1024;
            && (a.Fatal? <==> m.protocolVersion != PROTOCOL_VERSION)
            && (a.Fatal? || dup || missing ==> r' == r)
            && (!a.Fatal? ==>
                  && (a == Refused(Duplicate) <==> dup)
                  && (a == Refused(NoReference) <==> !dup && (missing || m.oldNum < m.throwawayNum))
                  && (a == Refused(Quenched) <==> !dup && !missing && m.oldNum >= m.throwawayNum && full && now < r.quenchUntil)
                  && (a.Admitted? ==>
                        && a.reference.num == m.oldNum && r'.received == kept
                        && r'.quenchUntil == (if full then now + 15_000 else r.quenchUntil))
                  && (a.Refused? ==>
                        && r'.quenchUntil == r.quenchUntil
                        && r'.received == if dup || missing || kept == [] then r.received else kept))
  {
    var kept := Retain(r.received, m.throwawayNum);
    RetainHas(r.received, m.throwawayNum, m.oldNum);
    if Has(r.received, m.oldNum) && m.oldNum >= m.throwawayNum {
      var i :| 0 <= i < |r.received| && r.received[i].num == m.oldNum;
      assert r.received[i] in kept;
      var j :| 0 <= j < |kept| && kept[j] == r.received[i];
      assert Has(kept, m.oldNum);
    }
    if Has(kept, m.oldNum) {
      var j :| 0 <= j < |kept| && kept[j].num == m.oldNum;
      assert m.oldNum >= m.throwawayNum;
    }
    hide Has, Retain, Find;
  }

  lemma {:induction false} InsertedStrict<S>(q: seq<Timestamped<S>>, e: Timestamped<S>)
    requires |q| > 0 && Strict(q) && !Has(q, e.num) && Last(q).num >= e.num
    ensures Strict(Inserted(q, e)) && Last(Inserted(q, e)) == Last(q)
    ensures |Inserted(q, e)| == |q| + 1
    ensures forall x :: x in Inserted(q, e) <==> x == e || x in q
  {
    hide Position;
    var k, r := Position(q, e.num), Inserted(q, e);
    assert forall i | 0 <= i < |q| :: q[i].num != e.num;
    assert q[|q| - 1].num > e.num;
    InsertedAt(q, e);
    forall i, j | 0 <= i < j < |r| ensures r[i].num < r[j].num {
      if i == k {
        assert q[k].num <= q[j - 1].num;
      } else if j == k {
        assert q[i].num < e.num;
      }
    }
    InsertedMembers(q, e);
  }

  lemma {:induction false} InsertedAt<S>(q: seq<Timestamped<S>>, e: Timestamped<S>)
    ensures var k, r := Position(q, e.num), Inserted(q, e);
            && |r| == |q| + 1 && r[k] == e
            && (forall i | 0 <= i < k :: r[i] == q[i])
            && (forall i | k < i < |r| :: r[i] == q[i - 1])
  {
    hide Position;
  }

  lemma {:induction false} InsertedMembers<S>(q: seq<Timestamped<S>>, e: Timestamped<S>)
    ensures forall x :: x in Inserted(q, e) <==> x == e || x in q
  {
    hide Position;
    var k := Position(q, e.num);
    assert q == q[..k] + q[k..];
  }

  /** The commit: exactly one entry is added, in its place. */
  lemma {:induction false} CommitKeeps<S>(r: Receiver<S>, e: Timestamped<S>, hadDiff: bool)
    requires RecvInv(r) && !Has(r.received, e.num)
    ensures var (r', o) := Commit(r, e, hadDiff);
            && RecvInv(r') && Newest(r).num <= Newest(r').num
            && |r'.received| == |r.received| + 1 && r'.quenchUntil == r.quenchUntil
            && (forall x :: x in r'.received <==> x == e || x in r.received)
            && (o.Latest? ==> Newest(r') == e && o == Latest(e.num, hadDiff, e.state))
            && (!o.Latest? ==> o == OutOfOrder(e.num, hadDiff) && Newest(r') == Newest(r))
  {
    if Last(r.received).num < e.num {
      var q := r.received + [e];
      assert Strict(q);
    } else {
      InsertedStrict(r.received, e);
    }
    hide Inserted;
  }

  lemma {:induction false} CommitAdds<S>(r: Receiver<S>, e: Timestamped<S>, hadDiff: bool)
    requires |r.received| > 0
    ensures var q := Commit(r, e, hadDiff).0.received;
            forall i | 0 <= i < |q| :: q[i] == e || q[i] in r.received
  {
  }

  /** The number an instruction was accepted under. */
  function AcceptedNum<S>(o: Result<Outcome<S>, SspError>): Option<u64> {
    match o
    case Success(Latest(num, _, _)) => Some(num)
    case Success(OutOfOrder(num, _)) => Some(num)
    case _ => None
  }

  /** The entry that an accepted instruction adds. */
  ghost predicate Adds<S(!new)>(r: Receiver<S>, m: TransportInstruction, now: nat, e: Timestamped<S>,
                                apply: (S, seq<byte>) -> Result<S, WireError>)
  {
    && e.num == m.newNum && e.timestamp == now
    && exists x :: x in r.received && x.num == m.oldNum &&
         (if m.diff == [] then e.state == x.state else apply(x.state, m.diff) == Success(e.state))
  }

  /** What one instruction may do to the queue, whatever the outcome. */
  ghost predicate Steps<S(!new)>(r: Receiver<S>, r': Receiver<S>, m: TransportInstruction, now: nat,
                                 apply: (S, seq<byte>) -> Result<S, WireError>)
  {
    && RecvInv(r) && RecvInv(r') && Newest(r).num <= Newest(r').num
    && (forall x | x in r'.received ::
          x in r.received || (Adds(r, m, now, x, apply) && !Has(r.received, x.num)))
    && (forall x | x in r.received && x.num >= m.throwawayNum :: x in r'.received)
  }

  lemma {:induction false} AdmitSteps<S(!new)>(r: Receiver<S>, m: TransportInstruction, now: nat,
                                         apply: (S, seq<byte>) -> Result<S, WireError>)
    requires RecvInv(r)
    ensures Steps(r, Admit(r, m, now).0, m, now, apply)
    ensures |Admit(r, m, now).0.received| <= |r.received|
  {
    hide Admit, Adds, Strict, Has, Retain;
    AdmitKeeps(r, m, now);
    var q, q' := r.received, Admit(r, m, now).0.received;
    assert forall i | 0 <= i < |q'| :: q'[i] in q;
    assert forall i | 0 <= i < |q| && q[i].num >= m.throwawayNum :: q[i] in q';
  }

  lemma {:induction false} CommitSteps<S(!new)>(r: Receiver<S>, m: TransportInstruction, now: nat, s: S,
                                          apply: (S, seq<byte>) -> Result<S, WireError>)
    requires RecvInv(r) && Admit(r, m, now).1.Admitted?
    requires if m.diff == [] then s == Admit(r, m, now).1.reference.state
             else apply(Admit(r, m, now).1.reference.state, m.diff) == Success(s)
    ensures |Admit(r, m, now).0.received| > 0
    ensures Steps(r, Commit(Admit(r, m, now).0, Timestamped(now, m.newNum, s), m.diff != []).0, m, now, apply)
    ensures Has(Commit(Admit(r, m, now).0, Timestamped(now, m.newNum, s), m.diff != []).0.received, m.newNum)
  {
    hide Admit, Commit, Adds, Strict, Retain;
    AdmitKeeps(r, m, now);
    AdmitSteps(r, m, now, apply);
    var (r1, a) := Admit(r, m, now);
    var e := Timestamped(now, m.newNum, s);
    assert a.reference in r.received;
    AddsFrom(r, m, now, a.reference, e, apply);
    CommitKeeps(r1, e, m.diff != []);
    var r2 := Commit(r1, e, m.diff != []).0;
    assert e in r2.received;
  }

  lemma {:induction false} AddsFrom<S(!new)>(r: Receiver<S>, m: TransportInstruction, now: nat, x: Timestamped<S>,
                                       e: Timestamped<S>, apply: (S, seq<byte>) -> Result<S, WireError>)
    requires x in r.received && x.num == m.oldNum && e.num == m.newNum && e.timestamp == now
    requires if m.diff == [] then e.state == x.state else apply(x.state, m.diff) == Success(e.state)
    ensures Adds(r, m, now, e, apply)
  {
  }

  /**
   Whatever arrives: the queue is never empty, stays strictly sorted, its newest number never
   falls, and entries are only dropped below the throwaway number or added by the diff rule.
   */
  lemma {:induction false} ProcessKeeps<S(!new)>(r: Receiver<S>, m: TransportInstruction, now: nat,
                                           apply: (S, seq<byte>) -> Result<S, WireError>)
    requires RecvInv(r)
    ensures Steps(r, Process(r, m, now, apply).0, m, now, apply)
  {
    AdmitSteps(r, m, now, apply);
    var (r1, a) := Admit(r, m, now);
    if a.Admitted? {
      var applied := if m.diff == [] then Success(a.reference.state) else apply(a.reference.state, m.diff);
      if applied.Success? { CommitSteps(r, m, now, applied.value, apply); }
    }
    hide Admit, Commit, Steps;
  }

  /** The outcome tells the truth about the queue. */
  lemma {:induction false} OutcomeTells<S(!new)>(r: Receiver<S>, m: TransportInstruction, now: nat,
                                           apply: (S, seq<byte>) -> Result<S, WireError>)
    requires RecvInv(r)
    ensures var (r', o) := Process(r, m, now, apply);
            && |r'.received| > 0
            && (o.Success? && o.value.Latest? ==>
                  && Newest(r').num == o.value.num == m.newNum && Newest(r').state == o.value.state
                  && Newest(r).num < m.newNum && o.value.hadDiff == (m.diff != []))
            && (!(o.Success? && o.value.Latest?) ==> Newest(r') == Newest(r))
            && (AcceptedNum(o).Some? ==>
                  && AcceptedNum(o).value == m.newNum
                  && !Has(r.received, m.newNum) && Has(r'.received, m.newNum))
            && (AcceptedNum(o).None? ==> |r'.received| <= |r.received|)
  {
    hide Admit, Commit, Steps, Strict, Has, Retain;
    AdmitKeeps(r, m, now);
    AdmitSteps(r, m, now, apply);
    var (r1, a) := Admit(r, m, now);
    if a.Admitted? {
      var applied := if m.diff == [] then Success(a.reference.state) else apply(a.reference.state, m.diff);
      if applied.Success? {
        CommitSteps(r, m, now, applied.value, apply);
        CommitKeeps(r1, Timestamped(now, m.newNum, applied.value), m.diff != []);
        CommitLatest(r1, Timestamped(now, m.newNum, applied.value), m.diff != []);
      }
    } else {
      RefusalsRefuse(r, m, now);
    }
  }

  lemma {:induction false} CommitLatest<S>(r: Receiver<S>, e: Timestamped<S>, hadDiff: bool)
    requires RecvInv(r)
    ensures Commit(r, e, hadDiff).1.Latest? ==> Newest(r).num < e.num
  {
  }

  lemma {:induction false} RefusalsRefuse<S>(r: Receiver<S>, m: TransportInstruction, now: nat)
    ensures Admit(r, m, now).1.Refused? ==>
              Admit(r, m, now).1.outcome in {Duplicate, NoReference, Quenched}
  {
  }
}
