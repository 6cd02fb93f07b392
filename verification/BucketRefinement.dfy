/** When the capped u64 bucket of bpf/upf_tc.c behaves like a textbook token bucket, and when it does not. */
module BucketRefinement {
  import opened Words
  import opened TokenBucket

  /** The textbook bucket: unbounded integers, no one-second cap. */
  function PlainRefilled(q: Qer, b: Bucket, now: u64): Bucket {
    if b.last == 0 then Bucket(q.burst, now)
    else
      var t := b.tokens + Earned(q, b.last, now) / BIT_NS;
      Bucket(if t > q.burst then q.burst else if t < 0 then 0 else t, now)
  }

  function PlainAdmit(q: Qer, b: Bucket, c: Call): Outcome {
    Debit(PlainRefilled(q, b, c.now), c.len)
  }

  /** Every state and decision of a run, in order. */
  function Trace(q: Qer, b: Bucket, calls: seq<Call>): (os: seq<Outcome>)
    ensures |os| == |calls|
    decreases |calls|
  {
    if calls == [] then []
    else
      var o := Admit(q, b, calls[0]);
      [o] + Trace(q, o.bucket, calls[1..])
  }

  function PlainTrace(q: Qer, b: Bucket, calls: seq<Call>): (os: seq<Outcome>)
    ensures |os| == |calls|
    decreases |calls|
  {
    if calls == [] then []
    else
      var o := PlainAdmit(q, b, calls[0]);
      [o] + PlainTrace(q, o.bucket, calls[1..])
  }

  /** Every refill after at least one nanosecond fills the bucket. */
  ghost predicate AlwaysFills(q: Qer) {
    forall e: nat :: 1 <= e <= NS_CAP ==> Refill(q.mbr, e) >= q.burst
  }

  /**
   * Configurations whose bucket is a textbook bucket: sized so that neither the cap nor the 64-bit product bites,
   * or degenerate in one of three ways.
   */
  ghost predicate Faithful(q: Qer) {
    Sized(q) || q.mbr == 0 || q.burst == 0 || (q.mbr > BIT_NS * q.burst && AlwaysFills(q))
  }

  lemma QuotientIs(x: int, d: int)
    requires BIT_NS * d + x % BIT_NS == x
    ensures x / BIT_NS == d
  {
  }

  lemma LongRest(q: Qer, from: int, to: int)
    requires 8 * q.burst <= q.mbr && to - from >= NS_CAP
    ensures Earned(q, from, to) / BIT_NS >= q.burst
  {
    MulMono(NS_CAP, to - from, q.mbr);
    DivMono(BIT_NS * q.burst, Earned(q, from, to), BIT_NS);
  }

  /** A cap of one second loses nothing: past one second both buckets are full. */
  lemma SizedRefillsAgree(q: Qer, b: Bucket, now: u64)
    requires Sized(q) && 0 < b.last <= now && b.tokens <= q.burst
    ensures Refilled(q, b, now) == PlainRefilled(q, b, now)
  {
    var e := now - b.last;
    NoOverflow(q, b, e);
    if e > NS_CAP {
      CappedRefillFills(q);
      LongRest(q, b.last, now);
    } else {
      ExactRefill(q, e);
      QuotientIs(Earned(q, b.last, now), Refill(q.mbr, e));
    }
  }

  lemma NoTime(q: Qer, e: nat)
    requires e == 0 || q.mbr == 0
    ensures Refill(q.mbr, e) == 0 && e * q.mbr == 0
  {
  }

  /** At such a rate one nanosecond earns the burst. */
  lemma OneNanosecond(q: Qer, from: int, to: int)
    requires q.mbr > BIT_NS * q.burst && to - from >= 1
    ensures Earned(q, from, to) / BIT_NS >= q.burst
  {
    MulMono(1, to - from, q.mbr);
    DivMono(BIT_NS * q.burst, Earned(q, from, to), BIT_NS);
  }

  lemma RefillsAgree(q: Qer, b: Bucket, now: u64)
    requires Faithful(q) && 0 < b.last <= now && b.tokens <= q.burst
    ensures Refilled(q, b, now) == PlainRefilled(q, b, now)
  {
    var e := now - b.last;
    NoOverflow(q, b, e);
    if Sized(q) {
      SizedRefillsAgree(q, b, now);
    } else if e == 0 || q.mbr == 0 {
      NoTime(q, e);
    } else if q.burst == 0 {
      MulMono(0, e, q.mbr);
    } else {
      OneNanosecond(q, b.last, now);
      assert Refill(q.mbr, e) == Refill(q.mbr, if e > NS_CAP then NS_CAP else e) >= q.burst;
    }
  }

  lemma {:induction false} TracesAgree(q: Qer, b: Bucket, calls: seq<Call>)
    requires Faithful(q) && b.tokens <= q.burst && Ordered(b.last, calls)
    ensures Trace(q, b, calls) == PlainTrace(q, b, calls)
    decreases |calls|
  {
    if calls != [] {
      if b.last != 0 {
        RefillsAgree(q, b, calls[0].now);
        NoOverflow(q, b, calls[0].now - b.last);
      }
      TracesAgree(q, Admit(q, b, calls[0]).bucket, calls[1..]);
    }
  }

  /** Two calls on a fresh bucket: the first spends the whole burst at stamp 1, the second comes `wait` later. */
  function SpendThenAsk(q: Qer, wait: nat, ask: u32): seq<Call>
    requires wait + 1 < U64_LIMIT
  {
    [Call(1, q.burst), Call(1 + wait, ask)]
  }

  lemma OneCallTrace(q: Qer, b: Bucket, c: Call)
    ensures Trace(q, b, [c]) == [Admit(q, b, c)] && PlainTrace(q, b, [c]) == [PlainAdmit(q, b, c)]
  {
    assert [c][1..] == [];
  }

  lemma SecondCall(q: Qer, wait: nat, ask: u32)
    requires wait + 1 < U64_LIMIT
    ensures Ordered(0, SpendThenAsk(q, wait, ask))
    ensures Trace(q, FRESH, SpendThenAsk(q, wait, ask))
            == [Outcome(Bucket(0, 1), true), Admit(q, Bucket(0, 1), Call(1 + wait, ask))]
    ensures PlainTrace(q, FRESH, SpendThenAsk(q, wait, ask))
            == [Outcome(Bucket(0, 1), true), PlainAdmit(q, Bucket(0, 1), Call(1 + wait, ask))]
  {
    var calls := SpendThenAsk(q, wait, ask);
    assert calls[1..] == [Call(1 + wait, ask)];
    OneCallTrace(q, Bucket(0, 1), calls[1]);
    assert Admit(q, FRESH, calls[0]) == Outcome(Bucket(0, 1), true) == PlainAdmit(q, FRESH, calls[0]);
  }

  /** An in-order run of two packets whose second one only the textbook bucket admits. */
  ghost predicate Diverges(q: Qer, calls: seq<Call>) {
    && Ordered(0, calls) && |calls| == 2
    && !Trace(q, FRESH, calls)[1].admit && PlainTrace(q, FRESH, calls)[1].admit
  }

  /** If after some wait the textbook bucket holds more than the real one, some packet is admitted by it alone. */
  lemma DecisionsDiffer(q: Qer, wait: nat)
    requires wait + 1 < U64_LIMIT && Refill(q.mbr, wait) < q.burst
    requires Refill(q.mbr, wait) < Earned(q, 1, 1 + wait) / BIT_NS
    ensures exists calls :: Diverges(q, calls)
  {
    var b := Bucket(0, 1);
    var ask := PlainRefilled(q, b, 1 + wait).tokens;
    NoOverflow(q, b, wait);
    SecondCall(q, wait, ask);
    assert Diverges(q, SpendThenAsk(q, wait, ask));
  }

  /** A rate too small to fill the bucket in one second: the cap cuts a longer wait short. */
  lemma CapBites(q: Qer)
    requires 0 < q.mbr < 8 * q.burst && q.mbr * NS_CAP < U64_LIMIT
    ensures Refill(q.mbr, BIT_NS) < q.burst && Refill(q.mbr, BIT_NS) < Earned(q, 1, 1 + BIT_NS) / BIT_NS
  {
    assert (NS_CAP * q.mbr) % U64_LIMIT == NS_CAP * q.mbr;
    assert Earned(q, 1, 1 + BIT_NS) == BIT_NS * q.mbr;
  }

  lemma FirstWrap(m: int, wait: int)
    requires 0 < m && m * NS_CAP >= U64_LIMIT && (wait - 1) * m < U64_LIMIT
    ensures wait <= NS_CAP
  {
    if wait - 1 >= NS_CAP {
      MulMono(NS_CAP, wait - 1, m);
      assert false;
    }
  }

  /** A rate whose product wraps within a second: just past the wrap the refill collapses. */
  lemma WrapBites(q: Qer) returns (wait: nat)
    requires q.mbr <= BIT_NS * q.burst && q.mbr * NS_CAP >= U64_LIMIT
    ensures wait <= NS_CAP
    ensures Refill(q.mbr, wait) < q.burst && Refill(q.mbr, wait) < Earned(q, 1, 1 + wait) / BIT_NS
  {
    var m := q.mbr;
    wait := (U64_LIMIT - 1) / m + 1;
    var r := (U64_LIMIT - 1) % m;
    assert U64_LIMIT - 1 == m * ((U64_LIMIT - 1) / m) + r;
    var past := wait * m - U64_LIMIT;
    assert wait * m == m * ((U64_LIMIT - 1) / m) + m;
    assert 0 <= past < m;
    FirstWrap(m, wait);
    assert (wait * m) % U64_LIMIT == past;
    assert Earned(q, 1, 1 + wait) == past + U64_LIMIT;
    DivMono(past + BIT_NS, past + U64_LIMIT, BIT_NS);
    assert (past + BIT_NS) / BIT_NS == past / BIT_NS + 1;
    assert past < BIT_NS * q.burst;
  }

  /** For any other configuration there is a wait that refills neither the burst nor all it earns. */
  lemma UnfaithfulWait(q: Qer) returns (wait: nat)
    requires !Faithful(q)
    ensures wait + 1 < U64_LIMIT && Refill(q.mbr, wait) < q.burst
    ensures Refill(q.mbr, wait) < Earned(q, 1, 1 + wait) / BIT_NS
  {
    if q.mbr > BIT_NS * q.burst {
      wait :| 1 <= wait <= NS_CAP && Refill(q.mbr, wait) < q.burst;
      OneNanosecond(q, 1, 1 + wait);
    } else if q.mbr * NS_CAP < U64_LIMIT {
      CapBites(q);
      wait := BIT_NS;
    } else {
      wait := WrapBites(q);
    }
  }

  /** So some two-packet run gets a different decision. */
  lemma DivergingRun(q: Qer)
    requires !Faithful(q)
    ensures exists calls :: Diverges(q, calls)
  {
    var wait := UnfaithfulWait(q);
    DecisionsDiffer(q, wait);
  }

  /**
   * Exact refinement. For every configuration, the real bucket has the same state and the same decision as the
   * textbook bucket on every call of every in-order run if and only if the configuration is faithful. Unless one
   * nanosecond of the rate already earns the burst, that means: 8 * burst <= mbr, and mbr * 10^9 fits in 64 bits.
   */
  lemma RefinesExactlyWhen(q: Qer)
    ensures (forall calls :: Ordered(0, calls) ==> Trace(q, FRESH, calls) == PlainTrace(q, FRESH, calls))
            <==> Faithful(q)
    ensures 0 < q.mbr <= BIT_NS * q.burst ==> (Faithful(q) <==> Sized(q))
  {
    if Faithful(q) {
      forall calls | Ordered(0, calls)
        ensures Trace(q, FRESH, calls) == PlainTrace(q, FRESH, calls)
      {
        TracesAgree(q, FRESH, calls);
      }
    } else {
      DivergingRun(q);
      var calls :| Diverges(q, calls);
      assert Trace(q, FRESH, calls) != PlainTrace(q, FRESH, calls);
    }
  }
}
