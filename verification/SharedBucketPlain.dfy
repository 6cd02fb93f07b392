/**
 * When the shared bucket enforces the configured rate itself, with no allowance for waiting
 * (bpf/upf_tc.c:47-50 and 69-86): a condition on the number of CPUs and the configuration alone.
 */
module SharedBucketPlain {
  import opened Words
  import opened TokenBucket
  import opened SharedBucket
  import opened SharedBucketRuns

  /** One burst plus the configured rate over the time since first use. */
  ghost predicate PlainBound(q: Qer, s: State) {
    s.bucket.last != 0 ==> s.hist.admitted <= q.burst + Earned(q, s.hist.first, s.clock) / BIT_NS
  }

  // ---- One CPU cannot be late ----

  ghost predicate NobodyLate(s: State) {
    && |s.cpus| <= 1 && s.bucket.last <= s.clock
    && forall c :: 0 <= c < |s.cpus| && !s.cpus[c].Idle? ==> s.bucket.last <= s.cpus[c].now <= s.clock
  }

  lemma {:induction false} OneCpuIsInOrder(q: Qer, s: State, steps: seq<Step>)
    requires NobodyLate(s) && Legal(q, s, steps)
    ensures InOrder(q, s, steps)
    decreases |steps|
  {
    if steps != [] {
      OneCpuIsInOrder(q, Next(q, s, steps[0]), steps[1..]);
    }
  }

  // ---- A rate too small to earn a byte in a second ----

  /** The first burst is all such a bucket ever gives. */
  ghost predicate OneBurst(q: Qer, s: State) {
    if s.bucket.last == 0 then s.hist.admitted == 0
    else s.bucket.tokens <= q.burst && s.hist.admitted + s.bucket.tokens <= q.burst && s.hist.first <= s.clock
  }

  lemma {:induction false} OneBurstOnly(q: Qer, s: State, steps: seq<Step>)
    requires NothingEarned(q) && StampsPast(s) && OneBurst(q, s) && Legal(q, s, steps)
    ensures OneBurst(q, Exec(q, s, steps))
    decreases |steps|
  {
    if steps != [] {
      var s' := Next(q, s, steps[0]);
      if steps[0].Critical? && s.bucket.last != 0 {
        NoTopUp(q, s.bucket.tokens, GuardedSince(s.bucket.last, s.cpus[steps[0].cpu].now));
      }
      OneBurstOnly(q, s', steps[1..]);
    }
  }

  lemma PlainWhenQuiet(q: Qer, n: nat, steps: seq<Step>)
    requires n <= 1 || NothingEarned(q)
    requires Legal(q, Init(n), steps)
    ensures PlainBound(q, Exec(q, Init(n), steps))
  {
    if n <= 1 {
      OneCpuIsInOrder(q, Init(n), steps);
      InOrderRateBound(q, n, steps);
    } else {
      OneBurstOnly(q, Init(n), steps);
      var s := Exec(q, Init(n), steps);
      if s.bucket.last != 0 {
        MulMono(0, s.clock - s.hist.first, q.mbr);
      }
    }
  }

  // ---- Anything else overshoots ----

  /** CPU 1 samples, waits, and enters after CPU 0 has spent the burst; CPU 0 then asks for one byte more. */
  function Overtaking(q: Qer): seq<Step>
    requires q.mbr >= 8
  {
    [Sample(1, 1)] + [Tick(ByteWait(q.mbr))] + Pass(0, q.burst) + [Acquire(1), Critical(1)] + Pass(0, 1)
  }

  /** CPU 1 has sampled, and time has passed. */
  lemma OneWaits(q: Qer, n: nat, e: nat) returns (s: State)
    requires n >= 2 && 1 + e < U64_LIMIT
    ensures Reaches(q, Init(n), [Sample(1, 1)] + [Tick(e)], s)
    ensures |s.cpus| == n && s.cpus[0].Idle? && s.cpus[1] == Sampled(1, 1) && s.lock.None?
    ensures s.clock == 1 + e && s.bucket == FRESH && s.hist.admitted == 0
  {
    var s0 := Init(n);
    var s1 := Next(q, s0, Sample(1, 1));
    OneStep(q, s0, Sample(1, 1));
    s := Next(q, s1, Tick(e));
    OneStep(q, s1, Tick(e));
    Chain(q, s0, [Sample(1, 1)], s1, [Tick(e)], s);
  }

  lemma FirstUse(q: Qer, now: u64)
    ensures SharedAdmit(q, FRESH, Call(now, q.burst)) == Outcome(Bucket(0, now), true)
  {
  }

  /** Then CPU 0 spends the burst. */
  lemma BurstSpent(q: Qer, n: nat, e: nat) returns (s: State)
    requires n >= 2 && 1 + e < U64_LIMIT
    ensures Reaches(q, Init(n), [Sample(1, 1)] + [Tick(e)] + Pass(0, q.burst), s)
    ensures |s.cpus| == n && s.cpus[0].Idle? && s.cpus[1] == Sampled(1, 1) && s.lock.None?
    ensures s.clock == s.hist.first == 1 + e && s.bucket == Bucket(0, 1 + e) && s.hist.admitted == q.burst
  {
    var t := OneWaits(q, n, e);
    EntersAtOnce(q, t, 0, q.burst);
    FirstUse(q, 1 + e);
    s := Entered(q, t, 0, 1 + e, q.burst);
    Chain(q, Init(n), [Sample(1, 1)] + [Tick(e)], t, Pass(0, q.burst), s);
  }

  lemma NothingLeft(q: Qer, last: u64)
    requires 1 < last
    ensures SharedAdmit(q, Bucket(0, last), Call(1, 1)) == Outcome(Bucket(0, 1), false)
  {
    assert Refill(q.mbr, 0) == 0;
  }

  /** Then CPU 1 enters, and takes the stored stamp back. */
  lemma StampTakenBack(q: Qer, n: nat, e: nat) returns (s: State)
    requires n >= 2 && 0 < e && 1 + e < U64_LIMIT
    ensures Reaches(q, Init(n), [Sample(1, 1)] + [Tick(e)] + Pass(0, q.burst) + [Acquire(1), Critical(1)], s)
    ensures |s.cpus| == n && s.cpus[0].Idle? && s.lock.None?
    ensures s.clock == s.hist.first == 1 + e && s.bucket == Bucket(0, 1) && s.hist.admitted == q.burst
  {
    var t := BurstSpent(q, n, e);
    EntersLate(q, t, 1, 1, 1);
    NothingLeft(q, 1 + e);
    s := Entered(q, t, 1, 1, 1);
    Chain(q, Init(n), [Sample(1, 1)] + [Tick(e)] + Pass(0, q.burst), t, [Acquire(1), Critical(1)], s);
  }

  lemma OneMore(q: Qer, e: nat)
    requires q.burst > 0 && 0 < e && 1 + e < U64_LIMIT && Refill(q.mbr, e) >= 1
    ensures SharedAdmit(q, Bucket(0, 1), Call(1 + e, 1)).admit
  {
    NoOverflow(q, Bucket(0, 1), e);
  }

  lemma Overshoots(q: Qer, n: nat)
    requires n >= 2 && q.burst > 0 && q.mbr >= 8
    ensures Legal(q, Init(n), Overtaking(q)) && !PlainBound(q, Exec(q, Init(n), Overtaking(q)))
  {
    var e := ByteWait(q.mbr);
    ByteEarned(q.mbr);
    var s := StampTakenBack(q, n, e);
    EntersAtOnce(q, s, 0, 1);
    OneMore(q, e);
    var t := Entered(q, s, 0, 1 + e, 1);
    Chain(q, Init(n), [Sample(1, 1)] + [Tick(e)] + Pass(0, q.burst) + [Acquire(1), Critical(1)], s, Pass(0, 1), t);
    assert t.hist.admitted == q.burst + 1;
  }

  /**
   * The configured rate holds over every run of n CPUs if and only if there is one CPU, or no burst, or a rate
   * below a byte per second.
   */
  lemma PlainBoundExactlyWhen(q: Qer, n: nat)
    ensures (forall steps :: Legal(q, Init(n), steps) ==> PlainBound(q, Exec(q, Init(n), steps)))
            <==> n <= 1 || q.burst == 0 || q.mbr < 8
  {
    if n <= 1 || NothingEarned(q) {
      forall steps | Legal(q, Init(n), steps)
        ensures PlainBound(q, Exec(q, Init(n), steps))
      {
        PlainWhenQuiet(q, n, steps);
      }
    } else {
      Overshoots(q, n);
    }
  }
}
