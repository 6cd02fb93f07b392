/**
 * The shared build of upf_qer_admit on N CPUs: one rate-limited bucket under a spin lock, with the clock sampled
 * before the lock is taken (bpf/upf_tc.c:51-97). Every interleaving of the CPUs' steps is a run of this machine.
 */
module SharedBucket {
  import opened Words
  import opened TokenBucket

  datatype Cpu = Idle | Sampled(now: u64, len: u32) | Holding(now: u64, len: u32)

  /** What a run has done so far: the stamp of first use, bytes admitted, the summed elapsed times the guard lets
      through, the summed distances by which stamps arrived late, and the summed times CPUs waited for the lock. */
  datatype History = History(first: u64, admitted: nat, elapsed: nat, skew: nat, waited: nat)

  datatype State = State(clock: u64, lock: Option<nat>, cpus: seq<Cpu>, bucket: Bucket, hist: History)

  datatype Step = Tick(ns: nat) | Sample(cpu: nat, len: u32) | Acquire(cpu: nat) | Critical(cpu: nat)

  function Init(n: nat): State {
    State(1, None, seq(n, _ => Idle), FRESH, History(0, 0, 0, 0, 0))
  }

  predicate Enabled(s: State, step: Step) {
    match step
    case Tick(ns) => s.clock + ns < U64_LIMIT
    case Sample(c, _) => c < |s.cpus| && s.cpus[c].Idle?
    case Acquire(c) => c < |s.cpus| && s.cpus[c].Sampled? && s.lock.None?
    case Critical(c) => c < |s.cpus| && s.cpus[c].Holding?
  }

  /** How far `now` lies before `mark`. */
  function Late(now: nat, mark: nat): nat {
    if mark > now then mark - now else 0
  }

  function Record(h: History, last: u64, w: Cpu, o: Outcome): History
    requires w.Holding?
  {
    if last == 0 then h.(first := w.now, admitted := h.admitted + Paid(o, w.len))
    else h.(admitted := h.admitted + Paid(o, w.len), elapsed := h.elapsed + GuardedSince(last, w.now),
            skew := h.skew + Late(w.now, last))
  }

  function Next(q: Qer, s: State, step: Step): State
    requires Enabled(s, step)
  {
    match step
    case Tick(ns) => s.(clock := s.clock + ns)
    case Sample(c, len) => s.(cpus := s.cpus[c := Sampled(s.clock, len)])
    case Acquire(c) =>
      var w := s.cpus[c];
      s.(lock := Some(c), cpus := s.cpus[c := Holding(w.now, w.len)],
         hist := s.hist.(waited := s.hist.waited + Late(w.now, s.clock)))
    case Critical(c) =>
      var w := s.cpus[c];
      var o := SharedAdmit(q, s.bucket, Call(w.now, w.len));
      s.(lock := None, cpus := s.cpus[c := Idle], bucket := o.bucket, hist := Record(s.hist, s.bucket.last, w, o))
  }

  predicate Legal(q: Qer, s: State, steps: seq<Step>)
    decreases |steps|
  {
    steps == [] || (Enabled(s, steps[0]) && Legal(q, Next(q, s, steps[0]), steps[1..]))
  }

  function Exec(q: Qer, s: State, steps: seq<Step>): State
    requires Legal(q, s, steps)
    decreases |steps|
  {
    if steps == [] then s else Exec(q, Next(q, s, steps[0]), steps[1..])
  }

  /** Every critical section runs with a stamp no older than the one stored: lock order matches sample order. */
  predicate InOrder(q: Qer, s: State, steps: seq<Step>)
    requires Legal(q, s, steps)
    decreases |steps|
  {
    steps != [] ==>
      && (steps[0].Critical? ==> s.bucket.last <= s.cpus[steps[0].cpu].now)
      && InOrder(q, Next(q, s, steps[0]), steps[1..])
  }

  // ---- The invariant ----

  ghost predicate StampsPast(s: State) {
    && 0 < s.clock
    && s.bucket.last <= s.clock
    && (forall c :: 0 <= c < |s.cpus| && !s.cpus[c].Idle? ==> 0 < s.cpus[c].now <= s.clock)
  }

  ghost predicate LockHeld(s: State) {
    && (s.lock.Some? ==> s.lock.value < |s.cpus| && s.cpus[s.lock.value].Holding?)
    && (forall c :: 0 <= c < |s.cpus| && s.cpus[c].Holding? ==> s.lock == Some(c))
  }

  /** Lateness is paid for by waiting; the lock holder has already paid for what it is about to add. */
  ghost predicate SkewCovered(s: State)
    requires LockHeld(s)
  {
    s.hist.skew + (if s.lock.Some? then Late(s.cpus[s.lock.value].now, s.bucket.last) else 0) <= s.hist.waited
  }

  ghost predicate Accounted(q: Qer, s: State) {
    if s.bucket.last == 0 then s.hist.admitted == s.hist.elapsed == s.hist.skew == 0
    else
      && 0 < s.hist.first <= s.clock
      && s.bucket.tokens <= q.burst
      && s.hist.elapsed == s.bucket.last - s.hist.first + s.hist.skew
      && BIT_NS * (s.hist.admitted + s.bucket.tokens) <= BIT_NS * q.burst + Earned(q, 0, s.hist.elapsed)
  }

  ghost predicate Inv(q: Qer, s: State) {
    StampsPast(s) && LockHeld(s) && SkewCovered(s) && Accounted(q, s)
  }

  lemma SharedCallSpends(q: Qer, b: Bucket, c: Call)
    requires 0 < b.last && b.tokens <= q.burst
    ensures var o := SharedAdmit(q, b, c);
            && o.bucket.tokens <= q.burst && o.bucket.last == c.now
            && BIT_NS * (Paid(o, c.len) + o.bucket.tokens)
               <= BIT_NS * b.tokens + Earned(q, 0, GuardedSince(b.last, c.now))
  {
    NoOverflow(q, b, GuardedSince(b.last, c.now));
    RefillAtMost(q.mbr, GuardedSince(b.last, c.now));
  }

  lemma EarnedAdds(q: Qer, e: nat, d: nat)
    ensures Earned(q, 0, e + d) == Earned(q, 0, e) + Earned(q, 0, d)
  {
  }

  lemma StepKeepsInv(q: Qer, s: State, step: Step)
    requires Inv(q, s) && Enabled(s, step)
    ensures Inv(q, Next(q, s, step))
  {
    if step.Critical? && s.bucket.last != 0 {
      var w := s.cpus[step.cpu];
      SharedCallSpends(q, s.bucket, Call(w.now, w.len));
      EarnedAdds(q, s.hist.elapsed, GuardedSince(s.bucket.last, w.now));
    }
  }

  lemma {:induction false} RunKeepsInv(q: Qer, s: State, steps: seq<Step>)
    requires Inv(q, s) && Legal(q, s, steps)
    ensures Inv(q, Exec(q, s, steps))
    decreases |steps|
  {
    if steps != [] {
      StepKeepsInv(q, s, steps[0]);
      RunKeepsInv(q, Next(q, s, steps[0]), steps[1..]);
    }
  }

  // ---- The rate actually enforced ----

  /** The elapsed times the guard admits exceed the net advance of the stored stamp by exactly the lateness, and
      lateness never exceeds the time spent waiting for the lock. */
  lemma SkewIdentity(q: Qer, n: nat, steps: seq<Step>)
    requires Legal(q, Init(n), steps)
    ensures var s := Exec(q, Init(n), steps);
            && (s.bucket.last != 0 ==> s.hist.elapsed == s.bucket.last - s.hist.first + s.hist.skew)
            && s.hist.skew <= s.hist.waited
  {
    RunKeepsInv(q, Init(n), steps);
  }

  lemma SpendWithin(q: Qer, s: State, span: nat)
    requires Inv(q, s) && s.bucket.last != 0 && s.hist.elapsed <= span
    ensures s.hist.admitted <= q.burst + Earned(q, 0, span) / BIT_NS
    ensures Earned(q, s.hist.first, s.hist.first + span) == Earned(q, 0, span)
  {
    MulMono(s.hist.elapsed, span, q.mbr);
    FloorBound(s.hist.admitted, q.burst, Earned(q, 0, span), BIT_NS);
  }

  /** At most one burst plus the configured rate over the time since first use and all waits for the lock. */
  ghost predicate WithinRate(q: Qer, s: State) {
    if s.bucket.last == 0 then s.hist.admitted == 0
    else s.hist.admitted <= q.burst + Earned(q, s.hist.first, s.clock + s.hist.waited) / BIT_NS
  }

  /**
   * Shared-bucket rate bound, over every interleaving of any number of CPUs: at most one burst plus the
   * configured rate over the time since first use and the total time spent waiting for the lock.
   */
  lemma SharedRateBound(q: Qer, n: nat, steps: seq<Step>)
    requires Legal(q, Init(n), steps)
    ensures WithinRate(q, Exec(q, Init(n), steps))
  {
    RunKeepsInv(q, Init(n), steps);
    var s := Exec(q, Init(n), steps);
    if s.bucket.last != 0 {
      SpendWithin(q, s, s.clock + s.hist.waited - s.hist.first);
    }
  }

  lemma {:induction false} SkewOnlyOutOfOrder(q: Qer, s: State, steps: seq<Step>)
    requires Legal(q, s, steps) && LockHeld(s)
    ensures Exec(q, s, steps).hist.skew >= s.hist.skew
    ensures InOrder(q, s, steps) <==> Exec(q, s, steps).hist.skew == s.hist.skew
    decreases |steps|
  {
    if steps != [] {
      SkewOnlyOutOfOrder(q, Next(q, s, steps[0]), steps[1..]);
    }
  }

  /** The lateness is zero exactly when lock order matches sample order, and then the plain rate bound holds. */
  lemma InOrderRateBound(q: Qer, n: nat, steps: seq<Step>)
    requires Legal(q, Init(n), steps)
    ensures InOrder(q, Init(n), steps) <==> Exec(q, Init(n), steps).hist.skew == 0
    ensures var s := Exec(q, Init(n), steps);
            InOrder(q, Init(n), steps) && s.bucket.last != 0
            ==> s.hist.admitted <= q.burst + Earned(q, s.hist.first, s.clock) / BIT_NS
  {
    RunKeepsInv(q, Init(n), steps);
    SkewOnlyOutOfOrder(q, Init(n), steps);
    var s := Exec(q, Init(n), steps);
    if InOrder(q, Init(n), steps) && s.bucket.last != 0 {
      SpendWithin(q, s, s.clock - s.hist.first);
    }
  }
}

/** Building blocks for particular runs of the machine. */
module SharedBucketRuns {
  import opened Words
  import opened TokenBucket
  import opened SharedBucket

  ghost predicate Reaches(q: Qer, s: State, steps: seq<Step>, t: State) {
    Legal(q, s, steps) && Exec(q, s, steps) == t
  }

  lemma {:induction false} Chain(q: Qer, s: State, a: seq<Step>, t: State, b: seq<Step>, u: State)
    requires Reaches(q, s, a, t) && Reaches(q, t, b, u)
    ensures Reaches(q, s, a + b, u)
    decreases |a|
  {
    if a == [] {
      assert a + b == b;
    } else {
      assert (a + b)[1..] == a[1..] + b;
      Chain(q, Next(q, s, a[0]), a[1..], t, b, u);
    }
  }

  lemma OneStep(q: Qer, s: State, a: Step)
    requires Enabled(s, a)
    ensures Reaches(q, s, [a], Next(q, s, a))
  {
    assert [a][1..] == [];
  }

  lemma TwoSteps(q: Qer, s: State, a: Step, b: Step)
    requires Enabled(s, a) && Enabled(Next(q, s, a), b)
    ensures Reaches(q, s, [a, b], Next(q, Next(q, s, a), b))
  {
    OneStep(q, s, a);
    OneStep(q, Next(q, s, a), b);
    Chain(q, s, [a], Next(q, s, a), [b], Next(q, Next(q, s, a), b));
    assert [a] + [b] == [a, b];
  }

  /** The state after CPU `c` has entered with a packet it sampled at `now`. */
  function Entered(q: Qer, s: State, c: nat, now: u64, len: u32): State
    requires c < |s.cpus|
  {
    var o := SharedAdmit(q, s.bucket, Call(now, len));
    s.(cpus := s.cpus[c := Idle], bucket := o.bucket,
       hist := Record(s.hist.(waited := s.hist.waited + Late(now, s.clock)), s.bucket.last, Holding(now, len), o))
  }

  lemma EntersLate(q: Qer, s: State, c: nat, now: u64, len: u32)
    requires c < |s.cpus| && s.cpus[c] == Sampled(now, len) && s.lock.None?
    ensures Reaches(q, s, [Acquire(c), Critical(c)], Entered(q, s, c, now, len))
  {
    TwoSteps(q, s, Acquire(c), Critical(c));
    var s1 := Next(q, s, Acquire(c));
    assert s1.cpus[c := Idle] == s.cpus[c := Idle];
  }

  /** A packet that meets no contention. */
  function Pass(c: nat, len: u32): seq<Step> {
    [Sample(c, len)] + [Acquire(c), Critical(c)]
  }

  lemma EntersAtOnce(q: Qer, s: State, c: nat, len: u32)
    requires c < |s.cpus| && s.cpus[c].Idle? && s.lock.None?
    ensures Reaches(q, s, Pass(c, len), Entered(q, s, c, s.clock, len))
  {
    var s1 := Next(q, s, Sample(c, len));
    OneStep(q, s, Sample(c, len));
    EntersLate(q, s1, c, s.clock, len);
    assert s1.cpus[c := Idle] == s.cpus[c := Idle];
    Chain(q, s, [Sample(c, len)], s1, [Acquire(c), Critical(c)], Entered(q, s1, c, s.clock, len));
  }
}
