/**
 * The shared bucket is not stingy (bpf/upf_tc.c:79-93): what it refills to the last bit, why it rejects, and when it is
 * a textbook bucket, over every interleaving of N CPUs.
 */
module SharedBucketExact {
  import opened Words
  import opened TokenBucket
  import opened SharedBucket
  import opened SharedBucketWindow

  // ---- Conservation ----

  /** The critical section about to run loses nothing to the cap, to the product or to a full bucket. */
  ghost predicate UnclippedStep(q: Qer, s: State, step: Step)
    requires Enabled(s, step)
  {
    step.Critical? ==>
      var e := GuardedSince(s.bucket.last, s.cpus[step.cpu].now);
      e <= NS_CAP && e * q.mbr < U64_LIMIT && s.bucket.tokens + e * q.mbr / BIT_NS <= q.burst
  }

  ghost predicate NeverClipped(q: Qer, s: State, steps: seq<Step>)
    requires Legal(q, s, steps)
    decreases |steps|
  {
    steps != [] ==> UnclippedStep(q, s, steps[0]) && NeverClipped(q, Next(q, s, steps[0]), steps[1..])
  }

  /** What truncating division discards over a run, in units of 1/BIT_NS byte. */
  function Discarded(q: Qer, s: State, steps: seq<Step>): nat
    requires Legal(q, s, steps)
    decreases |steps|
  {
    if steps == [] then 0
    else
      (if steps[0].Critical? then GuardedSince(s.bucket.last, s.cpus[steps[0].cpu].now) * q.mbr % BIT_NS else 0)
      + Discarded(q, Next(q, s, steps[0]), steps[1..])
  }

  /** How many packets enter the critical section. */
  function Entries(steps: seq<Step>): nat {
    if steps == [] then 0 else (if steps[0].Critical? then 1 else 0) + Entries(steps[1..])
  }

  /** Admitted and left amounts, and what division discarded, are what was held and what the admitted times earned. */
  ghost predicate Exact(q: Qer, s: State, e: State, discarded: int) {
    && e.bucket.last != 0 && e.bucket.tokens <= q.burst && e.hist.elapsed >= s.hist.elapsed
    && BIT_NS * (e.hist.admitted - s.hist.admitted + e.bucket.tokens) + discarded
       == BIT_NS * s.bucket.tokens + Earned(q, s.hist.elapsed, e.hist.elapsed)
  }

  lemma EntryExact(q: Qer, s: State, step: Step)
    requires s.bucket.last != 0 && s.bucket.tokens <= q.burst && StampsPast(s)
    requires Enabled(s, step) && step.Critical? && UnclippedStep(q, s, step)
    ensures Exact(q, s, Next(q, s, step), GuardedSince(s.bucket.last, s.cpus[step.cpu].now) * q.mbr % BIT_NS)
  {
    var w := s.cpus[step.cpu];
    var e := GuardedSince(s.bucket.last, w.now);
    SharedCallExact(q, s.bucket, Call(w.now, w.len));
    NoOverflow(q, s.bucket, e);
    assert Next(q, s, step).hist.elapsed == s.hist.elapsed + e;
  }

  lemma QuietExact(q: Qer, s: State, step: Step)
    requires s.bucket.last != 0 && s.bucket.tokens <= q.burst && Enabled(s, step) && !step.Critical?
    ensures Exact(q, s, Next(q, s, step), 0)
  {
  }

  lemma ExactChains(q: Qer, s: State, t: State, e: State, d1: int, d2: int)
    requires Exact(q, s, t, d1) && Exact(q, t, e, d2)
    ensures Exact(q, s, e, d1 + d2)
  {
    Split(q, s.hist.elapsed, t.hist.elapsed, e.hist.elapsed);
  }

  lemma StepKeepsStamps(q: Qer, s: State, step: Step)
    requires StampsPast(s) && Enabled(s, step)
    ensures StampsPast(Next(q, s, step))
  {
  }

  /** Conservation to the last bit, for every configuration and interleaving. */
  lemma {:induction false} RunExact(q: Qer, s: State, steps: seq<Step>)
    requires s.bucket.last != 0 && s.bucket.tokens <= q.burst && StampsPast(s)
    requires Legal(q, s, steps) && NeverClipped(q, s, steps)
    ensures Exact(q, s, Exec(q, s, steps), Discarded(q, s, steps))
    ensures Discarded(q, s, steps) <= Entries(steps) * (BIT_NS - 1)
    decreases |steps|
  {
    if steps != [] {
      var s' := Next(q, s, steps[0]);
      var d := if steps[0].Critical? then GuardedSince(s.bucket.last, s.cpus[steps[0].cpu].now) * q.mbr % BIT_NS else 0;
      if steps[0].Critical? {
        EntryExact(q, s, steps[0]);
      } else {
        QuietExact(q, s, steps[0]);
      }
      StepKeepsStamps(q, s, steps[0]);
      RunExact(q, s', steps[1..]);
      ExactChains(q, s, s', Exec(q, s, steps), d, Discarded(q, s', steps[1..]));
    }
  }

  // ---- Rejections ----

  /** The critical section leaves its packet rejected. */
  ghost predicate Rejects(q: Qer, s: State, c: nat)
    requires Enabled(s, Critical(c))
  {
    !SharedAdmit(q, s.bucket, Call(s.cpus[c].now, s.cpus[c].len)).admit
  }

  /** From the first entry to the rejected one: nothing is lost but what division discards. */
  lemma ToTheRejection(q: Qer, s1: State, steps: seq<Step>, s2: State, c: nat, e: State) returns (discarded: nat)
    requires s1.bucket.last != 0 && s1.bucket.tokens <= q.burst && StampsPast(s1)
    requires Legal(q, s1, steps) && s2 == Exec(q, s1, steps) && NeverClipped(q, s1, steps) && StampsPast(s2)
    requires Enabled(s2, Critical(c)) && UnclippedStep(q, s2, Critical(c)) && e == Next(q, s2, Critical(c))
    ensures Exact(q, s1, e, discarded) && discarded <= (Entries(steps) + 1) * (BIT_NS - 1)
  {
    RunExact(q, s1, steps);
    EntryExact(q, s2, Critical(c));
    var last := GuardedSince(s2.bucket.last, s2.cpus[c].now) * q.mbr % BIT_NS;
    ExactChains(q, s1, s2, e, Discarded(q, s1, steps), last);
    discarded := Discarded(q, s1, steps) + last;
  }

  lemma Combined(burst: int, total: int, first: int, held: int, later: int, left: int, earned: int, lost: int, k: int,
                 len: int)
    requires first + held == burst && total == first + later && left < len && k > 0
    requires BIT_NS * (later + left) + lost == BIT_NS * held + earned && lost <= k * (BIT_NS - 1)
    ensures BIT_NS * total > BIT_NS * burst + earned - BIT_NS * k - BIT_NS * len
  {
  }

  /** The elapsed times the guard lets through are the net advance of the stamp plus the lateness. */
  lemma ElapsedBetween(q: Qer, s1: State, steps: seq<Step>, s2: State, c: nat, e: State)
    requires Inv(q, s1) && s1.bucket.last != 0 && Legal(q, s1, steps) && s2 == Exec(q, s1, steps)
    requires Enabled(s2, Critical(c)) && e == Next(q, s2, Critical(c))
    ensures Inv(q, s2)
    ensures e.hist.elapsed - s1.hist.elapsed == e.bucket.last - s1.bucket.last + (e.hist.skew - s1.hist.skew)
  {
    RunKeepsInv(q, s1, steps);
    RunSpendsFrom(q, s1, steps);
    StepSpends(q, s2, Critical(c));
  }

  lemma FullEntry(q: Qer, s: State, full: nat)
    requires Inv(q, s) && Enabled(s, Critical(full))
    ensures var s1 := Next(q, s, Critical(full));
            Inv(q, s1) && s1.bucket.last != 0 && s1.bucket.tokens <= q.burst && s1.hist.admitted >= s.hist.admitted
  {
    StepKeepsInv(q, s, Critical(full));
  }

  /**
   * No undue rejection in the shared build, for every configuration and interleaving of N CPUs. The packet of CPU
   * `full` found the bucket full or filled it; none of the entries after it was clipped, and the last of them, CPU c's,
   * was rejected. Then the bytes admitted since exceed one burst plus what all elapsed times the guard let through
   * earned, less one byte per entry and less the rejected packet. Those times add up to the net advance of the stored
   * stamp and the lateness of every entry.
   */
  lemma SharedRejectionIsDeserved(q: Qer, s: State, full: nat, s1: State, steps: seq<Step>, s2: State, c: nat, e: State)
    requires Inv(q, s) && Enabled(s, Critical(full)) && s1 == Next(q, s, Critical(full))
    requires s1.hist.admitted - s.hist.admitted + s1.bucket.tokens == q.burst
    requires Legal(q, s1, steps) && s2 == Exec(q, s1, steps) && NeverClipped(q, s1, steps)
    requires Enabled(s2, Critical(c)) && UnclippedStep(q, s2, Critical(c))
    requires Rejects(q, s2, c) && e == Next(q, s2, Critical(c))
    ensures BIT_NS * (e.hist.admitted - s.hist.admitted)
            > BIT_NS * q.burst + Earned(q, s1.hist.elapsed, e.hist.elapsed)
              - BIT_NS * (Entries(steps) + 1) - BIT_NS * s2.cpus[c].len
    ensures e.hist.elapsed - s1.hist.elapsed == e.bucket.last - s1.bucket.last + (e.hist.skew - s1.hist.skew)
  {
    FullEntry(q, s, full);
    ElapsedBetween(q, s1, steps, s2, c, e);
    var lost := ToTheRejection(q, s1, steps, s2, c, e);
    Combined(q.burst, e.hist.admitted - s.hist.admitted, s1.hist.admitted - s.hist.admitted, s1.bucket.tokens,
             e.hist.admitted - s1.hist.admitted, e.bucket.tokens, Earned(q, s1.hist.elapsed, e.hist.elapsed), lost,
             Entries(steps) + 1, s2.cpus[c].len);
  }
}

/** When the shared bucket is a textbook bucket fed the elapsed times its guard lets through. */
module SharedRefinement {
  import opened Words
  import opened TokenBucket
  import opened BucketRefinement
  import opened SharedBucket
  import opened SharedBucketRuns

  /** The textbook bucket: unbounded integers, no cap. */
  function PlainSharedAdmit(q: Qer, b: Bucket, c: Call): Outcome {
    var e: nat := if c.now > b.last then c.now - b.last else 0;
    var sum := b.tokens + e * q.mbr / BIT_NS;
    var level: u64 := if b.last == 0 || sum > q.burst then q.burst else sum;
    if c.len <= level then Outcome(Bucket(level - c.len, c.now), true) else Outcome(Bucket(level, c.now), false)
  }

  /** The machine with the textbook bucket in the critical section. */
  function PlainNext(q: Qer, s: State, step: Step): State
    requires Enabled(s, step)
  {
    match step
    case Critical(c) =>
      var w := s.cpus[c];
      var o := PlainSharedAdmit(q, s.bucket, Call(w.now, w.len));
      s.(lock := None, cpus := s.cpus[c := Idle], bucket := o.bucket, hist := Record(s.hist, s.bucket.last, w, o))
    case _ => Next(q, s, step)
  }

  predicate PlainLegal(q: Qer, s: State, steps: seq<Step>)
    decreases |steps|
  {
    steps == [] || (Enabled(s, steps[0]) && PlainLegal(q, PlainNext(q, s, steps[0]), steps[1..]))
  }

  function PlainExec(q: Qer, s: State, steps: seq<Step>): State
    requires PlainLegal(q, s, steps)
    decreases |steps|
  {
    if steps == [] then s else PlainExec(q, PlainNext(q, s, steps[0]), steps[1..])
  }

  /** Both machines make the same run: same states, so same decisions and same bytes admitted. */
  ghost predicate SameRun(q: Qer, s: State, steps: seq<Step>)
    requires Legal(q, s, steps)
  {
    PlainLegal(q, s, steps) && PlainExec(q, s, steps) == Exec(q, s, steps)
  }

  lemma EntriesAgree(q: Qer, b: Bucket, c: Call)
    requires Faithful(q) && (b.last != 0 ==> b.tokens <= q.burst)
    ensures SharedAdmit(q, b, c) == PlainSharedAdmit(q, b, c)
  {
    if b.last != 0 {
      var now := if c.now > b.last then c.now else b.last;
      RefillsAgree(q, b, now);
      EarnsForward(q, b.last, now);
    }
  }

  lemma StepsAgree(q: Qer, s: State, step: Step)
    requires Faithful(q) && Inv(q, s) && Enabled(s, step)
    ensures PlainNext(q, s, step) == Next(q, s, step)
  {
    if step.Critical? {
      EntriesAgree(q, s.bucket, Call(s.cpus[step.cpu].now, s.cpus[step.cpu].len));
    }
  }

  lemma {:induction false} RunsAgree(q: Qer, s: State, steps: seq<Step>)
    requires Faithful(q) && Inv(q, s) && Legal(q, s, steps)
    ensures SameRun(q, s, steps)
    decreases |steps|
  {
    if steps != [] {
      StepsAgree(q, s, steps[0]);
      StepKeepsInv(q, s, steps[0]);
      RunsAgree(q, Next(q, s, steps[0]), steps[1..]);
    }
  }

  // ---- The other configurations ----

  lemma SamePrefix(q: Qer, s: State, step: Step, rest: seq<Step>, e: State, p: State)
    requires Enabled(s, step) && PlainNext(q, s, step) == Next(q, s, step)
    requires Legal(q, Next(q, s, step), rest) && Exec(q, Next(q, s, step), rest) == e
    requires PlainLegal(q, Next(q, s, step), rest) && PlainExec(q, Next(q, s, step), rest) == p
    ensures Legal(q, s, [step] + rest) && Exec(q, s, [step] + rest) == e
    ensures PlainLegal(q, s, [step] + rest) && PlainExec(q, s, [step] + rest) == p
  {
    assert ([step] + rest)[1..] == rest;
  }

  /** The last entry of a run. */
  lemma LastEntry(q: Qer, s: State, c: nat)
    requires Enabled(s, Critical(c))
    ensures Legal(q, s, [Critical(c)]) && Exec(q, s, [Critical(c)]) == Next(q, s, Critical(c))
    ensures PlainLegal(q, s, [Critical(c)]) && PlainExec(q, s, [Critical(c)]) == PlainNext(q, s, Critical(c))
  {
    assert [Critical(c)][1..] == [];
    assert Legal(q, Next(q, s, Critical(c)), []) && PlainLegal(q, PlainNext(q, s, Critical(c)), []);
  }

  /** CPU 0 spends the burst at stamp 1 and asks for `ask` bytes `wait` later. */
  function SpendThenWait(q: Qer, wait: nat, ask: u32): seq<Step> {
    [Sample(0, q.burst)] + ([Acquire(0)] + ([Critical(0)] + ([Tick(wait)]
    + ([Sample(0, ask)] + ([Acquire(0)] + [Critical(0)])))))
  }

  /** The textbook bucket admits what the real one, having refilled less, rejects. */
  lemma AskedTooMuch(q: Qer, wait: nat, ask: u32)
    requires wait + 1 < U64_LIMIT && Refill(q.mbr, wait) < ask <= q.burst && ask <= wait * q.mbr / BIT_NS
    ensures !SharedAdmit(q, Bucket(0, 1), Call(1 + wait, ask)).admit
    ensures PlainSharedAdmit(q, Bucket(0, 1), Call(1 + wait, ask)).admit
  {
    NoOverflow(q, Bucket(0, 1), wait);
  }

  lemma DivergesAfter(q: Qer, n: nat, wait: nat, ask: u32)
    requires n > 0 && wait + 1 < U64_LIMIT
    requires Refill(q.mbr, wait) < ask <= q.burst && ask <= wait * q.mbr / BIT_NS
    ensures Legal(q, Init(n), SpendThenWait(q, wait, ask)) && !SameRun(q, Init(n), SpendThenWait(q, wait, ask))
  {
    var s0 := Init(n);
    var s1 := Next(q, s0, Sample(0, q.burst));
    var s2 := Next(q, s1, Acquire(0));
    var s3 := Next(q, s2, Critical(0));
    assert s3.bucket == Bucket(0, 1) && PlainNext(q, s2, Critical(0)) == s3;
    var s4 := Next(q, s3, Tick(wait));
    var s5 := Next(q, s4, Sample(0, ask));
    var s6 := Next(q, s5, Acquire(0));
    AskedTooMuch(q, wait, ask);
    var e, p := Next(q, s6, Critical(0)), PlainNext(q, s6, Critical(0));
    assert p.hist.admitted == s6.hist.admitted + ask && e.hist.admitted == s6.hist.admitted;
    LastEntry(q, s6, 0);
    SamePrefix(q, s5, Acquire(0), [Critical(0)], e, p);
    SamePrefix(q, s4, Sample(0, ask), [Acquire(0)] + [Critical(0)], e, p);
    var late := [Sample(0, ask)] + ([Acquire(0)] + [Critical(0)]);
    SamePrefix(q, s3, Tick(wait), late, e, p);
    SamePrefix(q, s2, Critical(0), [Tick(wait)] + late, e, p);
    SamePrefix(q, s1, Acquire(0), [Critical(0)] + ([Tick(wait)] + late), e, p);
    SamePrefix(q, s0, Sample(0, q.burst), [Acquire(0)] + ([Critical(0)] + ([Tick(wait)] + late)), e, p);
  }

  lemma {:induction false} NobodyEnters(q: Qer, s: State, steps: seq<Step>)
    requires s.cpus == [] && Legal(q, s, steps)
    ensures SameRun(q, s, steps)
    decreases |steps|
  {
    if steps != [] {
      NobodyEnters(q, Next(q, s, steps[0]), steps[1..]);
    }
  }

  /**
   * Exact refinement of the shared build: for every number of CPUs and every configuration, the machine makes the same
   * run with the real bucket as with the textbook bucket fed the guarded elapsed times, over every interleaving, if and
   * only if there are no CPUs or the configuration is faithful.
   */
  lemma SharedRefinesExactlyWhen(q: Qer, n: nat)
    ensures (forall steps :: Legal(q, Init(n), steps) ==> SameRun(q, Init(n), steps)) <==> n == 0 || Faithful(q)
  {
    if Faithful(q) {
      forall steps | Legal(q, Init(n), steps)
        ensures SameRun(q, Init(n), steps)
      {
        RunsAgree(q, Init(n), steps);
      }
    } else if n == 0 {
      forall steps | Legal(q, Init(0), steps)
        ensures SameRun(q, Init(0), steps)
      {
        NobodyEnters(q, Init(0), steps);
      }
    } else {
      var wait := UnfaithfulWait(q);
      var earned := Earned(q, 1, 1 + wait) / BIT_NS;
      assert Earned(q, 1, 1 + wait) == wait * q.mbr;
      var ask: u32 := if earned > q.burst then q.burst else earned;
      DivergesAfter(q, n, wait, ask);
    }
  }
}
