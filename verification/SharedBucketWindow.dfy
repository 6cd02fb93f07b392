/** The shared bucket over any window of any run, not only since its first use (bpf/upf_tc.c:61-97). */
module SharedBucketWindow {
  import opened Words
  import opened TokenBucket
  import opened SharedBucket

  /** Every packet in progress sampled the clock at `t0` or later. */
  ghost predicate SampledFrom(s: State, t0: u64) {
    t0 <= s.clock && forall c :: 0 <= c < |s.cpus| && !s.cpus[c].Idle? ==> t0 <= s.cpus[c].now
  }

  /** How late the lock holder's stamp is. */
  function HolderLate(s: State): nat {
    if s.lock.Some? && s.lock.value < |s.cpus| && s.cpus[s.lock.value].Holding?
    then Late(s.cpus[s.lock.value].now, s.bucket.last) else 0
  }

  /** From a bucket in use, `e` has spent no more than `s` held and what the admitted elapsed times earned, and
      lateness grew no faster than waiting. */
  ghost predicate SpentSince(q: Qer, s: State, e: State) {
    && e.bucket.last != 0
    && e.hist.elapsed >= s.hist.elapsed && e.hist.waited >= s.hist.waited && e.hist.admitted >= s.hist.admitted
    && e.hist.elapsed - s.hist.elapsed == e.bucket.last - s.bucket.last + (e.hist.skew - s.hist.skew)
    && e.hist.skew + HolderLate(e) - s.hist.skew - HolderLate(s) <= e.hist.waited - s.hist.waited
    && BIT_NS * (e.hist.admitted - s.hist.admitted + e.bucket.tokens)
       <= BIT_NS * s.bucket.tokens + Earned(q, s.hist.elapsed, e.hist.elapsed)
  }

  lemma StepSpends(q: Qer, s: State, step: Step)
    requires Inv(q, s) && s.bucket.last != 0 && Enabled(s, step)
    ensures SpentSince(q, s, Next(q, s, step))
  {
    if step.Critical? {
      var w := s.cpus[step.cpu];
      SharedCallSpends(q, s.bucket, Call(w.now, w.len));
    }
  }

  lemma SpendingChains(q: Qer, s: State, t: State, e: State)
    requires SpentSince(q, s, t) && SpentSince(q, t, e)
    ensures SpentSince(q, s, e)
  {
    Split(q, s.hist.elapsed, t.hist.elapsed, e.hist.elapsed);
  }

  lemma {:induction false} RunSpendsFrom(q: Qer, s: State, steps: seq<Step>)
    requires Inv(q, s) && s.bucket.last != 0 && Legal(q, s, steps)
    ensures SpentSince(q, s, Exec(q, s, steps))
    decreases |steps|
  {
    if steps != [] {
      var s' := Next(q, s, steps[0]);
      StepSpends(q, s, steps[0]);
      StepKeepsInv(q, s, steps[0]);
      RunSpendsFrom(q, s', steps[1..]);
      SpendingChains(q, s, s', Exec(q, s, steps));
    }
  }

  lemma MoreTime(q: Qer, from: int, to: int, later: int)
    requires to <= later
    ensures Earned(q, from, to) / BIT_NS <= Earned(q, from, later) / BIT_NS
  {
    MulMono(to - from, later - from, q.mbr);
    DivMono(Earned(q, from, to), Earned(q, from, later), BIT_NS);
  }

  lemma FirstEntryCosts(q: Qer, s: State, step: Step)
    requires Inv(q, s) && Enabled(s, step) && step.Critical?
    ensures var s' := Next(q, s, step);
            && s'.bucket.last == s.cpus[step.cpu].now && HolderLate(s') == 0 && s'.hist.waited == s.hist.waited
            && s'.hist.admitted - s.hist.admitted + s'.bucket.tokens <= q.burst
  {
    if s.bucket.last != 0 {
      NoOverflow(q, s.bucket, GuardedSince(s.bucket.last, s.cpus[step.cpu].now));
    }
  }

  lemma {:induction false} ClockRuns(q: Qer, s: State, steps: seq<Step>)
    requires Legal(q, s, steps)
    ensures Exec(q, s, steps).clock >= s.clock && Exec(q, s, steps).hist.waited >= s.hist.waited
    decreases |steps|
  {
    if steps != [] {
      ClockRuns(q, Next(q, s, steps[0]), steps[1..]);
    }
  }

  /** What follows the first entry is spent from one burst. */
  lemma SpentFromBurst(q: Qer, s: State, s': State, e: State)
    requires s'.hist.admitted - s.hist.admitted + s'.bucket.tokens <= q.burst && SpentSince(q, s', e)
    ensures BIT_NS * (e.hist.admitted - s.hist.admitted)
            <= BIT_NS * q.burst + Earned(q, s'.hist.elapsed, e.hist.elapsed)
  {
  }

  /** And takes no longer than from the first stamp to the end, plus the waits that end on the way. */
  lemma SpanOf(q: Qer, s': State, e: State, t0: int)
    requires SpentSince(q, s', e) && HolderLate(s') == 0 && t0 <= s'.bucket.last && e.bucket.last <= e.clock
    ensures 0 <= e.hist.elapsed - s'.hist.elapsed <= e.clock + (e.hist.waited - s'.hist.waited) - t0
  {
  }

  lemma LongerEarnsMore(q: Qer, from: int, to: int, t0: int, close: int)
    requires to - from <= close - t0
    ensures Earned(q, from, to) <= Earned(q, t0, close)
  {
    MulMono(to - from, close - t0, q.mbr);
  }

  /** The first packet to enter leaves at most one burst; the rest is earned after its stamp. */
  lemma AfterFirstEntry(q: Qer, s: State, steps: seq<Step>, t0: u64)
    requires Inv(q, s) && Legal(q, s, steps) && SampledFrom(s, t0)
    requires steps != [] && steps[0].Critical?
    ensures var e := Exec(q, s, steps);
            && e.hist.waited >= s.hist.waited && e.clock >= t0
            && BIT_NS * (e.hist.admitted - s.hist.admitted)
               <= BIT_NS * q.burst + Earned(q, t0, e.clock + (e.hist.waited - s.hist.waited))
  {
    var s', e := Next(q, s, steps[0]), Exec(q, s, steps);
    StepKeepsInv(q, s, steps[0]);
    RunKeepsInv(q, s', steps[1..]);
    FirstEntryCosts(q, s, steps[0]);
    RunSpendsFrom(q, s', steps[1..]);
    ClockRuns(q, s, steps);
    SpentFromBurst(q, s, s', e);
    SpanOf(q, s', e, t0);
    LongerEarnsMore(q, s'.hist.elapsed, e.hist.elapsed, t0, e.clock + (e.hist.waited - s.hist.waited));
  }

  /**
   * Rate bound over any window of any run: from any reachable state, whatever is in progress there, the bytes
   * admitted by all CPUs together are at most one burst plus the configured rate over the window and over the lock
   * waits that end in it. The window opens at the oldest stamp in progress.
   */
  lemma {:induction false} WindowRateBound(q: Qer, s: State, steps: seq<Step>, t0: u64)
    requires Inv(q, s) && Legal(q, s, steps) && SampledFrom(s, t0)
    ensures var e := Exec(q, s, steps);
            && e.hist.waited >= s.hist.waited && e.clock >= t0
            && e.hist.admitted - s.hist.admitted
               <= q.burst + Earned(q, t0, e.clock + (e.hist.waited - s.hist.waited)) / BIT_NS
    decreases |steps|
  {
    var e := Exec(q, s, steps);
    ClockRuns(q, s, steps);
    var close := e.clock + (e.hist.waited - s.hist.waited);
    if steps == [] {
      MoreTime(q, t0, t0, close);
    } else if steps[0].Critical? {
      AfterFirstEntry(q, s, steps, t0);
      FloorBound(e.hist.admitted - s.hist.admitted, q.burst, Earned(q, t0, close), BIT_NS);
    } else {
      var s' := Next(q, s, steps[0]);
      StepKeepsInv(q, s, steps[0]);
      WindowRateBound(q, s', steps[1..], t0);
      MoreTime(q, t0, e.clock + (e.hist.waited - s'.hist.waited), close);
    }
  }
}
