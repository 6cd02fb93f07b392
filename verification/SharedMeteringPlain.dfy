/**
 * When the report of a dedicated URR keeps to the plain rate in the shared build, with no allowance for waiting or for
 * packets under way (bpf/upf_tc.c:182-190): conditions on the number of CPUs and the configuration alone.
 */
module SharedMeteringPlain {
  import opened Words
  import opened TokenBucket
  import Sb = SharedBucket
  import Runs = SharedBucketRuns
  import Plain = SharedBucketPlain
  import SharedBucketWindow
  import Urr = UrrRace
  import opened UrrAccounting
  import opened SharedMetering
  import opened SharedMeteringLaws

  /** A run from the start whose admitted bytes fit the counter. */
  ghost predicate IsRun(q: Qer, u: u32, n: nat, ids: set<u32>, steps: seq<Step>) {
    Legal(q, u, Init(n), steps) && Uses(steps, ids) && Exec(q, u, Init(n), steps).bucket.hist.admitted < U64_LIMIT
  }

  /** The report is within one burst plus the configured rate since first use. */
  ghost predicate ReportsPlainly(q: Qer, u: u32, e: State) {
    Reported(e.urr.counters, u)
    <= if e.bucket.bucket.last == 0 then 0
       else q.burst + Earned(q, e.bucket.hist.first, e.bucket.clock) / BIT_NS
  }

  /** The run `a` from the start, then the window `b`, which opens at the oldest stamp in progress. */
  ghost predicate IsWindow(q: Qer, u: u32, n: nat, ids: set<u32>, a: seq<Step>, b: seq<Step>, t0: u64) {
    && Legal(q, u, Init(n), a) && Legal(q, u, Exec(q, u, Init(n), a), b)
    && Uses(a, ids) && Uses(b, ids)
    && SharedBucketWindow.SampledFrom(Exec(q, u, Init(n), a).bucket, t0)
    && Exec(q, u, Exec(q, u, Init(n), a), b).bucket.hist.admitted < U64_LIMIT
  }

  /** The report grows over the window by at most one burst plus the configured rate. */
  ghost predicate GrowsPlainly(q: Qer, u: u32, n: nat, a: seq<Step>, b: seq<Step>, t0: u64)
    requires Legal(q, u, Init(n), a) && Legal(q, u, Exec(q, u, Init(n), a), b)
  {
    var m := Exec(q, u, Init(n), a);
    var e := Exec(q, u, m, b);
    Reported(e.urr.counters, u) <= Reported(m.urr.counters, u) + q.burst + Earned(q, t0, e.bucket.clock) / BIT_NS
  }

  // ---- Where they hold ----

  lemma {:induction false} NoCpusNoCounters(q: Qer, u: u32, m: State, steps: seq<Step>)
    requires m.urr.cpus == [] && m.urr.counters == map[] && Legal(q, u, m, steps)
    ensures Exec(q, u, m, steps).urr.counters == map[]
    decreases |steps|
  {
    if steps != [] {
      NoCpusNoCounters(q, u, Next(q, u, m, steps[0]), steps[1..]);
    }
  }

  /** The report never exceeds what the bucket admitted since the start. */
  lemma ReportAtMostAdmitted(q: Qer, u: u32, n: nat, ids: set<u32>, steps: seq<Step>)
    requires u != 0 && u in ids && |ids| <= Urr.MAX_URRS && IsRun(q, u, n, ids, steps)
    ensures Reported(Exec(q, u, Init(n), steps).urr.counters, u) <= Exec(q, u, Init(n), steps).bucket.hist.admitted
  {
    if n == 0 {
      NoCpusNoCounters(q, u, Init(n), steps);
    } else {
      ReportWithinAdmitted(q, u, n, steps, ids);
    }
  }

  lemma AdmittedPlainly(q: Qer, u: u32, n: nat, steps: seq<Step>)
    requires (n <= 1 || NothingEarned(q)) && Legal(q, u, Init(n), steps)
    ensures var b := Exec(q, u, Init(n), steps).bucket;
            b.hist.admitted <= if b.bucket.last == 0 then 0 else q.burst + Earned(q, b.hist.first, b.clock) / BIT_NS
  {
    AdmittedSinceFirstUse(q, u, n, steps);
    PolicesAlone(q, u, Init(n), steps);
    Plain.PlainWhenQuiet(q, n, Policing(steps));
  }

  lemma PlainSinceFirstUse(q: Qer, u: u32, n: nat, ids: set<u32>, steps: seq<Step>)
    requires n <= 1 || NothingEarned(q)
    requires u != 0 && u in ids && |ids| <= Urr.MAX_URRS && IsRun(q, u, n, ids, steps)
    ensures ReportsPlainly(q, u, Exec(q, u, Init(n), steps))
  {
    ReportAtMostAdmitted(q, u, n, ids, steps);
    AdmittedPlainly(q, u, n, steps);
  }

  lemma {:induction false} Joined(q: Qer, u: u32, m: State, a: seq<Step>, b: seq<Step>)
    requires Legal(q, u, m, a) && Legal(q, u, Exec(q, u, m, a), b)
    ensures Legal(q, u, m, a + b) && Exec(q, u, m, a + b) == Exec(q, u, Exec(q, u, m, a), b)
    decreases |a|
  {
    if a == [] {
      assert a + b == b;
    } else {
      var m' := Next(q, u, m, a[0]);
      assert (a + b)[0] == a[0] && (a + b)[1..] == a[1..] + b;
      assert Exec(q, u, m, a) == Exec(q, u, m', a[1..]);
      Joined(q, u, m', a[1..], b);
    }
  }

  lemma UsesBoth(a: seq<Step>, b: seq<Step>, ids: set<u32>)
    requires Uses(a, ids) && Uses(b, ids)
    ensures Uses(a + b, ids)
  {
  }

  lemma ClockOnward(q: Qer, u: u32, m: State, steps: seq<Step>)
    requires Legal(q, u, m, steps)
    ensures Exec(q, u, m, steps).bucket.clock >= m.bucket.clock
  {
    PolicesAlone(q, u, m, steps);
    SharedBucketWindow.ClockRuns(q, m.bucket, Policing(steps));
  }

  /** A bucket that earns nothing admits one burst. */
  lemma OneBurstAdmitted(q: Qer, u: u32, n: nat, steps: seq<Step>)
    requires NothingEarned(q) && Legal(q, u, Init(n), steps)
    ensures Exec(q, u, Init(n), steps).bucket.hist.admitted <= q.burst
  {
    PolicesAlone(q, u, Init(n), steps);
    Plain.OneBurstOnly(q, Sb.Init(n), Policing(steps));
  }

  lemma QuietReport(q: Qer, u: u32, n: nat, ids: set<u32>, steps: seq<Step>)
    requires n == 0 || NothingEarned(q)
    requires u != 0 && u in ids && |ids| <= Urr.MAX_URRS && IsRun(q, u, n, ids, steps)
    ensures Reported(Exec(q, u, Init(n), steps).urr.counters, u) <= q.burst
  {
    if n == 0 {
      NoCpusNoCounters(q, u, Init(n), steps);
    } else {
      ReportAtMostAdmitted(q, u, n, ids, steps);
      OneBurstAdmitted(q, u, n, steps);
    }
  }

  lemma PlainWindow(q: Qer, u: u32, n: nat, ids: set<u32>, a: seq<Step>, b: seq<Step>, t0: u64)
    requires n == 0 || NothingEarned(q)
    requires u != 0 && u in ids && |ids| <= Urr.MAX_URRS && IsWindow(q, u, n, ids, a, b, t0)
    ensures GrowsPlainly(q, u, n, a, b, t0)
  {
    Joined(q, u, Init(n), a, b);
    UsesBoth(a, b, ids);
    QuietReport(q, u, n, ids, a + b);
    var m := Exec(q, u, Init(n), a);
    ClockOnward(q, u, m, b);
    EarnsForward(q, t0, Exec(q, u, m, b).bucket.clock);
  }

  // ---- Particular runs ----

  ghost predicate Reaches(q: Qer, u: u32, m: State, steps: seq<Step>, e: State) {
    Legal(q, u, m, steps) && Exec(q, u, m, steps) == e
  }

  lemma Prepend(q: Qer, u: u32, m: State, step: Step, rest: seq<Step>, e: State)
    requires Enabled(u, m, step) && Reaches(q, u, Next(q, u, m, step), rest, e)
    ensures Reaches(q, u, m, [step] + rest, e)
  {
    assert ([step] + rest)[1..] == rest;
  }

  lemma Chain(q: Qer, u: u32, m: State, a: seq<Step>, t: State, b: seq<Step>, e: State)
    requires Reaches(q, u, m, a, t) && Reaches(q, u, t, b, e)
    ensures Reaches(q, u, m, a + b, e)
  {
    Joined(q, u, m, a, b);
  }

  lemma TwoSteps(q: Qer, u: u32, m: State, a: Step, b: Step)
    requires Enabled(u, m, a) && Enabled(u, Next(q, u, m, a), b)
    ensures Reaches(q, u, m, [a, b], Next(q, u, Next(q, u, m, a), b))
  {
    var e := Next(q, u, Next(q, u, m, a), b);
    Prepend(q, u, Next(q, u, m, a), b, [], e);
    Prepend(q, u, m, a, [b] + [], e);
    assert [a] + ([b] + []) == [a, b];
  }

  /** CPU c enters with a packet it sampled at `now`. */
  function Entering(c: nat): seq<Step> {
    [Police(Sb.Acquire(c)), Police(Sb.Critical(c))]
  }

  lemma Enters(q: Qer, u: u32, m: State, c: nat, now: u64, len: u32)
    requires SameSize(m) && c < |m.passed| && m.bucket.cpus[c] == Sb.Sampled(now, len) && m.bucket.lock.None?
    ensures var admit := SharedAdmit(q, m.bucket.bucket, Call(now, len)).admit;
            Reaches(q, u, m, Entering(c),
                    m.(bucket := Runs.Entered(q, m.bucket, c, now, len),
                       passed := if admit then m.passed[c := Some(len)] else m.passed))
  {
    TwoSteps(q, u, m, Police(Sb.Acquire(c)), Police(Sb.Critical(c)));
    var b1 := Sb.Next(q, m.bucket, Sb.Acquire(c));
    assert b1.cpus[c := Sb.Idle] == m.bucket.cpus[c := Sb.Idle];
  }

  /** A packet that meets no contention, up to the bucket's answer. */
  function Passing(c: nat, len: u32): seq<Step> {
    [Police(Sb.Sample(c, len))] + Entering(c)
  }

  lemma PassesAtOnce(q: Qer, u: u32, m: State, c: nat, len: u32)
    requires Free(m, c) && m.bucket.lock.None?
    requires SharedAdmit(q, m.bucket.bucket, Call(m.bucket.clock, len)).admit
    ensures Reaches(q, u, m, Passing(c, len),
                    m.(bucket := Runs.Entered(q, m.bucket, c, m.bucket.clock, len),
                       passed := m.passed[c := Some(len)]))
  {
    var step := Police(Sb.Sample(c, len));
    var m1 := Next(q, u, m, step);
    Enters(q, u, m1, c, m.bucket.clock, len);
    assert m1.bucket.cpus[c := Sb.Idle] == m.bucket.cpus[c := Sb.Idle];
    Prepend(q, u, m, step, Entering(c),
            m.(bucket := Runs.Entered(q, m.bucket, c, m.bucket.clock, len), passed := m.passed[c := Some(len)]));
  }

  /** CPU 0's admitted packet is looked up and written. */
  const COUNTING: seq<Step> := [Meter(0), Commit(0)]

  function Resting(n: nat): seq<Urr.Pending> {
    seq(n, _ => Urr.Idle)
  }

  function NonePassedYet(n: nat): seq<Option<u32>> {
    seq(n, _ => None)
  }

  /** Nothing is looked up and not written; CPU 0 has `len` admitted bytes to count. */
  ghost predicate ToCount(m: State, n: nat, len: u32) {
    && n > 0 && SameSize(m) && m.urr.cpus == Resting(n) && m.passed == NonePassedYet(n)[0 := Some(len)]
  }

  lemma FirstCounts(q: Qer, u: u32, m: State, n: nat, len: u32)
    requires u != 0 && ToCount(m, n, len) && m.urr.counters == map[]
    ensures Legal(q, u, m, COUNTING)
    ensures var e := Exec(q, u, m, COUNTING);
            && e.bucket == m.bucket && e.passed == NonePassedYet(n) && e.urr.cpus == Resting(n)
            && e.urr.counters == map[u := Urr.NewRow(n, 0, len)]
  {
    var m1 := Next(q, u, m, Meter(0));
    assert m1.urr.cpus[0] == Urr.Missing(u, len);
    TwoSteps(q, u, m, Meter(0), Commit(0));
    var e := Next(q, u, m1, Commit(0));
    assert e.urr.cpus == Resting(n) && e.passed == NonePassedYet(n);
  }

  lemma AgainCounts(q: Qer, u: u32, m: State, n: nat, len: u32, row: seq<Urr.Usage>)
    requires u != 0 && ToCount(m, n, len) && |row| == n && m.urr.counters == map[u := row]
    ensures Legal(q, u, m, COUNTING)
    ensures Exec(q, u, m, COUNTING).urr.counters == map[u := row[0 := Urr.Bumped(row[0], len)]]
    ensures Exec(q, u, m, COUNTING).bucket == m.bucket
  {
    var m1 := Next(q, u, m, Meter(0));
    assert m1.urr.cpus[0] == Urr.Found(u, len);
    TwoSteps(q, u, m, Meter(0), Commit(0));
  }

  /** A burst and a byte, both CPU 0's, add up. */
  lemma RowTotal(n: nat, burst: u32)
    requires n > 0
    ensures var row := Urr.NewRow(n, 0, burst);
            Urr.BytesOf(row[0 := Urr.Bumped(row[0], 1)]) == burst + 1
  {
    var row, zeros := Urr.NewRow(n, 0, burst), seq(n, _ => Urr.Usage(0, 0));
    var last := Urr.Bumped(row[0], 1);
    EqualRow(zeros, 0);
    FirstGrows(zeros, last);
    assert zeros[0 := last] == row[0 := last];
  }

  // ---- Where they fail ----

  /** The bucket is spent at stamp 1, and `ByteWait` later nothing else is going on. */
  ghost predicate Spent(q: Qer, u: u32, m: State, n: nat)
    requires q.mbr >= 8
  {
    && SameSize(m) && n > 0 && |m.urr.cpus| == n && m.bucket.cpus[0].Idle? && m.bucket.lock.None?
    && m.bucket.bucket == Bucket(0, 1) && m.bucket.clock == 1 + ByteWait(q.mbr)
    && m.urr.cpus == Resting(n) && m.bucket.hist.admitted == q.burst
  }

  /** From there CPU 0 gets one byte more, and counts it. */
  lemma OneByteMore(q: Qer, u: u32, m: State, n: nat) returns (e: State)
    requires u != 0 && q.mbr >= 8 && q.burst > 0 && Spent(q, u, m, n) && m.passed == NonePassedYet(n)
    requires m.urr.counters == map[u := Urr.NewRow(n, 0, q.burst)]
    ensures Reaches(q, u, m, Passing(0, 1) + COUNTING, e)
    ensures Reported(e.urr.counters, u) == q.burst + 1 == e.bucket.hist.admitted
    ensures e.bucket.clock == m.bucket.clock && e.bucket.bucket.last == m.bucket.clock
    ensures e.bucket.hist.first == m.bucket.hist.first
  {
    ByteEarned(q.mbr);
    NoOverflow(q, Bucket(0, 1), ByteWait(q.mbr));
    PassesAtOnce(q, u, m, 0, 1);
    var m1 := m.(bucket := Runs.Entered(q, m.bucket, 0, m.bucket.clock, 1), passed := m.passed[0 := Some(1)]);
    var row := Urr.NewRow(n, 0, q.burst);
    AgainCounts(q, u, m1, n, 1, row);
    RowTotal(n, q.burst);
    e := Exec(q, u, m1, COUNTING);
    Chain(q, u, m, Passing(0, 1), m1, COUNTING, e);
  }

  ghost predicate NoOthers(steps: seq<Step>) {
    forall i :: 0 <= i < |steps| ==> !steps[i].Other?
  }

  /** CPU 0's packet of a whole burst is admitted at stamp 1, and stays under way while time passes. */
  function Opening(q: Qer): seq<Step>
    requires q.mbr >= 8
  {
    Passing(0, q.burst) + [Police(Sb.Tick(ByteWait(q.mbr)))]
  }

  lemma Opens(q: Qer, u: u32, n: nat) returns (m: State)
    requires q.mbr >= 8 && n > 0
    ensures Reaches(q, u, Init(n), Opening(q), m)
    ensures Spent(q, u, m, n) && ToCount(m, n, q.burst) && m.urr.counters == map[]
    ensures SharedBucketWindow.SampledFrom(m.bucket, m.bucket.clock)
  {
    ByteEarned(q.mbr);
    var m0 := Init(n);
    PassesAtOnce(q, u, m0, 0, q.burst);
    var m1 := m0.(bucket := Runs.Entered(q, m0.bucket, 0, 1, q.burst), passed := m0.passed[0 := Some(q.burst)]);
    var tick := Police(Sb.Tick(ByteWait(q.mbr)));
    m := Next(q, u, m1, tick);
    Prepend(q, u, m1, tick, [], m);
    assert [tick] + [] == [tick];
    Chain(q, u, m0, Passing(0, q.burst), m1, [tick], m);
    assert m.bucket.cpus == m0.bucket.cpus;
  }

  /** That packet is counted, and one byte more: a window of no length. */
  const CLOSING: seq<Step> := COUNTING + (Passing(0, 1) + COUNTING)

  /** For any number of CPUs a packet under way makes the report outgrow a window. */
  lemma UnderWayIsNeeded(q: Qer, u: u32, n: nat, ids: set<u32>)
    requires u != 0 && n > 0 && q.burst > 0 && q.mbr >= 8
    ensures var t := 1 + ByteWait(q.mbr);
            && t < U64_LIMIT && IsWindow(q, u, n, ids, Opening(q), CLOSING, t)
            && !GrowsPlainly(q, u, n, Opening(q), CLOSING, t)
  {
    ByteEarned(q.mbr);
    var m := Opens(q, u, n);
    FirstCounts(q, u, m, n, q.burst);
    var m1 := Exec(q, u, m, COUNTING);
    var e := OneByteMore(q, u, m1, n);
    Chain(q, u, m, COUNTING, m1, Passing(0, 1) + COUNTING, e);
    assert NoOthers(Opening(q)) && NoOthers(CLOSING);
    assert Earned(q, m.bucket.clock, e.bucket.clock) == 0;
  }

  /** CPU 1 samples and waits; CPU 0 spends and counts the burst; CPU 1 enters late. */
  function Overtaking(q: Qer): seq<Step>
    requires q.mbr >= 8
  {
    [Police(Sb.Sample(1, 1)), Police(Sb.Tick(ByteWait(q.mbr)))]
    + (Passing(0, q.burst) + (COUNTING + (Entering(1) + (Passing(0, 1) + COUNTING))))
  }

  /** CPU 1 waits with its stamp, the rest is fresh. */
  lemma Waits(q: Qer, u: u32, n: nat) returns (m: State)
    requires q.mbr >= 8 && n >= 2
    ensures Reaches(q, u, Init(n), [Police(Sb.Sample(1, 1)), Police(Sb.Tick(ByteWait(q.mbr)))], m)
    ensures 1 + ByteWait(q.mbr) < U64_LIMIT
    ensures m == Init(n).(bucket := Sb.Init(n).(clock := 1 + ByteWait(q.mbr),
                                                cpus := Sb.Init(n).cpus[1 := Sb.Sampled(1, 1)]))
  {
    ByteEarned(q.mbr);
    TwoSteps(q, u, Init(n), Police(Sb.Sample(1, 1)), Police(Sb.Tick(ByteWait(q.mbr))));
    m := Next(q, u, Next(q, u, Init(n), Police(Sb.Sample(1, 1))), Police(Sb.Tick(ByteWait(q.mbr))));
  }

  /** CPU 0 spends the burst at its first stamp, and counts it. */
  lemma SpendsAndCounts(q: Qer, u: u32, n: nat, m: State) returns (e: State)
    requires u != 0 && q.mbr >= 8 && n >= 2 && 1 + ByteWait(q.mbr) < U64_LIMIT
    requires m == Init(n).(bucket := Sb.Init(n).(clock := 1 + ByteWait(q.mbr),
                                                 cpus := Sb.Init(n).cpus[1 := Sb.Sampled(1, 1)]))
    ensures Reaches(q, u, m, Passing(0, q.burst) + COUNTING, e)
    ensures e.bucket == Runs.Entered(q, m.bucket, 0, m.bucket.clock, q.burst)
    ensures e.passed == NonePassedYet(n) && e.urr.cpus == Resting(n)
    ensures e.urr.counters == map[u := Urr.NewRow(n, 0, q.burst)]
  {
    PassesAtOnce(q, u, m, 0, q.burst);
    var m1 := m.(bucket := Runs.Entered(q, m.bucket, 0, m.bucket.clock, q.burst),
                 passed := m.passed[0 := Some(q.burst)]);
    FirstCounts(q, u, m1, n, q.burst);
    e := Exec(q, u, m1, COUNTING);
    Chain(q, u, m, Passing(0, q.burst), m1, COUNTING, e);
  }

  /** CPU 1 enters with its old stamp, gets nothing, and winds the stored stamp back. */
  lemma WindsBack(q: Qer, u: u32, n: nat, m0: State, m: State) returns (e: State)
    requires q.mbr >= 8 && n >= 2 && 1 + ByteWait(q.mbr) < U64_LIMIT
    requires m0 == Init(n).(bucket := Sb.Init(n).(clock := 1 + ByteWait(q.mbr),
                                                  cpus := Sb.Init(n).cpus[1 := Sb.Sampled(1, 1)]))
    requires m.bucket == Runs.Entered(q, m0.bucket, 0, m0.bucket.clock, q.burst)
    requires m.passed == NonePassedYet(n) && m.urr.cpus == Resting(n)
    ensures Reaches(q, u, m, Entering(1), e)
    ensures Spent(q, u, e, n) && e.passed == m.passed && e.urr == m.urr && e.bucket.hist.first == e.bucket.clock
  {
    Enters(q, u, m, 1, 1, 1);
    e := m.(bucket := Runs.Entered(q, m.bucket, 1, 1, 1));
  }

  /** The whole overtaking run. */
  lemma Overtakes(q: Qer, u: u32, n: nat) returns (e: State)
    requires u != 0 && n >= 2 && q.burst > 0 && q.mbr >= 8
    ensures Reaches(q, u, Init(n), Overtaking(q), e)
    ensures Reported(e.urr.counters, u) == q.burst + 1 == e.bucket.hist.admitted
    ensures e.bucket.bucket.last == e.bucket.clock == e.bucket.hist.first
  {
    var waiting := [Police(Sb.Sample(1, 1)), Police(Sb.Tick(ByteWait(q.mbr)))];
    var spending, last := Passing(0, q.burst) + COUNTING, Passing(0, 1) + COUNTING;
    var m0 := Waits(q, u, n);
    var m1 := SpendsAndCounts(q, u, n, m0);
    var m2 := WindsBack(q, u, n, m0, m1);
    e := OneByteMore(q, u, m2, n);
    Chain(q, u, m1, Entering(1), m2, last, e);
    Chain(q, u, m0, spending, m1, Entering(1) + last, e);
    Chain(q, u, Init(n), waiting, m0, spending + (Entering(1) + last), e);
    assert waiting + (spending + (Entering(1) + last)) == Overtaking(q);
  }

  /** With two CPUs or more the report outgrows the rate since first use. */
  lemma Overshoots(q: Qer, u: u32, n: nat, ids: set<u32>)
    requires u != 0 && n >= 2 && q.burst > 0 && q.mbr >= 8
    ensures IsRun(q, u, n, ids, Overtaking(q))
    ensures !ReportsPlainly(q, u, Exec(q, u, Init(n), Overtaking(q)))
  {
    var e := Overtakes(q, u, n);
    assert NoOthers(Overtaking(q));
    assert Earned(q, e.bucket.hist.first, e.bucket.clock) == 0;
  }

  // ---- Exactly when ----

  /**
   * In every run of n CPUs the report of a URR dedicated to a QER stays within one burst plus the configured rate since
   * first use, if and only if there is at most one CPU, no burst, or a rate below a byte per second.
   */
  lemma PlainReportExactlyWhen(q: Qer, u: u32, n: nat, ids: set<u32>)
    requires u != 0 && u in ids && |ids| <= Urr.MAX_URRS
    ensures (forall steps :: IsRun(q, u, n, ids, steps) ==> ReportsPlainly(q, u, Exec(q, u, Init(n), steps)))
            <==> n <= 1 || q.burst == 0 || q.mbr < 8
  {
    if n <= 1 || NothingEarned(q) {
      forall steps | IsRun(q, u, n, ids, steps)
        ensures ReportsPlainly(q, u, Exec(q, u, Init(n), steps))
      {
        PlainSinceFirstUse(q, u, n, ids, steps);
      }
    } else {
      Overshoots(q, u, n, ids);
    }
  }

  /**
   * Over every window of every run of n CPUs the report grows by at most one burst plus the configured rate for the
   * window, if and only if there are no CPUs, no burst, or a rate below a byte per second.
   */
  lemma PlainWindowExactlyWhen(q: Qer, u: u32, n: nat, ids: set<u32>)
    requires u != 0 && u in ids && |ids| <= Urr.MAX_URRS
    ensures (forall a, b, t0 :: IsWindow(q, u, n, ids, a, b, t0) ==> GrowsPlainly(q, u, n, a, b, t0))
            <==> n == 0 || q.burst == 0 || q.mbr < 8
  {
    if n == 0 || NothingEarned(q) {
      forall a, b, t0 | IsWindow(q, u, n, ids, a, b, t0)
        ensures GrowsPlainly(q, u, n, a, b, t0)
      {
        PlainWindow(q, u, n, ids, a, b, t0);
      }
    } else {
      UnderWayIsNeeded(q, u, n, ids);
    }
  }
}
