/**
 * The waiting-time term of SharedBucket.SharedRateBound is needed and exact: stale stamps stored by upf_tc.c:86
 * let a bucket refill the same interval once more for each CPU that sampled early and entered late.
 */
module SharedBucketTight {
  import opened Words
  import opened TokenBucket
  import opened SharedBucket
  import opened SharedBucketRuns

  /** CPUs below `i` are idle; the rest sampled the clock at stamp 1 and still wait. */
  function Waiters(n: nat, i: nat): seq<Cpu> {
    seq(n + 1, c => if c < i then Idle else Sampled(1, 1))
  }

  /** After i-1 stale entries: each has cost `wait` of waiting and given away `k` bytes. */
  function Mid(q: Qer, wait: nat, k: nat, n: nat, i: nat): State
    requires i > 0 && wait <= NS_CAP
  {
    State(wait + 1, None, Waiters(n, i), Bucket(0, wait + 1),
          History(1, q.burst + i * k, i * wait, (i - 1) * wait, (i - 1) * wait))
  }

  /** After CPU i has entered with its old stamp: nothing admitted, the stored stamp `wait` back. */
  function Wound(q: Qer, wait: nat, k: nat, n: nat, i: nat): State
    requires wait <= NS_CAP
  {
    State(wait + 1, None, Waiters(n, i + 1), Bucket(0, 1),
          History(1, q.burst + i * k, i * wait, i * wait, i * wait))
  }

  lemma OnceMore(i: nat, x: nat)
    ensures (i + 1) * x == i * x + x
  {
  }

  lemma StaleEntry(q: Qer, wait: nat, k: nat, n: nat, i: nat)
    requires wait <= NS_CAP && 0 < i <= n
    ensures Entered(q, Mid(q, wait, k, n, i), i, 1, 1) == Wound(q, wait, k, n, i)
  {
    var s := Mid(q, wait, k, n, i);
    assert s.cpus[i := Idle] == Waiters(n, i + 1);
    OnceMore(i - 1, wait);
    assert TopUp(q, 0, 0) == 0;
  }

  lemma Rewound(q: Qer, wait: nat, k: u32, n: nat, i: nat)
    requires WholeBytes(q, wait, k) && 0 < i <= n
    ensures Entered(q, Wound(q, wait, k, n, i), 0, wait + 1, k) == Mid(q, wait, k, n, i + 1)
  {
    var s := Wound(q, wait, k, n, i);
    assert s.cpus[0 := Idle] == s.cpus;
    WaitRefills(q, wait, k);
    OnceMore(i, wait);
    OnceMore(i, k);
  }

  /** A stale entry winds the stored stamp back; CPU 0 then refills the same interval again. */
  lemma Round(q: Qer, wait: nat, k: u32, n: nat, i: nat) returns (steps: seq<Step>)
    requires WholeBytes(q, wait, k) && 0 < i <= n
    ensures Reaches(q, Mid(q, wait, k, n, i), steps, Mid(q, wait, k, n, i + 1))
  {
    var s, s2 := Mid(q, wait, k, n, i), Wound(q, wait, k, n, i);
    EntersLate(q, s, i, 1, 1);
    StaleEntry(q, wait, k, n, i);
    EntersAtOnce(q, s2, 0, k);
    Rewound(q, wait, k, n, i);
    Chain(q, s, [Acquire(i), Critical(i)], s2, Pass(0, k), Mid(q, wait, k, n, i + 1));
    steps := [Acquire(i), Critical(i)] + Pass(0, k);
  }

  lemma {:induction false} Rounds(q: Qer, wait: nat, k: u32, n: nat, i: nat) returns (steps: seq<Step>)
    requires WholeBytes(q, wait, k) && 0 < i <= n + 1
    ensures Reaches(q, Mid(q, wait, k, n, i), steps, Mid(q, wait, k, n, n + 1))
    decreases n + 1 - i
  {
    var s, e := Mid(q, wait, k, n, i), Mid(q, wait, k, n, n + 1);
    if i == n + 1 {
      steps := [];
    } else {
      var a := Round(q, wait, k, n, i);
      var b := Rounds(q, wait, k, n, i + 1);
      Chain(q, s, a, Mid(q, wait, k, n, i + 1), b, e);
      steps := a + b;
    }
  }

  /** CPUs 1..i have sampled at stamp 1; the rest are idle. */
  function Samplers(n: nat, i: nat): seq<Cpu> {
    seq(n + 1, c => if 0 < c <= i then Sampled(1, 1) else Idle)
  }

  lemma {:induction false} EveryoneSamples(q: Qer, n: nat, s: State, i: nat) returns (steps: seq<Step>)
    requires i <= n && s.clock == 1 && s.cpus == Samplers(n, i)
    ensures Reaches(q, s, steps, s.(cpus := Samplers(n, n)))
    decreases n - i
  {
    if i == n {
      steps := [];
    } else {
      var step := Sample(i + 1, 1);
      assert s.cpus[i + 1 := Sampled(1, 1)] == Samplers(n, i + 1);
      var rest := EveryoneSamples(q, n, Next(q, s, step), i + 1);
      steps := [step] + rest;
      assert steps[1..] == rest;
    }
  }

  /** The burst is spent at stamp 1, and the other CPUs have sampled the clock. */
  function Spent(q: Qer, n: nat): State {
    State(1, None, Samplers(n, n), Bucket(0, 1), History(1, q.burst, 0, 0, 0))
  }

  lemma SpendAndSample(q: Qer, n: nat) returns (steps: seq<Step>)
    ensures Reaches(q, Init(n + 1), steps, Spent(q, n))
  {
    var s0 := Init(n + 1);
    EntersAtOnce(q, s0, 0, q.burst);
    var s1 := Entered(q, s0, 0, 1, q.burst);
    assert s1.cpus == Samplers(n, 0);
    var sampling := EveryoneSamples(q, n, s1, 0);
    Chain(q, s0, Pass(0, q.burst), s1, sampling, Spent(q, n));
    steps := Pass(0, q.burst) + sampling;
  }

  lemma FirstRefill(q: Qer, wait: nat, k: u32, n: nat)
    requires WholeBytes(q, wait, k)
    ensures Entered(q, Spent(q, n).(clock := wait + 1), 0, wait + 1, k) == Mid(q, wait, k, n, 1)
  {
    WaitRefills(q, wait, k);
    assert Samplers(n, n)[0 := Idle] == Waiters(n, 1);
  }

  lemma Opening(q: Qer, wait: nat, k: u32, n: nat) returns (steps: seq<Step>)
    requires WholeBytes(q, wait, k)
    ensures Reaches(q, Init(n + 1), steps, Mid(q, wait, k, n, 1))
  {
    var spend := SpendAndSample(q, n);
    var s2, s3 := Spent(q, n), Spent(q, n).(clock := wait + 1);
    OneStep(q, s2, Tick(wait));
    Chain(q, Init(n + 1), spend, s2, [Tick(wait)], s3);
    EntersAtOnce(q, s3, 0, k);
    FirstRefill(q, wait, k, n);
    Chain(q, Init(n + 1), spend + [Tick(wait)], s3, Pass(0, k), Mid(q, wait, k, n, 1));
    steps := spend + [Tick(wait)] + Pass(0, k);
  }

  lemma WholeWaits(q: Qer, wait: nat, k: nat, i: nat)
    requires WholeBytes(q, wait, k)
    ensures Earned(q, 1, 1 + i * wait) / BIT_NS == i * k
  {
    assert Earned(q, 1, 1 + i * wait) == BIT_NS * (i * k) by {
      assert i * wait * q.mbr == i * (wait * q.mbr);
      assert i * (BIT_NS * k) == BIT_NS * (i * k);
    }
  }

  /**
   * For every number n of late CPUs, every rate and every wait of up to a second that earns a whole number k of
   * bytes, some run of n+1 CPUs that lasts just that wait admits a burst and n+1 times k bytes: exactly the bound
   * with waiting time, where the configured rate alone would allow a burst and k.
   */
  lemma SharedRateBoundIsExact(q: Qer, n: nat, wait: nat, k: u32) returns (steps: seq<Step>)
    requires WholeBytes(q, wait, k)
    ensures Legal(q, Init(n + 1), steps)
    ensures var s := Exec(q, Init(n + 1), steps);
            && s.clock == s.hist.first + wait
            && s.hist.admitted == q.burst + (n + 1) * k
            && s.hist.admitted == q.burst + Earned(q, s.hist.first, s.clock + s.hist.waited) / BIT_NS
            && q.burst + Earned(q, s.hist.first, s.clock) / BIT_NS == q.burst + k
  {
    var opening := Opening(q, wait, k, n);
    var rounds := Rounds(q, wait, k, n, 1);
    Chain(q, Init(n + 1), opening, Mid(q, wait, k, n, 1), rounds, Mid(q, wait, k, n, n + 1));
    steps := opening + rounds;
    WholeWaits(q, wait, k, n + 1);
    WholeWaits(q, wait, k, 1);
    OnceMore(n, wait);
  }
}
