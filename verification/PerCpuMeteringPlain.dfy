/**
 * When the report of a dedicated URR never grows over a window by more than the buckets' allowance for it, in the
 * default build (bpf/upf_tc.c:182-190): a condition on the number of CPUs and the configuration alone.
 */
module PerCpuMeteringPlain {
  import opened Words
  import opened TokenBucket
  import opened PerCpuBuckets
  import Urr = UrrRace
  import opened UrrAccounting
  import opened PerCpuMetering

  /** The run `a` from the start, then the window `b`: stamps never run backwards on any CPU, those of the window lie
      between t0 and t1, and the metered bytes fit the counter. */
  ghost predicate IsWindow(q: Qer, u: u32, n: nat, ids: set<u32>, a: seq<Step>, b: seq<Step>, t0: u64, t1: u64) {
    && Legal(q, u, Init(n), a) && Legal(q, u, Exec(q, u, Init(n), a), b)
    && Uses(a, ids) && Uses(b, ids)
    && (forall c :: 0 <= c < n ==> Ordered(0, Projection(Hits(a) + Hits(b), c)))
    && t0 <= t1 && Within(n, Hits(b), t0, t1)
    && Bytes(Exec(q, u, Exec(q, u, Init(n), a), b).urr.metered, u, n) < U64_LIMIT
  }

  /** The report grows over the window by at most n allowances. */
  ghost predicate GrowsPlainly(q: Qer, u: u32, n: nat, a: seq<Step>, b: seq<Step>, t0: u64, t1: u64)
    requires Legal(q, u, Init(n), a) && Legal(q, u, Exec(q, u, Init(n), a), b)
  {
    var m := Exec(q, u, Init(n), a);
    Reported(Exec(q, u, m, b).urr.counters, u)
    <= Reported(m.urr.counters, u) + n * (q.burst + Earned(q, t0, t1) / BIT_NS)
  }

  // ---- Where it holds ----

  lemma {:induction false} Joined(q: Qer, u: u32, m: State, a: seq<Step>, b: seq<Step>)
    requires Legal(q, u, m, a) && Legal(q, u, Exec(q, u, m, a), b)
    ensures Legal(q, u, m, a + b) && Exec(q, u, m, a + b) == Exec(q, u, Exec(q, u, m, a), b)
    decreases |a|
  {
    if a == [] {
      assert a + b == b;
    } else {
      var m' := Next(q, u, m, a[0]);
      assert (a + b)[0] == a[0] && (a + b)[1..] == a[1..] + b;
      assert Exec(q, u, m, a) == Exec(q, u, m', a[1..]);
      Joined(q, u, m', a[1..], b);
    }
  }

  lemma {:induction false} JoinedHits(a: seq<Step>, b: seq<Step>)
    ensures Hits(a + b) == Hits(a) + Hits(b)
    decreases |a|
  {
    if a == [] {
      assert a + b == b;
    } else {
      assert (a + b)[0] == a[0] && (a + b)[1..] == a[1..] + b;
      JoinedHits(a[1..], b);
      var own := if a[0].Forward? then [Hit(a[0].cpu, a[0].call)] else [];
      assert own + (Hits(a[1..]) + Hits(b)) == own + Hits(a[1..]) + Hits(b);
    }
  }

  /** Buckets that earn nothing admit one burst each. */
  lemma OneBurstEach(q: Qer, n: nat, hits: seq<Hit>)
    requires NothingEarned(q) && On(n, hits) && forall c :: 0 <= c < n ==> Ordered(0, Projection(hits, c))
    ensures Total(q, seq(n, _ => FRESH), hits) <= n * q.burst
  {
    var bs := seq(n, _ => FRESH);
    EachCpuRunsAlone(q, bs, hits);
    forall c | 0 <= c < n
      ensures Share(q, bs, hits, c) <= q.burst
    {
      OneBurstEver(q, Projection(hits, c));
    }
    SharesAtMost(q, bs, hits, n, q.burst);
  }

  /** The report never exceeds what was metered since the start. */
  lemma ReportAtMostMetered(q: Qer, u: u32, n: nat, steps: seq<Step>, ids: set<u32>)
    requires n > 0 && Legal(q, u, Init(n), steps) && u != 0 && u in ids && |ids| <= Urr.MAX_URRS && Uses(steps, ids)
    requires Bytes(Exec(q, u, Init(n), steps).urr.metered, u, n) < U64_LIMIT
    ensures On(n, Hits(steps))
    ensures var metered := Bytes(Exec(q, u, Init(n), steps).urr.metered, u, n);
            && metered == Total(q, seq(n, _ => FRESH), Hits(steps))
            && Reported(Exec(q, u, Init(n), steps).urr.counters, u) <= metered
  {
    InitInv(n, ids);
    NothingMetered(n, u);
    RunMeters(q, u, Init(n), steps, ids);
    BooksBalance(Exec(q, u, Init(n), steps).urr, ids, u);
  }

  lemma AtLeastBursts(q: Qer, n: nat, t0: u64, t1: u64)
    requires t0 <= t1
    ensures n * q.burst <= n * (q.burst + Earned(q, t0, t1) / BIT_NS)
  {
    MulMono(0, t1 - t0, q.mbr);
    MulMono(q.burst, q.burst + Earned(q, t0, t1) / BIT_NS, n);
  }

  lemma UsesBoth(a: seq<Step>, b: seq<Step>, ids: set<u32>)
    requires Uses(a, ids) && Uses(b, ids)
    ensures Uses(a + b, ids)
  {
  }

  lemma PlainWhenQuiet(q: Qer, u: u32, n: nat, ids: set<u32>, a: seq<Step>, b: seq<Step>, t0: u64, t1: u64)
    requires n == 0 || NothingEarned(q) || n * q.burst + 1 >= U64_LIMIT
    requires u != 0 && u in ids && |ids| <= Urr.MAX_URRS && IsWindow(q, u, n, ids, a, b, t0, t1)
    ensures GrowsPlainly(q, u, n, a, b, t0, t1)
  {
    if n == 0 {
      assert a == [] && b == [];
    } else {
      Joined(q, u, Init(n), a, b);
      JoinedHits(a, b);
      UsesBoth(a, b, ids);
      ReportAtMostMetered(q, u, n, a + b, ids);
      if NothingEarned(q) {
        OneBurstEach(q, n, Hits(a + b));
      }
      AtLeastBursts(q, n, t0, t1);
    }
  }

  // ---- Where it fails ----

  ghost predicate Reaches(q: Qer, u: u32, m: State, steps: seq<Step>, e: State) {
    Legal(q, u, m, steps) && Exec(q, u, m, steps) == e
  }

  lemma Prepend(q: Qer, u: u32, m: State, step: Step, rest: seq<Step>, e: State)
    requires Enabled(u, m, step) && Reaches(q, u, Next(q, u, m, step), rest, e)
    ensures Reaches(q, u, m, [step] + rest, e)
  {
    assert ([step] + rest)[1..] == rest;
  }

  /** The stamp at which every bucket has earned a byte since stamp 1. */
  function Later(q: Qer): u64
    requires q.mbr >= 8
  {
    ByteWaitProduct(q.mbr);
    1 + ByteWait(q.mbr)
  }

  /** CPU 0 spent its burst at stamp 1, CPUs below k theirs at `Later`; the rest are fresh. */
  function Spent(q: Qer, n: nat, k: nat): seq<Bucket>
    requires q.mbr >= 8
  {
    seq(n, c => if c == 0 then Bucket(0, 1) else if c < k then Bucket(0, Later(q)) else FRESH)
  }

  function Row(q: Qer, n: nat, k: nat): seq<Urr.Usage> {
    seq(n, c => if c < k then Urr.Usage(q.burst, 1) else Urr.Usage(0, 0))
  }

  function Resting(n: nat): seq<Urr.Pending> {
    seq(n, _ => Urr.Idle)
  }

  /** The CPUs below k have spent a burst each and counted it. */
  ghost predicate Counted(q: Qer, u: u32, n: nat, k: nat, m: State)
    requires q.mbr >= 8
  {
    && m.buckets == Spent(q, n, k) && m.urr.cpus == Resting(n) && m.urr.counters == map[u := Row(q, n, k)]
    && Bytes(m.urr.metered, u, n) == k * q.burst
  }

  lemma MeterOne(m: State, u: u32, c: nat, len: u32)
    requires u != 0 && c < |m.urr.cpus| && m.urr.cpus[c].Idle?
    ensures var s', n := Urr.Next(m.urr, Urr.Lookup(c, u, len)), |m.urr.cpus|;
            Bytes(s'.metered, u, n) == Bytes(m.urr.metered, u, n) + len
  {
    StepMovesTotals(m.urr, Urr.Lookup(c, u, len), u);
  }

  /** CPU k takes a packet of a whole burst at `Later`. */
  lemma FreshForwards(q: Qer, u: u32, n: nat, k: nat, m: State)
    requires u != 0 && q.mbr >= 8 && 0 < k < n && Counted(q, u, n, k, m)
    ensures var step := Forward(k, Call(Later(q), q.burst));
            && Enabled(u, m, step)
            && var m' := Next(q, u, m, step);
               && m'.buckets == Spent(q, n, k + 1) && m'.urr.counters == m.urr.counters
               && m'.urr.cpus == Resting(n)[k := Urr.Found(u, q.burst)]
               && Bytes(m'.urr.metered, u, n) == (k + 1) * q.burst
  {
    assert Admit(q, FRESH, Call(Later(q), q.burst)) == Outcome(Bucket(0, Later(q)), true);
    assert m.buckets[k := Bucket(0, Later(q))] == Spent(q, n, k + 1);
    MeterOne(m, u, k, q.burst);
    OneMore(k + 1, q.burst);
  }

  lemma FreshCounts(q: Qer, u: u32, n: nat, k: nat, m: State)
    requires u != 0 && q.mbr >= 8 && 0 < k < n
    requires m.buckets == Spent(q, n, k + 1) && m.urr.counters == map[u := Row(q, n, k)]
    requires m.urr.cpus == Resting(n)[k := Urr.Found(u, q.burst)]
    requires Bytes(m.urr.metered, u, n) == (k + 1) * q.burst
    ensures Enabled(u, m, Commit(k)) && Counted(q, u, n, k + 1, Next(q, u, m, Commit(k)))
  {
    var m' := Next(q, u, m, Commit(k));
    assert m'.urr.cpus == Resting(n);
    assert Row(q, n, k)[k := Urr.Bumped(Urr.Usage(0, 0), q.burst)] == Row(q, n, k + 1);
    assert m'.urr.counters == map[u := Row(q, n, k + 1)];
    StepMovesTotals(m.urr, Urr.Commit(k), u);
  }

  /** Nothing but packets of the QER, all at one stamp. */
  ghost predicate AllAt(steps: seq<Step>, t: u64) {
    forall i :: 0 <= i < |steps| ==> !steps[i].Other? && (steps[i].Forward? ==> steps[i].call.now == t)
  }

  lemma {:induction false} TheRestCount(q: Qer, u: u32, n: nat, k: nat, m: State) returns (steps: seq<Step>, e: State)
    requires u != 0 && q.mbr >= 8 && 0 < k <= n && Counted(q, u, n, k, m)
    ensures Reaches(q, u, m, steps, e) && Counted(q, u, n, n, e) && AllAt(steps, Later(q))
    decreases n - k
  {
    if k == n {
      steps, e := [], m;
    } else {
      var step := Forward(k, Call(Later(q), q.burst));
      FreshForwards(q, u, n, k, m);
      var m1 := Next(q, u, m, step);
      FreshCounts(q, u, n, k, m1);
      var rest;
      rest, e := TheRestCount(q, u, n, k + 1, Next(q, u, m1, Commit(k)));
      Prepend(q, u, m1, Commit(k), rest, e);
      Prepend(q, u, m, step, [Commit(k)] + rest, e);
      steps := [step] + ([Commit(k)] + rest);
    }
  }

  /** CPU 0's packet of a whole burst: admitted, looked up, not yet counted. */
  function OneInFlight(q: Qer): seq<Step> {
    [Forward(0, Call(1, q.burst))]
  }

  lemma OpeningPacket(q: Qer, u: u32, n: nat)
    requires u != 0 && q.mbr >= 8 && n > 0
    ensures Legal(q, u, Init(n), OneInFlight(q))
    ensures var m := Exec(q, u, Init(n), OneInFlight(q));
            && m.buckets == Spent(q, n, 1) && m.urr.cpus == Resting(n)[0 := Urr.Missing(u, q.burst)]
            && m.urr.counters == map[] && Bytes(m.urr.metered, u, n) == q.burst
  {
    var step := Forward(0, Call(1, q.burst));
    assert Admit(q, FRESH, step.call) == Outcome(Bucket(0, 1), true);
    assert Init(n).buckets[0 := Bucket(0, 1)] == Spent(q, n, 1);
    MeterOne(Init(n), u, 0, q.burst);
    NothingMetered(n, u);
    Prepend(q, u, Init(n), step, [], Next(q, u, Init(n), step));
    assert [step] + [] == OneInFlight(q);
  }

  lemma OpeningCounts(q: Qer, u: u32, n: nat, m: State)
    requires u != 0 && q.mbr >= 8 && n > 0 && m.buckets == Spent(q, n, 1) && m.urr.counters == map[]
    requires m.urr.cpus == Resting(n)[0 := Urr.Missing(u, q.burst)] && Bytes(m.urr.metered, u, n) == q.burst
    ensures Enabled(u, m, Commit(0)) && Counted(q, u, n, 1, Next(q, u, m, Commit(0)))
  {
    var m' := Next(q, u, m, Commit(0));
    assert m'.urr.cpus == Resting(n);
    assert Urr.NewRow(n, 0, q.burst) == Row(q, n, 1);
    assert m'.urr.counters == map[u := Row(q, n, 1)];
    StepMovesTotals(m.urr, Urr.Commit(0), u);
  }

  lemma OneByteAdmitted(q: Qer)
    requires q.mbr >= 8 && q.burst > 0
    ensures Admit(q, Bucket(0, 1), Call(Later(q), 1)).admit
  {
    ByteEarned(q.mbr);
    NoOverflow(q, Bucket(0, 1), ByteWait(q.mbr));
  }

  /** CPU 0 takes one byte more at `Later`. */
  lemma LastForwards(q: Qer, u: u32, n: nat, m: State)
    requires u != 0 && q.mbr >= 8 && q.burst > 0 && n > 0 && Counted(q, u, n, n, m)
    ensures var step := Forward(0, Call(Later(q), 1));
            && Enabled(u, m, step)
            && var m' := Next(q, u, m, step);
               && m'.urr.counters == m.urr.counters && m'.urr.cpus == Resting(n)[0 := Urr.Found(u, 1)]
               && Bytes(m'.urr.metered, u, n) == n * q.burst + 1
  {
    OneByteAdmitted(q);
    MeterOne(m, u, 0, 1);
  }

  lemma LastCounts(q: Qer, u: u32, n: nat, m: State)
    requires u != 0 && n > 0 && m.urr.counters == map[u := Row(q, n, n)] && |m.buckets| == n
    requires m.urr.cpus == Resting(n)[0 := Urr.Found(u, 1)]
    requires Bytes(m.urr.metered, u, n) == n * q.burst + 1
    ensures Enabled(u, m, Commit(0))
    ensures var m' := Next(q, u, m, Commit(0));
            Reported(m'.urr.counters, u) == n * q.burst + 1 == Bytes(m'.urr.metered, u, n)
  {
    var row := Row(q, n, n);
    EqualRow(row, q.burst);
    FirstGrows(row, Urr.Bumped(row[0], 1));
    assert Next(q, u, m, Commit(0)).urr.counters[u] == row[0 := Urr.Bumped(row[0], 1)];
    StepMovesTotals(m.urr, Urr.Commit(0), u);
  }

  lemma Chain(q: Qer, u: u32, m: State, a: seq<Step>, t: State, b: seq<Step>, e: State)
    requires Reaches(q, u, m, a, t) && Reaches(q, u, t, b, e)
    ensures Reaches(q, u, m, a + b, e)
  {
    Joined(q, u, m, a, b);
  }

  /** CPU 0 counts one byte more. */
  lemma LastByte(q: Qer, u: u32, n: nat, m: State) returns (steps: seq<Step>, e: State)
    requires u != 0 && q.mbr >= 8 && q.burst > 0 && n > 0 && Counted(q, u, n, n, m)
    ensures Reaches(q, u, m, steps, e) && AllAt(steps, Later(q))
    ensures Reported(e.urr.counters, u) == n * q.burst + 1 == Bytes(e.urr.metered, u, n)
  {
    var last := Forward(0, Call(Later(q), 1));
    LastForwards(q, u, n, m);
    var m1 := Next(q, u, m, last);
    LastCounts(q, u, n, m1);
    e := Next(q, u, m1, Commit(0));
    Prepend(q, u, m1, Commit(0), [], e);
    Prepend(q, u, m, last, [Commit(0)] + [], e);
    steps := [last] + ([Commit(0)] + []);
  }

  /** Every CPU counts a burst, and CPU 0 one byte more, all in a window of no length. */
  lemma Window(q: Qer, u: u32, n: nat, m: State) returns (steps: seq<Step>, e: State)
    requires u != 0 && q.mbr >= 8 && q.burst > 0 && n > 0
    requires Reaches(q, u, Init(n), OneInFlight(q), m)
    ensures Reaches(q, u, m, steps, e) && AllAt(steps, Later(q))
    ensures Reported(m.urr.counters, u) == 0
    ensures Reported(e.urr.counters, u) == n * q.burst + 1 == Bytes(e.urr.metered, u, n)
  {
    OpeningPacket(q, u, n);
    OpeningCounts(q, u, n, m);
    var m1 := Next(q, u, m, Commit(0));
    var middle, m2 := TheRestCount(q, u, n, 1, m1);
    var ending;
    ending, e := LastByte(q, u, n, m2);
    Chain(q, u, m1, middle, m2, ending, e);
    Prepend(q, u, m, Commit(0), middle + ending, e);
    steps := [Commit(0)] + (middle + ending);
  }

  lemma {:induction false} HitsAt(steps: seq<Step>, t: u64)
    requires AllAt(steps, t)
    ensures forall i :: 0 <= i < |Hits(steps)| ==> Hits(steps)[i].call.now == t
    decreases |steps|
  {
    if steps != [] {
      HitsAt(steps[1..], t);
    }
  }

  lemma {:induction false} ProjectionAt(hits: seq<Hit>, t: u64, c: nat)
    requires forall i :: 0 <= i < |hits| ==> hits[i].call.now == t
    ensures forall i :: 0 <= i < |Projection(hits, c)| ==> Projection(hits, c)[i].now == t
    decreases |hits|
  {
    if hits != [] {
      ProjectionAt(hits[1..], t, c);
    }
  }

  /** All at one stamp is within the window of just that stamp, also after CPU 0's packet at stamp 1. */
  lemma InTime(q: Qer, n: nat, steps: seq<Step>)
    requires q.mbr >= 8 && AllAt(steps, Later(q))
    ensures Within(n, Hits(steps), Later(q), Later(q))
    ensures forall c :: 0 <= c < n ==> Ordered(0, Projection(Hits(OneInFlight(q)) + Hits(steps), c))
  {
    var t, first := Later(q), Hit(0, Call(1, q.burst));
    HitsAt(steps, t);
    assert OneInFlight(q)[1..] == [];
    assert Hits(OneInFlight(q)) == [first] + [] == [first];
    forall c | 0 <= c < n
      ensures Ordered(t, Projection(Hits(steps), c)) && LastStamp(t, Projection(Hits(steps), c)) <= t
      ensures Ordered(0, Projection([first] + Hits(steps), c))
    {
      ProjectionAt(Hits(steps), t, c);
      assert ([first] + Hits(steps))[0] == first && ([first] + Hits(steps))[1..] == Hits(steps);
    }
  }

  /**
   * The packets in flight belong in the bound: for every number of CPUs, every rate of at least a byte per second and
   * every positive burst, some window has the report grow by one byte more than all its allowances, while metered
   * bytes fit the counter.
   */
  lemma InFlightIsNeeded(q: Qer, u: u32, n: nat, ids: set<u32>) returns (b: seq<Step>)
    requires u != 0 && n > 0 && q.burst > 0 && q.mbr >= 8 && n * q.burst + 1 < U64_LIMIT
    ensures IsWindow(q, u, n, ids, OneInFlight(q), b, Later(q), Later(q))
    ensures !GrowsPlainly(q, u, n, OneInFlight(q), b, Later(q), Later(q))
  {
    OpeningPacket(q, u, n);
    var m, e := Exec(q, u, Init(n), OneInFlight(q)), Init(n);
    b, e := Window(q, u, n, m);
    InTime(q, n, b);
    assert Earned(q, Later(q), Later(q)) == 0;
  }

  /**
   * Over every window of every run of n CPUs the report of a URR dedicated to a QER grows by at most n allowances, if
   * and only if there are no CPUs, no burst, a rate below a byte per second, or more bursts than the counter can hold.
   */
  lemma PlainAllowanceExactlyWhen(q: Qer, u: u32, n: nat, ids: set<u32>)
    requires u != 0 && u in ids && |ids| <= Urr.MAX_URRS
    ensures (forall a, b, t0, t1 :: IsWindow(q, u, n, ids, a, b, t0, t1) ==> GrowsPlainly(q, u, n, a, b, t0, t1))
            <==> n == 0 || q.burst == 0 || q.mbr < 8 || n * q.burst + 1 >= U64_LIMIT
  {
    if n == 0 || NothingEarned(q) || n * q.burst + 1 >= U64_LIMIT {
      forall a, b, t0, t1 | IsWindow(q, u, n, ids, a, b, t0, t1)
        ensures GrowsPlainly(q, u, n, a, b, t0, t1)
      {
        PlainWhenQuiet(q, u, n, ids, a, b, t0, t1);
      }
    } else {
      var b := InFlightIsNeeded(q, u, n, ids);
    }
  }
}
