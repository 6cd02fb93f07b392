/**
 * Policing and metering together (bpf/upf_tc.c:182-190): a packet is accounted only after admission and with the
 * same length, so a URR dedicated to one QER never reports more than that QER's bucket allowed.
 */
module PerCpuMetering {
  import opened Words
  import opened Sums
  import opened TokenBucket
  import opened PerCpuBuckets
  import Urr = UrrRace
  import opened UrrAccounting

  /** The QER's buckets, one per CPU, and the accounting state. */
  datatype State = State(buckets: seq<Bucket>, urr: Urr.State)

  /** A packet of a PDR that uses the QER, and so URR `u`; an admitted packet of any other PDR; a commit. The bucket
      is the CPU's own, so admission can be taken to happen at the lookup that follows it. */
  datatype Step = Forward(cpu: nat, call: Call) | Other(cpu: nat, urr: u32, len: u32) | Commit(cpu: nat)

  predicate Enabled(u: u32, m: State, step: Step) {
    && |m.buckets| == |m.urr.cpus|
    && match step
       case Forward(c, call) => Urr.Enabled(m.urr, Urr.Lookup(c, u, call.len))
       case Other(c, v, len) => v != u && Urr.Enabled(m.urr, Urr.Lookup(c, v, len))
       case Commit(c) => Urr.Enabled(m.urr, Urr.Commit(c))
  }

  function Next(q: Qer, u: u32, m: State, step: Step): (m': State)
    requires Enabled(u, m, step)
    ensures |m'.buckets| == |m'.urr.cpus| == |m.buckets|
  {
    match step
    case Forward(c, call) =>
      var o := Admit(q, m.buckets[c], call);
      State(m.buckets[c := o.bucket],
            if o.admit then Urr.Next(m.urr, Urr.Lookup(c, u, call.len)) else m.urr)
    case Other(c, v, len) => m.(urr := Urr.Next(m.urr, Urr.Lookup(c, v, len)))
    case Commit(c) => m.(urr := Urr.Next(m.urr, Urr.Commit(c)))
  }

  predicate Legal(q: Qer, u: u32, m: State, steps: seq<Step>)
    decreases |steps|
  {
    steps == [] || (Enabled(u, m, steps[0]) && Legal(q, u, Next(q, u, m, steps[0]), steps[1..]))
  }

  function Exec(q: Qer, u: u32, m: State, steps: seq<Step>): State
    requires Legal(q, u, m, steps)
    decreases |steps|
  {
    if steps == [] then m else Exec(q, u, Next(q, u, m, steps[0]), steps[1..])
  }

  /** The calls on the QER's buckets. */
  function Hits(steps: seq<Step>): seq<Hit> {
    if steps == [] then []
    else (if steps[0].Forward? then [Hit(steps[0].cpu, steps[0].call)] else []) + Hits(steps[1..])
  }

  /** Every URR id met is one of `ids`, or 0. */
  ghost predicate Uses(steps: seq<Step>, ids: set<u32>) {
    forall i :: 0 <= i < |steps| && steps[i].Other? ==> steps[i].urr == 0 || steps[i].urr in ids
  }

  /** The books after one step: what the bucket let through is what was metered, and losses only grow. */
  lemma StepMeters(q: Qer, u: u32, m: State, step: Step, ids: set<u32>)
    requires Enabled(u, m, step) && u != 0 && u in ids && |ids| <= Urr.MAX_URRS && Urr.Inv(m.urr, ids)
    requires step.Other? ==> step.urr == 0 || step.urr in ids
    ensures var m', n := Next(q, u, m, step), |m.buckets|;
            && Urr.Inv(m'.urr, ids)
            && Bytes(m.urr.lost, u, n) <= Bytes(m'.urr.lost, u, n)
            && Bytes(m'.urr.metered, u, n)
               == Bytes(m.urr.metered, u, n)
                  + (if step.Forward? then Paid(Admit(q, m.buckets[step.cpu], step.call), step.call.len) else 0)
  {
    match step
    case Forward(c, call) =>
      if Admit(q, m.buckets[c], call).admit {
        StepKeepsInv(m.urr, Urr.Lookup(c, u, call.len), ids);
        StepMovesTotals(m.urr, Urr.Lookup(c, u, call.len), u);
      }
    case Other(c, v, len) =>
      StepKeepsInv(m.urr, Urr.Lookup(c, v, len), ids);
      StepMovesTotals(m.urr, Urr.Lookup(c, v, len), u);
    case Commit(c) =>
      StepKeepsInv(m.urr, Urr.Commit(c), ids);
      StepMovesTotals(m.urr, Urr.Commit(c), u);
  }

  lemma {:induction false} RunMeters(q: Qer, u: u32, m: State, steps: seq<Step>, ids: set<u32>)
    requires Legal(q, u, m, steps) && u != 0 && u in ids && |ids| <= Urr.MAX_URRS && Urr.Inv(m.urr, ids)
    requires |m.buckets| == |m.urr.cpus| && Uses(steps, ids)
    ensures On(|m.buckets|, Hits(steps))
    ensures var e, n := Exec(q, u, m, steps), |m.buckets|;
            && Urr.Inv(e.urr, ids) && |e.urr.cpus| == n
            && Bytes(m.urr.lost, u, n) <= Bytes(e.urr.lost, u, n)
            && Bytes(e.urr.metered, u, n) == Bytes(m.urr.metered, u, n) + Total(q, m.buckets, Hits(steps))
    decreases |steps|
  {
    if steps != [] {
      var m' := Next(q, u, m, steps[0]);
      StepMeters(q, u, m, steps[0], ids);
      RunMeters(q, u, m', steps[1..], ids);
      var rest := Hits(steps[1..]);
      if steps[0].Forward? {
        assert ([Hit(steps[0].cpu, steps[0].call)] + rest)[1..] == rest;
      } else {
        assert [] + rest == rest;
      }
    }
  }

  /**
   * Metering composes with policing. Over any window of any run of N CPUs in the default build, what read_urr
   * reports for a URR dedicated to a QER grows by at most the packets in flight at the start of the window plus
   * N times the bucket allowance of the window.
   */
  lemma ReportedWithinAllowance(q: Qer, u: u32, m: State, steps: seq<Step>, ids: set<u32>, t0: u64, t1: u64)
    requires Legal(q, u, m, steps) && u != 0 && u in ids && |ids| <= Urr.MAX_URRS && Urr.Inv(m.urr, ids)
    requires m.buckets != [] && |m.buckets| == |m.urr.cpus| && Uses(steps, ids)
    requires t0 <= t1 && Within(|m.buckets|, Hits(steps), t0, t1)
    requires Bytes(Exec(q, u, m, steps).urr.metered, u, |m.buckets|) < U64_LIMIT
    ensures var e, n := Exec(q, u, m, steps), |m.buckets|;
            Reported(e.urr.counters, u)
            <= Reported(m.urr.counters, u) + BytesInFlight(m.urr.cpus, u)
               + n * (q.burst + Earned(q, t0, t1) / BIT_NS)
  {
    var e := Exec(q, u, m, steps);
    RunMeters(q, u, m, steps, ids);
    BooksBalance(m.urr, ids, u);
    BooksBalance(e.urr, ids, u);
    NFoldBound(q, m.buckets, Hits(steps), t0, t1);
  }

  /** Fresh buckets, no counters. */
  function Init(n: nat): State {
    State(seq(n, _ => FRESH), Urr.Init(n))
  }

  lemma {:induction false} SameSize(q: Qer, u: u32, m: State, steps: seq<Step>)
    requires Legal(q, u, m, steps) && |m.buckets| == |m.urr.cpus|
    ensures |Exec(q, u, m, steps).buckets| == |Exec(q, u, m, steps).urr.cpus| == |m.buckets|
    decreases |steps|
  {
    if steps != [] {
      SameSize(q, u, Next(q, u, m, steps[0]), steps[1..]);
    }
  }

  /** Runs from the start meet the premises of the bound. */
  lemma RunsReach(q: Qer, u: u32, n: nat, steps: seq<Step>, ids: set<u32>)
    requires Legal(q, u, Init(n), steps) && u != 0 && u in ids && |ids| <= Urr.MAX_URRS && Uses(steps, ids)
    ensures var m := Exec(q, u, Init(n), steps);
            Urr.Inv(m.urr, ids) && |m.buckets| == |m.urr.cpus| == n
  {
    InitInv(n, ids);
    RunMeters(q, u, Init(n), steps, ids);
    SameSize(q, u, Init(n), steps);
  }

  lemma NothingInFlight(n: nat, u: u32)
    ensures BytesInFlight(Urr.Init(n).cpus, u) == 0
  {
    var cpus := Urr.Init(n).cpus;
    AllZero(seq(|cpus|, c requires 0 <= c < |cpus| => Urr.InFlight(cpus[c], u).bytes));
  }

  /** Since the start there is nothing else: the report stays within N allowances. */
  lemma ReportedSinceStart(q: Qer, u: u32, n: nat, steps: seq<Step>, ids: set<u32>, t0: u64, t1: u64)
    requires n > 0 && Legal(q, u, Init(n), steps) && u != 0 && u in ids && |ids| <= Urr.MAX_URRS && Uses(steps, ids)
    requires t0 <= t1 && Within(n, Hits(steps), t0, t1)
    requires Bytes(Exec(q, u, Init(n), steps).urr.metered, u, n) < U64_LIMIT
    ensures Reported(Exec(q, u, Init(n), steps).urr.counters, u) <= n * (q.burst + Earned(q, t0, t1) / BIT_NS)
  {
    InitInv(n, ids);
    NothingInFlight(n, u);
    ReportedWithinAllowance(q, u, Init(n), steps, ids, t0, t1);
  }
}
