/**
 * Policing and metering together in the shared build: the critical section, then, some time later, the lookup of the
 * counters, then the write (bpf/upf_tc.c:64-97, 145 and 146-156). Other CPUs may do anything in between.
 */
module SharedMetering {
  import opened Words
  import opened Sums
  import opened TokenBucket
  import Sb = SharedBucket
  import Urr = UrrRace
  import opened UrrAccounting

  /** The bucket; per CPU, the length of a packet admitted but not yet looked up; the accounting state. */
  datatype State = State(bucket: Sb.State, passed: seq<Option<u32>>, urr: Urr.State)

  /** A bucket step of a packet of the QER; the counter lookup of such a packet, once admitted; the lookup of an
      admitted packet of any other PDR; a write. */
  datatype Step = Police(step: Sb.Step) | Meter(cpu: nat) | Other(cpu: nat, urr: u32, len: u32) | Commit(cpu: nat)

  function Init(n: nat): State {
    State(Sb.Init(n), seq(n, _ => None), Urr.Init(n))
  }

  predicate SameSize(m: State) {
    |m.bucket.cpus| == |m.passed| == |m.urr.cpus|
  }

  /** The CPU is between packets. */
  predicate Free(m: State, c: nat) {
    SameSize(m) && c < |m.passed| && m.bucket.cpus[c].Idle? && m.passed[c].None? && m.urr.cpus[c].Idle?
  }

  predicate Enabled(u: u32, m: State, step: Step) {
    && SameSize(m)
    && match step
       case Police(s) => Sb.Enabled(m.bucket, s) && (s.Sample? ==> Free(m, s.cpu))
       case Meter(c) => c < |m.passed| && m.passed[c].Some? && m.urr.cpus[c].Idle?
       case Other(c, v, _) => v != u && Free(m, c)
       case Commit(c) => Urr.Enabled(m.urr, Urr.Commit(c))
  }

  /** The critical section admits its packet. */
  predicate Passes(q: Qer, b: Sb.State, s: Sb.Step)
    requires Sb.Enabled(b, s)
  {
    s.Critical? && SharedAdmit(q, b.bucket, Call(b.cpus[s.cpu].now, b.cpus[s.cpu].len)).admit
  }

  function Next(q: Qer, u: u32, m: State, step: Step): (m': State)
    requires Enabled(u, m, step)
    ensures SameSize(m') && |m'.urr.cpus| == |m.urr.cpus|
  {
    match step
    case Police(s) =>
      m.(bucket := Sb.Next(q, m.bucket, s),
         passed := if Passes(q, m.bucket, s) then m.passed[s.cpu := Some(m.bucket.cpus[s.cpu].len)] else m.passed)
    case Meter(c) => m.(passed := m.passed[c := None], urr := Urr.Next(m.urr, Urr.Lookup(c, u, m.passed[c].value)))
    case Other(c, v, len) => m.(urr := Urr.Next(m.urr, Urr.Lookup(c, v, len)))
    case Commit(c) => m.(urr := Urr.Next(m.urr, Urr.Commit(c)))
  }

  predicate Legal(q: Qer, u: u32, m: State, steps: seq<Step>)
    decreases |steps|
  {
    steps == [] || (Enabled(u, m, steps[0]) && Legal(q, u, Next(q, u, m, steps[0]), steps[1..]))
  }

  function Exec(q: Qer, u: u32, m: State, steps: seq<Step>): State
    requires Legal(q, u, m, steps)
    decreases |steps|
  {
    if steps == [] then m else Exec(q, u, Next(q, u, m, steps[0]), steps[1..])
  }

  /** The steps on the shared bucket alone. */
  function Policing(steps: seq<Step>): seq<Sb.Step> {
    if steps == [] then [] else (if steps[0].Police? then [steps[0].step] else []) + Policing(steps[1..])
  }

  ghost predicate Uses(steps: seq<Step>, ids: set<u32>) {
    forall i :: 0 <= i < |steps| && steps[i].Other? ==> steps[i].urr == 0 || steps[i].urr in ids
  }

  function Length(p: Option<u32>): nat {
    if p.Some? then p.value else 0
  }

  /** Bytes admitted by the bucket and not yet looked up. */
  function PassedBytes(passed: seq<Option<u32>>): nat {
    Sum(seq(|passed|, c requires 0 <= c < |passed| => Length(passed[c])))
  }

  /** Bytes admitted and not yet counted or lost. */
  function UnderWay(m: State, u: u32): nat {
    PassedBytes(m.passed) + BytesInFlight(m.urr.cpus, u)
  }

  /** A CPU works on one packet at a time: it polices, then looks up, then writes. */
  ghost predicate OneAtATime(m: State) {
    && SameSize(m)
    && forall c :: 0 <= c < |m.passed| ==>
         && (!m.bucket.cpus[c].Idle? ==> m.passed[c].None? && m.urr.cpus[c].Idle?)
         && (m.passed[c].Some? ==> m.urr.cpus[c].Idle?)
  }

  /** What the bucket admitted was metered, or waits to be. */
  ghost predicate InStep(u: u32, m: State, ids: set<u32>) {
    && OneAtATime(m) && Urr.Inv(m.urr, ids)
    && m.bucket.hist.admitted == Bytes(m.urr.metered, u, |m.urr.cpus|) + PassedBytes(m.passed)
  }
}

module SharedMeteringLaws {
  import opened Words
  import opened Sums
  import opened TokenBucket
  import Sb = SharedBucket
  import SharedBucketWindow
  import Urr = UrrRace
  import opened UrrAccounting
  import opened SharedMetering

  lemma PassedSet(passed: seq<Option<u32>>, c: nat, p: Option<u32>)
    requires c < |passed|
    ensures PassedBytes(passed[c := p]) == PassedBytes(passed) - Length(passed[c]) + Length(p)
  {
    var xs: seq<nat> := seq(|passed|, i requires 0 <= i < |passed| => Length(passed[i]));
    var passed' := passed[c := p];
    var ys: seq<nat> := seq(|passed'|, i requires 0 <= i < |passed'| => Length(passed'[i]));
    assert ys == xs[c := Length(p)];
    SumUpdated(xs, c, Length(p));
  }

  lemma NonePassed(n: nat)
    ensures PassedBytes(seq(n, _ => None)) == 0
  {
    var passed: seq<Option<u32>> := seq(n, _ => None);
    AllZero(seq(|passed|, i requires 0 <= i < |passed| => Length(passed[i])));
  }

  lemma PoliceKeepsOrder(q: Qer, u: u32, m: State, s: Sb.Step)
    requires Enabled(u, m, Police(s)) && OneAtATime(m)
    ensures OneAtATime(Next(q, u, m, Police(s)))
  {
  }

  lemma LookupKeepsOrder(q: Qer, u: u32, m: State, c: nat)
    requires Enabled(u, m, Meter(c)) && OneAtATime(m)
    ensures OneAtATime(Next(q, u, m, Meter(c)))
  {
  }

  lemma OtherKeepsOrder(q: Qer, u: u32, m: State, c: nat, v: u32, len: u32)
    requires Enabled(u, m, Other(c, v, len)) && OneAtATime(m)
    ensures OneAtATime(Next(q, u, m, Other(c, v, len)))
  {
  }

  lemma CommitKeepsOrder(q: Qer, u: u32, m: State, c: nat)
    requires Enabled(u, m, Commit(c)) && OneAtATime(m)
    ensures OneAtATime(Next(q, u, m, Commit(c)))
  {
    CommitFrees(m.urr, c);
    var m' := Next(q, u, m, Commit(c));
    forall i | 0 <= i < |m.passed|
      ensures !m'.bucket.cpus[i].Idle? ==> m'.passed[i].None? && m'.urr.cpus[i].Idle?
      ensures m'.passed[i].Some? ==> m'.urr.cpus[i].Idle?
    {
      assert m'.urr.cpus[i] == m.urr.cpus[c := Urr.Idle][i];
    }
  }

  lemma PoliceMeters(q: Qer, u: u32, m: State, s: Sb.Step, ids: set<u32>)
    requires Enabled(u, m, Police(s)) && InStep(u, m, ids)
    ensures InStep(u, Next(q, u, m, Police(s)), ids)
  {
    PoliceKeepsOrder(q, u, m, s);
    if Passes(q, m.bucket, s) {
      PassedSet(m.passed, s.cpu, Some(m.bucket.cpus[s.cpu].len));
    }
  }

  lemma LookupMeters(q: Qer, u: u32, m: State, c: nat, ids: set<u32>)
    requires Enabled(u, m, Meter(c)) && u != 0 && u in ids && |ids| <= Urr.MAX_URRS && InStep(u, m, ids)
    ensures InStep(u, Next(q, u, m, Meter(c)), ids)
  {
    LookupKeepsOrder(q, u, m, c);
    PassedSet(m.passed, c, None);
    StepKeepsInv(m.urr, Urr.Lookup(c, u, m.passed[c].value), ids);
    StepMovesTotals(m.urr, Urr.Lookup(c, u, m.passed[c].value), u);
  }

  lemma OtherMeters(q: Qer, u: u32, m: State, c: nat, v: u32, len: u32, ids: set<u32>)
    requires Enabled(u, m, Other(c, v, len)) && u != 0 && |ids| <= Urr.MAX_URRS && InStep(u, m, ids)
    requires v == 0 || v in ids
    ensures InStep(u, Next(q, u, m, Other(c, v, len)), ids)
  {
    OtherKeepsOrder(q, u, m, c, v, len);
    StepKeepsInv(m.urr, Urr.Lookup(c, v, len), ids);
    StepMovesTotals(m.urr, Urr.Lookup(c, v, len), u);
  }

  lemma CommitMeters(q: Qer, u: u32, m: State, c: nat, ids: set<u32>)
    requires Enabled(u, m, Commit(c)) && u != 0 && |ids| <= Urr.MAX_URRS && InStep(u, m, ids)
    ensures InStep(u, Next(q, u, m, Commit(c)), ids)
  {
    CommitKeepsOrder(q, u, m, c);
    StepKeepsInv(m.urr, Urr.Commit(c), ids);
    StepMovesTotals(m.urr, Urr.Commit(c), u);
  }

  lemma StepMeters(q: Qer, u: u32, m: State, step: Step, ids: set<u32>)
    requires Enabled(u, m, step) && u != 0 && u in ids && |ids| <= Urr.MAX_URRS && InStep(u, m, ids)
    requires step.Other? ==> step.urr == 0 || step.urr in ids
    ensures InStep(u, Next(q, u, m, step), ids)
  {
    match step
    case Police(s) => PoliceMeters(q, u, m, s, ids);
    case Meter(c) => LookupMeters(q, u, m, c, ids);
    case Other(c, v, len) => OtherMeters(q, u, m, c, v, len, ids);
    case Commit(c) => CommitMeters(q, u, m, c, ids);
  }

  lemma {:induction false} RunMeters(q: Qer, u: u32, m: State, steps: seq<Step>, ids: set<u32>)
    requires Legal(q, u, m, steps) && u != 0 && u in ids && |ids| <= Urr.MAX_URRS && InStep(u, m, ids)
    requires Uses(steps, ids)
    ensures InStep(u, Exec(q, u, m, steps), ids)
    ensures |Exec(q, u, m, steps).urr.cpus| == |m.urr.cpus|
    decreases |steps|
  {
    if steps != [] {
      StepMeters(q, u, m, steps[0], ids);
      RunMeters(q, u, Next(q, u, m, steps[0]), steps[1..], ids);
    }
  }

  /** The model blocks nobody: an admitted packet can be looked up, and a packet looked up can be written. */
  lemma NeverBlocked(u: u32, m: State, ids: set<u32>, c: nat)
    requires InStep(u, m, ids) && c < |m.passed|
    ensures m.bucket.cpus[c].Sampled? && m.bucket.lock.None? ==> Enabled(u, m, Police(Sb.Acquire(c)))
    ensures m.bucket.cpus[c].Holding? ==> Enabled(u, m, Police(Sb.Critical(c)))
    ensures m.passed[c].Some? ==> Enabled(u, m, Meter(c))
    ensures !m.urr.cpus[c].Idle? ==> Enabled(u, m, Commit(c))
  {
    UrrAccounting.NeverBlocked(m.urr, ids, c);
  }

  /** The bucket moves as if the policing steps ran on their own. */
  lemma {:induction false} PolicesAlone(q: Qer, u: u32, m: State, steps: seq<Step>)
    requires Legal(q, u, m, steps)
    ensures Sb.Legal(q, m.bucket, Policing(steps))
    ensures Sb.Exec(q, m.bucket, Policing(steps)) == Exec(q, u, m, steps).bucket
    decreases |steps|
  {
    if steps != [] {
      PolicesAlone(q, u, Next(q, u, m, steps[0]), steps[1..]);
      var rest := Policing(steps[1..]);
      if steps[0].Police? {
        assert ([steps[0].step] + rest)[1..] == rest;
      } else {
        assert [] + rest == rest;
      }
    }
  }

  lemma InitInStep(n: nat, u: u32, ids: set<u32>)
    ensures InStep(u, Init(n), ids)
  {
    InitInv(n, ids);
    NothingMetered(n, u);
    NonePassed(n);
  }

  /** A state some run reaches, with its books in order. */
  ghost predicate Reachable(q: Qer, u: u32, m: State, ids: set<u32>) {
    u != 0 && u in ids && |ids| <= Urr.MAX_URRS && InStep(u, m, ids) && Sb.Inv(q, m.bucket)
  }

  /** Runs from the start lead only to such states: what the bucket admitted was metered or waits to be looked up. */
  lemma RunsReach(q: Qer, u: u32, n: nat, steps: seq<Step>, ids: set<u32>)
    requires Legal(q, u, Init(n), steps) && u != 0 && u in ids && |ids| <= Urr.MAX_URRS && Uses(steps, ids)
    ensures Reachable(q, u, Exec(q, u, Init(n), steps), ids) && |Exec(q, u, Init(n), steps).urr.cpus| == n
  {
    InitInStep(n, u, ids);
    RunMeters(q, u, Init(n), steps, ids);
    PolicesAlone(q, u, Init(n), steps);
    Sb.RunKeepsInv(q, Sb.Init(n), Policing(steps));
  }

  /** The report is what was admitted, less what was lost and what is under way. */
  lemma ReportBalance(q: Qer, u: u32, m: State, ids: set<u32>)
    requires Reachable(q, u, m, ids) && m.urr.cpus != [] && m.bucket.hist.admitted < U64_LIMIT
    ensures Reported(m.urr.counters, u) + Bytes(m.urr.lost, u, |m.urr.cpus|) + UnderWay(m, u) == m.bucket.hist.admitted
  {
    BooksBalance(m.urr, ids, u);
  }

  lemma ReportWithinAdmitted(q: Qer, u: u32, n: nat, steps: seq<Step>, ids: set<u32>)
    requires n > 0 && Legal(q, u, Init(n), steps) && u != 0 && u in ids && |ids| <= Urr.MAX_URRS && Uses(steps, ids)
    requires Exec(q, u, Init(n), steps).bucket.hist.admitted < U64_LIMIT
    ensures Reported(Exec(q, u, Init(n), steps).urr.counters, u) <= Exec(q, u, Init(n), steps).bucket.hist.admitted
  {
    RunsReach(q, u, n, steps, ids);
    ReportBalance(q, u, Exec(q, u, Init(n), steps), ids);
  }

  lemma AdmittedSinceFirstUse(q: Qer, u: u32, n: nat, steps: seq<Step>)
    requires Legal(q, u, Init(n), steps)
    ensures Sb.WithinRate(q, Exec(q, u, Init(n), steps).bucket)
  {
    PolicesAlone(q, u, Init(n), steps);
    Sb.SharedRateBound(q, n, Policing(steps));
  }

  /** In the shared build the report never exceeds the shared bucket's bound, whatever the interleaving. */
  lemma ReportedSinceFirstUse(q: Qer, u: u32, n: nat, steps: seq<Step>, ids: set<u32>)
    requires n > 0 && Legal(q, u, Init(n), steps) && u != 0 && u in ids && |ids| <= Urr.MAX_URRS && Uses(steps, ids)
    requires Exec(q, u, Init(n), steps).bucket.hist.admitted < U64_LIMIT
    ensures var e := Exec(q, u, Init(n), steps);
            Reported(e.urr.counters, u)
            <= if e.bucket.bucket.last == 0 then 0
               else q.burst + Earned(q, e.bucket.hist.first, e.bucket.clock + e.bucket.hist.waited) / BIT_NS
  {
    ReportWithinAdmitted(q, u, n, steps, ids);
    AdmittedSinceFirstUse(q, u, n, steps);
  }

  lemma BucketGrows(q: Qer, u: u32, m: State, steps: seq<Step>, t0: u64)
    requires Sb.Inv(q, m.bucket) && Legal(q, u, m, steps) && SharedBucketWindow.SampledFrom(m.bucket, t0)
    ensures var e := Exec(q, u, m, steps).bucket;
            && e.hist.waited >= m.bucket.hist.waited
            && e.hist.admitted - m.bucket.hist.admitted
               <= q.burst + Earned(q, t0, e.clock + (e.hist.waited - m.bucket.hist.waited)) / BIT_NS
  {
    PolicesAlone(q, u, m, steps);
    SharedBucketWindow.WindowRateBound(q, m.bucket, Policing(steps), t0);
  }

  lemma {:induction false} AdmittedGrows(q: Qer, u: u32, m: State, steps: seq<Step>)
    requires Legal(q, u, m, steps)
    ensures Exec(q, u, m, steps).bucket.hist.admitted >= m.bucket.hist.admitted
    decreases |steps|
  {
    if steps != [] {
      AdmittedGrows(q, u, Next(q, u, m, steps[0]), steps[1..]);
    }
  }

  lemma LossStep(q: Qer, u: u32, m: State, step: Step)
    requires Enabled(u, m, step) && u != 0
    ensures Bytes(Next(q, u, m, step).urr.lost, u, |m.urr.cpus|) >= Bytes(m.urr.lost, u, |m.urr.cpus|)
  {
    match step
    case Police(_) =>
    case Meter(c) => StepMovesTotals(m.urr, Urr.Lookup(c, u, m.passed[c].value), u);
    case Other(c, v, len) => StepMovesTotals(m.urr, Urr.Lookup(c, v, len), u);
    case Commit(c) => StepMovesTotals(m.urr, Urr.Commit(c), u);
  }

  lemma {:induction false} LossesGrow(q: Qer, u: u32, m: State, steps: seq<Step>)
    requires Legal(q, u, m, steps) && u != 0
    ensures Bytes(Exec(q, u, m, steps).urr.lost, u, |m.urr.cpus|) >= Bytes(m.urr.lost, u, |m.urr.cpus|)
    decreases |steps|
  {
    if steps != [] {
      LossStep(q, u, m, steps[0]);
      LossesGrow(q, u, Next(q, u, m, steps[0]), steps[1..]);
    }
  }

  lemma StaysReachable(q: Qer, u: u32, m: State, steps: seq<Step>, ids: set<u32>)
    requires Reachable(q, u, m, ids) && Legal(q, u, m, steps) && Uses(steps, ids)
    ensures Reachable(q, u, Exec(q, u, m, steps), ids) && |Exec(q, u, m, steps).urr.cpus| == |m.urr.cpus|
  {
    RunMeters(q, u, m, steps, ids);
    PolicesAlone(q, u, m, steps);
    Sb.RunKeepsInv(q, m.bucket, Policing(steps));
  }

  /** The report grows by no more than what the bucket admitted and what was under way. */
  lemma ReportFollowsBucket(q: Qer, u: u32, m: State, steps: seq<Step>, ids: set<u32>)
    requires Reachable(q, u, m, ids) && m.urr.cpus != [] && Legal(q, u, m, steps) && Uses(steps, ids)
    requires Exec(q, u, m, steps).bucket.hist.admitted < U64_LIMIT
    ensures var e := Exec(q, u, m, steps);
            Reported(e.urr.counters, u)
            <= Reported(m.urr.counters, u) + UnderWay(m, u) + (e.bucket.hist.admitted - m.bucket.hist.admitted)
  {
    var e := Exec(q, u, m, steps);
    AdmittedGrows(q, u, m, steps);
    StaysReachable(q, u, m, steps, ids);
    LossesGrow(q, u, m, steps);
    ReportBalance(q, u, m, ids);
    ReportBalance(q, u, e, ids);
  }

  /**
   * Metering composes with policing in the shared build too. Over any window of any run, the report grows by at most
   * the packets under way to the counters at its start plus the shared bucket's allowance for the window.
   */
  lemma ReportedWithinAllowance(q: Qer, u: u32, m: State, steps: seq<Step>, ids: set<u32>, t0: u64)
    requires Reachable(q, u, m, ids) && m.urr.cpus != [] && Legal(q, u, m, steps) && Uses(steps, ids)
    requires SharedBucketWindow.SampledFrom(m.bucket, t0)
    requires Exec(q, u, m, steps).bucket.hist.admitted < U64_LIMIT
    ensures var e := Exec(q, u, m, steps);
            && e.bucket.hist.waited >= m.bucket.hist.waited
            && Reported(e.urr.counters, u)
               <= Reported(m.urr.counters, u) + UnderWay(m, u) + q.burst
                  + Earned(q, t0, e.bucket.clock + (e.bucket.hist.waited - m.bucket.hist.waited)) / BIT_NS
  {
    ReportFollowsBucket(q, u, m, steps, ids);
    BucketGrows(q, u, m, steps, t0);
  }
}
