/** No byte goes missing: conservation and the loss bound of the bootstrap race, over every run of N CPUs. */
module UrrAccounting {
  import opened Words
  import opened Sums
  import opened UrrRace

  lemma EnteredHere(l: Ledger, u: u32, c: nat, len: u32)
    ensures On(Entered(l, u, c, len), u, c) == Plus(On(l, u, c), Tally(len, 1))
  {
  }

  lemma EnteredElsewhere(l: Ledger, urr: u32, cpu: nat, len: u32, u: u32, c: nat)
    requires urr != u || cpu != c
    ensures On(Entered(l, urr, cpu, len), u, c) == On(l, u, c)
  {
  }

  /** A step leaves the entries of one URR and CPU alone. */
  ghost predicate SameBooks(s: State, s': State, u: u32, c: nat)
    requires c < |s.cpus| && c < |s'.cpus|
  {
    && On(s'.metered, u, c) == On(s.metered, u, c) && On(s'.counted, u, c) == On(s.counted, u, c)
    && On(s'.lost, u, c) == On(s.lost, u, c) && InFlight(s'.cpus[c], u) == InFlight(s.cpus[c], u)
  }

  /** The lookup meters its packet and puts it in flight. */
  lemma LookupOwn(s: State, step: Step, u: u32, c: nat)
    requires Enabled(s, step) && step.Lookup? && step.cpu == c && step.urr == u != 0
    ensures var s', one := Next(s, step), Tally(step.len, 1);
            && On(s'.metered, u, c) == Plus(On(s.metered, u, c), one)
            && s'.counted == s.counted && s'.lost == s.lost && s'.counters == s.counters
            && InFlight(s.cpus[c], u) == NOTHING && InFlight(s'.cpus[c], u) == one
  {
    EnteredHere(s.metered, u, c, step.len);
  }

  lemma LookupOther(s: State, step: Step, u: u32, c: nat)
    requires Enabled(s, step) && step.Lookup? && c < |s.cpus| && (step.cpu != c || step.urr != u || u == 0)
    ensures SameBooks(s, Next(s, step), u, c) && Next(s, step).counters == s.counters
  {
    if step.urr != 0 {
      EnteredElsewhere(s.metered, step.urr, step.cpu, step.len, u, c);
    }
  }

  /** The commit of another CPU, or for another URR. */
  lemma CommitOther(s: State, step: Step, u: u32, c: nat)
    requires Enabled(s, step) && step.Commit? && c < |s.cpus|
    requires s.cpus[step.cpu].urr != u || c != step.cpu
    ensures SameBooks(s, Next(s, step), u, c)
  {
    var w := s.cpus[step.cpu];
    EnteredElsewhere(s.counted, w.urr, step.cpu, w.len, u, c);
    EnteredElsewhere(s.lost, w.urr, step.cpu, w.len, u, c);
  }

  /** The commit moves its packet from in flight to counted ... */
  lemma CommitCounts(s: State, c: nat, u: u32)
    requires Enabled(s, Commit(c)) && s.cpus[c].urr == u
    requires s.cpus[c].Found? || Insertable(s.counters, u)
    ensures var s', one := Next(s, Commit(c)), Tally(s.cpus[c].len, 1);
            && s'.metered == s.metered && s'.lost == s.lost
            && On(s'.counted, u, c) == Plus(On(s.counted, u, c), one)
            && InFlight(s.cpus[c], u) == one && InFlight(s'.cpus[c], u) == NOTHING
  {
    EnteredHere(s.counted, u, c, s.cpus[c].len);
  }

  /** ... or to lost. */
  lemma CommitLoses(s: State, c: nat, u: u32)
    requires Enabled(s, Commit(c)) && s.cpus[c].urr == u
    requires s.cpus[c].Missing? && !Insertable(s.counters, u)
    ensures var s', one := Next(s, Commit(c)), Tally(s.cpus[c].len, 1);
            && s'.metered == s.metered && s'.counted == s.counted && s'.counters == s.counters
            && On(s'.lost, u, c) == Plus(On(s.lost, u, c), one)
            && InFlight(s.cpus[c], u) == one && InFlight(s'.cpus[c], u) == NOTHING
  {
    EnteredHere(s.lost, u, c, s.cpus[c].len);
  }

  lemma CommitFrees(s: State, c: nat)
    requires Enabled(s, Commit(c))
    ensures Next(s, Commit(c)).cpus == s.cpus[c := Idle]
  {
  }

  lemma StepKeepsBalance(s: State, step: Step, u: u32, c: nat)
    requires Enabled(s, step) && c < |s.cpus| && Balanced(s, u, c)
    ensures Balanced(Next(s, step), u, c)
  {
    if step.Lookup? {
      if step.cpu == c && step.urr == u != 0 {
        LookupOwn(s, step, u, c);
      } else {
        LookupOther(s, step, u, c);
      }
    } else if step.cpu != c || s.cpus[c].urr != u {
      CommitOther(s, step, u, c);
    } else if s.cpus[c].Found? || Insertable(s.counters, u) {
      CommitCounts(s, c, u);
    } else {
      CommitLoses(s, c, u);
    }
  }

  lemma WrapStep(t: Tally, len: u32)
    ensures Bumped(Wrapped(t), len) == Wrapped(Plus(t, Tally(len, 1)))
  {
  }

  /** A lookup stores nothing, and finds only keys that are there. */
  lemma LookupKeepsStored(s: State, step: Step, u: u32, c: nat)
    requires Enabled(s, step) && step.Lookup? && c < |s.cpus| && Stored(s, u, c)
    ensures Stored(Next(s, step), u, c)
  {
    if step.cpu == c && step.urr == u != 0 {
      LookupOwn(s, step, u, c);
    } else {
      LookupOther(s, step, u, c);
    }
  }

  lemma OtherCommitKeepsStored(s: State, step: Step, u: u32, c: nat)
    requires Enabled(s, step) && step.Commit? && c < |s.cpus| && Stored(s, u, c)
    requires s.cpus[step.cpu].urr != u || c != step.cpu
    ensures Stored(Next(s, step), u, c)
  {
    CommitOther(s, step, u, c);
  }

  lemma OwnCommitKeepsStored(s: State, c: nat, u: u32)
    requires Enabled(s, Commit(c)) && s.cpus[c].urr == u && Stored(s, u, c)
    ensures Stored(Next(s, Commit(c)), u, c)
  {
    if s.cpus[c].Found? || Insertable(s.counters, u) {
      CommitCounts(s, c, u);
      WrapStep(On(s.counted, u, c), s.cpus[c].len);
    } else {
      CommitLoses(s, c, u);
    }
  }

  lemma StepKeepsStored(s: State, step: Step, u: u32, c: nat)
    requires Enabled(s, step) && c < |s.cpus| && Stored(s, u, c)
    ensures Stored(Next(s, step), u, c)
  {
    if step.Lookup? {
      LookupKeepsStored(s, step, u, c);
    } else if step.cpu == c && s.cpus[c].urr == u {
      OwnCommitKeepsStored(s, c, u);
    } else {
      OtherCommitKeepsStored(s, step, u, c);
    }
  }

  /** Given room in the map, a CPU that missed a key creates it unless another has. */
  lemma StepKeepsLossLimit(s: State, step: Step, u: u32, c: nat)
    requires Enabled(s, step) && c < |s.cpus| && LossLimited(s, u, c)
    requires step.Commit? && s.cpus[step.cpu].urr !in s.counters ==> |s.counters| < MAX_URRS
    ensures LossLimited(Next(s, step), u, c)
  {
    if step.Lookup? {
      if step.cpu == c && step.urr == u != 0 {
        LookupOwn(s, step, u, c);
      } else {
        LookupOther(s, step, u, c);
      }
    } else if step.cpu != c || s.cpus[c].urr != u {
      CommitOther(s, step, u, c);
    } else if s.cpus[c].Found? || Insertable(s.counters, u) {
      CommitCounts(s, c, u);
    } else {
      CommitLoses(s, c, u);
    }
  }

  lemma {:induction false} SubsetSize(a: set<u32>, b: set<u32>)
    requires a <= b
    ensures |a| <= |b|
    decreases a
  {
    if a != {} {
      var x :| x in a;
      SubsetSize(a - {x}, b - {x});
    }
  }

  lemma RoomLeft(used: set<u32>, ids: set<u32>, u: u32)
    requires used <= ids && u in ids && u !in used
    ensures |used| < |ids|
  {
    assert used <= ids - {u};
    SubsetSize(used, ids - {u});
  }

  lemma StepKeepsInv(s: State, step: Step, ids: set<u32>)
    requires Inv(s, ids) && Enabled(s, step) && |ids| <= MAX_URRS
    requires step.Lookup? && step.urr != 0 ==> step.urr in ids
    ensures Inv(Next(s, step), ids)
  {
    forall u: u32, c: nat | c < |s.cpus|
      ensures CpuBooks(Next(s, step), u, c)
    {
      assert CpuBooks(s, u, c);
      if step.Commit? && s.cpus[step.cpu].urr !in s.counters {
        RoomLeft(s.counters.Keys, ids, s.cpus[step.cpu].urr);
      }
      StepKeepsBalance(s, step, u, c);
      StepKeepsStored(s, step, u, c);
      StepKeepsLossLimit(s, step, u, c);
    }
  }

  lemma {:induction false} RunKeepsInv(s: State, steps: seq<Step>, ids: set<u32>)
    requires Inv(s, ids) && Legal(s, steps) && |ids| <= MAX_URRS && Uses(steps, ids)
    ensures Inv(Exec(s, steps), ids) && |Exec(s, steps).cpus| == |s.cpus|
    decreases |steps|
  {
    if steps != [] {
      StepKeepsInv(s, steps[0], ids);
      RunKeepsInv(Next(s, steps[0]), steps[1..], ids);
    }
  }

  /** The model blocks nobody: an idle CPU can take any packet, and a CPU at work can always finish. */
  lemma NeverBlocked(s: State, ids: set<u32>, c: nat)
    requires Inv(s, ids) && c < |s.cpus|
    ensures if s.cpus[c].Idle? then forall urr: u32, len: u32 :: Enabled(s, Lookup(c, urr, len))
            else Enabled(s, Commit(c))
  {
    if s.cpus[c].Found? {
      assert CpuBooks(s, s.cpus[c].urr, c) && Stored(s, s.cpus[c].urr, c);
    }
  }

  /** A packet whose lookup and commit are not interrupted does what the in-place update does. */
  lemma UninterruptedUpdate(s: State, c: nat, urr: u32, len: u32)
    requires c < |s.cpus| && s.cpus[c].Idle? && forall u :: u in s.counters ==> |s.counters[u]| == |s.cpus|
    ensures Enabled(s, Lookup(c, urr, len))
    ensures var s1 := Next(s, Lookup(c, urr, len));
            if urr == 0 then s1.counters == Account(s.counters, |s.cpus|, c, urr, len)
            else Enabled(s1, Commit(c))
                 && Next(s1, Commit(c)).counters == Account(s.counters, |s.cpus|, c, urr, len)
  {
  }

  lemma InitInv(n: nat, ids: set<u32>)
    ensures Inv(Init(n), ids)
  {
    forall u: u32, c: nat | c < n
      ensures CpuBooks(Init(n), u, c)
    {
    }
  }

  lemma {:induction false} EqualRow(row: seq<Usage>, bytes: u64)
    requires forall c :: 0 <= c < |row| ==> row[c].bytes == bytes
    ensures BytesOf(row) == |row| * bytes
    decreases |row|
  {
    if row == [] {
      assert BytesOf(row) == 0;
    } else {
      var init, last := row[..|row| - 1], row[|row| - 1];
      EqualRow(init, bytes);
      assert row == init + [last];
      LastUsage(init, last);
      assert |row| * bytes == |init| * bytes + bytes;
    }
  }

  lemma FirstGrows(row: seq<Usage>, first: Usage)
    requires row != []
    ensures BytesOf(row[0 := first]) == BytesOf(row) - row[0].bytes + first.bytes
  {
    var xs: seq<nat> := seq(|row|, c requires 0 <= c < |row| => row[c].bytes);
    var row' := row[0 := first];
    var ys: seq<nat> := seq(|row'|, c requires 0 <= c < |row'| => row'[c].bytes);
    assert ys == xs[0 := first.bytes];
    SumUpdated(xs, 0, first.bytes);
  }

  /** A URR's traffic in a ledger, all CPUs together. */
  function Bytes(l: Ledger, u: u32, n: nat): nat {
    Sum(seq(n, c requires 0 <= c => On(l, u, c).bytes))
  }

  function Pkts(l: Ledger, u: u32, n: nat): nat {
    Sum(seq(n, c requires 0 <= c => On(l, u, c).pkts))
  }

  function BytesInFlight(cpus: seq<Pending>, u: u32): nat {
    Sum(seq(|cpus|, c requires 0 <= c < |cpus| => InFlight(cpus[c], u).bytes))
  }

  /** What read_urr reports. */
  function Reported(counters: Counters, u: u32): nat {
    if u in counters then BytesOf(counters[u]) else 0
  }

  /** Metered is counted plus lost plus in flight, all CPUs together. */
  lemma TotalsBalance(s: State, ids: set<u32>, u: u32)
    requires Inv(s, ids)
    ensures var n := |s.cpus|;
            Bytes(s.counted, u, n) + Bytes(s.lost, u, n) + BytesInFlight(s.cpus, u) == Bytes(s.metered, u, n)
  {
    var n := |s.cpus|;
    var counted := seq(n, c requires 0 <= c => On(s.counted, u, c).bytes);
    var lost := seq(n, c requires 0 <= c => On(s.lost, u, c).bytes);
    var flight := seq(n, c requires 0 <= c < n => InFlight(s.cpus[c], u).bytes);
    var both := seq(n, c requires 0 <= c < n => lost[c] + flight[c]);
    var metered := seq(n, c requires 0 <= c => On(s.metered, u, c).bytes);
    forall c: nat | c < n
      ensures counted[c] + both[c] == metered[c]
    {
      assert CpuBooks(s, u, c);
    }
    SumAdds(lost, flight, both);
    SumAdds(counted, both, metered);
  }

  /** Below the counter width the report is what was counted. */
  lemma ReportIsCounted(s: State, ids: set<u32>, u: u32)
    requires s.cpus != [] && Inv(s, ids) && Bytes(s.counted, u, |s.cpus|) < U64_LIMIT
    ensures Reported(s.counters, u) == Bytes(s.counted, u, |s.cpus|)
  {
    var n := |s.cpus|;
    var counted := seq(n, c requires 0 <= c => On(s.counted, u, c).bytes);
    forall c: nat | c < n
      ensures if u in s.counters then |s.counters[u]| == n && s.counters[u][c].bytes == counted[c]
              else counted[c] == 0
    {
      assert CpuBooks(s, u, c) && Stored(s, u, c);
      TermAtMostSum(counted, c);
    }
    if u in s.counters {
      assert CpuBooks(s, u, 0) && Stored(s, u, 0);
      assert seq(n, c requires 0 <= c < n => s.counters[u][c].bytes) == counted;
    } else {
      AllZero(counted);
    }
  }

  /** In any state that keeps the books, with fewer than 2^64 bytes metered, nothing is unaccounted for. */
  lemma BooksBalance(s: State, ids: set<u32>, u: u32)
    requires s.cpus != [] && Inv(s, ids) && Bytes(s.metered, u, |s.cpus|) < U64_LIMIT
    ensures var n := |s.cpus|;
            Reported(s.counters, u) + Bytes(s.lost, u, n) + BytesInFlight(s.cpus, u) == Bytes(s.metered, u, n)
  {
    TotalsBalance(s, ids, u);
    ReportIsCounted(s, ids, u);
  }

  lemma BytesEntered(l: Ledger, urr: u32, cpu: nat, len: u32, u: u32, n: nat)
    requires cpu < n
    ensures Bytes(Entered(l, urr, cpu, len), u, n) == Bytes(l, u, n) + (if urr == u then len else 0)
  {
    var l' := Entered(l, urr, cpu, len);
    var xs := seq(n, c requires 0 <= c => On(l, u, c).bytes);
    var ys := seq(n, c requires 0 <= c => On(l', u, c).bytes);
    assert ys == xs[cpu := ys[cpu]];
    SumUpdated(xs, cpu, ys[cpu]);
  }

  /** A step meters its own packet and nothing else, and never takes a loss back. */
  lemma StepMovesTotals(s: State, step: Step, u: u32)
    requires Enabled(s, step) && u != 0
    ensures var s', n := Next(s, step), |s.cpus|;
            && Bytes(s'.metered, u, n)
               == Bytes(s.metered, u, n) + (if step.Lookup? && step.urr == u then step.len else 0)
            && Bytes(s.lost, u, n) <= Bytes(s'.lost, u, n)
  {
    var k := step.cpu;
    match step
    case Lookup(_, urr, len) =>
      if urr != 0 {
        BytesEntered(s.metered, urr, k, len, u, |s.cpus|);
      }
    case Commit(_) =>
      BytesEntered(s.lost, s.cpus[k].urr, k, s.cpus[k].len, u, |s.cpus|);
  }

  lemma NothingMetered(n: nat, u: u32)
    ensures Bytes(Init(n).metered, u, n) == 0
  {
    AllZero(seq(n, c requires 0 <= c => On(Init(n).metered, u, c).bytes));
  }

  /**
   * Conservation under the bootstrap race. In every state N CPUs can reach with at most MAX_URRS ids, what
   * read_urr reports, what was lost and what is in flight add up to the bytes metered for the id.
   */
  lemma UrrConservation(n: nat, steps: seq<Step>, ids: set<u32>, u: u32)
    requires n > 0 && Legal(Init(n), steps) && |ids| <= MAX_URRS && Uses(steps, ids)
    requires Bytes(Exec(Init(n), steps).metered, u, n) < U64_LIMIT
    ensures var s := Exec(Init(n), steps);
            Reported(s.counters, u) + Bytes(s.lost, u, n) + BytesInFlight(s.cpus, u) == Bytes(s.metered, u, n)
  {
    InitInv(n, ids);
    RunKeepsInv(Init(n), steps, ids);
    BooksBalance(Exec(Init(n), steps), ids, u);
  }

  /** The race loses at most one packet per URR and CPU, and at most N-1 per URR: its creator loses none. */
  lemma UrrLossBound(n: nat, steps: seq<Step>, ids: set<u32>, u: u32)
    requires n > 0 && Legal(Init(n), steps) && |ids| <= MAX_URRS && Uses(steps, ids)
    ensures var s := Exec(Init(n), steps);
            && (forall c: nat :: c < n ==> On(s.lost, u, c).pkts <= 1)
            && Pkts(s.lost, u, n) <= n - 1
  {
    InitInv(n, ids);
    RunKeepsInv(Init(n), steps, ids);
    var s := Exec(Init(n), steps);
    var lost := seq(n, c requires 0 <= c => On(s.lost, u, c).pkts);
    forall c: nat | c < n
      ensures lost[c] == On(s.lost, u, c).pkts <= 1
      ensures if u in s.counters then u in s.creator && s.creator[u] < n && (c == s.creator[u] ==> lost[c] == 0)
              else lost[c] == 0
    {
      assert CpuBooks(s, u, c);
    }
    if u in s.counters {
      assert lost[0] <= 1;
      SumBelowLength(lost, s.creator[u]);
    } else {
      AllZero(lost);
    }
  }
}
