/**
 * Usage accounting on N CPUs (bpf/upf_tc.c:140-158). urr_counters is a per-CPU hash: every CPU has its own value,
 * but keys are shared, so the lookup and the BPF_NOEXIST insert of different CPUs race to create a key.
 */
module UrrRace {
  import opened Words
  import opened Sums

  const MAX_URRS: nat := 4096

  datatype Usage = Usage(bytes: u64, pkts: u64)
  type Counters = map<u32, seq<Usage>>

  /** What a CPU's lookup told it. One CPU runs one packet at a time. */
  datatype Pending = Idle | Found(urr: u32, len: u32) | Missing(urr: u32, len: u32)

  datatype Tally = Tally(bytes: nat, pkts: nat)

  const NOTHING := Tally(0, 0)

  function Plus(a: Tally, b: Tally): Tally {
    Tally(a.bytes + b.bytes, a.pkts + b.pkts)
  }

  /** A run's exact totals per URR and CPU. */
  type Ledger = map<(u32, nat), Tally>

  function On(l: Ledger, urr: u32, cpu: nat): Tally {
    if (urr, cpu) in l then l[(urr, cpu)] else NOTHING
  }

  function Entered(l: Ledger, urr: u32, cpu: nat, len: u32): Ledger {
    l[(urr, cpu) := Plus(On(l, urr, cpu), Tally(len, 1))]
  }

  /** Map and pending packets, then what the run has metered, counted and lost so far, and each key's creator. */
  datatype State = State(counters: Counters, cpus: seq<Pending>,
                         metered: Ledger, counted: Ledger, lost: Ledger, creator: map<u32, nat>)

  datatype Step = Lookup(cpu: nat, urr: u32, len: u32) | Commit(cpu: nat)

  function Init(n: nat): State {
    State(map[], seq(n, _ => Idle), map[], map[], map[], map[])
  }

  /** u64 addition: one wrap at most. */
  function Add64(a: u64, b: u32): u64 {
    if a + b < U64_LIMIT then a + b else a + b - U64_LIMIT
  }

  function Bumped(u: Usage, len: u32): Usage {
    Usage(Add64(u.bytes, len), Add64(u.pkts, 1))
  }

  /** A new key: the creating CPU's value, zero on every other CPU. */
  function NewRow(n: nat, cpu: nat, len: u32): seq<Usage> {
    seq(n, c => if c == cpu then Usage(len, 1) else Usage(0, 0))
  }

  function Increment(counters: Counters, cpu: nat, urr: u32, len: u32): Counters
    requires urr in counters && cpu < |counters[urr]|
  {
    counters[urr := counters[urr][cpu := Bumped(counters[urr][cpu], len)]]
  }

  /** BPF_NOEXIST succeeds: the key is new and the map has room. */
  predicate Insertable(counters: Counters, urr: u32) {
    urr !in counters && |counters| < MAX_URRS
  }

  /** One packet's whole update with no other CPU between its lookup and its write. */
  function Account(counters: Counters, n: nat, cpu: nat, urr: u32, len: u32): Counters
    requires cpu < n && forall u :: u in counters ==> |counters[u]| == n
  {
    if urr == 0 then counters
    else if urr in counters then Increment(counters, cpu, urr, len)
    else if Insertable(counters, urr) then counters[urr := NewRow(n, cpu, len)]
    else counters
  }

  predicate Enabled(s: State, step: Step) {
    && step.cpu < |s.cpus|
    && (step.Lookup? ==> s.cpus[step.cpu].Idle?)
    && (step.Commit? ==> s.cpus[step.cpu].Missing?
                         || (s.cpus[step.cpu].Found? && s.cpus[step.cpu].urr in s.counters
                             && |s.counters[s.cpus[step.cpu].urr]| == |s.cpus|))
  }

  function Next(s: State, step: Step): State
    requires Enabled(s, step)
  {
    match step
    case Lookup(c, urr, len) =>
      if urr == 0 then s
      else s.(cpus := s.cpus[c := if urr in s.counters then Found(urr, len) else Missing(urr, len)],
              metered := Entered(s.metered, urr, c, len))
    case Commit(c) =>
      var w := s.cpus[c];
      var s' := s.(cpus := s.cpus[c := Idle]);
      if w.Found? then
        s'.(counters := Increment(s.counters, c, w.urr, w.len), counted := Entered(s.counted, w.urr, c, w.len))
      else if Insertable(s.counters, w.urr) then
        s'.(counters := s.counters[w.urr := NewRow(|s.cpus|, c, w.len)], counted := Entered(s.counted, w.urr, c, w.len),
            creator := s.creator[w.urr := c])
      else
        s'.(lost := Entered(s.lost, w.urr, c, w.len))
  }

  predicate Legal(s: State, steps: seq<Step>)
    decreases |steps|
  {
    steps == [] || (Enabled(s, steps[0]) && Legal(Next(s, steps[0]), steps[1..]))
  }

  function Exec(s: State, steps: seq<Step>): State
    requires Legal(s, steps)
    decreases |steps|
  {
    if steps == [] then s else Exec(Next(s, steps[0]), steps[1..])
  }

  function BytesOf(row: seq<Usage>): nat {
    Sum(seq(|row|, c requires 0 <= c < |row| => row[c].bytes))
  }

  function PktsOf(row: seq<Usage>): nat {
    Sum(seq(|row|, c requires 0 <= c < |row| => row[c].pkts))
  }

  lemma LastUsage(row: seq<Usage>, u: Usage)
    ensures BytesOf(row + [u]) == BytesOf(row) + u.bytes && PktsOf(row + [u]) == PktsOf(row) + u.pkts
  {
    var all := row + [u];
    var bs := seq(|all|, c requires 0 <= c < |all| => all[c].bytes);
    var ps := seq(|all|, c requires 0 <= c < |all| => all[c].pkts);
    assert bs[..|row|] == seq(|row|, c requires 0 <= c < |row| => row[c].bytes);
    assert ps[..|row|] == seq(|row|, c requires 0 <= c < |row| => row[c].pkts);
  }

  // ---- Conservation ----

  /** What a CPU has looked up but not yet committed. */
  function InFlight(w: Pending, urr: u32): Tally {
    if !w.Idle? && w.urr == urr then Tally(w.len, 1) else NOTHING
  }

  function Wrapped(t: Tally): Usage {
    Usage(t.bytes % U64_LIMIT, t.pkts % U64_LIMIT)
  }

  /** Everything metered on a CPU was counted, was lost or is still in flight. */
  ghost predicate Balanced(s: State, u: u32, c: nat)
    requires c < |s.cpus|
  {
    var m, k, l, f := On(s.metered, u, c), On(s.counted, u, c), On(s.lost, u, c), InFlight(s.cpus[c], u);
    m.bytes == k.bytes + l.bytes + f.bytes && m.pkts == k.pkts + l.pkts + f.pkts
  }

  /** The stored value is what was counted, modulo the counter width. */
  ghost predicate Stored(s: State, u: u32, c: nat)
    requires c < |s.cpus|
  {
    if u in s.counters then |s.counters[u]| == |s.cpus| && s.counters[u][c] == Wrapped(On(s.counted, u, c))
    else On(s.counted, u, c) == NOTHING && !(s.cpus[c].Found? && s.cpus[c].urr == u)
  }

  /** Only a CPU that missed a key before another CPU created it loses a packet, and then just that one. */
  ghost predicate LossLimited(s: State, u: u32, c: nat)
    requires c < |s.cpus|
  {
    if u in s.counters then
      && u in s.creator && s.creator[u] < |s.cpus|
      && On(s.lost, u, c).pkts + (if s.cpus[c].Missing? && s.cpus[c].urr == u then 1 else 0)
         <= (if c == s.creator[u] then 0 else 1)
    else On(s.lost, u, c) == NOTHING
  }

  ghost predicate CpuBooks(s: State, u: u32, c: nat)
    requires c < |s.cpus|
  {
    Balanced(s, u, c) && Stored(s, u, c) && LossLimited(s, u, c)
  }

  ghost predicate Inv(s: State, ids: set<u32>) {
    && (forall u: u32, c: nat :: c < |s.cpus| ==> CpuBooks(s, u, c))
    && s.counters.Keys <= ids
    && (forall c :: 0 <= c < |s.cpus| && !s.cpus[c].Idle? ==> s.cpus[c].urr in ids)
  }

  /** Every packet carries an id from `ids`, or 0 for "no URR". */
  ghost predicate Uses(steps: seq<Step>, ids: set<u32>) {
    forall i :: 0 <= i < |steps| && steps[i].Lookup? ==> steps[i].urr == 0 || steps[i].urr in ids
  }
}
