/** What one update does to the counters, number by number, and conservation of packets (bpf/upf_tc.c:140-158). */
module UrrPackets {
  import opened Words
  import opened Sums
  import opened UrrRace
  import opened UrrAccounting

  /** A value one packet later: the length and one packet more, on 64 bits. */
  ghost predicate OnePacketMore(was: Usage, now: Usage, len: u32) {
    && now.bytes == (was.bytes + len) % 0x1_0000_0000_0000_0000
    && now.pkts == (was.pkts + 1) % 0x1_0000_0000_0000_0000
  }

  lemma BumpedByOne(was: Usage, len: u32)
    ensures OnePacketMore(was, Bumped(was, len), len)
  {
  }

  /**
   * One uninterrupted update. It leaves every other URR alone, and every URR if the packet has none. It makes a key for
   * its URR if the map has room, from zero on every CPU, and adds the packet on its own CPU and on no other.
   */
  lemma UpdateMeters(counters: Counters, n: nat, cpu: nat, urr: u32, len: u32, u: u32, c: nat)
    requires cpu < n && c < n && forall k :: k in counters ==> |counters[k]| == n
    ensures var after := Account(counters, n, cpu, urr, len);
            if u != urr || urr == 0 then
              (u in after <==> u in counters) && (u in counters ==> after[u] == counters[u])
            else
              && (u in after <==> u in counters || |counters| < 4096)
              && (u in after ==>
                    && |after[u]| == n
                    && var was := if u in counters then counters[u][c] else Usage(0, 0);
                       if c == cpu then OnePacketMore(was, after[u][c], len) else after[u][c] == was)
  {
    if u == urr != 0 {
      if u in counters {
        BumpedByOne(counters[u][cpu], len);
        assert Account(counters, n, cpu, urr, len)[u] == counters[u][cpu := Bumped(counters[u][cpu], len)];
      } else if |counters| < 4096 {
        assert Account(counters, n, cpu, urr, len)[u] == NewRow(n, cpu, len);
      }
    }
  }

  function PktsInFlight(cpus: seq<Pending>, u: u32): nat {
    Sum(seq(|cpus|, c requires 0 <= c < |cpus| => InFlight(cpus[c], u).pkts))
  }

  /** The packet count read_urr reports. */
  function ReportedPkts(counters: Counters, u: u32): nat {
    if u in counters then PktsOf(counters[u]) else 0
  }

  lemma PacketTotals(s: State, ids: set<u32>, u: u32)
    requires Inv(s, ids)
    ensures var n := |s.cpus|;
            Pkts(s.counted, u, n) + Pkts(s.lost, u, n) + PktsInFlight(s.cpus, u) == Pkts(s.metered, u, n)
  {
    var n := |s.cpus|;
    var counted := seq(n, c requires 0 <= c => On(s.counted, u, c).pkts);
    var lost := seq(n, c requires 0 <= c => On(s.lost, u, c).pkts);
    var flight := seq(n, c requires 0 <= c < n => InFlight(s.cpus[c], u).pkts);
    var both := seq(n, c requires 0 <= c < n => lost[c] + flight[c]);
    var metered := seq(n, c requires 0 <= c => On(s.metered, u, c).pkts);
    forall c: nat | c < n
      ensures counted[c] + both[c] == metered[c]
    {
      assert CpuBooks(s, u, c);
    }
    SumAdds(lost, flight, both);
    SumAdds(counted, both, metered);
  }

  lemma PacketReport(s: State, ids: set<u32>, u: u32)
    requires s.cpus != [] && Inv(s, ids) && Pkts(s.counted, u, |s.cpus|) < U64_LIMIT
    ensures ReportedPkts(s.counters, u) == Pkts(s.counted, u, |s.cpus|)
  {
    var n := |s.cpus|;
    var counted := seq(n, c requires 0 <= c => On(s.counted, u, c).pkts);
    forall c: nat | c < n
      ensures if u in s.counters then |s.counters[u]| == n && s.counters[u][c].pkts == counted[c]
              else counted[c] == 0
    {
      assert CpuBooks(s, u, c) && Stored(s, u, c);
      TermAtMostSum(counted, c);
    }
    if u in s.counters {
      assert CpuBooks(s, u, 0) && Stored(s, u, 0);
      assert seq(n, c requires 0 <= c < n => s.counters[u][c].pkts) == counted;
    } else {
      AllZero(counted);
    }
  }

  lemma PktsEntered(l: Ledger, urr: u32, cpu: nat, len: u32, u: u32, n: nat)
    requires cpu < n
    ensures Pkts(Entered(l, urr, cpu, len), u, n) == Pkts(l, u, n) + (if urr == u then 1 else 0)
  {
    var l' := Entered(l, urr, cpu, len);
    var xs := seq(n, c requires 0 <= c => On(l, u, c).pkts);
    var ys := seq(n, c requires 0 <= c => On(l', u, c).pkts);
    assert ys == xs[cpu := ys[cpu]];
    SumUpdated(xs, cpu, ys[cpu]);
  }

  /** The packets and the bytes a run sends to a URR. */
  function Sent(steps: seq<Step>, u: u32): (nat, nat) {
    if steps == [] then (0, 0)
    else
      var rest := Sent(steps[1..], u);
      if steps[0].Lookup? && steps[0].urr == u then (rest.0 + 1, rest.1 + steps[0].len) else rest
  }

  lemma StepMeters(s: State, step: Step, u: u32)
    requires Enabled(s, step) && u != 0
    ensures var s', n, own := Next(s, step), |s.cpus|, step.Lookup? && step.urr == u;
            && |s'.cpus| == n && Pkts(s'.metered, u, n) == Pkts(s.metered, u, n) + (if own then 1 else 0)
            && Bytes(s'.metered, u, n) == Bytes(s.metered, u, n) + (if own then step.len else 0)
  {
    if step.Lookup? && step.urr != 0 {
      PktsEntered(s.metered, step.urr, step.cpu, step.len, u, |s.cpus|);
    }
    StepMovesTotals(s, step, u);
  }

  /** What is metered is what was sent. */
  lemma {:induction false} RunMeters(s: State, steps: seq<Step>, u: u32)
    requires Legal(s, steps) && u != 0
    ensures var s', n := Exec(s, steps), |s.cpus|;
            && |s'.cpus| == n && Pkts(s'.metered, u, n) == Pkts(s.metered, u, n) + Sent(steps, u).0
            && Bytes(s'.metered, u, n) == Bytes(s.metered, u, n) + Sent(steps, u).1
    decreases |steps|
  {
    if steps != [] {
      StepMeters(s, steps[0], u);
      RunMeters(Next(s, steps[0]), steps[1..], u);
    }
  }

  /**
   * Conservation of packets and of bytes: in every state N CPUs can reach with at most MAX_URRS ids, what read_urr
   * reports, what was lost and what is in flight add up to what the run sent to the URR.
   */
  lemma SentIsAccountedFor(n: nat, steps: seq<Step>, ids: set<u32>, u: u32)
    requires n > 0 && u != 0 && Legal(Init(n), steps) && |ids| <= MAX_URRS && Uses(steps, ids)
    requires Sent(steps, u).0 < U64_LIMIT && Sent(steps, u).1 < U64_LIMIT
    ensures var s := Exec(Init(n), steps);
            && ReportedPkts(s.counters, u) + Pkts(s.lost, u, n) + PktsInFlight(s.cpus, u) == Sent(steps, u).0
            && Reported(s.counters, u) + Bytes(s.lost, u, n) + BytesInFlight(s.cpus, u) == Sent(steps, u).1
  {
    var s := Exec(Init(n), steps);
    InitInv(n, ids);
    RunKeepsInv(Init(n), steps, ids);
    RunMeters(Init(n), steps, u);
    NothingMetered(n, u);
    AllZero(seq(n, c requires 0 <= c => On(Init(n).metered, u, c).pkts));
    PacketTotals(s, ids, u);
    PacketReport(s, ids, u);
    BooksBalance(s, ids, u);
  }
}
