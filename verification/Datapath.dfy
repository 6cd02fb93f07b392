/**
 * The maps the two ingress hooks read and the way one packet goes through them, one map lookup at a time
 * (bpf/upf_xdp.c:85-105, bpf/upf_tc.c:164-219 and 266-321).
 */
module Datapath {
  import opened Words
  import opened TcBundle
  import opened Frames

  const FAR_DROP: nat := 0
  const FAR_BUFFER: nat := 2

  datatype Session = Session(pdr: u32, qer: u32, far: u32)
  datatype Pdr = Pdr(far: u32, qer: u32, prec: u32, urr: u32)
  datatype Far = Far(action: u32, ifindex: u32)

  /** teid_session, pdr_table, tc_bundle_map and far_table (an array map). */
  datatype Maps = Maps(sess: map<u32, Session>, pdr: map<u32, Pdr>, bundle: map<u32, seq<byte>>, far: seq<Far>)

  /** enum metric_idx: the stages of the uplink path. */
  datatype Metric = RxTotal | RxGtpu | RxGpdu | Hit | MissTeid | MissPdr | PassNonGtp | PassCtrl | DropParse
                  | MissFar | FarDrop | FarForward | FarBuffer | DecapErr | RedirectErr | QerPass | QerDrop

  datatype Outcome = NoTeid | NoPdr | NotOurs | NoSession | NoBundle | NoFar | Dropped | Buffered | DecapFailed
                   | Policed | Forwarded(redirected: bool)

  /** Where a G-PDU is. Every stage but Done is followed by one more step of the hook that runs it. */
  datatype Stage = XdpSession | XdpPdr(pdr: u32) | BetweenHooks
                 | TcBundleLookup(pdr: u32) | TcFarLookup(t: Tuple) | TcDecap(t: Tuple) | TcFarAgain(t: Tuple)
                 | TcPolice(t: Tuple) | TcRedirect(t: Tuple) | Done(o: Outcome)

  datatype Packet = Packet(frame: Frame, stage: Stage)

  /** What the packet meets besides the maps: the room adjustment, the bucket's answer and the redirect's result. */
  datatype Env = Env(roomOk: bool, admit: bool, redirectOk: bool)

  /** Counters the XDP hook bumps while parsing. */
  function ParseBumps(x: XdpParsed): seq<Metric> {
    [RxTotal] + match x
                case ParseDrop(gtpu) => (if gtpu then [RxGtpu] else []) + [DropParse]
                case QuietPass => []
                case NonGtp => [PassNonGtp]
                case Control => [RxGtpu, PassCtrl]
                case XdpGpdu(_) => [RxGtpu, RxGpdu]
  }

  /** One step: the stage it leads to and the counter it bumps on the way. */
  datatype Move = Move(stage: Stage, bumps: seq<Metric>)

  function XdpMove(m: Maps, teid: u32, st: Stage): Move
    requires st.XdpSession? || st.XdpPdr?
  {
    match st
    case XdpSession =>
      if teid in m.sess then Move(XdpPdr(m.sess[teid].pdr), []) else Move(Done(NoTeid), [MissTeid])
    case XdpPdr(p) =>
      if p in m.pdr then Move(BetweenHooks, [Hit]) else Move(Done(NoPdr), [MissPdr])
  }

  function TcMove(m: Maps, g: Option<TcGpdu>, st: Stage, env: Env): Move
    requires !st.XdpSession? && !st.XdpPdr? && !st.Done?
  {
    match st
    case BetweenHooks =>
      if g.None? then Move(Done(NotOurs), [])
      else if g.value.teid in m.sess then Move(TcBundleLookup(m.sess[g.value.teid].pdr), [])
      else Move(Done(NoSession), [MissFar])
    case TcBundleLookup(p) =>
      // the whole value is read at once; what follows uses the slot it names
      if p in m.bundle && IsBundle(m.bundle[p]) then Move(TcFarLookup(Live(m.bundle[p])), [])
      else Move(Done(NoBundle), [MissFar])
    case TcFarLookup(t) =>
      if t.far >= |m.far| then Move(Done(NoFar), [MissFar])
      else if m.far[t.far].action == FAR_DROP then Move(Done(Dropped), [FarDrop])
      else if m.far[t.far].action == FAR_BUFFER then Move(Done(Buffered), [FarBuffer])
      else Move(TcDecap(t), [])
    case TcDecap(t) =>
      if env.roomOk then Move(TcFarAgain(t), []) else Move(Done(DecapFailed), [DecapErr])
    case TcFarAgain(t) =>
      if t.far < |m.far| then Move(TcPolice(t), []) else Move(Done(DecapFailed), [DecapErr])
    case TcPolice(t) =>
      if env.admit then Move(TcRedirect(t), [QerPass]) else Move(Done(Policed), [QerDrop])
    case TcRedirect(t) =>
      Move(Done(Forwarded(env.redirectOk)), [FarForward] + if env.redirectOk then [] else [RedirectErr])
  }

  function Advance(m: Maps, p: Packet, env: Env): Move
    requires !p.stage.Done? && XdpParse(p.frame).XdpGpdu?
  {
    if p.stage.XdpSession? || p.stage.XdpPdr? then XdpMove(m, XdpParse(p.frame).teid, p.stage)
    else TcMove(m, TcParse(p.frame), p.stage, env)
  }
}

/** The per-CPU counters of the metrics map and their totals (bpf/upf_maps.h:309-333, loader/agent.py:237-250). */
module Metrics {
  import opened Words
  import opened Sums
  import opened Datapath

  type PerCpu = seq<map<Metric, nat>>

  function Of(c: map<Metric, nat>, m: Metric): nat {
    if m in c then c[m] else 0
  }

  function Bump(c: PerCpu, cpu: nat, m: Metric): (c': PerCpu)
    requires cpu < |c|
    ensures |c'| == |c|
  {
    var counted: map<Metric, nat> := c[cpu] + map[m := Of(c[cpu], m) + 1];
    c[cpu := counted]
  }

  function BumpAll(c: PerCpu, cpu: nat, ms: seq<Metric>): (c': PerCpu)
    requires cpu < |c|
    ensures |c'| == |c|
    decreases |ms|
  {
    if ms == [] then c else BumpAll(Bump(c, cpu, ms[0]), cpu, ms[1..])
  }

  /** What read_metrics reports. */
  function Total(c: PerCpu, m: Metric): nat {
    Sum(seq(|c|, i requires 0 <= i < |c| => Of(c[i], m)))
  }

  function Times(ms: seq<Metric>, m: Metric): nat {
    if ms == [] then 0 else (if ms[0] == m then 1 else 0) + Times(ms[1..], m)
  }

  lemma OneCounter(c: map<Metric, nat>, b: Metric, m: Metric)
    ensures Of(c + map[b := Of(c, b) + 1], m) == Of(c, m) + (if b == m then 1 else 0)
  {
  }

  lemma BumpMovesTotal(c: PerCpu, cpu: nat, b: Metric, m: Metric)
    requires cpu < |c|
    ensures Total(Bump(c, cpu, b), m) == Total(c, m) + (if b == m then 1 else 0)
  {
    var c' := Bump(c, cpu, b);
    var xs: seq<nat> := seq(|c|, i requires 0 <= i < |c| => Of(c[i], m));
    var ys: seq<nat> := seq(|c|, i requires 0 <= i < |c| => Of(c'[i], m));
    OneCounter(c[cpu], b, m);
    assert c'[cpu] == c[cpu] + map[b := Of(c[cpu], b) + 1];
    forall i | 0 <= i < |c|
      ensures ys[i] == xs[cpu := ys[cpu]][i]
    {
    }
    SumUpdated(xs, cpu, ys[cpu]);
    assert ys == xs[cpu := ys[cpu]];
  }

  /** A hook's bumps add up in the totals, whatever CPU it ran on. */
  lemma {:induction false} BumpsMoveTotals(c: PerCpu, cpu: nat, ms: seq<Metric>, m: Metric)
    requires cpu < |c|
    ensures Total(BumpAll(c, cpu, ms), m) == Total(c, m) + Times(ms, m)
    decreases |ms|
  {
    if ms != [] {
      BumpMovesTotal(c, cpu, ms[0], m);
      BumpsMoveTotals(Bump(c, cpu, ms[0]), cpu, ms[1..], m);
    }
  }

  // ---- The counters are 64 bits wide ----

  /** __sync_fetch_and_add on a u64. */
  function Bump64(c: PerCpu, cpu: nat, m: Metric): (c': PerCpu)
    requires cpu < |c|
    ensures |c'| == |c|
  {
    var counted: map<Metric, nat> := c[cpu] + map[m := (Of(c[cpu], m) + 1) % U64_LIMIT];
    c[cpu := counted]
  }

  function BumpAll64(c: PerCpu, cpu: nat, ms: seq<Metric>): (c': PerCpu)
    requires cpu < |c|
    ensures |c'| == |c|
    decreases |ms|
  {
    if ms == [] then c else BumpAll64(Bump64(c, cpu, ms[0]), cpu, ms[1..])
  }

  /** What the map stores for exact counts. */
  ghost predicate Stores(stored: PerCpu, exact: PerCpu) {
    |stored| == |exact| && forall i: nat, m: Metric :: i < |exact| ==> Of(stored[i], m) == Of(exact[i], m) % U64_LIMIT
  }

  lemma StoresOne(s: map<Metric, nat>, e: map<Metric, nat>, b: Metric, m: Metric)
    requires Of(s, b) == Of(e, b) % U64_LIMIT && Of(s, m) == Of(e, m) % U64_LIMIT
    ensures Of(s + map[b := (Of(s, b) + 1) % U64_LIMIT], m) == Of(e + map[b := Of(e, b) + 1], m) % U64_LIMIT
  {
  }

  lemma BumpStores(stored: PerCpu, exact: PerCpu, cpu: nat, b: Metric)
    requires cpu < |exact| && Stores(stored, exact)
    ensures Stores(Bump64(stored, cpu, b), Bump(exact, cpu, b))
  {
    var s', e' := Bump64(stored, cpu, b), Bump(exact, cpu, b);
    forall i: nat, m: Metric | i < |exact|
      ensures Of(s'[i], m) == Of(e'[i], m) % U64_LIMIT
    {
      assert Of(stored[i], m) == Of(exact[i], m) % U64_LIMIT;
      assert Of(stored[i], b) == Of(exact[i], b) % U64_LIMIT;
      StoresOne(stored[i], exact[i], b, m);
    }
  }

  /** The stored counters stay the exact counts modulo 2^64, whatever is bumped wherever. */
  lemma {:induction false} BumpsStore(stored: PerCpu, exact: PerCpu, cpu: nat, ms: seq<Metric>)
    requires cpu < |exact| && Stores(stored, exact)
    ensures Stores(BumpAll64(stored, cpu, ms), BumpAll(exact, cpu, ms))
    decreases |ms|
  {
    if ms != [] {
      BumpStores(stored, exact, cpu, ms[0]);
      BumpsStore(Bump64(stored, cpu, ms[0]), Bump(exact, cpu, ms[0]), cpu, ms[1..]);
    }
  }

  /** The report is the exact total until some CPU's counter has been bumped 2^64 times. */
  lemma ReportIsExact(stored: PerCpu, exact: PerCpu, m: Metric)
    requires Stores(stored, exact) && forall i :: 0 <= i < |exact| ==> Of(exact[i], m) < U64_LIMIT
    ensures Total(stored, m) == Total(exact, m)
  {
    var xs: seq<nat> := seq(|exact|, i requires 0 <= i < |exact| => Of(exact[i], m));
    var ys: seq<nat> := seq(|stored|, i requires 0 <= i < |stored| => Of(stored[i], m));
    forall i: nat | i < |exact|
      ensures xs[i] == ys[i]
    {
      assert Of(stored[i], m) == Of(exact[i], m) % U64_LIMIT;
    }
    assert xs == ys;
  }

  /** read_metrics, for one counter. */
  method ReadMetric(c: PerCpu, m: Metric) returns (total: nat)
    ensures total == Total(c, m)
  {
    total := 0;
    ghost var xs: seq<nat> := seq(|c|, i requires 0 <= i < |c| => Of(c[i], m));
    for i := 0 to |c|
      invariant total == Sum(xs[..i])
    {
      assert xs[..i + 1][..i] == xs[..i];
      total := total + Of(c[i], m);
    }
    assert xs[..|c|] == xs;
  }
}
