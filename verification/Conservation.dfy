/**
 * The uplink pipeline under arbitrary control-plane writes: packets of both hooks on any CPUs, every map lookup a
 * step of its own, and what the per-stage counters must add up to.
 */
module Conservation {
  import opened Frames
  import opened Datapath
  import opened Metrics

  datatype State = State(maps: Maps, pkts: seq<Packet>, metrics: PerCpu)

  /** A frame reaches the XDP hook; packet i takes its next step; the control plane leaves the maps as `maps`. */
  datatype Step = Arrive(cpu: nat, f: Frame) | Go(cpu: nat, i: nat, env: Env) | Write(maps: Maps)

  function Init(maps: Maps, cpus: nat): State {
    State(maps, [], seq(cpus, _ => map[]))
  }

  predicate Enabled(s: State, step: Step) {
    match step
    case Arrive(cpu, _) => cpu < |s.metrics|
    case Go(cpu, i, _) =>
      cpu < |s.metrics| && i < |s.pkts| && !s.pkts[i].stage.Done? && XdpParse(s.pkts[i].frame).XdpGpdu?
    case Write(_) => true
  }

  function Next(s: State, step: Step): State
    requires Enabled(s, step)
  {
    match step
    case Arrive(cpu, f) =>
      var x := XdpParse(f);
      State(s.maps, if x.XdpGpdu? then s.pkts + [Packet(f, XdpSession)] else s.pkts,
            BumpAll(s.metrics, cpu, ParseBumps(x)))
    case Go(cpu, i, env) =>
      var mv := Advance(s.maps, s.pkts[i], env);
      State(s.maps, s.pkts[i := s.pkts[i].(stage := mv.stage)], BumpAll(s.metrics, cpu, mv.bumps))
    case Write(maps) => s.(maps := maps)
  }

  predicate Legal(s: State, steps: seq<Step>)
    decreases |steps|
  {
    steps == [] || (Enabled(s, steps[0]) && Legal(Next(s, steps[0]), steps[1..]))
  }

  function Exec(s: State, steps: seq<Step>): State
    requires Legal(s, steps)
    decreases |steps|
  {
    if steps == [] then s else Exec(Next(s, steps[0]), steps[1..])
  }

  /** How often a G-PDU that has come this far has bumped a counter. */
  function Share(st: Stage, m: Metric): nat {
    match m
    case RxGpdu => 1
    case Hit => if st.XdpSession? || st.XdpPdr? || (st.Done? && (st.o.NoTeid? || st.o.NoPdr?)) then 0 else 1
    case MissTeid => if st.Done? && st.o.NoTeid? then 1 else 0
    case MissPdr => if st.Done? && st.o.NoPdr? then 1 else 0
    case MissFar => if st.Done? && (st.o.NoSession? || st.o.NoBundle? || st.o.NoFar?) then 1 else 0
    case FarDrop => if st.Done? && st.o.Dropped? then 1 else 0
    case FarBuffer => if st.Done? && st.o.Buffered? then 1 else 0
    case DecapErr => if st.Done? && st.o.DecapFailed? then 1 else 0
    case QerDrop => if st.Done? && st.o.Policed? then 1 else 0
    case QerPass => if st.TcRedirect? || (st.Done? && st.o.Forwarded?) then 1 else 0
    case FarForward => if st.Done? && st.o.Forwarded? then 1 else 0
    case RedirectErr => if st.Done? && st.o.Forwarded? && !st.o.redirected then 1 else 0
    case _ => 0
  }

  /** The counters that only G-PDUs bump. */
  predicate PerPacket(m: Metric) {
    !m.RxTotal? && !m.RxGtpu? && !m.PassNonGtp? && !m.PassCtrl? && !m.DropParse?
  }

  function Shares(pkts: seq<Packet>, m: Metric): nat {
    if pkts == [] then 0 else Shares(pkts[..|pkts| - 1], m) + Share(pkts[|pkts| - 1].stage, m)
  }

  /** Packets between the two hooks or inside the TC hook, with no verdict yet on their way to the bucket. */
  predicate Undecided(st: Stage) {
    st.BetweenHooks? || st.TcBundleLookup? || st.TcFarLookup? || st.TcDecap? || st.TcFarAgain? || st.TcPolice?
  }

  /** Admitted by the bucket, not yet forwarded. */
  predicate Admitted(st: Stage) {
    st.TcRedirect?
  }

  /** Recognised as a G-PDU, not yet classified. */
  predicate InXdp(st: Stage) {
    st.XdpSession? || st.XdpPdr?
  }

  function InFlight(pkts: seq<Packet>, p: Stage -> bool): nat {
    if pkts == [] then 0
    else InFlight(pkts[..|pkts| - 1], p) + if p(pkts[|pkts| - 1].stage) then 1 else 0
  }

  /** Every packet the XDP hook passes to the TC hook is accounted for there. */
  predicate HitBalance(s: State) {
    Total(s.metrics, Hit)
    == Total(s.metrics, MissFar) + Total(s.metrics, FarDrop) + Total(s.metrics, FarBuffer)
       + Total(s.metrics, DecapErr) + Total(s.metrics, QerDrop) + Total(s.metrics, QerPass)
       + InFlight(s.pkts, Undecided)
  }

  /** Every packet the bucket admits is forwarded, with or without a redirect error. */
  predicate PassBalance(s: State) {
    && Total(s.metrics, QerPass) == Total(s.metrics, FarForward) + InFlight(s.pkts, Admitted)
    && Total(s.metrics, RedirectErr) <= Total(s.metrics, FarForward)
  }

  /** Every G-PDU is a hit or one of two misses. */
  predicate GpduBalance(s: State) {
    Total(s.metrics, RxGpdu)
    == Total(s.metrics, Hit) + Total(s.metrics, MissTeid) + Total(s.metrics, MissPdr) + InFlight(s.pkts, InXdp)
  }

  ghost predicate Inv(s: State) {
    && (forall i :: 0 <= i < |s.pkts| ==> XdpParse(s.pkts[i].frame).XdpGpdu? && s.pkts[i].stage != Done(NotOurs))
    && (forall m :: PerPacket(m) ==> Total(s.metrics, m) == Shares(s.pkts, m))
  }
}

/** The counter identities, in every reachable state. */
module ConservationLaws {
  import opened Words
  import opened Sums
  import opened Frames
  import opened Datapath
  import opened Metrics
  import opened Conservation

  lemma OneTime(a: Metric, m: Metric)
    ensures Times([a], m) == if a == m then 1 else 0
  {
    assert [a][1..] == [];
  }

  lemma XdpBumpsShare(maps: Maps, teid: u32, st: Stage, m: Metric)
    requires (st.XdpSession? || st.XdpPdr?) && PerPacket(m)
    ensures var mv := XdpMove(maps, teid, st);
            mv.stage != Done(NotOurs) && Share(mv.stage, m) == Share(st, m) + Times(mv.bumps, m)
  {
    OneTime(MissTeid, m);
    OneTime(MissPdr, m);
    OneTime(Hit, m);
  }

  lemma LookupBumpsShare(maps: Maps, g: Option<TcGpdu>, st: Stage, env: Env, m: Metric)
    requires (st.BetweenHooks? || st.TcBundleLookup?) && g.Some? && PerPacket(m)
    ensures var mv := TcMove(maps, g, st, env);
            mv.stage != Done(NotOurs) && Share(mv.stage, m) == Share(st, m) + Times(mv.bumps, m)
  {
    OneTime(MissFar, m);
    var mv := TcMove(maps, g, st, env);
    assert mv.stage.TcBundleLookup? || mv.stage.TcFarLookup?
        || (mv.stage.Done? && (mv.stage.o.NoSession? || mv.stage.o.NoBundle?));
  }

  lemma FarBumpsShare(maps: Maps, g: Option<TcGpdu>, st: Stage, env: Env, m: Metric)
    requires st.TcFarLookup? && PerPacket(m)
    ensures var mv := TcMove(maps, g, st, env);
            mv.stage != Done(NotOurs) && Share(mv.stage, m) == Share(st, m) + Times(mv.bumps, m)
  {
    OneTime(MissFar, m);
    OneTime(FarDrop, m);
    OneTime(FarBuffer, m);
  }

  lemma DecapBumpsShare(maps: Maps, g: Option<TcGpdu>, st: Stage, env: Env, m: Metric)
    requires (st.TcDecap? || st.TcFarAgain?) && PerPacket(m)
    ensures var mv := TcMove(maps, g, st, env);
            mv.stage != Done(NotOurs) && Share(mv.stage, m) == Share(st, m) + Times(mv.bumps, m)
  {
    OneTime(DecapErr, m);
  }

  lemma PoliceBumpsShare(maps: Maps, g: Option<TcGpdu>, st: Stage, env: Env, m: Metric)
    requires st.TcPolice? && PerPacket(m)
    ensures var mv := TcMove(maps, g, st, env);
            mv.stage != Done(NotOurs) && Share(mv.stage, m) == Share(st, m) + Times(mv.bumps, m)
  {
    OneTime(if env.admit then QerPass else QerDrop, m);
  }

  lemma TimesOfTwo(a: Metric, b: Metric, m: Metric)
    ensures Times([a], m) == (if a == m then 1 else 0)
    ensures Times([a] + [b], m) == (if a == m then 1 else 0) + (if b == m then 1 else 0)
  {
    assert ([a] + [b])[1..] == [b] && [b][1..] == [];
  }

  lemma RedirectBumpsShare(maps: Maps, g: Option<TcGpdu>, st: Stage, env: Env, m: Metric)
    requires st.TcRedirect? && PerPacket(m)
    ensures var mv := TcMove(maps, g, st, env);
            mv.stage != Done(NotOurs) && Share(mv.stage, m) == Share(st, m) + Times(mv.bumps, m)
  {
    if env.redirectOk {
      assert [FarForward] + [] == [FarForward];
      OneTime(FarForward, m);
    } else {
      TimesOfTwo(FarForward, RedirectErr, m);
    }
  }

  lemma TcBumpsShare(maps: Maps, g: Option<TcGpdu>, st: Stage, env: Env, m: Metric)
    requires !st.XdpSession? && !st.XdpPdr? && !st.Done? && g.Some? && PerPacket(m)
    ensures var mv := TcMove(maps, g, st, env);
            mv.stage != Done(NotOurs) && Share(mv.stage, m) == Share(st, m) + Times(mv.bumps, m)
  {
    if st.BetweenHooks? || st.TcBundleLookup? {
      LookupBumpsShare(maps, g, st, env, m);
    } else if st.TcFarLookup? {
      FarBumpsShare(maps, g, st, env, m);
    } else if st.TcDecap? || st.TcFarAgain? {
      DecapBumpsShare(maps, g, st, env, m);
    } else if st.TcPolice? {
      PoliceBumpsShare(maps, g, st, env, m);
    } else {
      RedirectBumpsShare(maps, g, st, env, m);
    }
  }

  /** A step bumps exactly the counters that the packet's new stage has and its old stage had not. */
  lemma AdvanceBumpsShare(maps: Maps, p: Packet, env: Env, m: Metric)
    requires !p.stage.Done? && XdpParse(p.frame).XdpGpdu? && PerPacket(m)
    ensures var mv := Advance(maps, p, env);
            && mv.stage != Done(NotOurs)
            && Share(mv.stage, m) == Share(p.stage, m) + Times(mv.bumps, m)
  {
    ParsersAgree(p.frame, XdpParse(p.frame).teid);
    if p.stage.XdpSession? || p.stage.XdpPdr? {
      XdpBumpsShare(maps, XdpParse(p.frame).teid, p.stage, m);
    } else {
      TcBumpsShare(maps, TcParse(p.frame), p.stage, env, m);
    }
  }

  lemma {:induction false} SharesUpdated(pkts: seq<Packet>, i: nat, p: Packet, m: Metric)
    requires i < |pkts|
    ensures Shares(pkts[i := p], m) == Shares(pkts, m) - Share(pkts[i].stage, m) + Share(p.stage, m)
  {
    var last := |pkts| - 1;
    if i == last {
      assert pkts[i := p][..last] == pkts[..last];
    } else {
      assert pkts[i := p][..last] == pkts[..last][i := p];
      SharesUpdated(pkts[..last], i, p, m);
    }
  }

  lemma ThreeTimes(a: Metric, b: Metric, c: Metric, m: Metric)
    ensures Times([a, b, c], m) == (if a == m then 1 else 0) + (if b == m then 1 else 0) + (if c == m then 1 else 0)
  {
    assert [a, b, c][1..] == [b] + [c];
    TimesOfTwo(b, c, m);
  }

  lemma ParsingBumps(x: XdpParsed, m: Metric)
    requires PerPacket(m)
    ensures Times(ParseBumps(x), m) == if x.XdpGpdu? && m.RxGpdu? then 1 else 0
  {
    var bs := ParseBumps(x);
    assert forall i :: 0 <= i < |bs| ==> bs[i] == RxGpdu || !PerPacket(bs[i]);
    match x
    case XdpGpdu(_) => assert bs == [RxTotal, RxGtpu, RxGpdu]; ThreeTimes(RxTotal, RxGtpu, RxGpdu, m);
    case Control => assert bs == [RxTotal, RxGtpu, PassCtrl]; ThreeTimes(RxTotal, RxGtpu, PassCtrl, m);
    case NonGtp => assert bs == [RxTotal] + [PassNonGtp]; TimesOfTwo(RxTotal, PassNonGtp, m);
    case QuietPass => assert bs == [RxTotal]; TimesOfTwo(RxTotal, RxTotal, m);
    case ParseDrop(gtpu) =>
      if gtpu {
        assert bs == [RxTotal, RxGtpu, DropParse];
        ThreeTimes(RxTotal, RxGtpu, DropParse, m);
      } else {
        assert bs == [RxTotal] + [DropParse];
        TimesOfTwo(RxTotal, DropParse, m);
      }
  }

  lemma ArriveKeepsTotal(s: State, cpu: nat, f: Frame, m: Metric)
    requires cpu < |s.metrics| && PerPacket(m) && Total(s.metrics, m) == Shares(s.pkts, m)
    ensures var s' := Next(s, Arrive(cpu, f)); Total(s'.metrics, m) == Shares(s'.pkts, m)
  {
    var x := XdpParse(f);
    BumpsMoveTotals(s.metrics, cpu, ParseBumps(x), m);
    ParsingBumps(x, m);
    assert (s.pkts + [Packet(f, XdpSession)])[..|s.pkts|] == s.pkts;
  }

  lemma GoKeepsTotal(s: State, cpu: nat, i: nat, env: Env, m: Metric)
    requires Enabled(s, Go(cpu, i, env)) && PerPacket(m) && Total(s.metrics, m) == Shares(s.pkts, m)
    ensures var s' := Next(s, Go(cpu, i, env)); Total(s'.metrics, m) == Shares(s'.pkts, m)
  {
    var mv := Advance(s.maps, s.pkts[i], env);
    AdvanceBumpsShare(s.maps, s.pkts[i], env, m);
    BumpsMoveTotals(s.metrics, cpu, mv.bumps, m);
    SharesUpdated(s.pkts, i, s.pkts[i].(stage := mv.stage), m);
  }

  lemma StepKeepsTotal(s: State, step: Step, m: Metric)
    requires Inv(s) && Enabled(s, step) && PerPacket(m)
    ensures Total(Next(s, step).metrics, m) == Shares(Next(s, step).pkts, m)
  {
    match step
    case Arrive(cpu, f) => ArriveKeepsTotal(s, cpu, f, m);
    case Go(cpu, i, env) => GoKeepsTotal(s, cpu, i, env, m);
    case Write(_) =>
  }

  lemma StepKeepsInv(s: State, step: Step)
    requires Inv(s) && Enabled(s, step)
    ensures Inv(Next(s, step))
  {
    forall m | PerPacket(m)
      ensures Total(Next(s, step).metrics, m) == Shares(Next(s, step).pkts, m)
    {
      StepKeepsTotal(s, step, m);
    }
    if step.Go? {
      AdvanceBumpsShare(s.maps, s.pkts[step.i], step.env, RxGpdu);
    }
  }

  lemma {:induction false} RunKeepsInv(s: State, steps: seq<Step>)
    requires Inv(s) && Legal(s, steps)
    ensures Inv(Exec(s, steps))
    decreases |steps|
  {
    if steps != [] {
      StepKeepsInv(s, steps[0]);
      RunKeepsInv(Next(s, steps[0]), steps[1..]);
    }
  }

  lemma NothingCounted(cpus: nat, m: Metric)
    ensures Total(seq(cpus, _ => map[]), m) == 0
  {
    var c: PerCpu := seq(cpus, _ => map[]);
    AllZero(seq(|c|, i requires 0 <= i < |c| => Of(c[i], m)));
  }

  lemma InitInv(maps: Maps, cpus: nat)
    ensures Inv(Init(maps, cpus))
  {
    forall m | PerPacket(m)
      ensures Total(Init(maps, cpus).metrics, m) == 0
    {
      NothingCounted(cpus, m);
    }
  }

  ghost predicate Balances(o: Outcome) {
    var st := Done(o);
    && Share(st, Hit) == Share(st, MissFar) + Share(st, FarDrop) + Share(st, FarBuffer) + Share(st, DecapErr)
                         + Share(st, QerDrop) + Share(st, QerPass)
    && 1 == Share(st, Hit) + Share(st, MissTeid) + Share(st, MissPdr)
  }

  lemma XdpMissBalances(o: Outcome)
    requires o.NoTeid? || o.NoPdr?
    ensures Balances(o)
  {
  }

  lemma TcMissBalances(o: Outcome)
    requires o.NoSession? || o.NoBundle? || o.NoFar?
    ensures Balances(o)
  {
  }

  lemma FarEndBalances(o: Outcome)
    requires o.Dropped? || o.Buffered?
    ensures Balances(o)
  {
  }

  lemma LateDropBalances(o: Outcome)
    requires o.DecapFailed? || o.Policed?
    ensures Balances(o)
  {
  }

  lemma ForwardedBalances(o: Outcome)
    requires o.Forwarded?
    ensures Balances(o)
  {
  }

  lemma OutcomeBalance(o: Outcome)
    requires !o.NotOurs?
    ensures Balances(o)
  {
    if o.Forwarded? {
      ForwardedBalances(o);
    } else if o.Dropped? || o.Buffered? {
      FarEndBalances(o);
    } else if o.DecapFailed? || o.Policed? {
      LateDropBalances(o);
    } else if o.NoTeid? || o.NoPdr? {
      XdpMissBalances(o);
    } else {
      TcMissBalances(o);
    }
  }

  /** One packet's balance. */
  lemma StageBalance(st: Stage)
    requires st != Done(NotOurs)
    ensures Share(st, Hit)
            == Share(st, MissFar) + Share(st, FarDrop) + Share(st, FarBuffer) + Share(st, DecapErr)
               + Share(st, QerDrop) + Share(st, QerPass) + (if Undecided(st) then 1 else 0)
    ensures Share(st, QerPass) == Share(st, FarForward) + (if Admitted(st) then 1 else 0)
    ensures Share(st, RxGpdu)
            == Share(st, Hit) + Share(st, MissTeid) + Share(st, MissPdr) + (if InXdp(st) then 1 else 0)
    ensures Share(st, RedirectErr) <= Share(st, FarForward)
  {
    if st.Done? {
      OutcomeBalance(st.o);
    }
  }

  /** The per-packet balance, summed. */
  lemma {:induction false} SharesBalance(pkts: seq<Packet>)
    requires forall i :: 0 <= i < |pkts| ==> pkts[i].stage != Done(NotOurs)
    ensures Shares(pkts, Hit)
            == Shares(pkts, MissFar) + Shares(pkts, FarDrop) + Shares(pkts, FarBuffer) + Shares(pkts, DecapErr)
               + Shares(pkts, QerDrop) + Shares(pkts, QerPass) + InFlight(pkts, Undecided)
    ensures Shares(pkts, QerPass) == Shares(pkts, FarForward) + InFlight(pkts, Admitted)
    ensures Shares(pkts, RxGpdu)
            == Shares(pkts, Hit) + Shares(pkts, MissTeid) + Shares(pkts, MissPdr)
               + InFlight(pkts, InXdp)
    ensures Shares(pkts, RedirectErr) <= Shares(pkts, FarForward)
  {
    if pkts != [] {
      SharesBalance(pkts[..|pkts| - 1]);
      StageBalance(pkts[|pkts| - 1].stage);
    }
  }

  lemma TotalIsShares(s: State, m: Metric)
    requires Inv(s) && PerPacket(m)
    ensures Total(s.metrics, m) == Shares(s.pkts, m)
  {
  }

  lemma InvBalancesHits(s: State)
    requires Inv(s)
    ensures HitBalance(s)
  {
    SharesBalance(s.pkts);
    TotalIsShares(s, Hit);
    TotalIsShares(s, MissFar);
    TotalIsShares(s, FarDrop);
    TotalIsShares(s, FarBuffer);
    TotalIsShares(s, DecapErr);
    TotalIsShares(s, QerDrop);
    TotalIsShares(s, QerPass);
  }

  lemma InvBalancesPasses(s: State)
    requires Inv(s)
    ensures PassBalance(s)
  {
    SharesBalance(s.pkts);
    TotalIsShares(s, QerPass);
    TotalIsShares(s, FarForward);
    TotalIsShares(s, RedirectErr);
  }

  lemma InvBalancesGpdus(s: State)
    requires Inv(s)
    ensures GpduBalance(s)
  {
    SharesBalance(s.pkts);
    TotalIsShares(s, RxGpdu);
    TotalIsShares(s, Hit);
    TotalIsShares(s, MissTeid);
    TotalIsShares(s, MissPdr);
  }

  /**
   * Cross-hook conservation, in every state reachable by any interleaving of frames, hook steps and arbitrary
   * control-plane writes, with the totals taken over all CPUs.
   */
  lemma CountersBalance(maps: Maps, cpus: nat, steps: seq<Step>)
    requires Legal(Init(maps, cpus), steps)
    ensures var s := Exec(Init(maps, cpus), steps); HitBalance(s) && PassBalance(s) && GpduBalance(s)
  {
    InitInv(maps, cpus);
    RunKeepsInv(Init(maps, cpus), steps);
    var s := Exec(Init(maps, cpus), steps);
    InvBalancesHits(s);
    InvBalancesPasses(s);
    InvBalancesGpdus(s);
  }
}
