/** The uplink hooks run to completion on one packet, with no other activity in between. */
module UplinkSpec {
  import opened Words
  import opened TcBundle
  import opened Frames
  import opened FrameClasses
  import opened Datapath
  import opened Metrics
  import opened EgressHook

  /** The XDP hook's lookups after it has recognised a G-PDU. */
  function RunXdp(m: Maps, teid: u32): Move {
    var a := XdpMove(m, teid, XdpSession);
    if a.stage.Done? then a
    else var b := XdpMove(m, teid, a.stage); Move(b.stage, a.bumps + b.bumps)
  }

  /** Everything the XDP hook counts for a frame. */
  function XdpBumps(m: Maps, f: Frame): seq<Metric> {
    var x := XdpParse(f);
    ParseBumps(x) + if x.XdpGpdu? then RunXdp(m, x.teid).bumps else []
  }

  /** XDP_PASS: traffic that is not the UPF's, and G-PDUs whose TEID and PDR are installed. */
  predicate XdpPasses(m: Maps, f: Frame) {
    match XdpParse(f)
    case ParseDrop(_) => false
    case XdpGpdu(t) => t in m.sess && m.sess[t].pdr in m.pdr
    case _ => true
  }

  /** Verdict and counters of the XDP hook for frames that are not G-PDUs. */
  ghost predicate XdpOther(f: Frame, pass: bool, counted: seq<Metric>) {
    && (Truncated(f) ==> !pass && counted == [RxTotal, DropParse])
    && (Foreign(f) ==> pass && counted == [RxTotal])
    && (OtherPort(f) ==> pass && counted == [RxTotal, PassNonGtp])
    && (ShortGtp(f) ==> !pass && counted == [RxTotal, RxGtpu, DropParse])
    && (OtherMessage(f) ==> pass && counted == [RxTotal, RxGtpu, PassCtrl])
  }

  /** And for G-PDUs: both lookups must succeed. */
  ghost predicate XdpLookup(m: Maps, teid: u32, pass: bool, counted: seq<Metric>) {
    if teid !in m.sess then !pass && counted == [RxTotal, RxGtpu, RxGpdu, MissTeid]
    else if m.sess[teid].pdr !in m.pdr then !pass && counted == [RxTotal, RxGtpu, RxGpdu, MissPdr]
    else pass && counted == [RxTotal, RxGtpu, RxGpdu, Hit]
  }

  ghost predicate XdpOutcome(m: Maps, f: Frame, pass: bool, counted: seq<Metric>) {
    && XdpOther(f, pass, counted)
    && forall ihl: nat, teid: u32 :: IsGpdu(f, ihl, teid) ==> XdpLookup(m, teid, pass, counted)
  }

  lemma XdpLookups(m: Maps, f: Frame)
    requires XdpParse(f).XdpGpdu?
    ensures XdpLookup(m, XdpParse(f).teid, XdpPasses(m, f), XdpBumps(m, f))
  {
    var teid := XdpParse(f).teid;
    var a := XdpMove(m, teid, XdpSession);
    if a.stage.XdpPdr? {
      var b := XdpMove(m, teid, a.stage);
      assert [] + b.bumps == b.bumps;
    }
  }

  /** Parse, session and PDR lookup amount to these outcomes, for every frame. */
  lemma XdpRuns(m: Maps, f: Frame)
    ensures XdpOutcome(m, f, XdpPasses(m, f), XdpBumps(m, f))
  {
    XdpKinds(f);
    if XdpParse(f).XdpGpdu? {
      XdpLookups(m, f);
    } else {
      assert XdpBumps(m, f) == ParseBumps(XdpParse(f));
    }
  }

  function TcRank(st: Stage): nat {
    match st
    case BetweenHooks => 7
    case TcBundleLookup(_) => 6
    case TcFarLookup(_) => 5
    case TcDecap(_) => 4
    case TcFarAgain(_) => 3
    case TcPolice(_) => 2
    case TcRedirect(_) => 1
    case _ => 0
  }

  /** The TC hook from a stage to its outcome. */
  function RunTc(m: Maps, g: Option<TcGpdu>, st: Stage, env: Env): (mv: Move)
    requires TcRank(st) > 0
    ensures mv.stage.Done?
    decreases TcRank(st)
  {
    var a := TcMove(m, g, st, env);
    if a.stage.Done? then a
    else var b := RunTc(m, g, a.stage, env); Move(b.stage, a.bumps + b.bumps)
  }

  lemma {:induction false} BumpAllLast(c: PerCpu, cpu: nat, ms: seq<Metric>, m: Metric)
    requires cpu < |c|
    ensures BumpAll(c, cpu, ms + [m]) == Bump(BumpAll(c, cpu, ms), cpu, m)
    decreases |ms|
  {
    if ms == [] {
      assert [] + [m] == [m] && [m][1..] == [];
    } else {
      assert (ms + [m])[1..] == ms[1..] + [m];
      BumpAllLast(Bump(c, cpu, ms[0]), cpu, ms[1..], m);
    }
  }

  /** No session, no bundle of the value's size, or no FAR under the id in its live slot. */
  ghost predicate Unruled(m: Maps, teid: u32) {
    || teid !in m.sess || m.sess[teid].pdr !in m.bundle || |m.bundle[m.sess[teid].pdr]| != 56
    || Live(m.bundle[m.sess[teid].pdr]).far >= |m.far|
  }

  /** The tuple that decides on every other packet. */
  ghost function Rule(m: Maps, teid: u32): Tuple
    requires !Unruled(m, teid)
  {
    Live(m.bundle[m.sess[teid].pdr])
  }

  /** Its FAR says neither drop, which is 0, nor buffer, which is 2. */
  ghost predicate Forwards(m: Maps, teid: u32) {
    !Unruled(m, teid) && m.far[Rule(m, teid).far].action != 0 && m.far[Rule(m, teid).far].action != 2
  }

  /** The same from the room adjustment on. */
  ghost predicate ForwardOutcome(env: Env, redirect: nat, action: nat, counted: seq<Metric>) {
    if !env.roomOk then action == 2 && counted == [DecapErr]
    else if !env.admit then action == 2 && counted == [QerDrop]
    else if redirect == 7 then action == 7 && counted == [QerPass, FarForward]
    else action == redirect && counted == [QerPass, FarForward, RedirectErr]
  }

  /** Verdict and counters of the TC hook; TC_ACT_OK is 0, TC_ACT_SHOT 2 and TC_ACT_REDIRECT 7. */
  ghost predicate TcOutcome(m: Maps, g: Option<TcGpdu>, env: Env, redirect: nat, action: nat, counted: seq<Metric>) {
    if g.None? then action == 0 && counted == []
    else if Unruled(m, g.value.teid) then action == 0 && counted == [MissFar]
    else if m.far[Rule(m, g.value.teid).far].action == 0 then action == 2 && counted == [FarDrop]
    else if m.far[Rule(m, g.value.teid).far].action == 2 then action == 2 && counted == [FarBuffer]
    else ForwardOutcome(env, redirect, action, counted)
  }

  /** What the hook returns at the end of a run. */
  function Verdict(o: Outcome, redirect: nat): nat {
    match o
    case NotOurs | NoSession | NoBundle | NoFar => TC_ACT_OK
    case Forwarded(_) => redirect
    case _ => TC_ACT_SHOT
  }

  /** The steps from the far_table lookup on, for a packet to be forwarded. */
  lemma RunFromFar(m: Maps, g: Option<TcGpdu>, t: Tuple, env: Env)
    requires t.far < |m.far| && m.far[t.far].action != 0 && m.far[t.far].action != 2
    ensures RunTc(m, g, TcFarLookup(t), env)
            == if !env.roomOk then Move(Done(DecapFailed), [DecapErr])
               else if !env.admit then Move(Done(Policed), [QerDrop])
               else Move(Done(Forwarded(env.redirectOk)),
                         [QerPass, FarForward] + if env.redirectOk then [] else [RedirectErr])
  {
    var last := RunTc(m, g, TcRedirect(t), env);
    var police := RunTc(m, g, TcPolice(t), env);
    assert env.admit ==> police == Move(last.stage, [QerPass] + last.bumps);
    assert [QerPass] + ([FarForward] + if env.redirectOk then [] else [RedirectErr])
        == [QerPass, FarForward] + if env.redirectOk then [] else [RedirectErr];
    var again := RunTc(m, g, TcFarAgain(t), env);
    assert [] + police.bumps == police.bumps;
    assert again == police;
    var decap := RunTc(m, g, TcDecap(t), env);
    assert [] + again.bumps == again.bumps && [] + decap.bumps == decap.bumps;
    assert env.roomOk ==> decap == again;
  }

  /** The lookups before it leave no trace of their own. */
  lemma RunToFar(m: Maps, g: Option<TcGpdu>, env: Env)
    requires g.Some? && g.value.teid in m.sess
    ensures var p := m.sess[g.value.teid].pdr;
            RunTc(m, g, BetweenHooks, env)
            == if p in m.bundle && IsBundle(m.bundle[p]) then RunTc(m, g, TcFarLookup(Live(m.bundle[p])), env)
               else Move(Done(NoBundle), [MissFar])
  {
    var p := m.sess[g.value.teid].pdr;
    var b := RunTc(m, g, TcBundleLookup(p), env);
    assert [] + b.bumps == b.bumps;
    if p in m.bundle && IsBundle(m.bundle[p]) {
      var c := RunTc(m, g, TcFarLookup(Live(m.bundle[p])), env);
      assert [] + c.bumps == c.bumps;
    }
  }

  /** A FAR that is gone when the hook looks it up again costs the packet. */
  lemma FarVanished(m: Maps, g: Option<TcGpdu>, t: Tuple, env: Env)
    requires t.far >= |m.far|
    ensures RunTc(m, g, TcFarAgain(t), env) == Move(Done(DecapFailed), [DecapErr])
  {
  }

  /** These outcomes are exactly those of the steps of the TC hook, one after the other. */
  lemma TcRuns(m: Maps, g: Option<TcGpdu>, env: Env, redirect: nat, action: nat, counted: seq<Metric>)
    requires env.redirectOk == (redirect == 7)
    ensures var mv := RunTc(m, g, BetweenHooks, env);
            TcOutcome(m, g, env, redirect, action, counted)
            <==> action == Verdict(mv.stage.o, redirect) && counted == mv.bumps
  {
    if g.Some? && g.value.teid in m.sess {
      RunToFar(m, g, env);
      if Forwards(m, g.value.teid) {
        RunFromFar(m, g, Rule(m, g.value.teid), env);
      }
    }
  }
}

module UplinkHooks {
  import opened Words
  import opened TcBundle
  import opened Frames
  import opened Datapath
  import opened Metrics
  import opened UplinkSpec
  import opened TokenBucket
  import opened QerState
  import opened EgressHook
  import Urr = UrrRace
  import opened UrrMaps

  const TC_ACT_REDIRECT := 7

  /** The parsing part of upf_tc_ingress. */
  method ParseGtpu(f: Frame) returns (g: Option<TcGpdu>)
    ensures g == TcParse(f)
    ensures g.Some? ==> ETH_HLEN + g.value.outer <= |f|
  {
    if |f| < ETH_HLEN || Be16At(f, 12) != ETH_P_IP {
      return None;
    }
    if |f| < ETH_HLEN + IP_HLEN || f[23] != IPPROTO_UDP {
      return None;
    }
    var ihl := f[14] % 16 * 4;
    if ihl < IP_HLEN || ETH_HLEN + ihl + 8 > |f| {
      return None;
    }
    var udp := ETH_HLEN + ihl;
    if Be16At(f, udp + 2) != GTPU_PORT {
      return None;
    }
    var gtp := udp + 8;
    if gtp + 8 > |f| || f[gtp + 1] != GTPU_GPDU {
      return None;
    }
    return Some(TcGpdu(Be32At(f, gtp + 4), ihl + 8 + 8));
  }

  class Upf {
    var teidSession: map<u32, Session>
    var pdrTable: map<u32, Datapath.Pdr>
    var tcBundleMap: map<u32, seq<byte>>
    var farTable: seq<Far>
    var metrics: PerCpu
    const qer: QerMaps
    const urr: UrrMap
    /** Built with UPF_QER_SHARED_LOCK; `qer` then holds the one bucket all CPUs share. */
    const shared: bool

    constructor (far: seq<Far>, cpus: nat, qer: QerMaps, urr: UrrMap, shared: bool)
      ensures Snapshot() == Maps(map[], map[], map[], far) && |metrics| == cpus
      ensures this.qer == qer && this.urr == urr && this.shared == shared
    {
      teidSession, pdrTable, tcBundleMap, farTable := map[], map[], map[], far;
      metrics := seq(cpus, _ => map[]);
      this.qer, this.urr, this.shared := qer, urr, shared;
    }

    function Snapshot(): Maps
      reads this
    {
      Maps(teidSession, pdrTable, tcBundleMap, farTable)
    }

    /** bump(), with the hook's earlier bumps as the record it extends. */
    method Count(cpu: nat, m: Metric, ghost base: PerCpu, ghost done: seq<Metric>)
      requires cpu < |base| && metrics == BumpAll(base, cpu, done)
      modifies this`metrics
      ensures metrics == BumpAll(base, cpu, done + [m])
    {
      BumpAllLast(base, cpu, done, m);
      metrics := Bump(metrics, cpu, m);
    }

    /** The session and PDR lookups of upf_xdp_uplink. */
    method Classify(cpu: nat, teid: u32, ghost base: PerCpu, ghost done: seq<Metric>) returns (pass: bool)
      requires cpu < |base| && metrics == BumpAll(base, cpu, done)
      modifies this`metrics
      ensures metrics == BumpAll(base, cpu, done + RunXdp(Snapshot(), teid).bumps)
      ensures pass <==> teid in teidSession && teidSession[teid].pdr in pdrTable
    {
      if teid !in teidSession {
        Count(cpu, MissTeid, base, done);
        return false;
      }
      if teidSession[teid].pdr !in pdrTable {
        Count(cpu, MissPdr, base, done);
        assert [] + [MissPdr] == [MissPdr];
        return false;
      }
      Count(cpu, Hit, base, done);
      assert [] + [Hit] == [Hit];
      return true;
    }

    /** The parsing part of upf_xdp_uplink, with the counters of each way out. */
    method ParseXdp(cpu: nat, f: Frame, ghost base: PerCpu) returns (x: XdpParsed)
      requires cpu < |base| && metrics == BumpAll(base, cpu, [RxTotal])
      modifies this`metrics
      ensures x == XdpParse(f) && metrics == BumpAll(base, cpu, ParseBumps(x))
    {
      assert ParseBumps(QuietPass) == [RxTotal] && ParseBumps(ParseDrop(false)) == [RxTotal] + [DropParse];
      if |f| < ETH_HLEN {
        Count(cpu, DropParse, base, [RxTotal]);
        return ParseDrop(false);
      }
      if Be16At(f, 12) != ETH_P_IP {
        return QuietPass;
      }
      if |f| < ETH_HLEN + IP_HLEN {
        Count(cpu, DropParse, base, [RxTotal]);
        return ParseDrop(false);
      }
      if f[23] != IPPROTO_UDP {
        return QuietPass;
      }
      var ihl := f[14] % 16 * 4;
      if ihl < IP_HLEN {
        Count(cpu, DropParse, base, [RxTotal]);
        return ParseDrop(false);
      }
      var l4 := ETH_HLEN + ihl;
      if l4 + 8 > |f| {
        Count(cpu, DropParse, base, [RxTotal]);
        return ParseDrop(false);
      }
      if Be16At(f, l4 + 2) != GTPU_PORT {
        Count(cpu, PassNonGtp, base, [RxTotal]);
        return NonGtp;
      }
      Count(cpu, RxGtpu, base, [RxTotal]);
      assert [RxTotal] + [RxGtpu] == [RxTotal, RxGtpu];
      var gtp := l4 + 8;
      if gtp + 8 > |f| {
        Count(cpu, DropParse, base, [RxTotal, RxGtpu]);
        return ParseDrop(true);
      }
      if f[gtp + 1] != GTPU_GPDU {
        Count(cpu, PassCtrl, base, [RxTotal, RxGtpu]);
        return Control;
      }
      Count(cpu, RxGpdu, base, [RxTotal, RxGtpu]);
      return XdpGpdu(Be32At(f, gtp + 4));
    }

    /** upf_xdp_uplink */
    method XdpUplink(cpu: nat, f: Frame) returns (pass: bool, ghost counted: seq<Metric>)
      requires cpu < |metrics|
      modifies this`metrics
      ensures metrics == BumpAll(old(metrics), cpu, counted) && XdpOutcome(Snapshot(), f, pass, counted)
      ensures counted == XdpBumps(Snapshot(), f) && (pass <==> XdpPasses(Snapshot(), f))
    {
      counted := XdpBumps(Snapshot(), f);
      XdpRuns(Snapshot(), f);
      ghost var base := metrics;
      Count(cpu, RxTotal, base, []);
      assert [] + [RxTotal] == [RxTotal];
      var x := ParseXdp(cpu, f, base);
      if x.XdpGpdu? {
        pass := Classify(cpu, x.teid, base, ParseBumps(x));
      } else {
        assert counted == ParseBumps(x);
        pass := !x.ParseDrop?;
      }
    }

    /** From the session lookup to the FAR's action; None when the packet ends here. */
    method Decide(cpu: nat, g: TcGpdu) returns (cur: Option<Tuple>, action: nat, ghost counted: seq<Metric>)
      requires cpu < |metrics|
      modifies this`metrics
      ensures metrics == BumpAll(old(metrics), cpu, counted)
      ensures cur.Some? <==> Forwards(Snapshot(), g.teid)
      ensures cur.Some? ==> cur.value == Rule(Snapshot(), g.teid) && counted == []
      ensures Unruled(Snapshot(), g.teid) ==> action == 0 && counted == [MissFar]
      ensures !Unruled(Snapshot(), g.teid) && farTable[Rule(Snapshot(), g.teid).far].action == 0
              ==> action == 2 && counted == [FarDrop]
      ensures !Unruled(Snapshot(), g.teid) && farTable[Rule(Snapshot(), g.teid).far].action == 2
              ==> action == 2 && counted == [FarBuffer]
    {
      ghost var base := metrics;
      action := TC_ACT_OK;
      assert forall m: Metric :: [] + [m] == [m];
      if g.teid !in teidSession {
        Count(cpu, MissFar, base, []);
        return None, action, [MissFar];
      }
      var pdr := teidSession[g.teid].pdr;
      if pdr !in tcBundleMap || |tcBundleMap[pdr]| != 56 {
        Count(cpu, MissFar, base, []);
        return None, action, [MissFar];
      }
      var t := Live(tcBundleMap[pdr]);
      if t.far >= |farTable| {
        Count(cpu, MissFar, base, []);
        return None, action, [MissFar];
      }
      if farTable[t.far].action == FAR_DROP {
        Count(cpu, FarDrop, base, []);
        return None, TC_ACT_SHOT, [FarDrop];
      }
      if farTable[t.far].action == FAR_BUFFER {
        Count(cpu, FarBuffer, base, []);
        return None, TC_ACT_SHOT, [FarBuffer];
      }
      return Some(t), action, [];
    }

    predicate OlderStamp(b: Bucket, now: u64) {
      now < b.last && b.tokens < U32_LIMIT
    }

    /** A stamp older than the stored one earns nothing in the shared build, and a second's worth in the other. */
    twostate predicate OlderStampEarns(id: u32, len: nat, now: u64, admit: bool)
      requires old(qer.Valid()) && qer.Valid() && id < 4096
      reads qer, qer.tokensBytes, qer.lastNs
    {
      var q, held, level := qer.qerTable[id], old(qer.At(id)), qer.At(id).tokens + if admit then len else 0;
      && qer.At(id).last == now
      && (if shared then level == if held.tokens < q.burst then held.tokens else q.burst
          else held.last - now <= 0xffff_ffff_c465_3600 ==>
                 LevelAfter(q.mbr, q.burst, held.tokens, 1_000_000_000, level))
    }

    /** The bucket's answer to `len` bytes: the move of its build on one rate-limited bucket, and on no other. */
    twostate predicate Policed(id: u32, len: nat, now: u64, admit: bool)
      requires old(qer.Valid()) && qer.Valid() && len < U32_LIMIT
      reads qer, qer.tokensBytes, qer.lastNs
    {
      && qer.qerTable == old(qer.qerTable)
      && (forall k :: 0 <= k < 4096 && (k != id || qer.qerTable[k].mbr == 0) ==> qer.At(k) == old(qer.At(k)))
      && (if id >= 4096 || qer.qerTable[id].mbr == 0 then admit
          else
            var move := if shared then SharedAdmit(qer.qerTable[id], old(qer.At(id)), Call(now, len))
                        else Admit(qer.qerTable[id], old(qer.At(id)), Call(now, len));
            && Outcome(qer.At(id), admit) == move
            && (OlderStamp(old(qer.At(id)), now) ==> OlderStampEarns(id, len, now, admit)))
    }

    /** That, and the accounting. */
    twostate predicate PolicedAndMetered(cpu: nat, t: Tuple, len: nat, now: u64, admit: bool)
      requires old(qer.Valid()) && qer.Valid() && old(urr.Valid()) && len < U32_LIMIT && cpu < urr.cpus
      reads qer, qer.tokensBytes, qer.lastNs, urr
    {
      && Policed(t.qer, len, now, admit)
      && (if admit then urr.counters == Urr.Account(old(urr.counters), urr.cpus, cpu, t.urr, len)
          else urr.counters == old(urr.counters))
      && urr.updated == old(urr.updated) + (if admit && t.urr != 0 then 1 else 0)
    }

    twostate predicate NothingSpent()
      reads qer.tokensBytes, qer.lastNs, urr
    {
      && qer.tokensBytes[..] == old(qer.tokensBytes[..]) && qer.lastNs[..] == old(qer.lastNs[..])
      && urr.counters == old(urr.counters) && urr.updated == old(urr.updated)
    }

    /** The two counters around bpf_redirect. */
    method CountRedirect(cpu: nat, redirectOk: bool, ghost base: PerCpu)
      requires cpu < |base| && metrics == BumpAll(base, cpu, [QerPass])
      modifies this`metrics
      ensures metrics
              == BumpAll(base, cpu, [QerPass, FarForward] + if redirectOk then [] else [RedirectErr])
    {
      Count(cpu, FarForward, base, [QerPass]);
      assert [QerPass] + [FarForward] == [QerPass, FarForward] + [];
      if !redirectOk {
        Count(cpu, RedirectErr, base, [QerPass] + [FarForward]);
        assert [QerPass] + [FarForward] + [RedirectErr] == [QerPass, FarForward] + [RedirectErr];
      }
    }

    /** upf_qer_admit of the build at hand. */
    method Police(id: u32, len: u32, now: u64) returns (admit: bool)
      requires qer.Valid()
      modifies qer.tokensBytes, qer.lastNs
      ensures qer.Valid() && Policed(id, len, now, admit)
    {
      if id < MAX_QERS && OlderStamp(qer.At(id), now) {
        OlderStampWraps(qer.qerTable[id], qer.At(id), Call(now, len));
        OlderStampEarnsNothing(qer.qerTable[id], qer.At(id), Call(now, len));
      }
      if shared {
        admit := qer.AdmitShared(id, now, len);
      } else {
        admit := qer.AdmitPerCpu(id, now, len);
      }
    }

    /** Admission, then accounting with the same length: the middle of upf_far_forward. */
    method PoliceAndMeter(cpu: nat, t: Tuple, len: u32, now: u64) returns (admit: bool)
      requires cpu < |metrics| && cpu < urr.cpus && qer.Valid() && urr.Valid()
      modifies this`metrics, qer.tokensBytes, qer.lastNs, urr
      ensures qer.Valid() && urr.Valid() && PolicedAndMetered(cpu, t, len, now, admit)
      ensures metrics == BumpAll(old(metrics), cpu, if admit then [QerPass] else [QerDrop])
    {
      ghost var base := metrics;
      assert forall m: Metric :: [] + [m] == [m];
      admit := Police(t.qer, len, now);
      if !admit {
        Count(cpu, QerDrop, base, []);
        return;
      }
      Count(cpu, QerPass, base, []);
      urr.UrrUpdate(cpu, t.urr, len);
    }

    /** What happens to a packet once it is stripped. */
    method PoliceAndRedirect(cpu: nat, t: Tuple, len: u32, now: u64, redirect: nat) returns (action: nat, admit: bool)
      requires cpu < |metrics| && cpu < urr.cpus && qer.Valid() && urr.Valid()
      modifies this`metrics, qer.tokensBytes, qer.lastNs, urr
      ensures qer.Valid() && urr.Valid() && PolicedAndMetered(cpu, t, len, now, admit)
      ensures action == if admit then redirect else TC_ACT_SHOT
      ensures metrics == BumpAll(old(metrics), cpu,
                                 if !admit then [QerDrop]
                                 else [QerPass, FarForward] + if redirect == TC_ACT_REDIRECT then [] else [RedirectErr])
    {
      ghost var base := metrics;
      admit := PoliceAndMeter(cpu, t, len, now);
      if !admit {
        return TC_ACT_SHOT, admit;
      }
      CountRedirect(cpu, redirect == TC_ACT_REDIRECT, base);
      return redirect, admit;
    }

    /** upf_far_forward; `redirect` is what bpf_redirect returns. */
    method FarForwardPath(cpu: nat, skb: Skb, t: Tuple, outer: nat, now: u64, refused: bool, redirect: nat)
      returns (action: nat, admit: bool, ghost counted: seq<Metric>)
      requires cpu < |metrics| && cpu < urr.cpus && qer.Valid() && urr.Valid()
      requires ETH_HLEN + outer <= skb.data.Length < U32_LIMIT
      requires skb.data as object != qer.tokensBytes && skb.data as object != qer.lastNs
      modifies this`metrics, skb, qer.tokensBytes, qer.lastNs, urr
      ensures qer.Valid() && urr.Valid() && metrics == BumpAll(old(metrics), cpu, counted)
      ensures if !refused && t.far >= |farTable| then action == 2 && counted == [DecapErr]
              else ForwardOutcome(Env(!refused, admit, redirect == 7), redirect, action, counted)
      ensures if refused then
                skb.data == old(skb.data) && skb.data[..] == old(skb.data[..]) && NothingSpent()
              else
                && skb.data[..] == Strip(old(skb.data[..]), outer)
                && (if t.far < |farTable| then PolicedAndMetered(cpu, t, skb.data.Length, now, admit)
                    // the entry vanished since the caller looked it up
                    else NothingSpent())
    {
      ghost var base := metrics;
      admit := true;
      var ok := skb.Shrink(outer, refused);
      if !ok {
        Count(cpu, DecapErr, base, []);
        assert [] + [DecapErr] == [DecapErr];
        return TC_ACT_SHOT, admit, [DecapErr];
      }
      if t.far >= |farTable| {
        Count(cpu, DecapErr, base, []);
        assert [] + [DecapErr] == [DecapErr];
        return TC_ACT_SHOT, admit, [DecapErr];
      }
      action, admit := PoliceAndRedirect(cpu, t, skb.data.Length, now, redirect);
      counted := if !admit then [QerDrop]
                 else [QerPass, FarForward] + if redirect == TC_ACT_REDIRECT then [] else [RedirectErr];
    }

    /** Frame and buckets after upf_tc_ingress on a G-PDU whose outer headers are `outer` bytes long. */
    twostate predicate ForwardedOrKept(cpu: nat, skb: Skb, g: TcGpdu, now: u64, refused: bool, admit: bool)
      requires old(qer.Valid()) && qer.Valid() && old(urr.Valid()) && cpu < urr.cpus
      requires ETH_HLEN + g.outer <= old(skb.data.Length) < U32_LIMIT
      reads this, skb, skb.data, qer, qer.tokensBytes, qer.lastNs, urr
    {
      if Forwards(Snapshot(), g.teid) && !refused then
        && skb.data[..] == Strip(old(skb.data[..]), g.outer)
        && PolicedAndMetered(cpu, Rule(Snapshot(), g.teid), skb.data.Length, now, admit)
      else skb.data == old(skb.data) && skb.data[..] == old(skb.data[..]) && NothingSpent()
    }

    /** upf_tc_ingress from the session lookup on. */
    method ApplyRules(cpu: nat, skb: Skb, g: TcGpdu, now: u64, refused: bool, redirect: nat)
      returns (action: nat, admit: bool, ghost counted: seq<Metric>)
      requires cpu < |metrics| && cpu < urr.cpus && qer.Valid() && urr.Valid()
      requires ETH_HLEN + g.outer <= skb.data.Length < U32_LIMIT
      requires skb.data as object != qer.tokensBytes && skb.data as object != qer.lastNs
      modifies this`metrics, skb, qer.tokensBytes, qer.lastNs, urr
      ensures qer.Valid() && urr.Valid() && metrics == BumpAll(old(metrics), cpu, counted)
      ensures TcOutcome(Snapshot(), Some(g), Env(!refused, admit, redirect == 7), redirect, action, counted)
      ensures ForwardedOrKept(cpu, skb, g, now, refused, admit)
    {
      var cur;
      cur, action, counted := Decide(cpu, g);
      if cur.None? {
        return action, true, counted;
      }
      action, admit, counted := FarForwardPath(cpu, skb, cur.value, g.outer, now, refused, redirect);
    }

    /** upf_tc_ingress */
    method TcIngress(cpu: nat, skb: Skb, now: u64, refused: bool, redirect: nat)
      returns (action: nat, ghost env: Env, ghost counted: seq<Metric>)
      requires cpu < |metrics| && cpu < urr.cpus && qer.Valid() && urr.Valid() && skb.data.Length < U32_LIMIT
      requires skb.data as object != qer.tokensBytes && skb.data as object != qer.lastNs
      modifies this`metrics, skb, qer.tokensBytes, qer.lastNs, urr
      ensures qer.Valid() && urr.Valid() && env.roomOk == !refused && env.redirectOk == (redirect == 7)
      ensures metrics == BumpAll(old(metrics), cpu, counted)
      ensures TcOutcome(Snapshot(), TcParse(old(skb.data[..])), env, redirect, action, counted)
      ensures match TcParse(old(skb.data[..]))
              case None => skb.data == old(skb.data) && skb.data[..] == old(skb.data[..]) && NothingSpent()
              case Some(g) =>
                ETH_HLEN + g.outer <= old(skb.data.Length) && ForwardedOrKept(cpu, skb, g, now, refused, env.admit)
    {
      var g := ParseGtpu(skb.data[..]);
      if g.None? {
        return TC_ACT_OK, Env(!refused, true, redirect == TC_ACT_REDIRECT), [];
      }
      var admit;
      action, admit, counted := ApplyRules(cpu, skb, g.value, now, refused, redirect);
      env := Env(!refused, admit, redirect == TC_ACT_REDIRECT);
    }
  }
}
