/**
 * One agent and any number of packets over the same maps: every map operation of the agent and every lookup of a
 * packet is a separate step (loader/agent.py:218-232, bpf/upf_xdp.c:85-97, bpf/upf_tc.c:266-281).
 */
module SessionRun {
  import opened Words
  import opened Frames
  import opened Datapath
  import opened ControlPlane

  /** A packet, whether its session has been missing or changed at some time since it arrived, and whether that
      happened since its last session lookup. */
  datatype Tracked = Tracked(p: Packet, broken: bool, rebound: bool)

  datatype State = State(maps: Maps, op: Op, pkts: seq<Tracked>)

  datatype Step = Begin(cmd: Command) | Agent(evicted: set<u32>) | SetFar(far: seq<Far>)
                | Arrive(f: Frame) | Go(i: nat, env: Env)

  function Init(far: seq<Far>): State {
    State(Maps(map[], map[], map[], far), Op.Idle, [])
  }

  function Teid(p: Packet): u32
    requires XdpParse(p.frame).XdpGpdu?
  {
    XdpParse(p.frame).teid
  }

  /** One command at a time; a session is removed together with a PDR no other session uses. */
  ghost predicate Enabled(s: State, step: Step) {
    match step
    case Begin(cmd) => s.op.Idle? && (cmd.Remove? ==> OnlyUser(s.maps, cmd.teid, cmd.pdr))
    case Agent(_) => !s.op.Idle?
    case SetFar(_) => true
    case Arrive(f) => XdpParse(f).XdpGpdu?
    case Go(i, _) => i < |s.pkts| && !s.pkts[i].p.stage.Done? && XdpParse(s.pkts[i].p.frame).XdpGpdu?
  }

  /** The write removed, evicted or redirected the TEID's session. */
  predicate Breaks(m: Maps, m': Maps, t: u32) {
    t !in m'.sess || (t in m.sess && m.sess[t].pdr != m'.sess[t].pdr)
  }

  function Marked(k: Tracked, m: Maps, m': Maps): Tracked {
    if XdpParse(k.p.frame).XdpGpdu? && Breaks(m, m', XdpParse(k.p.frame).teid) then Tracked(k.p, true, true) else k
  }

  function MarkAll(ks: seq<Tracked>, m: Maps, m': Maps): seq<Tracked> {
    seq(|ks|, i requires 0 <= i < |ks| => Marked(ks[i], m, m'))
  }

  /** The stages that begin by looking the session up. */
  predicate LooksSessionUp(st: Stage) {
    st.XdpSession? || st.BetweenHooks?
  }

  function Next(s: State, step: Step): State
    requires Enabled(s, step)
  {
    match step
    case Begin(cmd) => s.(op := Start(s.maps, cmd))
    case Agent(evicted) =>
      var n := Act(s.maps, s.op, evicted);
      State(n.maps, n.op, MarkAll(s.pkts, s.maps, n.maps))
    case SetFar(far) => s.(maps := s.maps.(far := far))
    case Arrive(f) => s.(pkts := s.pkts + [Tracked(Packet(f, XdpSession), XdpParse(f).teid !in s.maps.sess, false)])
    case Go(i, env) =>
      var k := s.pkts[i];
      var stage := Advance(s.maps, k.p, env).stage;
      s.(pkts := s.pkts[i := Tracked(k.p.(stage := stage), k.broken, !LooksSessionUp(k.p.stage) && k.rebound)])
  }

  ghost predicate Legal(s: State, steps: seq<Step>)
    decreases |steps|
  {
    steps == [] || (Enabled(s, steps[0]) && Legal(Next(s, steps[0]), steps[1..]))
  }

  ghost function Exec(s: State, steps: seq<Step>): State
    requires Legal(s, steps)
    decreases |steps|
  {
    if steps == [] then s else Exec(Next(s, steps[0]), steps[1..])
  }

  /** The packet holds a PDR id it read from its session. */
  predicate HoldsPdr(st: Stage) {
    st.XdpPdr? || st.TcBundleLookup?
  }

  ghost predicate PacketSound(m: Maps, k: Tracked) {
    && XdpParse(k.p.frame).XdpGpdu?
    && var t := Teid(k.p);
       && (!k.broken ==> t in m.sess)
       && (k.rebound ==> k.broken)
       && (HoldsPdr(k.p.stage) && !k.rebound ==> t in m.sess && m.sess[t].pdr == k.p.stage.pdr)
       && (k.p.stage == Done(NoTeid) || k.p.stage == Done(NoSession) ==> k.broken)
       && (k.p.stage == Done(NoPdr) || k.p.stage == Done(NoBundle) ==> k.rebound)
       && k.p.stage != Done(NotOurs)
  }

  ghost predicate Inv(s: State) {
    Resolves(s.maps) && OpSound(s.maps, s.op) && forall i :: 0 <= i < |s.pkts| ==> PacketSound(s.maps, s.pkts[i])
  }
}

/** What the order of the agent's writes buys. */
module ZeroDowntime {
  import opened Words
  import opened TcBundle
  import opened Frames
  import opened Datapath
  import opened ControlPlane
  import opened SessionRun

  lemma MarkKeepsSound(m: Maps, m': Maps, k: Tracked)
    requires PacketSound(m, k)
    ensures PacketSound(m', Marked(k, m, m'))
  {
  }

  lemma XdpStepSound(m: Maps, k: Tracked, env: Env)
    requires Resolves(m) && PacketSound(m, k) && (k.p.stage.XdpSession? || k.p.stage.XdpPdr?)
    ensures var mv := XdpMove(m, Teid(k.p), k.p.stage);
            PacketSound(m, Tracked(k.p.(stage := mv.stage), k.broken, !LooksSessionUp(k.p.stage) && k.rebound))
  {
    var t := Teid(k.p);
    if t in m.sess {
      assert Resolved(m, m.sess[t].pdr);
    }
  }

  lemma TcStepSound(m: Maps, k: Tracked, g: Option<TcGpdu>, env: Env)
    requires Resolves(m) && PacketSound(m, k) && !k.p.stage.XdpSession? && !k.p.stage.XdpPdr? && !k.p.stage.Done?
    requires g.Some? && g.value.teid == Teid(k.p)
    ensures var mv := TcMove(m, g, k.p.stage, env);
            PacketSound(m, Tracked(k.p.(stage := mv.stage), k.broken, !LooksSessionUp(k.p.stage) && k.rebound))
  {
    var t := Teid(k.p);
    if t in m.sess {
      assert Resolved(m, m.sess[t].pdr);
    }
  }

  lemma GoKeepsSound(s: State, i: nat, env: Env)
    requires Inv(s) && Enabled(s, Go(i, env))
    ensures PacketSound(s.maps, Next(s, Go(i, env)).pkts[i])
  {
    var k := s.pkts[i];
    ParsersAgree(k.p.frame, Teid(k.p));
    if k.p.stage.XdpSession? || k.p.stage.XdpPdr? {
      XdpStepSound(s.maps, k, env);
    } else {
      TcStepSound(s.maps, k, TcParse(k.p.frame), env);
    }
  }

  lemma AgentKeepsInv(s: State, evicted: set<u32>)
    requires Inv(s) && Enabled(s, Agent(evicted))
    ensures Inv(Next(s, Agent(evicted)))
  {
    ActKeepsResolving(s.maps, s.op, evicted);
    var m' := Act(s.maps, s.op, evicted).maps;
    forall i | 0 <= i < |s.pkts|
      ensures PacketSound(m', Marked(s.pkts[i], s.maps, m'))
    {
      MarkKeepsSound(s.maps, m', s.pkts[i]);
    }
  }

  lemma FarKeepsInv(s: State, far: seq<Far>)
    requires Inv(s)
    ensures Inv(Next(s, SetFar(far)))
  {
    var m' := s.maps.(far := far);
    forall t | t in m'.sess
      ensures Resolved(m', m'.sess[t].pdr)
    {
      assert Resolved(s.maps, s.maps.sess[t].pdr);
    }
  }

  lemma StepKeepsInv(s: State, step: Step)
    requires Inv(s) && Enabled(s, step)
    ensures Inv(Next(s, step))
  {
    match step
    case Begin(cmd) => StartSound(s.maps, cmd);
    case Agent(evicted) => AgentKeepsInv(s, evicted);
    case SetFar(far) => FarKeepsInv(s, far);
    case Arrive(_) =>
    case Go(i, env) => GoKeepsSound(s, i, env);
  }

  lemma {:induction false} RunKeepsInv(s: State, steps: seq<Step>)
    requires Inv(s) && Legal(s, steps)
    ensures Inv(Exec(s, steps))
    decreases |steps|
  {
    if steps != [] {
      StepKeepsInv(s, steps[0]);
      RunKeepsInv(Next(s, steps[0]), steps[1..]);
    }
  }

  /**
   * Install failure safety: after every single map operation of any sequence of installs, removals and
   * modifications, with any of them failing because a map is full and with any LRU evictions, every installed TEID
   * resolves in pdr_table and tc_bundle_map.
   */
  lemma EveryTeidResolves(far: seq<Far>, steps: seq<Step>)
    requires Legal(Init(far), steps)
    ensures Resolves(Exec(Init(far), steps).maps)
  {
    RunKeepsInv(Init(far), steps);
  }

  /**
   * Zero downtime: a packet misses its TEID, its PDR or its bundle only if its session was absent, removed, evicted
   * or redirected at some time after the packet arrived, under every interleaving with installs, removals and
   * modifications of other sessions, and with modifications of its own.
   */
  lemma InstalledSessionsNeverMiss(far: seq<Far>, steps: seq<Step>, i: nat)
    requires Legal(Init(far), steps) && i < |Exec(Init(far), steps).pkts|
    ensures var k := Exec(Init(far), steps).pkts[i];
            k.p.stage in {Done(NoTeid), Done(NoPdr), Done(NoSession), Done(NoBundle), Done(NotOurs)} ==> k.broken
  {
    RunKeepsInv(Init(far), steps);
    assert PacketSound(Exec(Init(far), steps).maps, Exec(Init(far), steps).pkts[i]);
  }

  /** A packet misses its PDR, or later its bundle, only if its session changed after the lookup that gave it the
      PDR id: that lookup came before the TEID's delete, eviction or redirection. */
  lemma PdrMissedOnlyAfterDelete(far: seq<Far>, steps: seq<Step>, i: nat)
    requires Legal(Init(far), steps) && i < |Exec(Init(far), steps).pkts|
    ensures var k := Exec(Init(far), steps).pkts[i];
            k.p.stage in {Done(NoPdr), Done(NoBundle)} ==> k.rebound
  {
    RunKeepsInv(Init(far), steps);
    assert PacketSound(Exec(Init(far), steps).maps, Exec(Init(far), steps).pkts[i]);
  }
}
