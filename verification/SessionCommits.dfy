/**
 * The tuples packets act on, in the run of one agent and any number of packets over all maps
 * (loader/agent.py:163-232, bpf/upf_tc.c:266-321): every tuple committed for every PDR, and every decision taken.
 */
module SessionLog {
  import opened Words
  import opened TcBundle
  import opened Datapath
  import opened ControlPlane
  import opened SessionRun

  /** Packet `pkt` looked up PDR `pdr` and acts on `tuple`, commit number `at` of that PDR. */
  datatype Decision = Decision(pkt: nat, pdr: u32, at: nat, tuple: Tuple)

  datatype Log = Log(commits: map<u32, seq<Tuple>>, decisions: seq<Decision>)

  const EMPTY := Log(map[], [])

  function Commits(l: Log, p: u32): seq<Tuple> {
    if p in l.commits then l.commits[p] else []
  }

  datatype Committed = Nothing | Tuple(pdr: u32, tuple: TcBundle.Tuple)

  /** The tuple an operation of the agent makes current: an install's, or a modification's second write. */
  function Committing(m: Maps, op: Op): Committed {
    match op
    case PutBundle(a) =>
      if ArgsFit(a) && Accepts(m.bundle, a.pdr) then Committed.Tuple(a.pdr, InitialTuple(a)) else Nothing
    case Commit(id, w) =>
      if Accepts(m.bundle, id) && IsBundle(w.step2) then Committed.Tuple(id, Live(w.step2)) else Nothing
    case _ => Nothing
  }

  /** The tuple a packet has taken from its bundle. */
  function TupleOf(st: Stage): Option<TcBundle.Tuple> {
    match st
    case TcFarLookup(t) => Some(t)
    case TcDecap(t) => Some(t)
    case TcFarAgain(t) => Some(t)
    case TcPolice(t) => Some(t)
    case TcRedirect(t) => Some(t)
    case _ => None
  }

  ghost function NextLog(s: State, l: Log, step: Step): Log
    requires Enabled(s, step)
  {
    match step
    case Agent(_) =>
      var c := Committing(s.maps, s.op);
      if c.Nothing? then l else l.(commits := l.commits[c.pdr := Commits(l, c.pdr) + [c.tuple]])
    case Go(i, env) =>
      var from, to := s.pkts[i].p.stage, TupleOf(Advance(s.maps, s.pkts[i].p, env).stage);
      if from.TcBundleLookup? && to.Some? then
        var n := |Commits(l, from.pdr)|;
        l.(decisions := l.decisions + [Decision(i, from.pdr, if n == 0 then 0 else n - 1, to.value)])
      else l
    case _ => l
  }

  ghost function RunLog(s: State, l: Log, steps: seq<Step>): Log
    requires Legal(s, steps)
    decreases |steps|
  {
    if steps == [] then l else RunLog(Next(s, steps[0]), NextLog(s, l, steps[0]), steps[1..])
  }

  /** The decision names a tuple committed for its PDR. */
  ghost predicate Backed(l: Log, d: Decision) {
    d.at < |Commits(l, d.pdr)| && Commits(l, d.pdr)[d.at] == d.tuple
  }

  /** Packet i acts on `t` because of a recorded decision. */
  ghost predicate Decided(l: Log, i: nat, t: TcBundle.Tuple) {
    exists k :: 0 <= k < |l.decisions| && l.decisions[k].pkt == i && l.decisions[k].tuple == t
  }

  /** What a lookup of the PDR finds is its latest commit. */
  ghost predicate Current(m: Maps, l: Log, p: u32) {
    p in m.bundle ==>
      && IsBundle(m.bundle[p]) && Commits(l, p) != []
      && Live(m.bundle[p]) == Commits(l, p)[|Commits(l, p)| - 1]
  }

  ghost predicate OpCurrent(m: Maps, op: Op) {
    match op
    case Stage(id, w) =>
      && id in m.bundle && IsBundle(m.bundle[id])
      && IsBundle(w.step1) && IsBundle(w.step2) && Live(w.step1) == Live(m.bundle[id])
    case Commit(id, w) => id in m.bundle && IsBundle(w.step2)
    case _ => true
  }

  ghost predicate MapsLogged(s: State, l: Log) {
    OpCurrent(s.maps, s.op) && forall p: u32 :: Current(s.maps, l, p)
  }

  ghost predicate DecisionsLogged(l: Log) {
    && (forall k :: 0 <= k < |l.decisions| ==> Backed(l, l.decisions[k]))
    && (forall j, k :: 0 <= j < k < |l.decisions| && l.decisions[j].pdr == l.decisions[k].pdr
                       ==> l.decisions[j].at <= l.decisions[k].at)
  }

  ghost predicate PacketsLogged(s: State, l: Log) {
    forall i :: 0 <= i < |s.pkts| && TupleOf(s.pkts[i].p.stage).Some?
                ==> Decided(l, i, TupleOf(s.pkts[i].p.stage).value)
  }
}

module SessionCommits {
  import opened Words
  import opened TcBundle
  import opened Datapath
  import opened ControlPlane
  import opened SessionRun
  import opened SessionLog
  import Frames

  /** An operation that leaves tc_bundle_map alone commits nothing. */
  lemma OtherActKeepsCurrent(s: State, l: Log, evicted: set<u32>, p: u32)
    requires Current(s.maps, l, p) && Enabled(s, Agent(evicted))
    requires !s.op.PutBundle? && !s.op.DelBundle? && !s.op.Stage? && !s.op.Commit?
    ensures Current(Next(s, Agent(evicted)).maps, NextLog(s, l, Agent(evicted)), p)
  {
    var m' := Act(s.maps, s.op, evicted).maps;
    assert m'.bundle == s.maps.bundle && NextLog(s, l, Agent(evicted)) == l;
  }

  lemma PutBundleKeepsCurrent(s: State, l: Log, evicted: set<u32>, p: u32)
    requires Current(s.maps, l, p) && Enabled(s, Agent(evicted)) && s.op.PutBundle?
    ensures Current(Next(s, Agent(evicted)).maps, NextLog(s, l, Agent(evicted)), p)
  {
    if ArgsFit(s.op.a) {
      InitialBundleLive(s.op.a);
    }
  }

  /** Step 1 is invisible: the lookup still finds the latest commit. */
  lemma StageKeepsCurrent(s: State, l: Log, evicted: set<u32>, p: u32)
    requires Current(s.maps, l, p) && OpCurrent(s.maps, s.op) && Enabled(s, Agent(evicted)) && s.op.Stage?
    ensures Current(Next(s, Agent(evicted)).maps, NextLog(s, l, Agent(evicted)), p)
  {
    assert NextLog(s, l, Agent(evicted)) == l;
  }

  lemma CommitKeepsCurrent(s: State, l: Log, evicted: set<u32>, p: u32)
    requires Current(s.maps, l, p) && OpCurrent(s.maps, s.op) && Enabled(s, Agent(evicted)) && s.op.Commit?
    ensures Current(Next(s, Agent(evicted)).maps, NextLog(s, l, Agent(evicted)), p)
  {
  }

  /** One operation of the agent: what is then looked up is what is then logged. */
  lemma ActKeepsCurrent(s: State, l: Log, evicted: set<u32>, p: u32)
    requires Current(s.maps, l, p) && OpCurrent(s.maps, s.op) && Enabled(s, Agent(evicted))
    ensures Current(Next(s, Agent(evicted)).maps, NextLog(s, l, Agent(evicted)), p)
  {
    if s.op.PutBundle? {
      PutBundleKeepsCurrent(s, l, evicted, p);
    } else if s.op.Stage? {
      StageKeepsCurrent(s, l, evicted, p);
    } else if s.op.Commit? {
      CommitKeepsCurrent(s, l, evicted, p);
    } else if !s.op.DelBundle? {
      OtherActKeepsCurrent(s, l, evicted, p);
    }
  }

  /** A modification in progress keeps the value it will replace in view. */
  lemma ActKeepsOp(s: State, evicted: set<u32>)
    requires OpCurrent(s.maps, s.op) && Enabled(s, Agent(evicted))
    ensures OpCurrent(Next(s, Agent(evicted)).maps, Next(s, Agent(evicted)).op)
  {
  }

  lemma StartCurrent(m: Maps, cmd: Command)
    ensures OpCurrent(m, Start(m, cmd))
  {
    if cmd.Modify? && Start(m, cmd).Stage? {
      ModifyIsRecordUpdate(m.bundle[cmd.id], cmd.c);
    }
  }

  lemma AgentKeepsMaps(s: State, l: Log, evicted: set<u32>)
    requires MapsLogged(s, l) && Enabled(s, Agent(evicted))
    ensures MapsLogged(Next(s, Agent(evicted)), NextLog(s, l, Agent(evicted)))
  {
    var s', l' := Next(s, Agent(evicted)), NextLog(s, l, Agent(evicted));
    forall p: u32
      ensures Current(s'.maps, l', p)
    {
      assert Current(s.maps, l, p);
      ActKeepsCurrent(s, l, evicted, p);
    }
    ActKeepsOp(s, evicted);
  }

  lemma StepKeepsMaps(s: State, l: Log, step: Step)
    requires MapsLogged(s, l) && Enabled(s, step)
    ensures MapsLogged(Next(s, step), NextLog(s, l, step))
  {
    var s', l' := Next(s, step), NextLog(s, l, step);
    if step.Agent? {
      AgentKeepsMaps(s, l, step.evicted);
    } else {
      assert s'.maps.bundle == s.maps.bundle && l'.commits == l.commits;
      forall p: u32
        ensures Current(s'.maps, l', p)
      {
        assert Current(s.maps, l, p);
      }
      if step.Begin? {
        StartCurrent(s.maps, step.cmd);
      }
    }
  }

  /** Commits are only ever added. */
  lemma CommitsGrow(s: State, l: Log, step: Step, p: u32)
    requires Enabled(s, step)
    ensures Commits(l, p) <= Commits(NextLog(s, l, step), p)
  {
  }

  /** A bundle lookup that finds its PDR decides on the latest commit. */
  lemma LookupDecides(s: State, l: Log, step: Step)
    requires MapsLogged(s, l) && Enabled(s, step) && NextLog(s, l, step).decisions != l.decisions
    ensures var l' := NextLog(s, l, step);
            && |l'.decisions| == |l.decisions| + 1 && l'.decisions[..|l.decisions|] == l.decisions
            && l'.commits == l.commits
            && var d := l'.decisions[|l.decisions|];
               Backed(l', d) && d.at == |Commits(l, d.pdr)| - 1
  {
    var p := s.pkts[step.i].p.stage.pdr;
    assert Current(s.maps, l, p);
  }

  lemma StepKeepsDecisions(s: State, l: Log, step: Step)
    requires MapsLogged(s, l) && DecisionsLogged(l) && Enabled(s, step)
    ensures DecisionsLogged(NextLog(s, l, step))
  {
    var l' := NextLog(s, l, step);
    if l'.decisions != l.decisions {
      LookupDecides(s, l, step);
      forall k | 0 <= k < |l.decisions|
        ensures Backed(l', l'.decisions[k])
      {
        assert l'.decisions[k] == l.decisions[k] && Backed(l, l.decisions[k]);
      }
    } else {
      forall k | 0 <= k < |l.decisions|
        ensures Backed(l', l'.decisions[k])
      {
        assert Backed(l, l.decisions[k]);
        CommitsGrow(s, l, step, l.decisions[k].pdr);
      }
    }
  }

  lemma StillDecided(l: Log, l': Log, i: nat, t: TcBundle.Tuple)
    requires Decided(l, i, t) && l.decisions <= l'.decisions
    ensures Decided(l', i, t)
  {
    var k :| 0 <= k < |l.decisions| && l.decisions[k].pkt == i && l.decisions[k].tuple == t;
    assert l'.decisions[k] == l.decisions[k];
  }

  /** A packet gets its tuple from a bundle lookup, and keeps it. */
  lemma MoveKeepsTuple(m: Maps, p: Packet, env: Env)
    requires !p.stage.Done? && Frames.XdpParse(p.frame).XdpGpdu?
    ensures var to := TupleOf(Advance(m, p, env).stage);
            to.Some? ==> p.stage.TcBundleLookup? || TupleOf(p.stage) == to
  {
  }

  lemma StepKeepsPackets(s: State, l: Log, step: Step)
    requires PacketsLogged(s, l) && Enabled(s, step)
    ensures PacketsLogged(Next(s, step), NextLog(s, l, step))
  {
    var s', l' := Next(s, step), NextLog(s, l, step);
    assert l.decisions <= l'.decisions;
    if step.Go? {
      MoveKeepsTuple(s.maps, s.pkts[step.i].p, step.env);
    }
    forall i | 0 <= i < |s'.pkts| && TupleOf(s'.pkts[i].p.stage).Some?
      ensures Decided(l', i, TupleOf(s'.pkts[i].p.stage).value)
    {
      var t := TupleOf(s'.pkts[i].p.stage).value;
      if step.Go? && i == step.i && s.pkts[i].p.stage.TcBundleLookup? {
        var k := |l.decisions|;
        assert l'.decisions[k].pkt == i && l'.decisions[k].tuple == t;
      } else {
        StillDecided(l, l', i, t);
      }
    }
  }

  lemma {:induction false} RunKeepsLog(s: State, l: Log, steps: seq<Step>)
    requires MapsLogged(s, l) && DecisionsLogged(l) && PacketsLogged(s, l) && Legal(s, steps)
    ensures var e, l' := Exec(s, steps), RunLog(s, l, steps);
            MapsLogged(e, l') && DecisionsLogged(l') && PacketsLogged(e, l')
    decreases |steps|
  {
    if steps != [] {
      StepKeepsMaps(s, l, steps[0]);
      StepKeepsDecisions(s, l, steps[0]);
      StepKeepsPackets(s, l, steps[0]);
      RunKeepsLog(Next(s, steps[0]), NextLog(s, l, steps[0]), steps[1..]);
    }
  }

  /**
   * Transactional consistency over all maps: in every run of installs, removals and modifications of any sessions
   * against any number of packets, each tuple a packet acts on was committed as one unit for the PDR the packet
   * looked up, and successive lookups of a PDR never go back to an earlier commit.
   */
  lemma PacketsActOnCommits(far: seq<Far>, steps: seq<Step>)
    requires Legal(Init(far), steps)
    ensures var s, l := Exec(Init(far), steps), RunLog(Init(far), EMPTY, steps);
            && PacketsLogged(s, l)
            && (forall k :: 0 <= k < |l.decisions| ==> Backed(l, l.decisions[k]))
            && (forall j, k :: 0 <= j < k < |l.decisions| && l.decisions[j].pdr == l.decisions[k].pdr
                               ==> l.decisions[j].at <= l.decisions[k].at)
  {
    RunKeepsLog(Init(far), EMPTY, steps);
  }
}
