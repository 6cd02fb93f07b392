/**
 * The agent's session commands as sequences of single map operations, each of which may fail
 * (loader/agent.py:153-232, bpf/upf_maps.h:225-293).
 */
module ControlPlane {
  import opened Words
  import opened TcBundle
  import opened Datapath

  const MAX_PDRS: nat := 4096

  /** install_session's arguments: any Python integers. */
  datatype Args = Args(teid: int, pdr: int, qer: int, far: int, prec: int, urr: int)

  /** The command in progress, named by the map operation that comes next. */
  datatype Op = Idle
              | PutPdr(a: Args) | PutBundle(a: Args) | PutTeid(a: Args)
              | DelTeid(teid: int, pdr: int) | DelPdr(p: int) | DelBundle(p: int)
              | Stage(id: u32, w: Writes) | Commit(id: u32, w: Writes)

  datatype Command = Install(a: Args) | Remove(teid: int, pdr: int) | Modify(id: int, c: Change)

  /** A hash map takes a key it has or has room for. */
  predicate Accepts<V>(m: map<u32, V>, key: u32) {
    key in m || |m| < MAX_PDRS
  }

  predicate ArgsFit(a: Args) {
    FitsU32(a.pdr) && FitsU32(a.qer) && FitsU32(a.far) && FitsU32(a.prec) && FitsU32(a.urr)
  }

  function InitialTuple(a: Args): Tuple
    requires ArgsFit(a)
  {
    Tuple(a.far, a.qer, a.urr, a.prec, 0)
  }

  function InitialBundle(a: Args): seq<byte>
    requires ArgsFit(a)
  {
    EncBundle(0, EncSlot(InitialTuple(a)), EncSlot(InitialTuple(a)))
  }

  lemma InitialBundleLive(a: Args)
    requires ArgsFit(a)
    ensures IsBundle(InitialBundle(a)) && Live(InitialBundle(a)) == InitialTuple(a)
  {
    BundleRoundTrip(0, InitialTuple(a), InitialTuple(a));
  }

  /** Up to the first map write: a modification looks its PDR's bundle up, and raises if it cannot. */
  function Start(m: Maps, cmd: Command): Op {
    match cmd
    case Install(a) => PutPdr(a)
    case Remove(teid, pdr) => DelTeid(teid, pdr)
    case Modify(id, c) =>
      if FitsU32(id) && id in m.bundle && IsBundle(m.bundle[id]) && TcBundle.Modify(m.bundle[id], c).Some?
      then Stage(id, TcBundle.Modify(m.bundle[id], c).value) else Idle
  }

  datatype After = After(maps: Maps, op: Op)

  /** One map operation. An exception ends the command; `evicted` are the keys the LRU map drops to make room. */
  function Act(m: Maps, op: Op, evicted: set<u32>): After {
    match op
    case Idle => After(m, Idle)
    case PutPdr(a) =>
      if ArgsFit(a) && Accepts(m.pdr, a.pdr)
      then After(m.(pdr := m.pdr[a.pdr := Pdr(a.far, a.qer, a.prec, a.urr)]), PutBundle(a)) else After(m, Idle)
    case PutBundle(a) =>
      if ArgsFit(a) && Accepts(m.bundle, a.pdr)
      then After(m.(bundle := m.bundle[a.pdr := InitialBundle(a)]), PutTeid(a)) else After(m, Idle)
    case PutTeid(a) =>
      if ArgsFit(a) && FitsU32(a.teid)
      then After(m.(sess := (m.sess - evicted)[a.teid := Session(a.pdr, a.qer, a.far)]), Idle) else After(m, Idle)
    case DelTeid(teid, pdr) =>
      if FitsU32(teid) then After(m.(sess := m.sess - {teid}), DelPdr(pdr)) else After(m, Idle)
    case DelPdr(p) =>
      if FitsU32(p) then After(m.(pdr := m.pdr - {p}), DelBundle(p)) else After(m, Idle)
    case DelBundle(p) =>
      if FitsU32(p) then After(m.(bundle := m.bundle - {p}), Idle) else After(m, Idle)
    case Stage(id, w) =>
      if Accepts(m.bundle, id) then After(m.(bundle := m.bundle[id := w.step1]), Commit(id, w)) else After(m, Idle)
    case Commit(id, w) =>
      After(if Accepts(m.bundle, id) then m.(bundle := m.bundle[id := w.step2]) else m, Idle)
  }

  function Rank(op: Op): nat {
    match op
    case Idle => 0
    case PutPdr(_) => 3
    case PutBundle(_) => 2
    case PutTeid(_) => 1
    case DelTeid(_, _) => 3
    case DelPdr(_) => 2
    case DelBundle(_) => 1
    case Stage(_, _) => 2
    case Commit(_, _) => 1
  }

  /** The maps when a command runs to its end with nothing in between. */
  function Finish(m: Maps, op: Op, evicted: set<u32>): Maps
    decreases Rank(op)
  {
    if op.Idle? then m else var n := Act(m, op, evicted); Finish(n.maps, n.op, evicted)
  }

  // One operation of a command that runs undisturbed.

  lemma FinishStep(m: Maps, op: Op, evicted: set<u32>)
    requires !op.Idle?
    ensures var n := Act(m, op, evicted);
            Finish(m, op, evicted) == if n.op.Idle? then n.maps else Finish(n.maps, n.op, evicted)
  {
  }

  lemma AfterPutPdr(m: Maps, a: Args, evicted: set<u32>)
    ensures Finish(m, PutPdr(a), evicted)
            == if ArgsFit(a) && Accepts(m.pdr, a.pdr)
               then Finish(m.(pdr := m.pdr[a.pdr := Pdr(a.far, a.qer, a.prec, a.urr)]), PutBundle(a), evicted) else m
  {
    FinishStep(m, PutPdr(a), evicted);
  }

  lemma AfterPutBundle(m: Maps, a: Args, evicted: set<u32>)
    requires ArgsFit(a)
    ensures Finish(m, PutBundle(a), evicted)
            == if Accepts(m.bundle, a.pdr)
               then Finish(m.(bundle := m.bundle[a.pdr := InitialBundle(a)]), PutTeid(a), evicted) else m
  {
    FinishStep(m, PutBundle(a), evicted);
  }

  lemma AfterPutTeid(m: Maps, a: Args, evicted: set<u32>)
    requires ArgsFit(a)
    ensures Finish(m, PutTeid(a), evicted)
            == if FitsU32(a.teid)
               then m.(sess := (m.sess - evicted)[a.teid := Session(a.pdr, a.qer, a.far)]) else m
  {
    FinishStep(m, PutTeid(a), evicted);
  }

  lemma AfterDelTeid(m: Maps, teid: int, pdr: int)
    ensures Finish(m, DelTeid(teid, pdr), {})
            == if FitsU32(teid) then Finish(m.(sess := m.sess - {teid}), DelPdr(pdr), {}) else m
  {
    FinishStep(m, DelTeid(teid, pdr), {});
  }

  lemma AfterDelPdr(m: Maps, p: int)
    ensures Finish(m, DelPdr(p), {})
            == if FitsU32(p) then Finish(m.(pdr := m.pdr - {p}), DelBundle(p), {}) else m
  {
    FinishStep(m, DelPdr(p), {});
  }

  lemma AfterDelBundle(m: Maps, p: int)
    ensures Finish(m, DelBundle(p), {}) == if FitsU32(p) then m.(bundle := m.bundle - {p}) else m
  {
    FinishStep(m, DelBundle(p), {});
  }

  lemma AfterStage(m: Maps, id: u32, w: Writes)
    ensures Finish(m, Stage(id, w), {})
            == if Accepts(m.bundle, id)
               then Finish(m.(bundle := m.bundle[id := w.step1]), Commit(id, w), {}) else m
  {
    FinishStep(m, Stage(id, w), {});
  }

  lemma AfterCommit(m: Maps, id: u32, w: Writes)
    ensures Finish(m, Commit(id, w), {})
            == if Accepts(m.bundle, id) then m.(bundle := m.bundle[id := w.step2]) else m
  {
    FinishStep(m, Commit(id, w), {});
  }

  ghost predicate Resolved(m: Maps, p: u32) {
    p in m.pdr && p in m.bundle && IsBundle(m.bundle[p])
  }

  /** Every installed TEID leads to a PDR and to a bundle value. */
  ghost predicate Resolves(m: Maps) {
    forall t :: t in m.sess ==> Resolved(m, m.sess[t].pdr)
  }

  /** No TEID but `teid` uses the PDR. */
  ghost predicate OnlyUser(m: Maps, teid: int, pdr: int) {
    forall t :: t in m.sess && t != teid ==> m.sess[t].pdr != pdr
  }

  ghost predicate Unused(m: Maps, pdr: int) {
    forall t :: t in m.sess ==> m.sess[t].pdr != pdr
  }

  /** What a command in progress has established. */
  ghost predicate OpSound(m: Maps, op: Op) {
    match op
    case PutBundle(a) => ArgsFit(a) && a.pdr in m.pdr
    case PutTeid(a) => ArgsFit(a) && Resolved(m, a.pdr)
    case DelTeid(teid, pdr) => OnlyUser(m, teid, pdr)
    case DelPdr(p) => Unused(m, p)
    case DelBundle(p) => Unused(m, p)
    case Stage(_, w) => IsBundle(w.step1) && IsBundle(w.step2)
    case Commit(_, w) => IsBundle(w.step2)
    case _ => true
  }

  lemma StartSound(m: Maps, cmd: Command)
    requires cmd.Remove? ==> OnlyUser(m, cmd.teid, cmd.pdr)
    ensures OpSound(m, Start(m, cmd))
  {
    if cmd.Modify? && Start(m, cmd).Stage? {
      ModifyIsRecordUpdate(m.bundle[cmd.id], cmd.c);
    }
  }

  /** Each single write keeps every installed TEID resolving, whether it succeeds, fails or evicts. */
  lemma ActKeepsResolving(m: Maps, op: Op, evicted: set<u32>)
    requires Resolves(m) && OpSound(m, op)
    ensures var n := Act(m, op, evicted); Resolves(n.maps) && OpSound(n.maps, n.op)
  {
    var n := Act(m, op, evicted);
    if op.PutBundle? && n.op.PutTeid? {
      InitialBundleLive(op.a);
    }
    forall t | t in n.maps.sess
      ensures Resolved(n.maps, n.maps.sess[t].pdr)
    {
      if t in m.sess {
        assert Resolved(m, m.sess[t].pdr);
      }
    }
  }

  /** The PDR and bundle deletes of a session that another TEID still needs leave it unresolved. */
  lemma SharedPdrBreaks(m: Maps, teid: u32, pdr: u32)
    requires !OnlyUser(m, teid, pdr)
    ensures !Resolves(Act(Act(m, DelTeid(teid, pdr), {}).maps, DelPdr(pdr), {}).maps)
  {
    var m2 := Act(Act(m, DelTeid(teid, pdr), {}).maps, DelPdr(pdr), {}).maps;
    var t :| t in m.sess && t != teid && m.sess[t].pdr == pdr;
    assert t in m2.sess && !Resolved(m2, m2.sess[t].pdr);
  }

  /**
   * remove_session leaves every TEID resolving after each of its three writes if and only if no other installed
   * TEID uses the PDR it is given.
   */
  lemma RemoveIsSafeExactlyWhen(m: Maps, teid: u32, pdr: u32)
    requires Resolves(m)
    ensures var m1 := Act(m, DelTeid(teid, pdr), {}).maps;
            var m2 := Act(m1, DelPdr(pdr), {}).maps;
            var m3 := Act(m2, DelBundle(pdr), {}).maps;
            m3 == Finish(m, DelTeid(teid, pdr), {})
            && (Resolves(m1) && Resolves(m2) && Resolves(m3) <==> OnlyUser(m, teid, pdr))
  {
    var n1 := Act(m, DelTeid(teid, pdr), {});
    var n2 := Act(n1.maps, n1.op, {});
    AfterDelTeid(m, teid, pdr);
    AfterDelPdr(n1.maps, pdr);
    AfterDelBundle(n2.maps, pdr);
    if OnlyUser(m, teid, pdr) {
      ActKeepsResolving(m, DelTeid(teid, pdr), {});
      ActKeepsResolving(n1.maps, n1.op, {});
      ActKeepsResolving(n2.maps, n2.op, {});
    } else {
      SharedPdrBreaks(m, teid, pdr);
    }
  }

  /** The maps after the first two writes of an install that succeed. */
  function Prepared(m: Maps, a: Args): Maps
    requires ArgsFit(a)
  {
    m.(pdr := m.pdr[a.pdr := Pdr(a.far, a.qer, a.prec, a.urr)], bundle := m.bundle[a.pdr := InitialBundle(a)])
  }

  /** All six numbers fit 32 bits and both tables have the PDR or room for it. */
  predicate Installable(m: Maps, a: Args) {
    && 0 <= a.teid < 0x1_0000_0000 && 0 <= a.pdr < 0x1_0000_0000 && 0 <= a.qer < 0x1_0000_0000
    && 0 <= a.far < 0x1_0000_0000 && 0 <= a.prec < 0x1_0000_0000 && 0 <= a.urr < 0x1_0000_0000
    && (a.pdr in m.pdr || |m.pdr| < 4096) && (a.pdr in m.bundle || |m.bundle| < 4096)
  }

  /** The bundle packets find under the new PDR, field by field. */
  ghost predicate BundleInstalled(m: Maps, a: Args) {
    && a.pdr in m.bundle && |m.bundle[a.pdr]| == 56
    && var t := Live(m.bundle[a.pdr]);
       t.far == a.far && t.qer == a.qer && t.urr == a.urr && t.prec == a.prec && t.gen == 0
  }

  /** Whatever became of the command, the FARs and the other PDRs are as before. */
  ghost predicate OthersKept(m: Maps, m': Maps, pdr: int) {
    && m'.far == m.far
    && (forall k :: k != pdr ==> (k in m'.pdr <==> k in m.pdr) && (k in m'.bundle <==> k in m.bundle))
    && (forall k :: k != pdr && k in m.pdr ==> m'.pdr[k] == m.pdr[k])
    && (forall k :: k != pdr && k in m.bundle ==> m'.bundle[k] == m.bundle[k])
  }

  /** An install that is not disturbed, in closed form. */
  lemma InstallOutcome(m: Maps, a: Args, evicted: set<u32>)
    ensures var m' := Finish(m, PutPdr(a), evicted);
            if Installable(m, a) then
              m' == Prepared(m, a).(sess := (m.sess - evicted)[a.teid := Session(a.pdr, a.qer, a.far)])
            else m'.sess == m.sess
  {
    AfterPutPdr(m, a, evicted);
    if ArgsFit(a) && Accepts(m.pdr, a.pdr) {
      var m1 := m.(pdr := m.pdr[a.pdr := Pdr(a.far, a.qer, a.prec, a.urr)]);
      AfterPutBundle(m1, a, evicted);
      if Accepts(m.bundle, a.pdr) {
        AfterPutTeid(Prepared(m, a), a, evicted);
      }
    }
  }

  lemma InstallKeepsOthers(m: Maps, a: Args, evicted: set<u32>)
    ensures OthersKept(m, Finish(m, PutPdr(a), evicted), a.pdr)
  {
    AfterPutPdr(m, a, evicted);
    if ArgsFit(a) && Accepts(m.pdr, a.pdr) {
      var m1 := m.(pdr := m.pdr[a.pdr := Pdr(a.far, a.qer, a.prec, a.urr)]);
      AfterPutBundle(m1, a, evicted);
      if Accepts(m.bundle, a.pdr) {
        AfterPutTeid(Prepared(m, a), a, evicted);
      }
    }
  }

  lemma PreparedBundle(m: Maps, a: Args)
    requires ArgsFit(a)
    ensures BundleInstalled(Prepared(m, a), a)
  {
    InitialBundleLive(a);
  }

  /** What packets find after an install that went through: session, PDR and bundle, field by field. */
  ghost predicate Installed(m: Maps, m': Maps, a: Args, evicted: set<u32>)
    requires Installable(m, a)
  {
    && m'.sess == (m.sess - evicted)[a.teid := Session(pdr := a.pdr, qer := a.qer, far := a.far)]
    && m'.pdr == m.pdr[a.pdr := Pdr(far := a.far, qer := a.qer, prec := a.prec, urr := a.urr)]
    && BundleInstalled(m', a)
  }

  /**
   * An install becomes visible to packets only when all three writes succeed, and then whole; in no case does it touch
   * another PDR.
   */
  lemma InstallIsAllOrNothing(m: Maps, a: Args, evicted: set<u32>)
    ensures var m' := Finish(m, PutPdr(a), evicted);
            && OthersKept(m, m', a.pdr)
            && if Installable(m, a) then Installed(m, m', a, evicted) else m'.sess == m.sess
  {
    InstallOutcome(m, a, evicted);
    InstallKeepsOthers(m, a, evicted);
    if Installable(m, a) {
      PreparedBundle(m, a);
    }
  }

  /** A modification with nothing in between: the second write is what remains, under the same keys. */
  lemma ModifyOutcome(m: Maps, id: int, c: Change)
    ensures var op := Start(m, Command.Modify(id, c));
            var m' := Finish(m, op, {});
            if op.Idle? then m' == m
            else id in m.bundle && m' == m.(bundle := m.bundle[id := op.w.step2])
  {
    var op := Start(m, Command.Modify(id, c));
    if !op.Idle? {
      var m1 := m.(bundle := m.bundle[id := op.w.step1]);
      AfterStage(m, id, op.w);
      AfterCommit(m1, id, op.w);
      assert m.bundle[id := op.w.step1][id := op.w.step2] == m.bundle[id := op.w.step2];
    }
  }

  /** Exactly when a modification goes ahead, and what packets then see: the record update, under the same keys. */
  lemma ModifyVisible(m: Maps, id: int, c: Change)
    ensures var op := Start(m, Command.Modify(id, c));
            var m' := Finish(m, op, {});
            && (op.Stage? <==> FitsU32(id) && id in m.bundle && IsBundle(m.bundle[id])
                               && Apply(Live(m.bundle[id]), c).Some?)
            && (op.Stage? ==>
                  && m'.bundle.Keys == m.bundle.Keys
                  && (forall k :: k in m.bundle && k != id ==> m'.bundle[k] == m.bundle[k])
                  && IsBundle(m'.bundle[id]) && Live(m'.bundle[id]) == Apply(Live(m.bundle[id]), c).value
                  && op.w.gen == Live(m'.bundle[id]).gen)
  {
    ModifyOutcome(m, id, c);
    if FitsU32(id) && id in m.bundle && IsBundle(m.bundle[id]) {
      ModifyIsRecordUpdate(m.bundle[id], c);
    }
  }
}
