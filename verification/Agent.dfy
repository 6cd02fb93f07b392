/** The control-plane agent writing its maps (loader/agent.py:163-232). */
module Agent {
  import opened Words
  import opened TcBundle
  import opened Datapath
  import opened ControlPlane

  class PfcpAgent {
    var teidSession: map<u32, Session>
    var pdrTable: map<u32, Datapath.Pdr>
    var tcBundleMap: map<u32, seq<byte>>
    var farTable: seq<Datapath.Far>

    constructor (far: seq<Datapath.Far>)
      ensures Snapshot() == Maps(map[], map[], map[], far)
    {
      teidSession, pdrTable, tcBundleMap, farTable := map[], map[], map[], far;
    }

    /** The maps as the data path reads them. */
    function Snapshot(): Maps
      reads this
    {
      Maps(teidSession, pdrTable, tcBundleMap, farTable)
    }

    /** A write to tc_bundle_map: false is the OSError of a full map. */
    method UpdateBundle(id: u32, raw: seq<byte>) returns (ok: bool)
      modifies this`tcBundleMap
      ensures ok == (id in old(tcBundleMap) || |old(tcBundleMap)| < 4096)
      ensures tcBundleMap == if ok then old(tcBundleMap)[id := raw] else old(tcBundleMap)
    {
      ok := id in tcBundleMap || |tcBundleMap| < MAX_PDRS;
      if ok {
        tcBundleMap := tcBundleMap[id := raw];
      }
    }

    /** install_tc_bundle: both slots identical, slot 0 live. */
    method InstallTcBundle(a: Args) returns (ok: bool)
      modifies this`tcBundleMap
      ensures ok == (ArgsFit(a) && (a.pdr in old(tcBundleMap) || |old(tcBundleMap)| < 4096))
      ensures tcBundleMap == if ok then old(tcBundleMap)[a.pdr := InitialBundle(a)] else old(tcBundleMap)
    {
      if !ArgsFit(a) {
        return false;
      }
      var slot := EncSlot(Tuple(a.far, a.qer, a.urr, a.prec, 0));
      ok := UpdateBundle(a.pdr, EncBundle(0, slot, slot));
    }

    /** The write to pdr_table. */
    method UpdatePdr(a: Args) returns (ok: bool)
      modifies this`pdrTable
      ensures ok == (ArgsFit(a) && (a.pdr in old(pdrTable) || |old(pdrTable)| < 4096))
      ensures pdrTable == if ok then old(pdrTable)[a.pdr := Pdr(a.far, a.qer, a.prec, a.urr)] else old(pdrTable)
    {
      ok := ArgsFit(a) && (a.pdr in pdrTable || |pdrTable| < MAX_PDRS);
      if ok {
        pdrTable := pdrTable[a.pdr := Pdr(a.far, a.qer, a.prec, a.urr)];
      }
    }

    /** install_session; false stands for the exception that ends it. */
    method InstallSession(a: Args, evicted: set<u32>) returns (ok: bool)
      modifies this
      ensures Snapshot() == Finish(old(Snapshot()), PutPdr(a), evicted)
      ensures ok <==> Installable(old(Snapshot()), a)
      ensures if ok then Installed(old(Snapshot()), Snapshot(), a, evicted) else teidSession == old(teidSession)
      ensures OthersKept(old(Snapshot()), Snapshot(), a.pdr)
    {
      AfterPutPdr(Snapshot(), a, evicted);
      InstallIsAllOrNothing(Snapshot(), a, evicted);
      ok := UpdatePdr(a);
      if !ok {
        return false;
      }
      AfterPutBundle(Snapshot(), a, evicted);
      ok := InstallTcBundle(a);
      if !ok {
        return false;
      }
      AfterPutTeid(Snapshot(), a, evicted);
      if !FitsU32(a.teid) {
        return false;
      }
      teidSession := (teidSession - evicted)[a.teid := Session(a.pdr, a.qer, a.far)];
      return true;
    }

    /** remove_session; deleting an absent key is not an error. */
    method RemoveSession(teid: int, pdr: int)
      modifies this
      ensures Snapshot() == Finish(old(Snapshot()), DelTeid(teid, pdr), {})
      ensures farTable == old(farTable)
      ensures teidSession == if 0 <= teid < 0x1_0000_0000 then old(teidSession) - {teid} else old(teidSession)
      ensures if 0 <= teid < 0x1_0000_0000 && 0 <= pdr < 0x1_0000_0000
              then pdrTable == old(pdrTable) - {pdr} && tcBundleMap == old(tcBundleMap) - {pdr}
              else pdrTable == old(pdrTable) && tcBundleMap == old(tcBundleMap)
    {
      AfterDelTeid(Snapshot(), teid, pdr);
      if !FitsU32(teid) {
        return;
      }
      teidSession := teidSession - {teid};
      AfterDelPdr(Snapshot(), pdr);
      if !FitsU32(pdr) {
        return;
      }
      pdrTable := pdrTable - {pdr};
      AfterDelBundle(Snapshot(), pdr);
      tcBundleMap := tcBundleMap - {pdr};
    }

    /** modify_tc_bundle: the new generation, or None where it raises. */
    method ModifyTcBundle(id: int, c: Change) returns (gen: Option<u32>)
      modifies this`tcBundleMap
      ensures Snapshot() == Finish(old(Snapshot()), Start(old(Snapshot()), Command.Modify(id, c)), {})
      ensures gen.None? ==> tcBundleMap == old(tcBundleMap)
      ensures gen.Some? <==> FitsU32(id) && id in old(tcBundleMap) && IsBundle(old(tcBundleMap)[id])
                             && Apply(Live(old(tcBundleMap)[id]), c).Some?
      ensures gen.Some? ==>
                && tcBundleMap.Keys == old(tcBundleMap.Keys)
                && (forall k :: k in old(tcBundleMap) && k != id ==> tcBundleMap[k] == old(tcBundleMap)[k])
                && IsBundle(tcBundleMap[id])
                && Live(tcBundleMap[id]) == Apply(Live(old(tcBundleMap)[id]), c).value
                && gen.value == Live(tcBundleMap[id]).gen
    {
      ModifyOutcome(Snapshot(), id, c);
      ModifyVisible(Snapshot(), id, c);
      if !FitsU32(id) || id !in tcBundleMap || |tcBundleMap[id]| != 56 {
        return None;
      }
      var w := PrepareWrites(tcBundleMap[id], c);
      if w.None? {
        return None;
      }
      var ok := UpdateBundle(id, w.value.step1);
      ok := UpdateBundle(id, w.value.step2);
      return Some(w.value.gen);
    }
  }

  /** The part of modify_tc_bundle between its lookup and its first write. */
  method PrepareWrites(raw: seq<byte>, c: Change) returns (w: Option<Writes>)
    requires IsBundle(raw)
    ensures w == TcBundle.Modify(raw, c)
  {
    var active := U32At(raw, 0) % 2;
    var off := 8 + active * 24;
    var cur := Tuple(U32At(raw, off), U32At(raw, off + 4), U32At(raw, off + 8), U32At(raw, off + 12),
                     U32At(raw, off + 16));
    var inactive := 1 - active;
    var far, qer, urr, prec := Or(c.far, cur.far), Or(c.qer, cur.qer), Or(c.urr, cur.urr), Or(c.prec, cur.prec);
    if !FitsU32(far) || !FitsU32(qer) || !FitsU32(urr) || !FitsU32(prec) || !FitsU32(cur.gen + 1) {
      return None;
    }
    var next := Tuple(far, qer, urr, prec, cur.gen + 1);
    var slot0, slot1 := EncSlot(if active == 0 then cur else next), EncSlot(if active == 0 then next else cur);
    return Some(Writes(EncBundle(active, slot0, slot1), EncBundle(inactive, slot0, slot1), next.gen));
  }
}
