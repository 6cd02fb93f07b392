/** upf_qer_admit of bpf/upf_tc.c:46-134 on its maps, in both builds. */
module QerState {
  import opened Words
  import opened TokenBucket

  /** qer_table next to one instance of qer_state: a CPU's own in the default build, the global one in the
      shared build, where each call runs under the bucket's spin lock. */
  class QerMaps {
    var qerTable: seq<Qer>
    const tokensBytes: array<u64>
    const lastNs: array<u64>

    ghost predicate Valid()
      reads this
    {
      tokensBytes != lastNs && |qerTable| == tokensBytes.Length == lastNs.Length == MAX_QERS
    }

    function At(id: nat): Bucket
      requires Valid() && id < MAX_QERS
      reads this, tokensBytes, lastNs
    {
      Bucket(tokensBytes[id], lastNs[id])
    }

    constructor ()
      ensures Valid() && fresh(tokensBytes) && fresh(lastNs)
      ensures forall id :: 0 <= id < 4096 ==> At(id) == Bucket(0, 0) && qerTable[id] == Qer(0, 0)
    {
      qerTable := seq(MAX_QERS, _ => Qer(0, 0));
      tokensBytes := new u64[MAX_QERS](_ => 0);
      lastNs := new u64[MAX_QERS](_ => 0);
    }

    /** upf_qer_admit of the default build. */
    method AdmitPerCpu(id: u32, now: u64, len: u32) returns (admit: bool)
      requires Valid()
      modifies tokensBytes, lastNs
      ensures Valid()
      ensures id >= 4096 || qerTable[id].mbr == 0
              ==> admit && tokensBytes[..] == old(tokensBytes[..]) && lastNs[..] == old(lastNs[..])
      ensures id < 4096 && qerTable[id].mbr != 0
              ==> Outcome(At(id), admit) == Admit(qerTable[id], old(At(id)), Call(now, len))
      ensures forall k :: 0 <= k < 4096 && k != id ==> At(k) == old(At(k))
    {
      if id >= MAX_QERS || qerTable[id].mbr == 0 {
        return true;
      }
      var qv := qerTable[id];
      if lastNs[id] == 0 {
        tokensBytes[id] := qv.burst;
        lastNs[id] := now;
      } else {
        var elapsed: u64 := Since(lastNs[id], now);
        if elapsed > NS_CAP {
          elapsed := NS_CAP;
        }
        var refill: u64 := (elapsed * qv.mbr) % U64_LIMIT / BIT_NS;
        tokensBytes[id] := (tokensBytes[id] + refill) % U64_LIMIT;
        if tokensBytes[id] > qv.burst {
          tokensBytes[id] := qv.burst;
        }
        lastNs[id] := now;
      }
      if tokensBytes[id] >= len {
        tokensBytes[id] := tokensBytes[id] - len;
        return true;
      }
      return false;
    }

    /** upf_qer_admit of the shared build; `now` was sampled before the lock was taken. */
    method AdmitShared(id: u32, now: u64, len: u32) returns (admit: bool)
      requires Valid()
      modifies tokensBytes, lastNs
      ensures Valid()
      ensures id >= 4096 || qerTable[id].mbr == 0
              ==> admit && tokensBytes[..] == old(tokensBytes[..]) && lastNs[..] == old(lastNs[..])
      ensures id < 4096 && qerTable[id].mbr != 0
              ==> Outcome(At(id), admit) == SharedAdmit(qerTable[id], old(At(id)), Call(now, len))
      ensures forall k :: 0 <= k < 4096 && k != id ==> At(k) == old(At(k))
    {
      if id >= MAX_QERS || qerTable[id].mbr == 0 {
        return true;
      }
      var qv := qerTable[id];
      if lastNs[id] == 0 {
        tokensBytes[id] := qv.burst;
        lastNs[id] := now;
      } else {
        var elapsed: u64 := GuardedSince(lastNs[id], now);
        if elapsed > NS_CAP {
          elapsed := NS_CAP;
        }
        var refill: u64 := (elapsed * qv.mbr) % U64_LIMIT / BIT_NS;
        tokensBytes[id] := (tokensBytes[id] + refill) % U64_LIMIT;
        if tokensBytes[id] > qv.burst {
          tokensBytes[id] := qv.burst;
        }
        lastNs[id] := now;
      }
      if tokensBytes[id] >= len {
        tokensBytes[id] := tokensBytes[id] - len;
        admit := true;
      } else {
        admit := false;
      }
    }
  }
}
