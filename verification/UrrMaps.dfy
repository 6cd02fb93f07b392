/** urr_counters as one CPU's upf_urr_update and the agent's read_urr see it. */
module UrrMaps {
  import opened Words
  import opened UrrRace

  class UrrMap {
    var counters: Counters
    var updated: nat
    const cpus: nat

    ghost predicate Valid()
      reads this
    {
      forall u :: u in counters ==> |counters[u]| == cpus
    }

    constructor (n: nat)
      ensures Valid() && cpus == n && counters == map[] && updated == 0
    {
      counters, updated, cpus := map[], 0, n;
    }

    /** upf_urr_update with no other CPU between its lookup and its write. */
    method UrrUpdate(cpu: nat, urr: u32, len: u32)
      requires Valid() && cpu < cpus
      modifies this
      ensures Valid()
      ensures counters == Account(old(counters), cpus, cpu, urr, len)
      ensures updated == old(updated) + if urr == 0 then 0 else 1
    {
      if urr == 0 {
        return;
      }
      if urr in counters {
        var row := counters[urr];
        row := row[cpu := row[cpu].(bytes := Add64(row[cpu].bytes, len))];
        row := row[cpu := row[cpu].(pkts := Add64(row[cpu].pkts, 1))];
        assert row == counters[urr][cpu := Bumped(counters[urr][cpu], len)];
        counters := counters[urr := row];
      } else if |counters| < MAX_URRS {
        counters := counters[urr := NewRow(cpus, cpu, len)];
      }
      updated := updated + 1;
    }

    /** The agent's read_urr: the key's values added up over the CPUs. */
    method ReadUrr(urr: u32) returns (r: Option<(nat, nat)>)
      requires Valid()
      ensures r.None? <==> urr !in counters
      ensures r.Some? ==> r.value == (BytesOf(counters[urr]), PktsOf(counters[urr]))
    {
      if urr !in counters {
        return None;
      }
      var row := counters[urr];
      var bytes, pkts := 0, 0;
      for c := 0 to |row|
        invariant bytes == BytesOf(row[..c]) && pkts == PktsOf(row[..c])
      {
        assert row[..c + 1] == row[..c] + [row[c]];
        LastUsage(row[..c], row[c]);
        bytes, pkts := bytes + row[c].bytes, pkts + row[c].pkts;
      }
      assert row[..|row|] == row;
      return Some((bytes, pkts));
    }
  }
}
