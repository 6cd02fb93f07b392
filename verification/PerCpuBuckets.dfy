/** The default build on N CPUs: one bucket per CPU for the same QER (bpf/upf_maps.h:62-75, bpf/upf_tc.c:99-133). */
module PerCpuBuckets {
  import opened Words
  import opened TokenBucket

  datatype Hit = Hit(cpu: nat, call: Call)

  ghost predicate On(n: nat, hits: seq<Hit>) {
    forall i :: 0 <= i < |hits| ==> hits[i].cpu < n
  }

  /** The buckets after any interleaving of calls on any CPUs. */
  function RunAll(q: Qer, bs: seq<Bucket>, hits: seq<Hit>): (r: seq<Bucket>)
    requires On(|bs|, hits)
    ensures |r| == |bs|
    decreases |hits|
  {
    if hits == [] then bs
    else
      var h := hits[0];
      RunAll(q, bs[h.cpu := Admit(q, bs[h.cpu], h.call).bucket], hits[1..])
  }

  /** Bytes admitted by all CPUs together. */
  function Total(q: Qer, bs: seq<Bucket>, hits: seq<Hit>): nat
    requires On(|bs|, hits)
    decreases |hits|
  {
    if hits == [] then 0
    else
      var h := hits[0];
      var o := Admit(q, bs[h.cpu], h.call);
      Paid(o, h.call.len) + Total(q, bs[h.cpu := o.bucket], hits[1..])
  }

  /** The calls one CPU made. */
  function Projection(hits: seq<Hit>, c: nat): seq<Call> {
    if hits == [] then []
    else (if hits[0].cpu == c then [hits[0].call] else []) + Projection(hits[1..], c)
  }

  /** What CPU c admits when it runs alone on its own calls. */
  function Share(q: Qer, bs: seq<Bucket>, hits: seq<Hit>, c: nat): nat
    requires c < |bs|
  {
    Admitted(q, bs[c], Projection(hits, c))
  }

  /** The first k CPUs' shares together. */
  function Separately(q: Qer, bs: seq<Bucket>, hits: seq<Hit>, k: nat): nat
    requires k <= |bs|
  {
    if k == 0 then 0
    else Separately(q, bs, hits, k - 1) + Share(q, bs, hits, k - 1)
  }

  lemma {:induction false} PeelHit(q: Qer, bs: seq<Bucket>, bs': seq<Bucket>, hits: seq<Hit>, k: nat, paid: nat)
    requires hits != [] && k <= |bs| == |bs'|
    requires forall c :: 0 <= c < |bs| ==>
               Share(q, bs, hits, c) == Share(q, bs', hits[1..], c) + (if hits[0].cpu == c then paid else 0)
    ensures Separately(q, bs, hits, k)
            == Separately(q, bs', hits[1..], k) + (if hits[0].cpu < k then paid else 0)
  {
    if k > 0 {
      PeelHit(q, bs, bs', hits, k - 1, paid);
    }
  }

  /** One CPU's share of the first hit. */
  lemma PeelOwn(q: Qer, b: Bucket, hits: seq<Hit>, c: nat, o: Outcome)
    requires hits != [] && o == Admit(q, b, hits[0].call)
    ensures Admitted(q, b, Projection(hits, c))
            == if hits[0].cpu == c then Paid(o, hits[0].call.len) + Admitted(q, o.bucket, Projection(hits[1..], c))
               else Admitted(q, b, Projection(hits[1..], c))
    ensures After(q, b, Projection(hits, c))
            == After(q, if hits[0].cpu == c then o.bucket else b, Projection(hits[1..], c))
  {
    var rest := Projection(hits[1..], c);
    assert ([hits[0].call] + rest)[1..] == rest && [] + rest == rest;
  }

  lemma {:induction false} NoCalls(q: Qer, bs: seq<Bucket>, k: nat)
    requires k <= |bs|
    ensures Separately(q, bs, [], k) == 0
  {
    if k > 0 {
      NoCalls(q, bs, k - 1);
    }
  }

  /** CPUs do not disturb each other: each bucket ends as if its CPU had run alone, and the totals add up. */
  lemma {:induction false} EachCpuRunsAlone(q: Qer, bs: seq<Bucket>, hits: seq<Hit>)
    requires On(|bs|, hits)
    ensures forall c :: 0 <= c < |bs| ==> RunAll(q, bs, hits)[c] == After(q, bs[c], Projection(hits, c))
    ensures Total(q, bs, hits) == Separately(q, bs, hits, |bs|)
    decreases |hits|
  {
    if hits == [] {
      NoCalls(q, bs, |bs|);
    } else {
      var h := hits[0];
      var o := Admit(q, bs[h.cpu], h.call);
      var bs' := bs[h.cpu := o.bucket];
      EachCpuRunsAlone(q, bs', hits[1..]);
      forall c | 0 <= c < |bs|
        ensures After(q, bs'[c], Projection(hits[1..], c)) == After(q, bs[c], Projection(hits, c))
        ensures Share(q, bs, hits, c)
                == Share(q, bs', hits[1..], c) + (if h.cpu == c then Paid(o, h.call.len) else 0)
      {
        PeelOwn(q, bs[c], hits, c, Admit(q, bs[c], h.call));
      }
      PeelHit(q, bs, bs', hits, |bs|, Paid(o, h.call.len));
    }
  }

  /** Each CPU's own stamps are positive, in order and between t0 and t1; nothing relates stamps across CPUs. */
  ghost predicate Within(n: nat, hits: seq<Hit>, t0: u64, t1: u64) {
    forall c :: 0 <= c < n ==>
      && Ordered(t0, Projection(hits, c))
      && LastStamp(t0, Projection(hits, c)) <= t1
  }

  lemma OneMore(k: int, share: int)
    ensures k * share == (k - 1) * share + share
  {
  }

  lemma OneCpuWithin(q: Qer, b: Bucket, calls: seq<Call>, t0: u64, t1: u64)
    requires t0 <= t1 && Ordered(t0, calls) && LastStamp(t0, calls) <= t1
    ensures Admitted(q, b, calls) <= q.burst + Earned(q, t0, t1) / BIT_NS
  {
    if calls == [] {
      MulMono(0, t1 - t0, q.mbr);
    } else {
      WindowBound(q, b, calls);
      var from, to := calls[0].now, calls[|calls| - 1].now;
      MulMono(to - from, t1 - t0, q.mbr);
      DivMono(Earned(q, from, to), Earned(q, t0, t1), BIT_NS);
    }
  }

  lemma {:induction false} SharesAtMost(q: Qer, bs: seq<Bucket>, hits: seq<Hit>, k: nat, limit: nat)
    requires k <= |bs| && forall c :: 0 <= c < k ==> Share(q, bs, hits, c) <= limit
    ensures Separately(q, bs, hits, k) <= k * limit
  {
    if k > 0 {
      SharesAtMost(q, bs, hits, k - 1, limit);
      OneMore(k, limit);
    }
  }

  lemma SumBound(q: Qer, bs: seq<Bucket>, hits: seq<Hit>, t0: u64, t1: u64)
    requires t0 <= t1 && Within(|bs|, hits, t0, t1)
    ensures Separately(q, bs, hits, |bs|) <= |bs| * (q.burst + Earned(q, t0, t1) / BIT_NS)
  {
    var limit := q.burst + Earned(q, t0, t1) / BIT_NS;
    OneCpuWithin(q, FRESH, [], t0, t1);
    forall c | 0 <= c < |bs|
      ensures Share(q, bs, hits, c) <= limit
    {
      OneCpuWithin(q, bs[c], Projection(hits, c), t0, t1);
    }
    SharesAtMost(q, bs, hits, |bs|, limit);
  }

  /**
   * N-fold bound over every window: from any bucket states, N CPUs sharing a QER admit together at most N times
   * one burst plus the configured rate over the window.
   */
  lemma NFoldBound(q: Qer, bs: seq<Bucket>, hits: seq<Hit>, t0: u64, t1: u64)
    requires On(|bs|, hits) && t0 <= t1 && Within(|bs|, hits, t0, t1)
    ensures Total(q, bs, hits) <= |bs| * (q.burst + Earned(q, t0, t1) / BIT_NS)
  {
    EachCpuRunsAlone(q, bs, hits);
    SumBound(q, bs, hits, t0, t1);
  }
}

/** The N-fold bound is attained. */
module PerCpuTightness {
  import opened Words
  import opened TokenBucket
  import opened PerCpuBuckets

  /** One call on each of the first n CPUs. */
  function Row(n: nat, call: Call): seq<Hit> {
    if n == 0 then [] else Row(n - 1, call) + [Hit(n - 1, call)]
  }

  /** The same calls on every one of n CPUs. */
  function Spread(n: nat, calls: seq<Call>): seq<Hit> {
    if calls == [] then [] else Row(n, calls[0]) + Spread(n, calls[1..])
  }

  lemma {:induction false} ProjectionOfAppend(a: seq<Hit>, b: seq<Hit>, c: nat)
    ensures Projection(a + b, c) == Projection(a, c) + Projection(b, c)
  {
    if a == [] {
      assert a + b == b;
    } else {
      var own := if a[0].cpu == c then [a[0].call] else [];
      assert (a + b)[0] == a[0] && (a + b)[1..] == a[1..] + b;
      ProjectionOfAppend(a[1..], b, c);
      assert own + (Projection(a[1..], c) + Projection(b, c)) == own + Projection(a[1..], c) + Projection(b, c);
    }
  }

  lemma OnAppend(n: nat, a: seq<Hit>, b: seq<Hit>)
    requires On(n, a) && On(n, b)
    ensures On(n, a + b)
  {
  }

  lemma {:induction false} RowOn(n: nat, k: nat, call: Call)
    requires k <= n
    ensures On(n, Row(k, call))
  {
    if k > 0 {
      RowOn(n, k - 1, call);
      OnAppend(n, Row(k - 1, call), [Hit(k - 1, call)]);
    }
  }

  lemma {:induction false} SpreadOn(n: nat, calls: seq<Call>)
    ensures On(n, Spread(n, calls))
  {
    if calls != [] {
      RowOn(n, n, calls[0]);
      SpreadOn(n, calls[1..]);
      OnAppend(n, Row(n, calls[0]), Spread(n, calls[1..]));
    }
  }

  lemma ProjectionOfOne(h: Hit, c: nat)
    ensures Projection([h], c) == if h.cpu == c then [h.call] else []
  {
    assert [h][1..] == [];
    assert Projection([], c) == [];
  }

  lemma {:induction false} ProjectionOfRow(n: nat, call: Call, c: nat)
    ensures Projection(Row(n, call), c) == if c < n then [call] else []
  {
    if n > 0 {
      ProjectionOfRow(n - 1, call, c);
      ProjectionOfAppend(Row(n - 1, call), [Hit(n - 1, call)], c);
      ProjectionOfOne(Hit(n - 1, call), c);
    }
  }

  lemma {:induction false} SpreadProjects(n: nat, calls: seq<Call>, c: nat)
    requires c < n
    ensures Projection(Spread(n, calls), c) == calls
  {
    if calls != [] {
      var row, rest := Row(n, calls[0]), Spread(n, calls[1..]);
      SpreadProjects(n, calls[1..], c);
      ProjectionOfRow(n, calls[0], c);
      ProjectionOfAppend(row, rest, c);
      assert calls == [calls[0]] + calls[1..];
    }
  }

  lemma {:induction false} EqualShares(q: Qer, bs: seq<Bucket>, hits: seq<Hit>, k: nat, share: nat)
    requires k <= |bs| && forall c :: 0 <= c < k ==> Share(q, bs, hits, c) == share
    ensures Separately(q, bs, hits, k) == k * share
  {
    if k > 0 {
      EqualShares(q, bs, hits, k - 1, share);
      OneMore(k, share);
    }
  }

  /** For every N and every single-bucket run there is an N-CPU run that admits exactly N times as much. */
  lemma NFoldIsTight(q: Qer, n: nat, calls: seq<Call>)
    ensures On(n, Spread(n, calls))
    ensures Total(q, seq(n, _ => FRESH), Spread(n, calls)) == n * Admitted(q, FRESH, calls)
    ensures forall c :: 0 <= c < n ==> Projection(Spread(n, calls), c) == calls
  {
    SpreadOn(n, calls);
    var bs := seq(n, _ => FRESH);
    forall c | 0 <= c < n
      ensures Projection(Spread(n, calls), c) == calls
      ensures Share(q, bs, Spread(n, calls), c) == Admitted(q, FRESH, calls)
    {
      SpreadProjects(n, calls, c);
    }
    EachCpuRunsAlone(q, bs, Spread(n, calls));
    EqualShares(q, bs, Spread(n, calls), n, Admitted(q, FRESH, calls));
  }

  /**
   * The N-fold bound is attained: for every rate and every wait of up to a second that earns a whole number k of
   * bytes, N CPUs admit exactly N times a burst and k bytes.
   */
  lemma NFoldBoundIsExact(q: Qer, n: nat, wait: nat, k: u32)
    requires WholeBytes(q, wait, k)
    ensures var hits, bs := Spread(n, SpendTwice(q, wait, k)), seq(n, _ => FRESH);
            && On(n, hits) && Within(n, hits, 1, 1 + wait)
            && Total(q, bs, hits) == n * (q.burst + k) == n * (q.burst + Earned(q, 1, 1 + wait) / BIT_NS)
  {
    var calls := SpendTwice(q, wait, k);
    WindowBoundIsExact(q, wait, k);
    NFoldIsTight(q, n, calls);
    assert Ordered(1, calls) && LastStamp(1, calls) == 1 + wait;
  }
}
