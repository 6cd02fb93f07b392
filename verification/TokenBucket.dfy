/** The QER token bucket of bpf/upf_tc.c, in both builds, and what one bucket admits over any run of calls. */
module TokenBucket {
  import opened Words

  const MAX_QERS: nat := 4096
  const NS_CAP: nat := 1_000_000_000
  /** Nanoseconds times bits per second, per byte. */
  const BIT_NS: nat := 8_000_000_000

  datatype Qer = Qer(mbr: u64, burst: u32)
  datatype Bucket = Bucket(tokens: u64, last: u64)
  datatype Call = Call(now: u64, len: u32)
  datatype Outcome = Outcome(bucket: Bucket, admit: bool)

  const FRESH := Bucket(0, 0)

  /** `now - last` on u64, as the per-CPU build computes it. */
  function Since(last: u64, now: u64): u64 {
    if now >= last then now - last else now - last + U64_LIMIT
  }

  /** The shared build's guard: a stamp older than `last_ns` contributes nothing. */
  function GuardedSince(last: u64, now: u64): u64 {
    if now > last then now - last else 0
  }

  /** Cap, multiply on u64, divide: the bytes one refill adds. */
  function Refill(mbr: u64, elapsed: nat): u64 {
    var e := if elapsed > NS_CAP then NS_CAP else elapsed;
    (e * mbr) % U64_LIMIT / BIT_NS
  }

  function TopUp(q: Qer, tokens: u64, elapsed: nat): u64 {
    var t := (tokens + Refill(q.mbr, elapsed)) % U64_LIMIT;
    if t > q.burst then q.burst else t
  }

  function Refilled(q: Qer, b: Bucket, now: u64): Bucket {
    if b.last == 0 then Bucket(q.burst, now) else Bucket(TopUp(q, b.tokens, Since(b.last, now)), now)
  }

  function SharedRefilled(q: Qer, b: Bucket, now: u64): Bucket {
    if b.last == 0 then Bucket(q.burst, now) else Bucket(TopUp(q, b.tokens, GuardedSince(b.last, now)), now)
  }

  function Debit(b: Bucket, len: u32): Outcome {
    if b.tokens >= len then Outcome(b.(tokens := b.tokens - len), true) else Outcome(b, false)
  }

  function Admit(q: Qer, b: Bucket, c: Call): Outcome {
    Debit(Refilled(q, b, c.now), c.len)
  }

  function SharedAdmit(q: Qer, b: Bucket, c: Call): Outcome {
    Debit(SharedRefilled(q, b, c.now), c.len)
  }

  /** Bytes a decision lets through. */
  function Paid(o: Outcome, len: u32): nat {
    if o.admit then len else 0
  }

  // ---- Runs of one bucket under a fixed configuration ----

  function After(q: Qer, b: Bucket, calls: seq<Call>): Bucket
    decreases |calls|
  {
    if calls == [] then b else After(q, Admit(q, b, calls[0]).bucket, calls[1..])
  }

  /** Bytes admitted over a run. */
  function Admitted(q: Qer, b: Bucket, calls: seq<Call>): nat
    decreases |calls|
  {
    if calls == [] then 0
    else
      var o := Admit(q, b, calls[0]);
      Paid(o, calls[0].len) + Admitted(q, o.bucket, calls[1..])
  }

  /** Stamps are positive, never run backwards and start no earlier than `from`. */
  ghost predicate Ordered(from: u64, calls: seq<Call>) {
    && (forall i :: 0 <= i < |calls| ==> from <= calls[i].now && 0 < calls[i].now)
    && (forall i, j :: 0 <= i < j < |calls| ==> calls[i].now <= calls[j].now)
  }

  function LastStamp(from: u64, calls: seq<Call>): u64 {
    if calls == [] then from else calls[|calls| - 1].now
  }

  /** What the configured rate earns between two stamps, in units of 1/BIT_NS byte. */
  function Earned(q: Qer, from: int, to: int): int {
    (to - from) * q.mbr
  }

  lemma EarnsForward(q: Qer, from: int, to: int)
    requires from <= to
    ensures Earned(q, from, to) == (to - from) * q.mbr && Earned(q, from, to) / BIT_NS >= 0
  {
    MulMono(0, to - from, q.mbr);
  }

  lemma WholePart(x: nat, r: nat)
    requires r == x / BIT_NS
    ensures BIT_NS * r <= x < BIT_NS * (r + 1)
  {
  }

  lemma Cut(x: nat, m: nat)
    requires m > 0
    ensures x % m <= x && x % m <= m - 1
  {
  }

  /** What one refill adds is never more than the exact allowance, wrapped product or not. */
  lemma RefillAtMost(mbr: u64, elapsed: nat)
    ensures BIT_NS * Refill(mbr, elapsed) <= elapsed * mbr
    ensures Refill(mbr, elapsed) <= (U64_LIMIT - 1) / BIT_NS
  {
    var e := if elapsed > NS_CAP then NS_CAP else elapsed;
    var product := e * mbr;
    var kept := product % U64_LIMIT;
    MulMono(e, elapsed, mbr);
    Cut(product, U64_LIMIT);
    WholePart(kept, Refill(mbr, elapsed));
    DivMono(kept, U64_LIMIT - 1, BIT_NS);
  }

  /** A bucket within its burst never wraps on the addition of upf_tc.c:122, and refills to within its burst. */
  lemma NoOverflow(q: Qer, b: Bucket, elapsed: nat)
    requires b.tokens <= q.burst
    ensures b.tokens + Refill(q.mbr, elapsed) < U64_LIMIT
    ensures TopUp(q, b.tokens, elapsed)
            == (if b.tokens + Refill(q.mbr, elapsed) > q.burst then q.burst else b.tokens + Refill(q.mbr, elapsed))
  {
    RefillAtMost(q.mbr, elapsed);
  }

  /**
   * How full a refill leaves a bucket, in whole numbers: up to one second is worth its nanoseconds times the rate, cut
   * to 64 bits; the bucket is full if that covers what is missing, and otherwise gains the whole bytes in it.
   */
  ghost predicate LevelAfter(mbr: nat, burst: nat, tokens: nat, elapsed: nat, level: nat) {
    var earned := (if elapsed > 1_000_000_000 then 1_000_000_000 * mbr else elapsed * mbr) % 0x1_0000_0000_0000_0000;
    if 8_000_000_000 * (burst - tokens) <= earned then level == burst
    else 8_000_000_000 * level <= 8_000_000_000 * tokens + earned < 8_000_000_000 * (level + 1)
  }

  /** Clamping the whole bytes earned is filling up what is missing, or else adding them. */
  lemma Clamped(burst: nat, tokens: nat, earned: nat, r: nat)
    requires BIT_NS * r <= earned < BIT_NS * (r + 1)
    ensures BIT_NS * (burst - tokens) <= earned <==> burst <= tokens + r
    ensures BIT_NS * (tokens + r) <= BIT_NS * tokens + earned < BIT_NS * (tokens + r + 1)
  {
  }

  lemma RefillIsWhole(mbr: u64, elapsed: nat)
    ensures var earned := (if elapsed > NS_CAP then NS_CAP * mbr else elapsed * mbr) % U64_LIMIT;
            BIT_NS * Refill(mbr, elapsed) <= earned < BIT_NS * (Refill(mbr, elapsed) + 1)
  {
    var earned := (if elapsed > NS_CAP then NS_CAP * mbr else elapsed * mbr) % U64_LIMIT;
    WholePart(earned, Refill(mbr, elapsed));
  }

  lemma SmallSum(q: Qer, tokens: u64, elapsed: nat)
    requires tokens < U32_LIMIT
    ensures var sum := tokens + Refill(q.mbr, elapsed);
            TopUp(q, tokens, elapsed) == if sum > q.burst then q.burst else sum
  {
    RefillAtMost(q.mbr, elapsed);
  }

  lemma TopUpLevel(q: Qer, tokens: u64, elapsed: nat)
    requires tokens < U32_LIMIT
    ensures LevelAfter(q.mbr, q.burst, tokens, elapsed, TopUp(q, tokens, elapsed))
  {
    RefillIsWhole(q.mbr, elapsed);
    SmallSum(q, tokens, elapsed);
    var earned := (if elapsed > NS_CAP then NS_CAP * q.mbr else elapsed * q.mbr) % U64_LIMIT;
    Clamped(q.burst, tokens, earned, Refill(q.mbr, elapsed));
  }

  /** What one call does, for every configuration, bucket and stamp: the level decides, and pays. */
  lemma AdmitOutcome(q: Qer, b: Bucket, c: Call)
    requires b.tokens < U32_LIMIT
    ensures var o := Admit(q, b, c);
            var level := o.bucket.tokens + (if o.admit then c.len else 0);
            && o.bucket.last == c.now && (o.admit <==> c.len <= level)
            && if b.last == 0 then level == q.burst
               else
                 LevelAfter(q.mbr, q.burst, b.tokens,
                            if c.now >= b.last then c.now - b.last else c.now - b.last + 0x1_0000_0000_0000_0000, level)
  {
    TopUpLevel(q, b.tokens, Since(b.last, c.now));
  }

  /** The same for the shared build, where a stamp older than the stored one earns nothing. */
  lemma SharedAdmitOutcome(q: Qer, b: Bucket, c: Call)
    requires b.tokens < U32_LIMIT
    ensures var o := SharedAdmit(q, b, c);
            var level := o.bucket.tokens + (if o.admit then c.len else 0);
            && o.bucket.last == c.now && (o.admit <==> c.len <= level)
            && if b.last == 0 then level == q.burst
               else LevelAfter(q.mbr, q.burst, b.tokens, if c.now > b.last then c.now - b.last else 0, level)
  {
    TopUpLevel(q, b.tokens, GuardedSince(b.last, c.now));
  }

  /** Past one second nothing more is earned: the level is that of a call exactly one second after the last. */
  lemma OneSecondIsAll(q: Qer, b: Bucket, c: Call)
    requires 0 < b.last && c.now > b.last + 1_000_000_000
    ensures var o, p := Admit(q, b, c), Admit(q, b, Call(b.last + 1_000_000_000, c.len));
            o.admit == p.admit && o.bucket.tokens == p.bucket.tokens
    ensures var o, p := SharedAdmit(q, b, c), SharedAdmit(q, b, Call(b.last + 1_000_000_000, c.len));
            o.admit == p.admit && o.bucket.tokens == p.bucket.tokens
  {
  }

  lemma LevelCapped(mbr: nat, burst: nat, tokens: nat, elapsed: nat, level: nat)
    requires elapsed >= 1_000_000_000 && LevelAfter(mbr, burst, tokens, elapsed, level)
    ensures LevelAfter(mbr, burst, tokens, 1_000_000_000, level)
  {
    assert elapsed == 1_000_000_000 ==> elapsed * mbr == 1_000_000_000 * mbr;
  }

  lemma LevelUnearned(mbr: nat, burst: nat, tokens: nat, level: nat)
    requires LevelAfter(mbr, burst, tokens, 0, level)
    ensures level == if tokens < burst then tokens else burst
  {
    assert 0 * mbr == 0;
  }

  /**
   * A stamp older than the stored one, in the default build: it becomes the stored one; the difference wraps and,
   * unless it comes within a second of wrapping back, earns a whole second.
   */
  lemma OlderStampWraps(q: Qer, b: Bucket, c: Call)
    requires b.tokens < U32_LIMIT && c.now < b.last
    ensures var o := Admit(q, b, c);
            && o.bucket.last == c.now
            && (b.last - c.now <= 0xffff_ffff_c465_3600 ==>
                  LevelAfter(q.mbr, q.burst, b.tokens, 1_000_000_000, o.bucket.tokens + if o.admit then c.len else 0))
  {
    var o := Admit(q, b, c);
    var level := o.bucket.tokens + if o.admit then c.len else 0;
    AdmitOutcome(q, b, c);
    if b.last - c.now <= 0xffff_ffff_c465_3600 {
      LevelCapped(q.mbr, q.burst, b.tokens, c.now - b.last + U64_LIMIT, level);
    }
  }

  /** In the shared build it becomes the stored one, too, and earns nothing. */
  lemma OlderStampEarnsNothing(q: Qer, b: Bucket, c: Call)
    requires b.tokens < U32_LIMIT && c.now < b.last
    ensures var o := SharedAdmit(q, b, c);
            && o.bucket.last == c.now
            && o.bucket.tokens + (if o.admit then c.len else 0) == if b.tokens < q.burst then b.tokens else q.burst
  {
    var o := SharedAdmit(q, b, c);
    SharedAdmitOutcome(q, b, c);
    LevelUnearned(q.mbr, q.burst, b.tokens, o.bucket.tokens + if o.admit then c.len else 0);
  }

  /** One in-order call: tokens left plus bytes paid are covered by the tokens held and the time passed. */
  lemma OneCallSpends(q: Qer, b: Bucket, c: Call)
    requires 0 < b.last <= c.now && b.tokens <= q.burst
    ensures var o := Admit(q, b, c);
            && o.bucket.tokens <= q.burst && o.bucket.last == c.now
            && BIT_NS * (Paid(o, c.len) + o.bucket.tokens) <= BIT_NS * b.tokens + Earned(q, b.last, c.now)
  {
    NoOverflow(q, b, c.now - b.last);
    RefillAtMost(q.mbr, c.now - b.last);
  }

  lemma Split(q: Qer, t0: int, t1: int, t2: int)
    ensures Earned(q, t0, t2) == Earned(q, t1, t2) + Earned(q, t0, t1)
  {
  }

  lemma {:induction false} RunSpends(q: Qer, b: Bucket, calls: seq<Call>)
    requires 0 < b.last && b.tokens <= q.burst && Ordered(b.last, calls)
    ensures var e := After(q, b, calls);
            && e.tokens <= q.burst && b.last <= e.last == LastStamp(b.last, calls)
            && BIT_NS * (Admitted(q, b, calls) + e.tokens) <= BIT_NS * b.tokens + Earned(q, b.last, e.last)
    decreases |calls|
  {
    if calls != [] {
      var o := Admit(q, b, calls[0]);
      OneCallSpends(q, b, calls[0]);
      RunSpends(q, o.bucket, calls[1..]);
      var e := After(q, b, calls);
      Split(q, b.last, o.bucket.last, e.last);
    }
  }

  /**
   * Every-window rate bound. Whatever state the bucket is in, the bytes admitted over any nonempty stretch of
   * in-order calls are at most one burst plus the configured rate over the stretch, for every u64 rate.
   */
  lemma {:induction false} WindowBound(q: Qer, b: Bucket, window: seq<Call>)
    requires window != [] && Ordered(0, window)
    ensures Admitted(q, b, window) <= q.burst + Earned(q, window[0].now, window[|window| - 1].now) / BIT_NS
  {
    var o := Admit(q, b, window[0]);
    RunSpends(q, o.bucket, window[1..]);
    var earned := Earned(q, window[0].now, window[|window| - 1].now);
    assert BIT_NS * Admitted(q, b, window) <= BIT_NS * q.burst + earned;
    FloorBound(Admitted(q, b, window), q.burst, earned, BIT_NS);
  }

  // ---- The bucket is not stingy either ----

  /** The refill at `now` loses nothing to the one-second cap, to the 64-bit product or to a full bucket. */
  predicate Unclipped(q: Qer, b: Bucket, now: u64) {
    var e := Since(b.last, now);
    e <= NS_CAP && e * q.mbr < U64_LIMIT && b.tokens + e * q.mbr / BIT_NS <= q.burst
  }

  ghost predicate NeverClipped(q: Qer, b: Bucket, calls: seq<Call>)
    decreases |calls|
  {
    calls != [] ==> Unclipped(q, b, calls[0].now) && NeverClipped(q, Admit(q, b, calls[0]).bucket, calls[1..])
  }

  /** What truncating division discards over a run, in units of 1/BIT_NS byte. */
  function Discarded(q: Qer, b: Bucket, calls: seq<Call>): nat
    decreases |calls|
  {
    if calls == [] then 0
    else Since(b.last, calls[0].now) * q.mbr % BIT_NS + Discarded(q, Admit(q, b, calls[0]).bucket, calls[1..])
  }

  /** Without cap and wrap the refill is the exact quotient. */
  lemma UncutRefill(mbr: u64, e: nat)
    requires e <= NS_CAP && e * mbr < U64_LIMIT
    ensures Refill(mbr, e) == e * mbr / BIT_NS
    ensures BIT_NS * Refill(mbr, e) + e * mbr % BIT_NS == e * mbr
  {
    assert (e * mbr) % U64_LIMIT == e * mbr;
  }

  lemma OneCallExact(q: Qer, b: Bucket, c: Call)
    requires 0 < b.last <= c.now && b.tokens <= q.burst && Unclipped(q, b, c.now)
    ensures var o := Admit(q, b, c);
            && o.bucket.tokens <= q.burst && o.bucket.last == c.now
            && BIT_NS * (Paid(o, c.len) + o.bucket.tokens) + Earned(q, b.last, c.now) % BIT_NS
               == BIT_NS * b.tokens + Earned(q, b.last, c.now)
  {
    NoOverflow(q, b, c.now - b.last);
    UncutRefill(q.mbr, c.now - b.last);
  }

  /**
   * One call of the shared build, to the last bit: with an elapsed time, as the guard admits it, that is cut neither by
   * the cap nor by the product nor by the burst, paid, left and discarded amounts are what was held and earned.
   */
  lemma SharedCallExact(q: Qer, b: Bucket, c: Call)
    requires b.last != 0
    requires var e := if c.now > b.last then c.now - b.last else 0;
             e <= 1_000_000_000 && e * q.mbr < 0x1_0000_0000_0000_0000
             && b.tokens + e * q.mbr / 8_000_000_000 <= q.burst
    ensures var e := if c.now > b.last then c.now - b.last else 0;
            var o := SharedAdmit(q, b, c);
            8_000_000_000 * ((if o.admit then c.len else 0) + o.bucket.tokens) + e * q.mbr % 8_000_000_000
            == 8_000_000_000 * b.tokens + e * q.mbr
  {
    var e := GuardedSince(b.last, c.now);
    UncutRefill(q.mbr, e);
    NoOverflow(q, b, e);
  }

  /**
   * Conservation to the last bit, for every configuration: over calls whose refills are not clipped, bytes paid,
   * bytes left and what truncation discarded add up to exactly what was held and what the elapsed time earned.
   */
  lemma {:induction false} ExactAccount(q: Qer, b: Bucket, calls: seq<Call>)
    requires 0 < b.last && b.tokens <= q.burst && Ordered(b.last, calls) && NeverClipped(q, b, calls)
    ensures var e := After(q, b, calls);
            && b.last <= e.last == LastStamp(b.last, calls)
            && BIT_NS * (Admitted(q, b, calls) + e.tokens) + Discarded(q, b, calls)
               == BIT_NS * b.tokens + Earned(q, b.last, e.last)
    ensures Discarded(q, b, calls) <= |calls| * (BIT_NS - 1)
    decreases |calls|
  {
    if calls != [] {
      var o := Admit(q, b, calls[0]);
      OneCallExact(q, b, calls[0]);
      ExactAccount(q, o.bucket, calls[1..]);
      var e := After(q, b, calls);
      Split(q, b.last, o.bucket.last, e.last);
    }
  }

  /** The bucket's state after a run is that after its last call. */
  lemma {:induction false} AfterAppend(q: Qer, b: Bucket, calls: seq<Call>, c: Call)
    ensures After(q, b, calls + [c]) == Admit(q, After(q, b, calls), c).bucket
    ensures Admitted(q, b, calls + [c])
            == Admitted(q, b, calls) + Paid(Admit(q, After(q, b, calls), c), c.len)
    decreases |calls|
  {
    if calls == [] {
      assert calls + [c] == [c];
    } else {
      assert (calls + [c])[1..] == calls[1..] + [c];
      AfterAppend(q, Admit(q, b, calls[0]).bucket, calls[1..], c);
    }
  }

  lemma Scaled(total: int, later: int, burst: int, held: int, earned: int, k: int, len: int)
    requires total == burst - held + later
    requires BIT_NS * (later - held) > earned - BIT_NS * k - BIT_NS * len
    ensures BIT_NS * total > BIT_NS * burst + earned - BIT_NS * k - BIT_NS * len
  {
  }

  /** A run that is never clipped and ends short of `len` has spent its allowance. */
  lemma Shortfall(q: Qer, b: Bucket, calls: seq<Call>, len: u32)
    requires 0 < b.last && b.tokens <= q.burst && Ordered(b.last, calls) && NeverClipped(q, b, calls)
    requires calls != [] && After(q, b, calls).tokens < len
    ensures BIT_NS * (Admitted(q, b, calls) - b.tokens)
            > Earned(q, b.last, LastStamp(b.last, calls)) - BIT_NS * |calls| - BIT_NS * len
  {
    ExactAccount(q, b, calls);
  }

  lemma OrderedTail(full: Call, between: seq<Call>, c: Call)
    requires Ordered(1, [full] + between + [c])
    ensures 0 < full.now && Ordered(full.now, between + [c]) && LastStamp(full.now, between + [c]) == c.now
  {
    assert ([full] + between + [c])[0] == full;
    assert forall i :: 0 <= i < |between| + 1 ==> (between + [c])[i] == ([full] + between + [c])[i + 1];
  }

  /** A rejected last call pays nothing and leaves less than it asked for. */
  lemma RejectedLast(q: Qer, b: Bucket, full: Call, between: seq<Call>, c: Call)
    requires Refilled(q, b, full.now).tokens == q.burst
    requires !Admit(q, After(q, b, [full] + between), c).admit
    ensures var b1 := Admit(q, b, full).bucket;
            && b1.last == full.now && b1.tokens <= q.burst
            && Admitted(q, b, [full] + between) == q.burst - b1.tokens + Admitted(q, b1, between + [c])
            && After(q, b1, between + [c]).tokens < c.len
  {
    assert ([full] + between)[1..] == between;
    AfterAppend(q, Admit(q, b, full).bucket, between, c);
  }

  /**
   * No undue rejection, for every configuration. Call `full` found the bucket full or filled it; none of the k
   * calls after it was clipped, and the last of them, `c`, was rejected. Then the bytes admitted since `full` exceed
   * one burst plus the configured rate, less one byte per call and less the rejected packet itself.
   */
  lemma RejectionIsDeserved(q: Qer, b: Bucket, full: Call, between: seq<Call>, c: Call)
    requires Ordered(1, [full] + between + [c])
    requires Refilled(q, b, full.now).tokens == q.burst
    requires NeverClipped(q, Admit(q, b, full).bucket, between + [c])
    requires !Admit(q, After(q, b, [full] + between), c).admit
    ensures var k := |between| + 1;
            BIT_NS * Admitted(q, b, [full] + between)
            > BIT_NS * q.burst + Earned(q, full.now, c.now) - BIT_NS * k - BIT_NS * c.len
  {
    OrderedTail(full, between, c);
    RejectedLast(q, b, full, between, c);
    var b1 := Admit(q, b, full).bucket;
    var later, total := Admitted(q, b1, between + [c]), Admitted(q, b, [full] + between);
    Shortfall(q, b1, between + [c], c.len);
    Scaled(total, later, q.burst, b1.tokens, Earned(q, full.now, c.now), |between| + 1, c.len);
  }

  /** The shortest wait that earns a byte. */
  function ByteWait(mbr: u64): nat
    requires mbr >= 8
  {
    (BIT_NS - 1) / mbr + 1
  }

  lemma ByteWaitProduct(mbr: u64)
    requires mbr >= 8
    ensures ByteWait(mbr) <= NS_CAP
    ensures BIT_NS <= ByteWait(mbr) * mbr < U64_LIMIT
  {
    var d: int := (BIT_NS - 1) / mbr;
    var r: int := (BIT_NS - 1) % mbr;
    assert BIT_NS - 1 == d * mbr + r && 0 <= r < mbr;
    assert ByteWait(mbr) * mbr == d * mbr + mbr;
    if d >= NS_CAP {
      MulMono(NS_CAP, d, mbr);
      assert false;
    }
    if d == 0 {
      assert d * mbr == 0;
    } else {
      MulMono(1, d, mbr);
    }
  }

  lemma ByteEarned(mbr: u64)
    requires mbr >= 8
    ensures ByteWait(mbr) <= NS_CAP && Refill(mbr, ByteWait(mbr)) >= 1
  {
    ByteWaitProduct(mbr);
    UncutRefill(mbr, ByteWait(mbr));
    DivMono(BIT_NS, ByteWait(mbr) * mbr, BIT_NS);
  }

  /** A wait that earns exactly `k` whole bytes, no more than a burst, without cap or wrap. */
  ghost predicate WholeBytes(q: Qer, wait: nat, k: nat) {
    wait <= NS_CAP && wait * q.mbr == BIT_NS * k && wait * q.mbr < U64_LIMIT && k <= q.burst
  }

  lemma WaitRefills(q: Qer, wait: nat, k: u32)
    requires WholeBytes(q, wait, k)
    ensures TopUp(q, 0, wait) == k
  {
    UncutRefill(q.mbr, wait);
  }

  /** The burst at stamp 1, and what a wait then earns. */
  function SpendTwice(q: Qer, wait: nat, k: u32): seq<Call>
    requires wait <= NS_CAP
  {
    [Call(1, q.burst), Call(1 + wait, k)]
  }

  lemma EarnedWhole(q: Qer, wait: nat, k: nat)
    requires WholeBytes(q, wait, k)
    ensures Earned(q, 1, 1 + wait) / BIT_NS == k
  {
    assert 1 + wait - 1 == wait;
  }

  lemma AdmittedTwice(q: Qer, b: Bucket, c: Call, d: Call)
    ensures var o := Admit(q, b, c);
            Admitted(q, b, [c, d]) == Paid(o, c.len) + Paid(Admit(q, o.bucket, d), d.len)
  {
    var calls := [c, d];
    assert calls[1..] == [d] && [d][1..] == [];
    assert Admitted(q, Admit(q, b, c).bucket, [d]) == Paid(Admit(q, Admit(q, b, c).bucket, d), d.len);
  }

  /** The every-window bound is attained, for every rate and every wait of up to a second that earns whole bytes. */
  lemma WindowBoundIsExact(q: Qer, wait: nat, k: u32)
    requires WholeBytes(q, wait, k)
    ensures var calls := SpendTwice(q, wait, k);
            && Ordered(0, calls)
            && Admitted(q, FRESH, calls) == q.burst + k == q.burst + Earned(q, 1, 1 + wait) / BIT_NS
  {
    EarnedWhole(q, wait, k);
    WaitRefills(q, wait, k);
    AdmittedTwice(q, FRESH, Call(1, q.burst), Call(1 + wait, k));
    assert Admit(q, FRESH, Call(1, q.burst)) == Outcome(Bucket(0, 1), true);
    assert Since(1, 1 + wait) == wait;
  }

  // ---- Rates too small to earn a byte in a second ----

  ghost predicate NothingEarned(q: Qer) {
    q.burst == 0 || q.mbr < 8
  }

  lemma NothingRefilled(mbr: u64, elapsed: nat)
    requires mbr < 8
    ensures Refill(mbr, elapsed) == 0
  {
    var e := if elapsed > NS_CAP then NS_CAP else elapsed;
    MulMono(e, NS_CAP, mbr);
    assert e * mbr < BIT_NS;
  }

  lemma NoTopUp(q: Qer, tokens: u64, elapsed: nat)
    requires NothingEarned(q) && tokens <= q.burst
    ensures TopUp(q, tokens, elapsed) == tokens
  {
    NoOverflow(q, Bucket(tokens, 0), elapsed);
    if q.mbr < 8 {
      NothingRefilled(q.mbr, elapsed);
    }
  }

  lemma {:induction false} NothingMore(q: Qer, b: Bucket, calls: seq<Call>)
    requires NothingEarned(q) && 0 < b.last && b.tokens <= q.burst
    requires forall i :: 0 <= i < |calls| ==> 0 < calls[i].now
    ensures Admitted(q, b, calls) <= b.tokens
    decreases |calls|
  {
    if calls != [] {
      NoTopUp(q, b.tokens, Since(b.last, calls[0].now));
      NothingMore(q, Admit(q, b, calls[0]).bucket, calls[1..]);
    }
  }

  /** Such a bucket gives its first burst and no more. */
  lemma OneBurstEver(q: Qer, calls: seq<Call>)
    requires NothingEarned(q) && forall i :: 0 <= i < |calls| ==> 0 < calls[i].now
    ensures Admitted(q, FRESH, calls) <= q.burst
  {
    if calls != [] {
      NothingMore(q, Admit(q, FRESH, calls[0]).bucket, calls[1..]);
    }
  }

  // ---- Configurations in which only a full bucket clips ----

  /** The configurations for which the comment "saturates well before 1s" is true and the product never wraps. */
  predicate Sized(q: Qer) {
    8 * q.burst <= q.mbr && q.mbr * NS_CAP < U64_LIMIT
  }

  /** No call of the run leaves the bucket full after its refill. */
  ghost predicate NeverFull(q: Qer, b: Bucket, calls: seq<Call>)
    decreases |calls|
  {
    calls != [] ==> Refilled(q, b, calls[0].now).tokens < q.burst
                    && NeverFull(q, Admit(q, b, calls[0]).bucket, calls[1..])
  }

  lemma SizedProduct(q: Qer, e: nat)
    requires Sized(q) && e <= NS_CAP
    ensures e * q.mbr < U64_LIMIT
  {
    MulMono(e, NS_CAP, q.mbr);
  }

  lemma ExactRefill(q: Qer, e: nat)
    requires Sized(q) && e <= NS_CAP
    ensures BIT_NS * Refill(q.mbr, e) + e * q.mbr % BIT_NS == e * q.mbr
  {
    SizedProduct(q, e);
    UncutRefill(q.mbr, e);
  }

  lemma CappedRefillFills(q: Qer)
    requires Sized(q)
    ensures (NS_CAP * q.mbr) % U64_LIMIT / BIT_NS >= q.burst
  {
    assert NS_CAP * q.mbr >= BIT_NS * q.burst;
  }

  lemma SizedUnclipped(q: Qer, b: Bucket, now: u64)
    requires Sized(q) && 0 < b.last <= now && b.tokens <= q.burst && Refilled(q, b, now).tokens < q.burst
    ensures Unclipped(q, b, now)
  {
    var e := now - b.last;
    NoOverflow(q, b, e);
    if e > NS_CAP {
      CappedRefillFills(q);
      assert false;
    }
    SizedProduct(q, e);
    UncutRefill(q.mbr, e);
  }

  /** There, calls that do not fill the bucket are never clipped. */
  lemma {:induction false} SizedNeverClips(q: Qer, b: Bucket, calls: seq<Call>)
    requires Sized(q) && 0 < b.last && b.tokens <= q.burst && Ordered(b.last, calls) && NeverFull(q, b, calls)
    ensures NeverClipped(q, b, calls)
    decreases |calls|
  {
    if calls != [] {
      SizedUnclipped(q, b, calls[0].now);
      OneCallExact(q, b, calls[0]);
      SizedNeverClips(q, Admit(q, b, calls[0]).bucket, calls[1..]);
    }
  }

  /** So there the k calls only have to find the bucket short of full. */
  lemma SizedRejectionIsDeserved(q: Qer, b: Bucket, full: Call, between: seq<Call>, c: Call)
    requires Sized(q) && Ordered(1, [full] + between + [c])
    requires Refilled(q, b, full.now).tokens == q.burst
    requires NeverFull(q, Admit(q, b, full).bucket, between + [c])
    requires !Admit(q, After(q, b, [full] + between), c).admit
    ensures var k := |between| + 1;
            BIT_NS * Admitted(q, b, [full] + between)
            > BIT_NS * q.burst + Earned(q, full.now, c.now) - BIT_NS * k - BIT_NS * c.len
  {
    OrderedTail(full, between, c);
    SizedNeverClips(q, Admit(q, b, full).bucket, between + [c]);
    RejectionIsDeserved(q, b, full, between, c);
  }
}
