/**
 * The IPv4 header checksum: the fixed two-fold version of the egress hook (bpf/upf_tc_egress.c:31-41) and the
 * loop-until-no-carry version of the traffic generator (test/gtpu_blast.c:44-50).
 */
module Checksum {
  import opened Words

  /** 0xffff, the modulus of one's-complement arithmetic. */
  const ONES: nat := 0xffff

  /** Sum of the little-endian 16-bit words; a trailing odd byte is ignored. */
  function SumLe(h: seq<byte>): nat {
    if |h| < 2 then 0 else U16At(h, 0) as int + SumLe(h[2..])
  }

  /** The same words read in network order. */
  function SumBe(h: seq<byte>): nat {
    if |h| < 2 then 0 else Be16At(h, 0) as int + SumBe(h[2..])
  }

  function Fold(s: nat): nat {
    s % U16_LIMIT + s / U16_LIMIT
  }

  /** The one's-complement 16-bit sum: the residue modulo 0xffff, taken as 0xffff rather than 0 unless nothing was
      added. */
  function OnesSum(s: nat): u16 {
    if s == 0 then 0 else (s - 1) % ONES + 1
  }

  lemma Residue(x: int, r: int, m: int)
    requires x == r + ONES * m && x > 0 && 1 <= r <= ONES
    ensures OnesSum(x) == r
  {
    var q := (x - 1) / ONES;
    assert x - 1 == ONES * q + (x - 1) % ONES;
    assert ONES * (q - m) == r - 1 - (x - 1) % ONES;
  }

  lemma Representative(s: nat) returns (m: nat)
    requires s > 0
    ensures s == OnesSum(s) + ONES * m && 1 <= OnesSum(s)
  {
    m := (s - 1) / ONES;
  }

  /** One fold keeps the one's-complement sum, and shrinks anything wider than 16 bits. */
  lemma FoldKeepsOnesSum(s: nat)
    ensures OnesSum(Fold(s)) == OnesSum(s)
    ensures s >= U16_LIMIT ==> Fold(s) < s
    ensures s > 0 ==> Fold(s) > 0
  {
    assert s == U16_LIMIT * (s / U16_LIMIT) + s % U16_LIMIT;
    if s > 0 {
      var m := Representative(s);
      Residue(Fold(s), OnesSum(s), m - s / U16_LIMIT);
    }
  }

  lemma FoldedIsOnesSum(s: nat)
    requires s <= ONES
    ensures OnesSum(s) == s
  {
    if s > 0 {
      Residue(s, s, 0);
    }
  }

  /** Two folds always finish the job on a 32-bit sum. */
  lemma TwoFoldsSuffice(s: u32)
    ensures Fold(Fold(s)) == OnesSum(s)
  {
    assert Fold(s) <= 2 * ONES;
    assert Fold(Fold(s)) <= ONES;
    FoldKeepsOnesSum(s);
    FoldKeepsOnesSum(Fold(s));
    FoldedIsOnesSum(Fold(Fold(s)));
  }

  /** Ten words cannot overflow the 32-bit accumulator. */
  lemma {:induction false} SumLeBound(h: seq<byte>)
    ensures SumLe(h) <= ONES * (|h| / 2)
  {
    if |h| >= 2 {
      SumLeBound(h[2..]);
    }
  }

  lemma SumLeNext(h: seq<byte>, i: nat)
    requires 2 * i + 2 <= |h|
    ensures SumLe(h[2 * i..]) == U16At(h, 2 * i) as int + SumLe(h[2 * i + 2..])
  {
    assert h[2 * i..][2..] == h[2 * i + 2..];
  }

  function EvenBytes(h: seq<byte>): nat
    requires |h| == 20
  {
    h[0] as int + h[2] as int + h[4] as int + h[6] as int + h[8] as int + h[10] as int
    + h[12] as int + h[14] as int + h[16] as int + h[18] as int
  }

  function OddBytes(h: seq<byte>): nat
    requires |h| == 20
  {
    h[1] as int + h[3] as int + h[5] as int + h[7] as int + h[9] as int + h[11] as int
    + h[13] as int + h[15] as int + h[17] as int + h[19] as int
  }

  /** The words of a header: its even bytes count once and its odd bytes 256 times. */
  lemma HeaderWords(h: seq<byte>)
    requires |h| == 20
    ensures SumLe(h) == EvenBytes(h) + 0x100 * OddBytes(h)
  {
    assert h[0..] == h;
    SumLeNext(h, 0);
    SumLeNext(h, 1);
    SumLeNext(h, 2);
    SumLeNext(h, 3);
    SumLeNext(h, 4);
    SumLeNext(h, 5);
    SumLeNext(h, 6);
    SumLeNext(h, 7);
    SumLeNext(h, 8);
    SumLeNext(h, 9);
  }

  /** ip_checksum20 */
  method IpChecksum20(hdr: seq<byte>) returns (check: u16)
    requires |hdr| == 20
    ensures check == ONES - OnesSum(SumLe(hdr))
  {
    SumLeBound(hdr);
    assert hdr[0..] == hdr;
    var sum: u32 := 0;
    for i := 0 to 10
      invariant sum + SumLe(hdr[2 * i..]) == SumLe(hdr)
    {
      SumLeNext(hdr, i);
      sum := sum + U16At(hdr, 2 * i);
    }
    ghost var total := sum;
    TwoFoldsSuffice(total);
    sum := sum % U16_LIMIT + sum / U16_LIMIT;
    sum := sum % U16_LIMIT + sum / U16_LIMIT;
    return ONES - sum;
  }

  lemma Wrapped(total: int, sum: int, laps: int)
    requires sum + U32_LIMIT * laps == total && 0 <= sum < U32_LIMIT
    ensures total % U32_LIMIT == sum
  {
  }

  /** ip_csum, for data of any length: the accumulator is 32 bits wide. */
  method IpCsum(data: seq<byte>) returns (check: u16)
    ensures check == ONES - OnesSum(SumLe(data) % U32_LIMIT)
  {
    var sum: u32, p, len := 0, 0, |data|;
    ghost var laps := 0;
    assert data[0..] == data;
    while len >= 2
      invariant 0 <= len == |data| - 2 * p
      invariant sum + SumLe(data[2 * p..]) + U32_LIMIT * laps == SumLe(data)
      decreases len
    {
      SumLeNext(data, p);
      var w := U16At(data, 2 * p);
      if sum + w >= U32_LIMIT {
        laps := laps + 1;
      }
      sum := (sum + w) % U32_LIMIT;
      p, len := p + 1, len - 2;
    }
    Wrapped(SumLe(data), sum, laps);
    ghost var total := sum;
    while sum / U16_LIMIT != 0
      invariant OnesSum(sum) == OnesSum(total)
      decreases sum
    {
      FoldKeepsOnesSum(sum);
      sum := sum % U16_LIMIT + sum / U16_LIMIT;
    }
    FoldedIsOnesSum(sum);
    return ONES - sum;
  }

  /** `while (sum >> 16)`: fold until no carry is left. */
  function FoldUntilDone(s: nat): nat
    decreases s
  {
    if s < U16_LIMIT then s
    else
      FoldKeepsOnesSum(s);
      FoldUntilDone(Fold(s))
  }

  lemma {:induction false} LoopFoldIsOnesSum(s: nat)
    ensures FoldUntilDone(s) == OnesSum(s)
    decreases s
  {
    FoldKeepsOnesSum(s);
    if s < U16_LIMIT {
      FoldedIsOnesSum(s);
    } else {
      LoopFoldIsOnesSum(Fold(s));
    }
  }

  /** On every 20-byte header the two fixed folds equal the loop, and neither accumulator overflows. */
  lemma FixedFoldsEqualLoop(hdr: seq<byte>)
    requires |hdr| == 20
    ensures SumLe(hdr) < U32_LIMIT
    ensures Fold(Fold(SumLe(hdr))) == FoldUntilDone(SumLe(hdr) % U32_LIMIT) == OnesSum(SumLe(hdr))
  {
    SumLeBound(hdr);
    var sum := SumLe(hdr);
    assert sum < U32_LIMIT && sum % U32_LIMIT == sum;
    TwoFoldsSuffice(sum);
    LoopFoldIsOnesSum(sum);
  }

  // ---- What the checksum is for ----

  /** The header with its check field, bytes 10 and 11, set. */
  function WithCheck(h: seq<byte>, check: u16): seq<byte>
    requires |h| == 20
  {
    h[..10] + Le16(check) + h[12..]
  }

  lemma {:induction false} SumLeConcat(a: seq<byte>, b: seq<byte>)
    requires |a| % 2 == 0
    ensures SumLe(a + b) == SumLe(a) + SumLe(b)
    decreases |a|
  {
    if a == [] {
      assert a + b == b;
    } else {
      assert (a + b)[2..] == a[2..] + b;
      SumLeConcat(a[2..], b);
    }
  }

  lemma SumWithCheck(h: seq<byte>, check: u16)
    requires |h| == 20 && h[10] == h[11] == 0
    ensures SumLe(WithCheck(h, check)) == SumLe(h) + check
  {
    var head, tail := h[..10], h[12..];
    SumLeConcat(head + Le16(check), tail);
    SumLeConcat(head, Le16(check));
    SumLeConcat(head + h[10..12], tail);
    SumLeConcat(head, h[10..12]);
    assert h == head + h[10..12] + tail;
    assert Le16(check)[2..] == [] && h[10..12][2..] == [];
    assert check == check % 0x100 + 0x100 * (check / 0x100);
  }

  /** A header carrying its checksum sums to all ones. */
  lemma StoredChecksumVerifies(h: seq<byte>)
    requires |h| == 20 && h[10] == h[11] == 0
    ensures OnesSum(SumLe(WithCheck(h, ONES - OnesSum(SumLe(h))))) == ONES
  {
    var s := SumLe(h);
    SumWithCheck(h, ONES - OnesSum(s));
    if s == 0 {
      Residue(ONES, ONES, 0);
    } else {
      var m := Representative(s);
      Residue(s + ONES - OnesSum(s), ONES, m);
    }
  }

  // ---- Byte order ----

  function Swap(w: u16): u16 {
    w / 0x100 + 0x100 * (w % 0x100)
  }

  function SumHigh(h: seq<byte>): nat {
    if |h| < 2 then 0 else h[1] as int + SumHigh(h[2..])
  }

  lemma {:induction false} SwappedSum(h: seq<byte>)
    ensures SumBe(h) == 0x100 * SumLe(h) - ONES * SumHigh(h)
    ensures SumBe(h) == 0 <==> SumLe(h) == 0
  {
    if |h| >= 2 {
      SwappedSum(h[2..]);
    }
  }

  /** Summing byte-swapped words gives the byte-swapped sum: the checksum needs no byte-order conversion. */
  lemma ByteOrderIndependent(h: seq<byte>)
    ensures OnesSum(SumBe(h)) == Swap(OnesSum(SumLe(h)))
    ensures ONES - OnesSum(SumBe(h)) == Swap(ONES - OnesSum(SumLe(h)))
  {
    SwappedSum(h);
    var s := SumLe(h);
    if s > 0 {
      var m := Representative(s);
      var o: int := OnesSum(s);
      assert Swap(o) == 0x100 * o - ONES * (o / 0x100);
      Residue(SumBe(h), Swap(o), o / 0x100 + 0x100 * m - SumHigh(h));
    }
    var o: int := OnesSum(s);
    assert (ONES - o) / 0x100 == 0xff - o / 0x100 && (ONES - o) % 0x100 == 0xff - o % 0x100;
  }

  /** A receiver that sums in network order accepts the header too. */
  lemma VerifiesInNetworkOrder(h: seq<byte>)
    requires |h| == 20 && h[10] == h[11] == 0
    ensures OnesSum(SumBe(WithCheck(h, ONES - OnesSum(SumLe(h))))) == ONES
  {
    StoredChecksumVerifies(h);
    ByteOrderIndependent(WithCheck(h, ONES - OnesSum(SumLe(h))));
  }
}
