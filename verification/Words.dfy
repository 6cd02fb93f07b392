/** Machine integers of the data path and their byte encodings. */
module Words {
  const U16_LIMIT: nat := 0x1_0000
  const U32_LIMIT: nat := 0x1_0000_0000
  const U64_LIMIT: nat := 0x1_0000_0000_0000_0000

  type byte = x: int | 0 <= x < 0x100
  type u16 = x: int | 0 <= x < 0x1_0000
  type u32 = x: int | 0 <= x < 0x1_0000_0000
  type u64 = x: int | 0 <= x < 0x1_0000_0000_0000_0000

  datatype Option<+T> = None | Some(value: T)

  /** Little-endian "<I": the layout of every map value the agent packs. */
  function Le32(v: u32): (bs: seq<byte>)
    ensures |bs| == 4
  {
    [v % 0x100, v / 0x100 % 0x100, v / 0x1_0000 % 0x100, v / 0x100_0000]
  }

  /** The little-endian word at byte offset `off`. */
  function U32At(raw: seq<byte>, off: nat): u32
    requires off + 4 <= |raw|
  {
    raw[off] as int + 0x100 * raw[off + 1] as int + 0x1_0000 * raw[off + 2] as int + 0x100_0000 * raw[off + 3] as int
  }

  function Le16(v: u16): (bs: seq<byte>)
    ensures |bs| == 2
  {
    [v % 0x100, v / 0x100]
  }

  function U16At(raw: seq<byte>, off: nat): u16
    requires off + 2 <= |raw|
  {
    raw[off] as int + 0x100 * raw[off + 1] as int
  }

  /** Network order, as bpf_htons and bpf_htonl leave it in memory. */
  function Be16(v: u16): (bs: seq<byte>)
    ensures |bs| == 2
  {
    [v / 0x100, v % 0x100]
  }

  function Be16At(raw: seq<byte>, off: nat): u16
    requires off + 2 <= |raw|
  {
    0x100 * raw[off] as int + raw[off + 1] as int
  }

  function Be32(v: u32): (bs: seq<byte>)
    ensures |bs| == 4
  {
    [v / 0x100_0000, v / 0x1_0000 % 0x100, v / 0x100 % 0x100, v % 0x100]
  }

  function Be32At(raw: seq<byte>, off: nat): u32
    requires off + 4 <= |raw|
  {
    0x100_0000 * raw[off] as int + 0x1_0000 * raw[off + 1] as int + 0x100 * raw[off + 2] as int + raw[off + 3] as int
  }

  /** A word in network order has its high byte first, wherever it sits. */
  lemma Be32Found(raw: seq<byte>, off: nat, v: u32)
    requires off + 4 <= |raw|
    ensures raw[off..off + 4] == Be32(v)
            <==> v == 0x100_0000 * raw[off] as int + 0x1_0000 * raw[off + 1] as int + 0x100 * raw[off + 2] as int
                      + raw[off + 3] as int
  {
    var bs := raw[off..off + 4];
    var a, b, c, d := bs[0] as int, bs[1] as int, bs[2] as int, bs[3] as int;
    assert bs == [a, b, c, d] && raw[off] == a && raw[off + 1] == b && raw[off + 2] == c && raw[off + 3] == d;
    if bs == Be32(v) {
      assert a == Be32(v)[0] && b == Be32(v)[1] && c == Be32(v)[2] && d == Be32(v)[3];
      assert v / 0x1_0000 == v / 0x100 / 0x100;
      assert v / 0x100_0000 == v / 0x1_0000 / 0x100;
    }
    if v == d + 0x100 * c + 0x1_0000 * b + 0x100_0000 * a {
      assert v / 0x100 == c + 0x100 * b + 0x1_0000 * a;
      assert v / 0x1_0000 == b + 0x100 * a;
      assert v / 0x100_0000 == a;
    }
  }

  lemma Le32RoundTrip(v: u32)
    ensures U32At(Le32(v), 0) == v
  {
    assert v / 0x1_0000 == v / 0x100 / 0x100;
    assert v / 0x100_0000 == v / 0x1_0000 / 0x100;
  }

  /** A packed word is read back wherever it sits in a larger value. */
  lemma Le32Embedded(pre: seq<byte>, v: u32, post: seq<byte>)
    ensures U32At(pre + Le32(v) + post, |pre|) == v
  {
    var raw := pre + Le32(v) + post;
    assert raw[|pre|..|pre| + 4] == Le32(v);
    assert forall k :: 0 <= k < 4 ==> raw[|pre| + k] == Le32(v)[k];
    Le32RoundTrip(v);
  }

  lemma U32Shifted(pre: seq<byte>, raw: seq<byte>, off: nat)
    requires off + 4 <= |raw|
    ensures U32At(pre + raw, |pre| + off) == U32At(raw, off)
  {
  }

  lemma MulMono(a: int, b: int, m: int)
    requires a <= b && m >= 0
    ensures a * m <= b * m
    ensures m * a <= m * b
  {
  }

  /** Division by a positive constant is monotone. */
  lemma DivMono(a: int, b: int, d: int)
    requires d > 0 && a <= b
    ensures a / d <= b / d
  {
    var qa, qb := a / d, b / d;
    assert a == d * qa + a % d && b == d * qb + b % d;
    if qa > qb {
      MulMono(qb + 1, qa, d);
    }
  }

  /** From d*x <= d*a + b follows x <= a + floor(b/d). */
  lemma FloorBound(x: int, a: int, b: int, d: int)
    requires d > 0 && d * x <= d * a + b
    ensures x <= a + b / d
  {
    var q := b / d;
    assert b == d * q + b % d;
    if x > a + q {
      MulMono(a + q + 1, x, d);
    }
  }
}
