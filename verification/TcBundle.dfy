/**
 * The 56-byte tc_bundle value (bpf/upf_maps.h:102-115): how the agent packs it, how the data path reads it, and
 * what one Session Modification writes (loader/agent.py:153-215).
 */
module TcBundle {
  import opened Words

  datatype Tuple = Tuple(far: u32, qer: u32, urr: u32, prec: u32, gen: u32)

  /** struct.pack("<II...I", ...) */
  function Pack(ws: seq<u32>): (raw: seq<byte>)
    ensures |raw| == 4 * |ws|
  {
    if ws == [] then [] else Le32(ws[0]) + Pack(ws[1..])
  }

  function Unpack(raw: seq<byte>): seq<u32> {
    seq(|raw| / 4, k requires 0 <= k < |raw| / 4 => U32At(raw, 4 * k))
  }

  function SlotWords(t: Tuple): seq<u32> {
    [t.far, t.qer, t.urr, t.prec, t.gen, 0]
  }

  function EncSlot(t: Tuple): (raw: seq<byte>)
    ensures |raw| == 24
  {
    Pack(SlotWords(t))
  }

  function EncBundle(active: u32, slot0: seq<byte>, slot1: seq<byte>): seq<byte> {
    Pack([active, 0]) + slot0 + slot1
  }

  predicate IsBundle(raw: seq<byte>) {
    |raw| == 56
  }

  /** `active & 1` */
  function Active(raw: seq<byte>): nat
    requires IsBundle(raw)
  {
    U32At(raw, 0) % 2
  }

  function SlotAt(raw: seq<byte>, i: nat): Tuple
    requires IsBundle(raw) && i < 2
  {
    var off := 8 + 24 * i;
    Tuple(U32At(raw, off), U32At(raw, off + 4), U32At(raw, off + 8), U32At(raw, off + 12), U32At(raw, off + 16))
  }

  /** The tuple a packet that looks this value up acts on. */
  function Live(raw: seq<byte>): Tuple
    requires IsBundle(raw)
  {
    SlotAt(raw, Active(raw))
  }

  /** The optional arguments of one modification: any Python integers. */
  datatype Change = Change(far: Option<int>, qer: Option<int>, urr: Option<int>, prec: Option<int>)

  function Or(o: Option<int>, current: u32): int {
    if o.Some? then o.value else current
  }

  predicate FitsU32(x: int) {
    0 <= x < U32_LIMIT
  }

  /** The record update a modification stands for; None where struct.pack raises. */
  function Apply(t: Tuple, c: Change): Option<Tuple> {
    var far, qer, urr, prec := Or(c.far, t.far), Or(c.qer, t.qer), Or(c.urr, t.urr), Or(c.prec, t.prec);
    if FitsU32(far) && FitsU32(qer) && FitsU32(urr) && FitsU32(prec) && FitsU32(t.gen + 1)
    then Some(Tuple(far, qer, urr, prec, t.gen + 1)) else None
  }

  /** The two values modify_tc_bundle writes, computed from the value it looked up. */
  datatype Writes = Writes(step1: seq<byte>, step2: seq<byte>, gen: u32)

  /** The current tuple repacked in slot `at`, the new one in the other, and the flag. */
  function Staged(at: nat, current: Tuple, next: Tuple, flag: u32): seq<byte> {
    if at == 0 then EncBundle(flag, EncSlot(current), EncSlot(next))
    else EncBundle(flag, EncSlot(next), EncSlot(current))
  }

  function Modify(raw: seq<byte>, c: Change): Option<Writes>
    requires IsBundle(raw)
  {
    var active := Active(raw);
    var t := Apply(SlotAt(raw, active), c);
    if t.None? then None
    else
      var cur := SlotAt(raw, active);
      Some(Writes(Staged(active, cur, t.value, active), Staged(active, cur, t.value, 1 - active), t.value.gen))
  }

  // ---- Codec ----

  lemma {:induction false} PackAt(ws: seq<u32>, k: nat)
    requires k < |ws|
    ensures U32At(Pack(ws), 4 * k) == ws[k]
  {
    if k == 0 {
      assert Pack(ws) == [] + Le32(ws[0]) + Pack(ws[1..]);
      Le32Embedded([], ws[0], Pack(ws[1..]));
    } else {
      PackAt(ws[1..], k - 1);
      U32Shifted(Le32(ws[0]), Pack(ws[1..]), 4 * (k - 1));
    }
  }

  lemma {:induction false} PackAppend(a: seq<u32>, b: seq<u32>)
    ensures Pack(a + b) == Pack(a) + Pack(b)
  {
    if a == [] {
      assert a + b == b;
    } else {
      assert (a + b)[1..] == a[1..] + b;
      PackAppend(a[1..], b);
    }
  }

  lemma WordOf(raw: seq<byte>)
    requires |raw| >= 4
    ensures Le32(U32At(raw, 0)) == raw[..4]
  {
    var a, b, c, d := raw[0] as int, raw[1] as int, raw[2] as int, raw[3] as int;
    var v := a + 0x100 * b + 0x1_0000 * c + 0x100_0000 * d;
    assert v / 0x100 == b + 0x100 * c + 0x1_0000 * d;
    assert v / 0x1_0000 == c + 0x100 * d;
    assert v / 0x100_0000 == d;
  }

  /** Packing is a bijection between word sequences and byte strings of whole words. */
  lemma {:induction false} PackUnpack(ws: seq<u32>, raw: seq<byte>)
    requires |raw| % 4 == 0
    ensures Unpack(Pack(ws)) == ws
    ensures Pack(Unpack(raw)) == raw
    decreases |raw|
  {
    forall k | 0 <= k < |ws|
      ensures Unpack(Pack(ws))[k] == ws[k]
    {
      PackAt(ws, k);
    }
    if raw != [] {
      PackUnpack(ws, raw[4..]);
      assert Unpack(raw)[1..] == Unpack(raw[4..]);
      WordOf(raw);
      assert raw == raw[..4] + raw[4..];
    }
  }

  /** The fourteen words of a bundle value. */
  function BundleWords(active: u32, t0: Tuple, t1: Tuple): seq<u32> {
    [active, 0] + SlotWords(t0) + SlotWords(t1)
  }

  lemma SlotFromWords(raw: seq<byte>, ws: seq<u32>, i: nat)
    requires IsBundle(raw) && |ws| == 14 && i < 2
    requires forall k :: 0 <= k < 14 ==> U32At(raw, 4 * k) == ws[k]
    ensures SlotAt(raw, i) == Tuple(ws[2 + 6 * i], ws[3 + 6 * i], ws[4 + 6 * i], ws[5 + 6 * i], ws[6 + 6 * i])
  {
    var k := 2 + 6 * i;
    assert U32At(raw, 4 * k) == ws[k] && U32At(raw, 4 * (k + 1)) == ws[k + 1] && U32At(raw, 4 * (k + 2)) == ws[k + 2]
        && U32At(raw, 4 * (k + 3)) == ws[k + 3] && U32At(raw, 4 * (k + 4)) == ws[k + 4];
  }

  /** What the agent packs is what the data path reads: both slots and the flag. */
  lemma BundleRoundTrip(active: u32, t0: Tuple, t1: Tuple)
    ensures var raw := EncBundle(active, EncSlot(t0), EncSlot(t1));
            && raw == Pack(BundleWords(active, t0, t1))
            && IsBundle(raw) && U32At(raw, 0) == active && SlotAt(raw, 0) == t0 && SlotAt(raw, 1) == t1
  {
    PackAppend([active, 0], SlotWords(t0));
    PackAppend([active, 0] + SlotWords(t0), SlotWords(t1));
    var ws := BundleWords(active, t0, t1);
    forall k | 0 <= k < 14
      ensures U32At(Pack(ws), 4 * k) == ws[k]
    {
      PackAt(ws, k);
    }
    var raw := Pack(ws);
    assert U32At(raw, 4 * 0) == ws[0];
    SlotFromWords(raw, ws, 0);
    SlotFromWords(raw, ws, 1);
  }

  lemma LiveOfStaged(at: nat, current: Tuple, next: Tuple, flag: u32)
    requires at < 2 && flag < 2
    ensures var raw := Staged(at, current, next, flag);
            IsBundle(raw) && Active(raw) == flag && Live(raw) == if flag == at then current else next
  {
    if at == 0 {
      BundleRoundTrip(flag, current, next);
    } else {
      BundleRoundTrip(flag, next, current);
    }
  }

  /** Step 1 is invisible to the data path; step 2 makes exactly the record update visible. */
  lemma ModifyIsRecordUpdate(raw: seq<byte>, c: Change)
    requires IsBundle(raw)
    ensures Modify(raw, c).Some? <==> Apply(Live(raw), c).Some?
    ensures var w := Modify(raw, c);
            w.Some? ==>
              && IsBundle(w.value.step1) && IsBundle(w.value.step2)
              && Live(w.value.step1) == Live(raw) && Live(w.value.step2) == Apply(Live(raw), c).value
              && w.value.gen == Live(raw).gen + 1
  {
    var t, a := Apply(Live(raw), c), Active(raw);
    if t.Some? {
      LiveOfStaged(a, Live(raw), t.value, a);
      LiveOfStaged(a, Live(raw), t.value, 1 - a);
    }
  }

  /** Four bytes from `off` on, the low one first. */
  ghost predicate LittleEndian(raw: seq<byte>, off: nat, v: int) {
    && off + 4 <= |raw|
    && v == raw[off] as int + 0x100 * raw[off + 1] as int + 0x1_0000 * raw[off + 2] as int
            + 0x100_0000 * raw[off + 3] as int
  }

  /** Which bytes a packet acts on: those of slot 1 if the flag byte is odd, otherwise those of slot 0. */
  lemma LiveBytes(raw: seq<byte>)
    requires |raw| == 56
    ensures var t, off := Live(raw), if raw[0] % 2 == 1 then 32 else 8;
            && LittleEndian(raw, off, t.far) && LittleEndian(raw, off + 4, t.qer) && LittleEndian(raw, off + 8, t.urr)
            && LittleEndian(raw, off + 12, t.prec) && LittleEndian(raw, off + 16, t.gen)
  {
    assert U32At(raw, 0) == raw[0] + 2 * (0x80 * raw[1] as int + 0x8000 * raw[2] as int + 0x80_0000 * raw[3] as int);
  }

  /** A value that can be packed, if one is given. */
  ghost predicate Fits(o: Option<int>) {
    o.Some? ==> 0 <= o.value < 0x1_0000_0000
  }

  /**
   * A modification raises exactly when a value given does not fit 32 bits or the generations are used up; otherwise
   * packets find each field given as given, each other field as it was, and the next generation.
   */
  lemma ModifyFields(raw: seq<byte>, c: Change)
    requires IsBundle(raw)
    ensures var t, w := Live(raw), Modify(raw, c);
            && (w.Some? <==> Fits(c.far) && Fits(c.qer) && Fits(c.urr) && Fits(c.prec) && t.gen < 0xffff_ffff)
            && (w.Some? ==>
                  && IsBundle(w.value.step1) && Live(w.value.step1) == t && IsBundle(w.value.step2)
                  && var t' := Live(w.value.step2);
                     && t'.far == (if c.far.Some? then c.far.value else t.far)
                     && t'.qer == (if c.qer.Some? then c.qer.value else t.qer)
                     && t'.urr == (if c.urr.Some? then c.urr.value else t.urr)
                     && t'.prec == (if c.prec.Some? then c.prec.value else t.prec)
                     && t'.gen == t.gen + 1 == w.value.gen)
  {
    ModifyIsRecordUpdate(raw, c);
  }

  // ---- Sequences of modifications ----

  /** The value after a series of calls; a call that raises writes nothing. */
  function ModifyAll(raw: seq<byte>, cs: seq<Change>): seq<byte>
    requires IsBundle(raw)
    decreases |cs|
  {
    if cs == [] then raw
    else
      var w := Modify(raw, cs[0]);
      if w.None? then ModifyAll(raw, cs[1..])
      else
        ModifyIsRecordUpdate(raw, cs[0]);
        ModifyAll(w.value.step2, cs[1..])
  }

  /** The plain record it refines. */
  function RecordAll(t: Tuple, cs: seq<Change>): Tuple
    decreases |cs|
  {
    if cs == [] then t
    else
      var t' := Apply(t, cs[0]);
      RecordAll(if t'.None? then t else t'.value, cs[1..])
  }

  /** Decoding the stored bytes after any calls gives the record with the same calls applied to it. */
  lemma {:induction false} ModificationsRefineRecord(raw: seq<byte>, cs: seq<Change>)
    requires IsBundle(raw)
    ensures IsBundle(ModifyAll(raw, cs))
    ensures Live(ModifyAll(raw, cs)) == RecordAll(Live(raw), cs)
    decreases |cs|
  {
    if cs != [] {
      ModifyIsRecordUpdate(raw, cs[0]);
      var w := Modify(raw, cs[0]);
      ModificationsRefineRecord(if w.None? then raw else w.value.step2, cs[1..]);
    }
  }

  /** The last value given for a field, or the initial one. */
  function Latest(initial: u32, given: seq<Option<int>>): int {
    if given == [] then initial
    else if given[|given| - 1].Some? then given[|given| - 1].value
    else Latest(initial, given[..|given| - 1])
  }

  function Fars(cs: seq<Change>): seq<Option<int>> { seq(|cs|, i requires 0 <= i < |cs| => cs[i].far) }
  function Qers(cs: seq<Change>): seq<Option<int>> { seq(|cs|, i requires 0 <= i < |cs| => cs[i].qer) }
  function Urrs(cs: seq<Change>): seq<Option<int>> { seq(|cs|, i requires 0 <= i < |cs| => cs[i].urr) }
  function Precs(cs: seq<Change>): seq<Option<int>> { seq(|cs|, i requires 0 <= i < |cs| => cs[i].prec) }

  ghost predicate AllFit(cs: seq<Change>) {
    forall i :: 0 <= i < |cs| ==> Fits(cs[i].far) && Fits(cs[i].qer) && Fits(cs[i].urr) && Fits(cs[i].prec)
  }

  lemma {:induction false} RecordAppend(t: Tuple, cs: seq<Change>, c: Change)
    ensures RecordAll(t, cs + [c])
            == var t' := RecordAll(t, cs); if Apply(t', c).None? then t' else Apply(t', c).value
    decreases |cs|
  {
    if cs == [] {
      assert cs + [c] == [c];
    } else {
      assert (cs + [c])[1..] == cs[1..] + [c];
      var t' := Apply(t, cs[0]);
      RecordAppend(if t'.None? then t else t'.value, cs[1..], c);
    }
  }

  lemma DropLast(cs: seq<Change>)
    requires cs != []
    ensures var init, c := cs[..|cs| - 1], cs[|cs| - 1];
            && Fars(cs) == Fars(init) + [c.far] && Qers(cs) == Qers(init) + [c.qer]
            && Urrs(cs) == Urrs(init) + [c.urr] && Precs(cs) == Precs(init) + [c.prec]
  {
  }

  lemma LatestAppend(initial: u32, given: seq<Option<int>>, o: Option<int>)
    ensures Latest(initial, given + [o]) == if o.Some? then o.value else Latest(initial, given)
  {
    assert (given + [o])[..|given|] == given;
  }

  /** Each field at its latest value, and a generation per call. */
  ghost predicate Folded(t: Tuple, t': Tuple, cs: seq<Change>) {
    && t'.far == Latest(t.far, Fars(cs)) && t'.qer == Latest(t.qer, Qers(cs))
    && t'.urr == Latest(t.urr, Urrs(cs)) && t'.prec == Latest(t.prec, Precs(cs))
    && t'.gen == t.gen + |cs|
  }

  lemma FoldedStep(t: Tuple, t': Tuple, init: seq<Change>, c: Change)
    requires Folded(t, t', init) && t'.gen + 1 < U32_LIMIT
    requires Fits(c.far) && Fits(c.qer) && Fits(c.urr) && Fits(c.prec)
    ensures Apply(t', c).Some? && Folded(t, Apply(t', c).value, init + [c])
  {
    assert (init + [c])[..|init|] == init;
    DropLast(init + [c]);
    LatestAppend(t.far, Fars(init), c.far);
    LatestAppend(t.qer, Qers(init), c.qer);
    LatestAppend(t.urr, Urrs(init), c.urr);
    LatestAppend(t.prec, Precs(init), c.prec);
  }

  lemma {:induction false} RecordFold(t: Tuple, cs: seq<Change>)
    requires AllFit(cs) && t.gen + |cs| < U32_LIMIT
    ensures Folded(t, RecordAll(t, cs), cs)
    decreases |cs|
  {
    if cs != [] {
      var init, c := cs[..|cs| - 1], cs[|cs| - 1];
      RecordFold(t, init);
      assert cs == init + [c];
      RecordAppend(t, init, c);
      FoldedStep(t, RecordAll(t, init), init, c);
    }
  }

  /**
   * For values in range and within the generation counter's range, n calls leave each field at the last value
   * given for it and the generation n higher than it started.
   */
  lemma OverridesFold(raw: seq<byte>, cs: seq<Change>)
    requires IsBundle(raw) && AllFit(cs) && Live(raw).gen + |cs| < U32_LIMIT
    ensures IsBundle(ModifyAll(raw, cs))
    ensures var t, t' := Live(raw), Live(ModifyAll(raw, cs));
            && t'.far == Latest(t.far, Fars(cs)) && t'.qer == Latest(t.qer, Qers(cs))
            && t'.urr == Latest(t.urr, Urrs(cs)) && t'.prec == Latest(t.prec, Precs(cs))
            && t'.gen == t.gen + |cs|
  {
    ModificationsRefineRecord(raw, cs);
    RecordFold(Live(raw), cs);
  }
}
