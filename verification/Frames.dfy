/**
 * Ethernet/IPv4/UDP/GTP-U frames: the two ingress parsers (bpf/upf_xdp.c:24-80, bpf/upf_tc.c:232-264), the header
 * the egress hook adds (bpf/upf_tc_egress.c:49-144) and the one ingress strips (bpf/upf_tc.c:169-170, 318).
 */
module Frames {
  import opened Words
  import opened Checksum

  const ETH_HLEN: nat := 14
  const IP_HLEN: nat := 20
  const OUTER_LEN: nat := 36
  const ETH_P_IP: nat := 0x0800
  const IPPROTO_UDP: nat := 17
  const GTPU_PORT: nat := 2152
  const GTPU_GPDU: nat := 0xff

  type Frame = seq<byte>

  /** What the XDP parser makes of a frame, by the counters it bumps. ParseDrop(true) has been counted as GTP-U. */
  datatype XdpParsed = ParseDrop(gtpu: bool) | QuietPass | NonGtp | Control | XdpGpdu(teid: u32)

  function IhlBytes(f: Frame): nat
    requires |f| > ETH_HLEN
  {
    f[14] % 16 * 4
  }

  function XdpParse(f: Frame): XdpParsed {
    if |f| < ETH_HLEN then ParseDrop(false)
    else if Be16At(f, 12) != ETH_P_IP then QuietPass
    else if |f| < ETH_HLEN + IP_HLEN then ParseDrop(false)
    else if f[23] != IPPROTO_UDP then QuietPass
    else if IhlBytes(f) < IP_HLEN then ParseDrop(false)
    else
      var l4 := ETH_HLEN + IhlBytes(f);
      if l4 + 8 > |f| then ParseDrop(false)
      else if Be16At(f, l4 + 2) != GTPU_PORT then NonGtp
      else if l4 + 16 > |f| then ParseDrop(true)
      else if f[l4 + 9] != GTPU_GPDU then Control
      else XdpGpdu(Be32At(f, l4 + 12))
  }

  datatype TcGpdu = TcGpdu(teid: u32, outer: nat)

  /** The TC parser: None is "not ours, leave it to the stack". */
  function TcParse(f: Frame): Option<TcGpdu> {
    if |f| < ETH_HLEN || Be16At(f, 12) != ETH_P_IP then None
    else if |f| < ETH_HLEN + IP_HLEN || f[23] != IPPROTO_UDP then None
    else if IhlBytes(f) < IP_HLEN then None
    else
      var l4 := ETH_HLEN + IhlBytes(f);
      if l4 + 8 > |f| || Be16At(f, l4 + 2) != GTPU_PORT then None
      else if l4 + 16 > |f| || f[l4 + 9] != GTPU_GPDU then None
      else Some(TcGpdu(Be32At(f, l4 + 12), IhlBytes(f) + 16))
  }

  /** A G-PDU: IPv4 with a valid header length, UDP to port 2152, message type 255 and a whole GTP-U header. */
  ghost predicate IsGpdu(f: Frame, ihl: nat, teid: u32) {
    && 20 <= ihl && |f| >= 30 + ihl
    && f[12] == 0x08 && f[13] == 0x00 && f[14] % 16 * 4 == ihl && f[23] == 17
    && f[16 + ihl] == 0x08 && f[17 + ihl] == 0x68 && f[23 + ihl] == 0xff
    && teid == 0x100_0000 * f[26 + ihl] as int + 0x1_0000 * f[27 + ihl] as int + 0x100 * f[28 + ihl] as int
               + f[29 + ihl] as int
  }

  lemma GpduIsAccepted(f: Frame, ihl: nat, teid: u32)
    requires IsGpdu(f, ihl, teid)
    ensures XdpParse(f) == XdpGpdu(teid) && TcParse(f) == Some(TcGpdu(teid, ihl + 16))
  {
  }

  lemma AcceptedIsGpdu(f: Frame, teid: u32)
    requires XdpParse(f) == XdpGpdu(teid)
    ensures IsGpdu(f, IhlBytes(f), teid) && TcParse(f).Some? && TcParse(f).value.teid == teid
  {
  }

  /** Both parsers accept exactly the G-PDUs, and read the same TEID from them. */
  lemma ParsersAgree(f: Frame, teid: u32)
    ensures XdpParse(f) == XdpGpdu(teid) <==> (TcParse(f).Some? && TcParse(f).value.teid == teid)
    ensures XdpParse(f) == XdpGpdu(teid) <==> exists ihl: nat :: IsGpdu(f, ihl, teid)
    ensures forall ihl: nat :: IsGpdu(f, ihl, teid) ==> TcParse(f) == Some(TcGpdu(teid, ihl + 16))
  {
    forall ihl: nat | IsGpdu(f, ihl, teid)
      ensures XdpParse(f) == XdpGpdu(teid) && TcParse(f) == Some(TcGpdu(teid, ihl + 16))
    {
      GpduIsAccepted(f, ihl, teid);
    }
    if XdpParse(f) == XdpGpdu(teid) {
      AcceptedIsGpdu(f, teid);
    }
  }

  // ---- Egress ----

  /** dl_ue_val, as the agent installs it: TEID and gNB address in network order. */
  datatype Ue = Ue(teid: u32, gnb: u32)

  datatype EgressVerdict = Leave | NoUe | Wrap(ue: Ue)

  function Egress(f: Frame, ues: map<u32, Ue>): EgressVerdict {
    if |f| < ETH_HLEN || Be16At(f, 12) != ETH_P_IP || |f| < ETH_HLEN + IP_HLEN then Leave
    else if f[23] == IPPROTO_UDP && ETH_HLEN + IhlBytes(f) + 8 <= |f|
            && Be16At(f, ETH_HLEN + IhlBytes(f) + 2) == GTPU_PORT then Leave
    else if Be32At(f, 30) in ues then Wrap(ues[Be32At(f, 30)])
    else NoUe
  }

  /** The outer IPv4 header with a zero check field; lengths are cut to 16 bits as the casts do. */
  function OuterIp(total: nat, n3: u32, ue: Ue): (h: seq<byte>)
    ensures |h| == 20 && h[10] == h[11] == 0
  {
    [0x45, 0] + Be16(total % U16_LIMIT) + [0, 0, 0, 0, 64, 17, 0, 0] + Be32(n3) + Be32(ue.gnb)
  }

  function OuterUdpGtp(udpLen: nat, gtpLen: nat, ue: Ue): (h: seq<byte>)
    ensures |h| == 16
  {
    Be16(GTPU_PORT) + Be16(GTPU_PORT) + Be16(udpLen % U16_LIMIT) + [0, 0]
    + [0x30, 0xff] + Be16(gtpLen % U16_LIMIT) + Be32(ue.teid)
  }

  /** The 36 bytes between the Ethernet header and the user's packet of `inner` bytes. */
  function Outer(inner: nat, n3: u32, ue: Ue): (h: seq<byte>)
    ensures |h| == OUTER_LEN
  {
    var ip := OuterIp(inner + OUTER_LEN, n3, ue);
    WithCheck(ip, ONES - OnesSum(SumLe(ip))) + OuterUdpGtp(inner + 16, inner, ue)
  }

  function Encapsulate(f: Frame, n3: u32, ue: Ue): Frame
    requires |f| >= ETH_HLEN
  {
    f[..ETH_HLEN] + Outer(|f| - ETH_HLEN, n3, ue) + f[ETH_HLEN..]
  }

  /** bpf_skb_adjust_room(skb, -n, BPF_ADJ_ROOM_MAC): drop n bytes after the Ethernet header. */
  function Strip(f: Frame, n: nat): Frame
    requires ETH_HLEN + n <= |f|
  {
    f[..ETH_HLEN] + f[ETH_HLEN + n..]
  }

  lemma IpFields(total: nat, n3: u32, ue: Ue, check: u16)
    ensures var h := WithCheck(OuterIp(total, n3, ue), check);
            && |h| == 20 && h[0] == 0x45 && h[1] == 0 && h[2..4] == Be16(total % U16_LIMIT) && h[4..8] == [0, 0, 0, 0]
            && h[8] == 64 && h[9] == 17 && h[12..16] == Be32(n3) && h[16..20] == Be32(ue.gnb)
  {
    var ip := OuterIp(total, n3, ue);
    var h := WithCheck(ip, check);
    var len, head := Be16(total % U16_LIMIT), [0x45, 0] + Be16(total % U16_LIMIT) + [0, 0, 0, 0, 64, 17, 0, 0];
    assert ip == head + Be32(n3) + Be32(ue.gnb);
    assert head[2..4] == len && head[4..8] == [0, 0, 0, 0];
    assert h[..10] == head[..10] && h[12..] == Be32(n3) + Be32(ue.gnb);
    assert h[2..4] == h[..10][2..4] == head[2..4] && h[4..8] == h[..10][4..8] == head[4..8];
    assert h[0] == h[..10][0] && h[1] == h[..10][1] && h[8] == h[..10][8] && h[9] == h[..10][9];
    assert h[12..16] == h[12..][..4] && h[16..20] == h[12..][4..];
  }

  lemma UdpGtpFields(udpLen: nat, gtpLen: nat, ue: Ue)
    ensures var h := OuterUdpGtp(udpLen, gtpLen, ue);
            && h[..4] == [0x08, 0x68, 0x08, 0x68] && h[4..6] == Be16(udpLen % U16_LIMIT) && h[6..8] == [0, 0]
            && h[8] == 0x30 && h[9] == 0xff && h[10..12] == Be16(gtpLen % U16_LIMIT) && h[12..16] == Be32(ue.teid)
  {
    assert Be16(GTPU_PORT) == [0x08, 0x68];
  }

  lemma Halves(head: seq<byte>, tail: seq<byte>)
    requires |head| == 20 && |tail| == 16
    ensures var h := head + tail;
            && h[..20] == head && h[20..] == tail
            && (forall i :: 0 <= i < 20 ==> h[i] == head[i])
            && (forall i, j :: 0 <= i <= j <= 20 ==> h[i..j] == head[i..j])
            && (forall i :: 20 <= i < 36 ==> h[i] == tail[i - 20])
            && (forall i, j :: 20 <= i <= j <= 36 ==> h[i..j] == tail[i - 20..j - 20])
  {
  }

  lemma OuterFields(inner: nat, n3: u32, ue: Ue)
    ensures var h := Outer(inner, n3, ue);
            && h[0] == 0x45 && h[1] == 0 && h[2..4] == Be16((inner + 36) % U16_LIMIT) && h[4..8] == [0, 0, 0, 0]
            && h[8] == 64 && h[9] == 17 && h[12..16] == Be32(n3) && h[16..20] == Be32(ue.gnb)
            && h[20..24] == [0x08, 0x68, 0x08, 0x68] && h[24..26] == Be16((inner + 16) % U16_LIMIT)
            && h[26..28] == [0, 0] && h[28] == 0x30 && h[29] == 0xff
            && h[30..32] == Be16(inner % U16_LIMIT) && h[32..36] == Be32(ue.teid)
            && h[..20] == WithCheck(OuterIp(inner + 36, n3, ue), ONES - OnesSum(SumLe(OuterIp(inner + 36, n3, ue))))
  {
    var ip := OuterIp(inner + OUTER_LEN, n3, ue);
    var check := ONES - OnesSum(SumLe(ip));
    var head, tail, h := WithCheck(ip, check), OuterUdpGtp(inner + 16, inner, ue), Outer(inner, n3, ue);
    IpFields(inner + OUTER_LEN, n3, ue, check);
    UdpGtpFields(inner + 16, inner, ue);
    assert h == head + tail;
    Halves(head, tail);
    assert tail[0..4] == tail[..4];
  }

  lemma EncapsulatedBytes(f: Frame, n3: u32, ue: Ue)
    requires |f| >= ETH_HLEN
    ensures var g, h := Encapsulate(f, n3, ue), Outer(|f| - ETH_HLEN, n3, ue);
            && |g| == |f| + OUTER_LEN && g[..14] == f[..14] && g[14..50] == h && g[50..] == f[14..]
            && (forall i, j :: 0 <= i <= j <= 36 ==> g[14 + i..14 + j] == h[i..j])
            && (forall i :: 0 <= i < 36 ==> g[14 + i] == h[i])
  {
  }

  lemma OuterChecksumVerifies(total: nat, n3: u32, ue: Ue)
    ensures var h := WithCheck(OuterIp(total, n3, ue), ONES - OnesSum(SumLe(OuterIp(total, n3, ue))));
            OnesSum(SumBe(h)) == ONES && OnesSum(SumLe(h)) == ONES
  {
    StoredChecksumVerifies(OuterIp(total, n3, ue));
    VerifiesInNetworkOrder(OuterIp(total, n3, ue));
  }

  /** A length field of the outer header, found again in the frame. */
  lemma FieldAt(g: Frame, h: seq<byte>, i: nat, v: nat)
    requires |h| == OUTER_LEN && |g| >= 50 && g[14..50] == h && i + 2 <= OUTER_LEN
    requires h[i..i + 2] == Be16(v % U16_LIMIT)
    ensures 0x100 * g[14 + i] as int + g[15 + i] as int == v % 0x1_0000
  {
    assert forall k :: 0 <= k < 36 ==> g[14 + k] == g[14..50][k] == h[k];
    assert h[i] == h[i..i + 2][0] && h[i + 1] == h[i..i + 2][1];
    assert g[15 + i] == g[14 + (i + 1)];
  }

  /** The length fields hold the lengths of what follows, cut to 16 bits. */
  lemma EncapsulatedLengths(f: Frame, n3: u32, ue: Ue)
    requires |f| >= ETH_HLEN
    ensures var g := Encapsulate(f, n3, ue);
            && 0x100 * g[16] as int + g[17] as int == (|g| - 14) % 0x1_0000
            && 0x100 * g[38] as int + g[39] as int == (|g| - 34) % 0x1_0000
            && 0x100 * g[44] as int + g[45] as int == (|f| - 14) % 0x1_0000
  {
    var g, inner := Encapsulate(f, n3, ue), |f| - ETH_HLEN;
    var h := Outer(inner, n3, ue);
    EncapsulatedBytes(f, n3, ue);
    OuterFields(inner, n3, ue);
    FieldAt(g, h, 2, inner + 36);
    FieldAt(g, h, 24, inner + 16);
    FieldAt(g, h, 30, inner);
  }

  lemma EncapsulatedChecksum(f: Frame, n3: u32, ue: Ue)
    requires |f| >= ETH_HLEN
    ensures var g := Encapsulate(f, n3, ue);
            OnesSum(SumBe(g[14..34])) == ONES && OnesSum(SumLe(g[14..34])) == ONES
  {
    var g, inner := Encapsulate(f, n3, ue), |f| - ETH_HLEN;
    var h := Outer(inner, n3, ue);
    EncapsulatedBytes(f, n3, ue);
    OuterFields(inner, n3, ue);
    assert g[14..34] == g[14..50][..20] == h[..20];
    OuterChecksumVerifies(inner + 36, n3, ue);
  }

  /**
   * The length fields mean what RFC 791 section 3.1, RFC 768 and 3GPP TS 29.281 section 5.1 say exactly when the
   * outer packet fits the 16-bit fields, and the outer IP header always carries a checksum that verifies.
   */
  lemma LengthFields(f: Frame, ues: map<u32, Ue>, n3: u32)
    requires Egress(f, ues).Wrap?
    ensures var g := Encapsulate(f, n3, Egress(f, ues).ue);
            && (0x100 * g[16] as int + g[17] as int == |g| - 14 <==> |g| - 14 < 0x1_0000)
            && (0x100 * g[38] as int + g[39] as int == |g| - 34 <==> |g| - 34 < 0x1_0000)
            && (0x100 * g[44] as int + g[45] as int == |f| - 14 <==> |f| - 14 < 0x1_0000)
            && OnesSum(SumBe(g[14..34])) == ONES && OnesSum(SumLe(g[14..34])) == ONES
  {
    EncapsulatedLengths(f, n3, Egress(f, ues).ue);
    EncapsulatedChecksum(f, n3, Egress(f, ues).ue);
  }

  /**
   * Every byte of an encapsulated frame but the checksum, which LengthFields is about: the Ethernet header, an IPv4
   * header from the configured address to the UE's gNB, UDP between the GTP-U ports, GTP-U with the UE's TEID, and
   * the user's packet.
   */
  lemma EncapsulatedFrame(f: Frame, n3: u32, ue: Ue)
    requires |f| >= ETH_HLEN
    ensures var g := Encapsulate(f, n3, ue);
            && |g| == |f| + 36 && g[..14] == f[..14] && g[50..] == f[14..]
            && g[14] == 0x45 && g[15] == 0 && 0x100 * g[16] as int + g[17] as int == (|f| + 22) % 0x1_0000
            && g[18..22] == [0, 0, 0, 0] && g[22] == 64 && g[23] == 17
            && g[26..30] == Be32(n3) && g[30..34] == Be32(ue.gnb)
            && g[34..38] == [0x08, 0x68, 0x08, 0x68] && 0x100 * g[38] as int + g[39] as int == (|f| + 2) % 0x1_0000
            && g[40..42] == [0, 0] && g[42] == 0x30 && g[43] == 0xff
            && 0x100 * g[44] as int + g[45] as int == (|f| - 14) % 0x1_0000 && g[46..50] == Be32(ue.teid)
  {
    var g, h := Encapsulate(f, n3, ue), Outer(|f| - ETH_HLEN, n3, ue);
    EncapsulatedLengths(f, n3, ue);
    EncapsulatedBytes(f, n3, ue);
    OuterFields(|f| - ETH_HLEN, n3, ue);
    assert g[14] == g[14 + 0] && g[15] == g[14 + 1] && g[22] == g[14 + 8] && g[23] == g[14 + 9];
    assert g[42] == g[14 + 28] && g[43] == g[14 + 29];
    assert g[18..22] == g[14 + 4..14 + 8] && g[26..30] == g[14 + 12..14 + 16] && g[30..34] == g[14 + 16..14 + 20];
    assert g[34..38] == g[14 + 20..14 + 24] && g[40..42] == g[14 + 26..14 + 28] && g[46..50] == g[14 + 32..14 + 36];
  }

  lemma EncapsulatedIsGpdu(f: Frame, n3: u32, ue: Ue)
    requires |f| >= ETH_HLEN && f[12] == 0x08 && f[13] == 0x00
    ensures IsGpdu(Encapsulate(f, n3, ue), 20, ue.teid)
  {
    var g := Encapsulate(f, n3, ue);
    EncapsulatedFrame(f, n3, ue);
    assert g[12] == g[..14][12] == f[..14][12] && g[13] == g[..14][13] == f[..14][13];
    assert g[36] == g[34..38][2] && g[37] == g[34..38][3];
    Be32Found(g, 46, ue.teid);
  }

  /**
   * Encapsulation is undone by decapsulation. For every frame the egress hook wraps, both ingress parsers accept
   * the result with the UE's own TEID, the outer length they compute is the one that was added, stripping it
   * gives back every byte, and a second pass through the egress hook leaves the frame alone.
   */
  lemma EncapsulateThenDecapsulate(f: Frame, ues: map<u32, Ue>, n3: u32)
    requires Egress(f, ues).Wrap?
    ensures var ue := Egress(f, ues).ue;
            var g := Encapsulate(f, n3, ue);
            && XdpParse(g) == XdpGpdu(ue.teid)
            && TcParse(g) == Some(TcGpdu(ue.teid, OUTER_LEN))
            && Strip(g, OUTER_LEN) == f
            && (forall any: map<u32, Ue> :: Egress(g, any) == Leave)
  {
    var ue := Egress(f, ues).ue;
    var g := Encapsulate(f, n3, ue);
    EncapsulatedIsGpdu(f, n3, ue);
    GpduIsAccepted(g, 20, ue.teid);
    assert Strip(g, OUTER_LEN) == f[..14] + f[14..] == f;
  }
}
