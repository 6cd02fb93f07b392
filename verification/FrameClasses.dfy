/** The kinds of frames the hooks tell apart, read off the bytes alone. */
module FrameClasses {
  import opened Words
  import opened Frames

  ghost predicate IsIp(f: Frame) {
    |f| >= 14 && f[12] == 0x08 && f[13] == 0x00
  }

  /** IPv4 with room for its fixed header and the protocol number of UDP. */
  ghost predicate IsUdp(f: Frame) {
    IsIp(f) && |f| >= 34 && f[23] == 17
  }

  /** UDP whose own header lies within the frame, IP options included. */
  ghost predicate WholeUdp(f: Frame) {
    IsUdp(f) && f[14] % 16 >= 5 && |f| >= 22 + f[14] % 16 * 4
  }

  ghost predicate ToGtpPort(f: Frame) {
    WholeUdp(f) && f[16 + f[14] % 16 * 4] == 0x08 && f[17 + f[14] % 16 * 4] == 0x68
  }

  /** Ends inside a header, or names an IPv4 header length below 20. */
  ghost predicate Truncated(f: Frame) {
    |f| < 14 || (IsIp(f) && |f| < 34) || (IsUdp(f) && !WholeUdp(f))
  }

  /** Not IPv4, or not UDP. */
  ghost predicate Foreign(f: Frame) {
    |f| >= 14 && (!IsIp(f) || (|f| >= 34 && f[23] != 17))
  }

  ghost predicate OtherPort(f: Frame) {
    WholeUdp(f) && !ToGtpPort(f)
  }

  /** UDP to port 2152 that ends inside the 8 bytes of the GTP-U header. */
  ghost predicate ShortGtp(f: Frame) {
    ToGtpPort(f) && |f| < 30 + f[14] % 16 * 4
  }

  /** GTP-U with a message type other than 255. */
  ghost predicate OtherMessage(f: Frame) {
    ToGtpPort(f) && |f| >= 30 + f[14] % 16 * 4 && f[23 + f[14] % 16 * 4] != 0xff
  }

  /** A G-PDU with some TEID. */
  ghost predicate Gpdu(f: Frame) {
    exists ihl: nat, teid: u32 :: IsGpdu(f, ihl, teid)
  }

  /** Every frame is of exactly one kind. */
  lemma OneKind(f: Frame)
    ensures (if Truncated(f) then 1 else 0) + (if Foreign(f) then 1 else 0) + (if OtherPort(f) then 1 else 0)
            + (if ShortGtp(f) then 1 else 0) + (if OtherMessage(f) then 1 else 0) + (if Gpdu(f) then 1 else 0) == 1
  {
    if ToGtpPort(f) && !ShortGtp(f) && !OtherMessage(f) {
      assert IsGpdu(f, f[14] % 16 * 4, Be32At(f, 26 + f[14] % 16 * 4));
    }
  }

  /** The XDP parser tells exactly these kinds apart. */
  lemma XdpKinds(f: Frame)
    ensures Truncated(f) <==> XdpParse(f) == ParseDrop(false)
    ensures Foreign(f) <==> XdpParse(f) == QuietPass
    ensures OtherPort(f) <==> XdpParse(f) == NonGtp
    ensures ShortGtp(f) <==> XdpParse(f) == ParseDrop(true)
    ensures OtherMessage(f) <==> XdpParse(f) == Control
    ensures forall ihl: nat, teid: u32 :: IsGpdu(f, ihl, teid) ==> XdpParse(f) == XdpGpdu(teid)
  {
  }

  // ---- Egress ----

  /** UDP to port 2152, as far as the egress hook looks. */
  ghost predicate Tunnelled(f: Frame) {
    && IsUdp(f) && |f| >= 22 + f[14] % 16 * 4
    && f[16 + f[14] % 16 * 4] == 0x08 && f[17 + f[14] % 16 * 4] == 0x68
  }

  /** IPv4 that the egress hook looks a UE up for. */
  ghost predicate Downlink(f: Frame) {
    IsIp(f) && |f| >= 34 && !Tunnelled(f)
  }

  /** The IPv4 destination. */
  ghost predicate SentTo(f: Frame, dst: u32) {
    |f| >= 34 && f[30..34] == Be32(dst)
  }

  lemma LookedUp(f: Frame, dst: u32)
    requires |f| >= 34
    ensures SentTo(f, dst) <==> dst == Be32At(f, 30)
  {
    Be32Found(f, 30, dst);
  }

  /** The egress hook wraps a downlink packet for the UE its destination address is mapped to, and no other packet. */
  lemma EgressByDestination(f: Frame, ues: map<u32, Ue>)
    ensures forall ue :: Egress(f, ues) == Wrap(ue)
                         <==> Downlink(f) && exists dst :: dst in ues && SentTo(f, dst) && ues[dst] == ue
    ensures Egress(f, ues) == NoUe <==> Downlink(f) && forall dst :: dst in ues ==> !SentTo(f, dst)
    ensures Egress(f, ues) == Leave <==> !Downlink(f)
  {
    if Downlink(f) {
      forall dst: u32
        ensures SentTo(f, dst) <==> dst == Be32At(f, 30)
      {
        LookedUp(f, dst);
      }
    }
  }
}
