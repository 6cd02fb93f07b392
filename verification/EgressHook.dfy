/** upf_tc_egress on a packet buffer that grows (bpf/upf_tc_egress.c:43-147). */
module EgressHook {
  import opened Words
  import opened Checksum
  import opened Frames

  const TC_ACT_OK := 0
  const TC_ACT_SHOT := 2

  class Skb {
    var data: array<byte>

    constructor (f: Frame)
      ensures fresh(data) && data[..] == f
    {
      data := new byte[|f|](i requires 0 <= i < |f| => f[i]);
    }

    /** bpf_skb_adjust_room in MAC mode: open up `room`, of whatever content, after the Ethernet header, or refuse. */
    method Grow(room: seq<byte>, refused: bool) returns (ok: bool)
      modifies this
      ensures ok == (!refused && old(data.Length) >= ETH_HLEN)
      ensures if ok then fresh(data) && data[..] == old(data[..ETH_HLEN]) + room + old(data[ETH_HLEN..])
              else data == old(data)
    {
      if refused || data.Length < ETH_HLEN {
        return false;
      }
      var f, k := data[..], |room|;
      data := new byte[|f| + k](i requires 0 <= i < |f| + k =>
        if i < ETH_HLEN then f[i] else if i < ETH_HLEN + k then room[i - ETH_HLEN] else f[i - k]);
      return true;
    }

    /** The same helper with a negative length: drop n bytes after the Ethernet header, or refuse. */
    method Shrink(n: nat, refused: bool) returns (ok: bool)
      modifies this
      ensures ok == (!refused && old(data.Length) >= ETH_HLEN + n)
      ensures if ok then fresh(data) && data[..] == old(data[..14]) + old(data[14 + n..]) else data == old(data)
    {
      if refused || data.Length < ETH_HLEN + n {
        return false;
      }
      var f := data[..];
      data := new byte[|f| - n](i requires 0 <= i < |f| - n => if i < ETH_HLEN then f[i] else f[i + n]);
      return true;
    }
  }

  /** Store the bytes of one header field. */
  method Store(d: array<byte>, off: nat, bs: seq<byte>)
    requires off + |bs| <= d.Length
    modifies d
    ensures d[..off + |bs|] == old(d[..off]) + bs
    ensures forall k :: off + |bs| <= k < d.Length ==> d[k] == old(d[k])
  {
    for k := 0 to |bs|
      invariant d[..off + k] == old(d[..off]) + bs[..k]
      invariant forall j :: off + k <= j < d.Length ==> d[j] == old(d[j])
    {
      d[off + k] := bs[k];
    }
  }

  lemma Spliced(f: Frame, room: seq<byte>, outer: seq<byte>)
    requires |f| >= ETH_HLEN && |room| == |outer| == OUTER_LEN
    ensures var g := f[..ETH_HLEN] + room + f[ETH_HLEN..];
            g[..ETH_HLEN] + outer + g[ETH_HLEN + OUTER_LEN..] == f[..ETH_HLEN] + outer + f[ETH_HLEN..]
  {
  }

  /** The outer IPv4 header with a zero check field. */
  method WriteIp(d: array<byte>, total: nat, n3: u32, ue: Ue)
    requires d.Length == ETH_HLEN + total && total >= OUTER_LEN
    modifies d
    ensures d[..34] == old(d[..14]) + OuterIp(total, n3, ue)
    ensures forall k :: 34 <= k < d.Length ==> d[k] == old(d[k])
  {
    ghost var head := d[..14];
    Store(d, 14, [0x45, 0]);
    Store(d, 16, Be16(total % U16_LIMIT));
    assert d[..18] == head + ([0x45, 0] + Be16(total % U16_LIMIT));
    Store(d, 18, [0, 0, 0, 0]);
    Store(d, 22, [64, 17]);
    Store(d, 24, [0, 0]);
    assert d[..26] == head + ([0x45, 0] + Be16(total % U16_LIMIT) + [0, 0, 0, 0, 64, 17, 0, 0]);
    Store(d, 26, Be32(n3));
    Store(d, 30, Be32(ue.gnb));
  }

  /** The check field, once the rest of the header is in place. */
  method WriteCheck(d: array<byte>)
    requires d.Length >= ETH_HLEN + OUTER_LEN && d[24] == d[25] == 0
    modifies d
    ensures d[..34] == old(d[..14]) + WithCheck(old(d[14..34]), ONES - OnesSum(SumLe(old(d[14..34]))))
    ensures forall k :: 34 <= k < d.Length ==> d[k] == old(d[k])
  {
    ghost var ip := d[14..34];
    var check := IpChecksum20(d[14..34]);
    Store(d, 24, Le16(check));
    assert old(d[..24]) == old(d[..14]) + ip[..10];
    forall k | 0 <= k < 8
      ensures d[26..34][k] == ip[12..][k]
    {
      assert d[26 + k] == old(d[26 + k]) == ip[12 + k];
    }
    assert d[26..34] == ip[12..];
    assert d[..34] == d[..26] + d[26..34];
  }

  method WriteUdpGtp(d: array<byte>, udpLen: nat, gtpLen: nat, ue: Ue)
    requires d.Length >= ETH_HLEN + OUTER_LEN
    modifies d
    ensures d[..50] == old(d[..34]) + OuterUdpGtp(udpLen, gtpLen, ue)
    ensures forall k :: 50 <= k < d.Length ==> d[k] == old(d[k])
  {
    ghost var head := d[..34];
    Store(d, 34, Be16(GTPU_PORT));
    Store(d, 36, Be16(GTPU_PORT));
    Store(d, 38, Be16(udpLen % U16_LIMIT));
    ghost var udp := Be16(GTPU_PORT) + Be16(GTPU_PORT) + Be16(udpLen % U16_LIMIT);
    assert d[..40] == head + udp;
    Store(d, 40, [0, 0]);
    Store(d, 42, [0x30]);
    Store(d, 43, [0xff]);
    assert d[..44] == head + (udp + [0, 0] + [0x30, 0xff]);
    Store(d, 44, Be16(gtpLen % U16_LIMIT));
    Store(d, 46, Be32(ue.teid));
  }

  /** Header fields in the order the hook writes them. */
  method WriteOuter(d: array<byte>, total: nat, n3: u32, ue: Ue)
    requires total >= OUTER_LEN && d.Length == ETH_HLEN + total
    modifies d
    ensures d[..] == old(d[..14]) + Outer(total - OUTER_LEN, n3, ue) + old(d[50..])
  {
    var udpLen := total - IP_HLEN;
    var gtpLen := udpLen - 8 - 8;
    WriteIp(d, total, n3, ue);
    assert d[14..34] == OuterIp(total, n3, ue) by { assert d[14..34] == d[..34][14..]; }
    assert d[24] == d[14..34][10] && d[25] == d[14..34][11];
    assert d[..14] == old(d[..14]) by { assert d[..14] == d[..34][..14]; }
    WriteCheck(d);
    WriteUdpGtp(d, udpLen, gtpLen, ue);
    assert d[..] == d[..50] + d[50..];
  }

  class Hook {
    var ues: map<u32, Ue>
    /** upf_config_map's entry. */
    var config: Option<u32>
    var hit: nat
    var miss: nat
    var encapErr: nat

    constructor (ues: map<u32, Ue>, config: Option<u32>)
      ensures this.ues == ues && this.config == config && hit == miss == encapErr == 0
    {
      this.ues, this.config, hit, miss, encapErr := ues, config, 0, 0, 0;
    }

    /** Parsing and the dl_ue_map lookup. */
    method Recognise(d: array<byte>) returns (v: EgressVerdict)
      ensures v == Egress(d[..], ues)
    {
      if d.Length < ETH_HLEN {
        return Leave;
      }
      if Be16At(d[..], 12) != ETH_P_IP {
        return Leave;
      }
      if d.Length < ETH_HLEN + IP_HLEN {
        return Leave;
      }
      if d[23] == IPPROTO_UDP {
        var l4 := ETH_HLEN + d[14] % 16 * 4;
        if l4 + 8 <= d.Length && Be16At(d[..], l4 + 2) == GTPU_PORT {
          return Leave;
        }
      }
      var dst := Be32At(d[..], 30);
      if dst !in ues {
        return NoUe;
      }
      return Wrap(ues[dst]);
    }

    /** From the configuration lookup on: make room, find it again, fill it. */
    method AddHeaders(skb: Skb, ue: Ue, refused: bool, room: seq<byte>, head: nat) returns (action: nat)
      requires |room| == OUTER_LEN && skb.data.Length >= ETH_HLEN
      modifies this`encapErr, skb
      ensures if refused then
                action == TC_ACT_SHOT && encapErr == old(encapErr) + 1 && skb.data[..] == old(skb.data[..])
              else if head < ETH_HLEN + OUTER_LEN then
                action == TC_ACT_SHOT && encapErr == old(encapErr) + 1
                && skb.data[..] == old(skb.data[..ETH_HLEN]) + room + old(skb.data[ETH_HLEN..])
              else
                action == TC_ACT_OK && encapErr == old(encapErr)
                && skb.data[..] == Encapsulate(old(skb.data[..]), if config.Some? then config.value else 0, ue)
    {
      ghost var f := skb.data[..];
      var n3 := if config.Some? then config.value else 0;
      var ok := skb.Grow(room, refused);
      if !ok {
        encapErr := encapErr + 1;
        return TC_ACT_SHOT;
      }
      var d := skb.data;
      if head < ETH_HLEN || head < ETH_HLEN + IP_HLEN || head < ETH_HLEN + IP_HLEN + 8
         || head < ETH_HLEN + IP_HLEN + 8 + 8 {
        encapErr := encapErr + 1;
        return TC_ACT_SHOT;
      }
      var total := d.Length - ETH_HLEN;
      WriteOuter(d, total, n3, ue);
      Spliced(f, room, Outer(total - OUTER_LEN, n3, ue));
      return TC_ACT_OK;
    }

    /** Downlink encapsulation; `refused` and `room` are bpf_skb_adjust_room's choices, and `head` is how many bytes of
        the grown packet lie before data_end. */
    method TcEgress(skb: Skb, refused: bool, room: seq<byte>, head: nat) returns (action: nat)
      requires |room| == OUTER_LEN
      modifies this, skb
      ensures ues == old(ues) && config == old(config)
      ensures var v := Egress(old(skb.data[..]), ues);
              match v
              case Leave =>
                action == TC_ACT_OK && skb.data == old(skb.data) && skb.data[..] == old(skb.data[..])
                && hit == old(hit) && miss == old(miss) && encapErr == old(encapErr)
              case NoUe =>
                action == TC_ACT_OK && skb.data == old(skb.data) && skb.data[..] == old(skb.data[..])
                && hit == old(hit) && miss == old(miss) + 1 && encapErr == old(encapErr)
              case Wrap(ue) =>
                && hit == old(hit) + 1 && miss == old(miss)
                && (if refused then
                      action == TC_ACT_SHOT && encapErr == old(encapErr) + 1 && skb.data[..] == old(skb.data[..])
                    else if head < ETH_HLEN + OUTER_LEN then
                      action == TC_ACT_SHOT && encapErr == old(encapErr) + 1
                      && skb.data[..] == old(skb.data[..ETH_HLEN]) + room + old(skb.data[ETH_HLEN..])
                    else
                      action == TC_ACT_OK && encapErr == old(encapErr)
                      && skb.data[..] == Encapsulate(old(skb.data[..]), if config.Some? then config.value else 0, ue))
    {
      var v := Recognise(skb.data);
      match v
      case Leave => return TC_ACT_OK;
      case NoUe =>
        miss := miss + 1;
        return TC_ACT_OK;
      case Wrap(ue) =>
        hit := hit + 1;
        action := AddHeaders(skb, ue, refused, room, head);
    }
  }
}
