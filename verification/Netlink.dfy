/** The generic-netlink attribute codec: its printer and its walking loop. */
module Netlink {
  import opened Words

  const NLMSG_ERROR: u16 := 2
  const CTRL_ATTR_FAMILY_ID: u16 := 1

  datatype Attr = Attr(kind: int, payload: seq<byte>)

  function Pad(n: nat): nat {
    (4 - n % 4) % 4
  }

  /** Both header words fit 16 bits; otherwise packing the header raises. */
  predicate Packable(a: Attr) {
    0 <= a.kind < U16_LIMIT && 4 + |a.payload| < U16_LIMIT
  }

  /** The bytes an attribute takes, its padding included. */
  function Room(a: Attr): nat {
    4 + |a.payload| + Pad(4 + |a.payload|)
  }

  function Packed(a: Attr): (bytes: seq<byte>)
    requires Packable(a)
  {
    var length := 4 + |a.payload|;
    Le16(length) + Le16(a.kind) + a.payload + seq(Pad(length), _ => 0)
  }

  function Nla(a: Attr): Option<seq<byte>> {
    if Packable(a) then Some(Packed(a)) else None
  }

  predicate AllPackable(attrs: seq<Attr>) {
    forall i :: 0 <= i < |attrs| ==> Packable(attrs[i])
  }

  function Join(attrs: seq<Attr>): seq<byte>
    requires AllPackable(attrs)
  {
    if attrs == [] then [] else Packed(attrs[0]) + Join(attrs[1..])
  }

  function NlaNested(kind: int, attrs: seq<Attr>): Option<seq<byte>> {
    if AllPackable(attrs) then Nla(Attr(kind, Join(attrs))) else None
  }

  /** One turn of the loop: where the attribute starts, its header, and the
      family id taken from it, if it carries one. */
  datatype Visit = Visit(off: nat, size: u16, kind: u16, id: Option<u16>)

  /** How the loop ends: its guard fails at `off`, it breaks on an impossible
      length at `off`, or a read runs past the buffer. */
  datatype Stop = Ended(off: nat) | Stopped(off: nat) | StructError

  datatype Trail = Trail(visits: seq<Visit>, stop: Stop)

  function Walk(buf: seq<byte>, off: nat, end: nat): Trail
    decreases end - off
  {
    if off >= end then Trail([], Ended(off))
    else if off + 4 > |buf| then Trail([], StructError)
    else
      var size, kind := U16At(buf, off), U16At(buf, off + 2);
      if size < 4 then Trail([], Stopped(off))
      else if kind == CTRL_ATTR_FAMILY_ID && off + 6 > |buf| then Trail([], StructError)
      else
        var id := if kind == CTRL_ATTR_FAMILY_ID then Some(U16At(buf, off + 4)) else None;
        var rest := Walk(buf, off + size + Pad(size), end);
        Trail([Visit(off, size, kind, id)] + rest.visits, rest.stop)
  }

  /** The socket's family id after the visits: the last one seen wins. */
  function LastId(visits: seq<Visit>, before: Option<u16>): Option<u16>
    decreases |visits|
  {
    if visits == [] then before
    else
      LastId(visits[1..], if visits[0].id.Some? then visits[0].id else before)
  }

  datatype Resolution = Family(id: u16) | NotFound | OsError(errno: int) | ShortReply

  function I32At(buf: seq<byte>, off: nat): int
    requires off + 4 <= |buf|
  {
    var w := U32At(buf, off);
    if w < 0x8000_0000 then w else w - 0x1_0000_0000
  }

  /** The answer to a reply, and the family id the socket keeps. */
  function Resolve(resp: seq<byte>, before: Option<u16>): (Resolution, Option<u16>) {
    if |resp| < 16 then (ShortReply, before)
    else if U16At(resp, 4) == NLMSG_ERROR then
      if |resp| < 20 then (ShortReply, before) else (OsError(-I32At(resp, 16)), before)
    else
      var trail := Walk(resp, 20, U32At(resp, 0));
      var after := LastId(trail.visits, before);
      if trail.stop == StructError then (ShortReply, after)
      else if after.None? then (NotFound, after)
      else (Family(after.value), after)
  }

  /** The visit shows the attribute: same kind, same payload. */
  predicate Shows(buf: seq<byte>, v: Visit, a: Attr) {
    && v.kind == a.kind
    && 4 <= v.size && v.off + v.size <= |buf|
    && buf[v.off + 4..v.off + v.size] == a.payload
  }

  predicate ShowsAll(buf: seq<byte>, visits: seq<Visit>, attrs: seq<Attr>) {
    |visits| == |attrs| && forall i :: 0 <= i < |attrs| ==> Shows(buf, visits[i], attrs[i])
  }

  /** An id attribute without payload, at the very end of the buffer: the one
      list the printer accepts and the loop cannot read back. */
  predicate BareIdLast(attrs: seq<Attr>, room: nat) {
    && attrs != []
    && attrs[|attrs| - 1] == Attr(CTRL_ATTR_FAMILY_ID, [])
    && room < 2
  }

  predicate IdsFilled(attrs: seq<Attr>) {
    forall i :: 0 <= i < |attrs| && attrs[i].kind == CTRL_ATTR_FAMILY_ID ==> |attrs[i].payload| >= 2
  }

  /** What the socket holds after passing one attribute. */
  function Passing(a: Attr, before: Option<u16>): Option<u16>
    requires a.kind == CTRL_ATTR_FAMILY_ID ==> |a.payload| >= 2
  {
    if a.kind == CTRL_ATTR_FAMILY_ID then Some(U16At(a.payload, 0)) else before
  }

  /** The id the socket holds after a list of attributes: the last one announced wins. */
  function Announced(attrs: seq<Attr>, before: Option<u16>): Option<u16>
    requires IdsFilled(attrs)
    decreases |attrs|
  {
    if attrs == [] then before
    else Announced(attrs[1..], Passing(attrs[0], before))
  }

  /** A reply as the kernel lays it out: length, the other 12 bytes of the
      message header, 4 bytes of generic header, attributes. */
  function Reply(head: seq<byte>, genl: seq<byte>, attrs: seq<Attr>): seq<byte>
    requires |head| == 12 && |genl| == 4 && AllPackable(attrs)
    requires 20 + |Join(attrs)| < U32_LIMIT
  {
    Le32(20 + |Join(attrs)|) + head + genl + Join(attrs)
  }
}

module NetlinkRoundTrip {
  import opened Words
  import opened Netlink

  lemma PackedSize(a: Attr)
    requires Packable(a)
    ensures |Packed(a)| == Room(a)
    ensures Room(a) % 4 == 0
  {
  }

  lemma RestPackable(attrs: seq<Attr>)
    requires attrs != [] && AllPackable(attrs)
    ensures Packable(attrs[0]) && AllPackable(attrs[1..])
  {
  }

  lemma MultiplesAdd(a: nat, b: nat)
    requires a % 4 == 0 && b % 4 == 0
    ensures (a + b) % 4 == 0
  {
  }

  lemma {:induction false} JoinAligned(attrs: seq<Attr>)
    requires AllPackable(attrs)
    ensures |Join(attrs)| % 4 == 0
    decreases |attrs|
  {
    if attrs != [] {
      RestPackable(attrs);
      PackedSize(attrs[0]);
      var first, rest := |Packed(attrs[0])|, |Join(attrs[1..])|;
      JoinAligned(attrs[1..]);
      assert |Join(attrs)| == first + rest;
      MultiplesAdd(first, rest);
    }
  }

  /** The attribute starts at `off`: header words and payload are in place. */
  predicate StartsAt(buf: seq<byte>, off: nat, a: Attr) {
    && off + Room(a) <= |buf|
    && U16At(buf, off) == 4 + |a.payload|
    && U16At(buf, off + 2) == a.kind
    && buf[off + 4..off + 4 + |a.payload|] == a.payload
  }

  /** The attributes lie one after the other from `off` to `end`. */
  predicate Laid(buf: seq<byte>, off: nat, attrs: seq<Attr>, end: nat)
    decreases |attrs|
  {
    if attrs == [] then off == end <= |buf|
    else StartsAt(buf, off, attrs[0]) && Laid(buf, off + Room(attrs[0]), attrs[1..], end)
  }

  predicate Holds(buf: seq<byte>, off: nat, bytes: seq<byte>) {
    off + |bytes| <= |buf| && buf[off..off + |bytes|] == bytes
  }

  lemma PackedStarts(buf: seq<byte>, off: nat, a: Attr)
    requires Packable(a) && Holds(buf, off, Packed(a))
    ensures StartsAt(buf, off, a)
  {
    var length := 4 + |a.payload|;
    PackedSize(a);
    assert forall k :: 0 <= k < |Packed(a)| ==> buf[off + k] == Packed(a)[k];
    assert Packed(a)[0] == length % 0x100 && Packed(a)[1] == length / 0x100;
    assert Packed(a)[2] == a.kind % 0x100 && Packed(a)[3] == a.kind / 0x100;
    assert Packed(a)[4..length] == a.payload;
    assert buf[off + 4..off + length] == a.payload;
  }

  lemma HoldsSplit(buf: seq<byte>, off: nat, first: seq<byte>, second: seq<byte>)
    requires Holds(buf, off, first + second)
    ensures Holds(buf, off, first) && Holds(buf, off + |first|, second)
  {
    var both := first + second;
    assert both[..|first|] == first && both[|first|..] == second;
    assert buf[off..off + |first|] == buf[off..off + |both|][..|first|];
    assert buf[off + |first|..off + |both|] == buf[off..off + |both|][|first|..];
  }

  lemma {:induction false} JoinLaid(buf: seq<byte>, off: nat, attrs: seq<Attr>)
    requires AllPackable(attrs) && Holds(buf, off, Join(attrs))
    ensures Laid(buf, off, attrs, off + |Join(attrs)|)
    decreases |attrs|
  {
    if attrs == [] {
      return;
    }
    var first, rest := Packed(attrs[0]), Join(attrs[1..]);
    assert Join(attrs) == first + rest;
    PackedSize(attrs[0]);
    HoldsSplit(buf, off, first, rest);
    PackedStarts(buf, off, attrs[0]);
    JoinLaid(buf, off + |first|, attrs[1..]);
  }

  /** What the loop gets to see: all attributes, or all but a bare id at the end. */
  function Seen(attrs: seq<Attr>, room: nat): seq<Attr> {
    if BareIdLast(attrs, room) then attrs[..|attrs| - 1] else attrs
  }

  lemma SeenStep(attrs: seq<Attr>, room: nat)
    requires |attrs| > 1
    ensures BareIdLast(attrs, room) == BareIdLast(attrs[1..], room)
    ensures Seen(attrs, room) == [attrs[0]] + Seen(attrs[1..], room)
  {
    assert attrs[|attrs| - 1] == attrs[1..][|attrs| - 2];
  }

  lemma {:induction false} LaidEnd(buf: seq<byte>, off: nat, attrs: seq<Attr>, end: nat)
    requires Laid(buf, off, attrs, end)
    ensures off + 4 * |attrs| <= end <= |buf|
    decreases |attrs|
  {
    if attrs != [] {
      LaidEnd(buf, off + Room(attrs[0]), attrs[1..], end);
    }
  }

  /** One turn of the loop on an attribute it can read. */
  lemma WalkStep(buf: seq<byte>, off: nat, a: Attr, end: nat)
    requires StartsAt(buf, off, a) && off < end
    requires a.kind == CTRL_ATTR_FAMILY_ID ==> off + 6 <= |buf|
    ensures var trail, tail := Walk(buf, off, end), Walk(buf, off + Room(a), end);
      && trail.stop == tail.stop
      && trail.visits != [] && trail.visits == [trail.visits[0]] + tail.visits
      && Shows(buf, trail.visits[0], a)
      && trail.visits[0].off == off
      && trail.visits[0].id == if a.kind == CTRL_ATTR_FAMILY_ID then Some(U16At(buf, off + 4)) else None
  {
  }

  lemma ShowsMore(buf: seq<byte>, v: Visit, a: Attr, visits: seq<Visit>, attrs: seq<Attr>)
    requires Shows(buf, v, a) && ShowsAll(buf, visits, attrs)
    ensures ShowsAll(buf, [v] + visits, [a] + attrs)
  {
  }

  lemma {:induction false} WalkLaid(buf: seq<byte>, off: nat, attrs: seq<Attr>, end: nat)
    requires Laid(buf, off, attrs, end) && end <= |buf|
    ensures var trail := Walk(buf, off, end);
      && trail.stop == (if BareIdLast(attrs, |buf| - end) then StructError else Ended(end))
      && ShowsAll(buf, trail.visits, Seen(attrs, |buf| - end))
    decreases |attrs|
  {
    if attrs == [] {
      return;
    }
    var a, rest := attrs[0], attrs[1..];
    LaidEnd(buf, off + Room(a), rest, end);
    WalkLaid(buf, off + Room(a), rest, end);
    var room := |buf| - end;
    if rest == [] && BareIdLast(attrs, room) {
      assert Walk(buf, off, end) == Trail([], StructError);
    } else {
      if rest != [] {
        SeenStep(attrs, room);
      }
      WalkStep(buf, off, a, end);
      var tail := Walk(buf, off + Room(a), end);
      ShowsMore(buf, Walk(buf, off, end).visits[0], a, tail.visits, Seen(rest, room));
      assert Seen(attrs, room) == [a] + Seen(rest, room);
    }
  }

  /** The loop from `off` visits the attributes, all of them and in order, and
      ends exactly at `end`; only a bare id at the end makes it fail, on that
      attribute, after visiting the others. */
  predicate ReadsBack(buf: seq<byte>, off: nat, attrs: seq<Attr>, end: nat)
    requires end <= |buf|
  {
    var trail := Walk(buf, off, end);
    && (trail.stop == Ended(end) <==> !BareIdLast(attrs, |buf| - end))
    && (trail.stop == StructError <==> BareIdLast(attrs, |buf| - end))
    && ShowsAll(buf, trail.visits, Seen(attrs, |buf| - end))
  }

  lemma WalkReadsBack(buf: seq<byte>, off: nat, attrs: seq<Attr>, end: nat)
    requires AllPackable(attrs) && Holds(buf, off, Join(attrs))
    requires end == off + |Join(attrs)|
    ensures ReadsBack(buf, off, attrs, end)
  {
    JoinLaid(buf, off, attrs);
    WalkLaid(buf, off, attrs, end);
  }

  predicate Aligned(visits: seq<Visit>, off: nat) {
    forall i :: 0 <= i < |visits| ==> (visits[i].off - off) % 4 == 0
  }

  lemma Padded(n: nat)
    ensures (n + Pad(n)) % 4 == 0
  {
  }

  /** The visits advance from `off` by whole multiples of four and stay below `end`. */
  ghost predicate Advancing(visits: seq<Visit>, off: nat, end: nat) {
    && (forall i :: 0 <= i < |visits| ==> off <= visits[i].off < end && (visits[i].off - off) % 4 == 0)
    && (forall i, j :: 0 <= i < j < |visits| ==> visits[i].off < visits[j].off)
  }

  lemma AdvancingStep(v: Visit, rest: seq<Visit>, next: nat, end: nat)
    requires v.off < end && v.off + 4 <= next && (next - v.off) % 4 == 0 && Advancing(rest, next, end)
    ensures Advancing([v] + rest, v.off, end)
  {
    var all := [v] + rest;
    forall i | 0 <= i < |all|
      ensures v.off <= all[i].off < end && (all[i].off - v.off) % 4 == 0
    {
      if i > 0 {
        assert all[i] == rest[i - 1];
        assert (rest[i - 1].off - next) % 4 == 0;
      }
    }
  }

  /** On any buffer at all, the loop ends after at most a quarter as many turns as there are bytes to walk. */
  lemma {:induction false} StepsAligned(buf: seq<byte>, off: nat, end: nat)
    ensures var visits := Walk(buf, off, end).visits;
      && Advancing(visits, off, end)
      && (off < end ==> 4 * |visits| < end - off + 4)
      && (off >= end ==> visits == [])
    decreases end - off
  {
    var trail := Walk(buf, off, end);
    if trail.visits != [] {
      var v := trail.visits[0];
      var next := off + v.size + Pad(v.size);
      Padded(v.size);
      StepsAligned(buf, next, end);
      AdvancingStep(v, Walk(buf, next, end).visits, next, end);
    }
  }

  /** Whatever lies inside it, an attribute's children sit at offsets that keep
      its own alignment. */
  lemma ChildrenAligned(buf: seq<byte>, off: nat, end: nat)
    ensures Aligned(Walk(buf, off + 4, end).visits, off)
  {
    var visits := Walk(buf, off + 4, end).visits;
    StepsAligned(buf, off + 4, end);
    forall i | 0 <= i < |visits|
      ensures (visits[i].off - off) % 4 == 0
    {
      assert (visits[i].off - (off + 4)) % 4 == 0;
    }
  }

  /** One turn of the loop on an attribute whose id, if it is one, is filled. */
  lemma IdStep(buf: seq<byte>, off: nat, a: Attr, end: nat, before: Option<u16>)
    requires StartsAt(buf, off, a) && off < end
    requires a.kind == CTRL_ATTR_FAMILY_ID ==> |a.payload| >= 2
    ensures LastId(Walk(buf, off, end).visits, before)
            == LastId(Walk(buf, off + Room(a), end).visits, Passing(a, before))
  {
    if a.kind == CTRL_ATTR_FAMILY_ID {
      assert buf[off + 4] == a.payload[0] && buf[off + 5] == a.payload[1];
    }
    WalkStep(buf, off, a, end);
  }

  /** The loop reads each filled id attribute as the id it announces. */
  lemma {:induction false} IdsReadBack(buf: seq<byte>, off: nat, attrs: seq<Attr>, end: nat, before: Option<u16>)
    requires Laid(buf, off, attrs, end) && IdsFilled(attrs)
    ensures LastId(Walk(buf, off, end).visits, before) == Announced(attrs, before)
    decreases |attrs|
  {
    if attrs == [] {
      return;
    }
    var a := attrs[0];
    LaidEnd(buf, off + Room(a), attrs[1..], end);
    IdStep(buf, off, a, end, before);
    IdsReadBack(buf, off + Room(a), attrs[1..], end, Passing(a, before));
  }

  lemma ReplyLayout(head: seq<byte>, genl: seq<byte>, attrs: seq<Attr>)
    requires |head| == 12 && |genl| == 4 && AllPackable(attrs)
    requires 20 + |Join(attrs)| < U32_LIMIT
    ensures var resp := Reply(head, genl, attrs);
      && |resp| == 20 + |Join(attrs)| == U32At(resp, 0)
      && U16At(resp, 4) == U16At(head, 0)
      && Holds(resp, 20, Join(attrs))
  {
    var resp, bytes := Reply(head, genl, attrs), Join(attrs);
    var length := Le32(20 + |bytes|);
    Le32RoundTrip(20 + |bytes|);
    assert forall k :: 0 <= k < 4 ==> resp[k] == length[k];
    assert resp[4] == head[0] && resp[5] == head[1];
    assert resp[20..] == bytes;
  }

  lemma WalkedIds(resp: seq<byte>, attrs: seq<Attr>, before: Option<u16>)
    requires AllPackable(attrs) && IdsFilled(attrs)
    requires Holds(resp, 20, Join(attrs)) && |resp| == 20 + |Join(attrs)|
    ensures var trail := Walk(resp, 20, |resp|);
      trail.stop != StructError && LastId(trail.visits, before) == Announced(attrs, before)
  {
    JoinLaid(resp, 20, attrs);
    WalkLaid(resp, 20, attrs, |resp|);
    IdsReadBack(resp, 20, attrs, |resp|, before);
  }

  /** End to end: a well-formed reply resolves to the last id announced in it,
      to the id already held when it announces none, or to "not found". */
  lemma ReplyResolves(head: seq<byte>, genl: seq<byte>, attrs: seq<Attr>, before: Option<u16>)
    requires |head| == 12 && |genl| == 4 && AllPackable(attrs) && IdsFilled(attrs)
    requires 20 + |Join(attrs)| < U32_LIMIT
    requires U16At(head, 0) != NLMSG_ERROR
    ensures var id := Announced(attrs, before);
      Resolve(Reply(head, genl, attrs), before) == (if id.Some? then Family(id.value) else NotFound, id)
  {
    ReplyLayout(head, genl, attrs);
    WalkedIds(Reply(head, genl, attrs), attrs, before);
  }
}

module NetlinkNesting {
  import opened Words
  import opened Netlink
  import opened NetlinkRoundTrip

  /** A nested attribute is its children's bytes under one header: its length word is the whole of it, so it needs
      no padding of its own. */
  lemma NestedStarts(buf: seq<byte>, off: nat, kind: int, attrs: seq<Attr>, parent: seq<byte>)
    requires NlaNested(kind, attrs) == Some(parent) && Holds(buf, off, parent)
    ensures AllPackable(attrs) && StartsAt(buf, off, Attr(kind, Join(attrs)))
    ensures |parent| == U16At(buf, off) == 4 + |Join(attrs)|
  {
    var whole := Attr(kind, Join(attrs));
    JoinAligned(attrs);
    PackedSize(whole);
    PackedStarts(buf, off, whole);
  }

  lemma PayloadHeld(buf: seq<byte>, off: nat, a: Attr)
    requires StartsAt(buf, off, a)
    ensures U16At(buf, off) == 4 + |a.payload| && Holds(buf, off + 4, a.payload)
  {
  }

  /** Inside a nested attribute the same loop visits exactly the children. */
  lemma NestedReadsBack(buf: seq<byte>, off: nat, kind: int, attrs: seq<Attr>)
    requires AllPackable(attrs) && StartsAt(buf, off, Attr(kind, Join(attrs)))
    ensures off + U16At(buf, off) <= |buf| && ReadsBack(buf, off + 4, attrs, off + U16At(buf, off))
  {
    PayloadHeld(buf, off, Attr(kind, Join(attrs)));
    WalkReadsBack(buf, off + 4, attrs, off + U16At(buf, off));
  }
}

/** Printed attributes, walks and replies, told from the bytes. */
module NetlinkBytes {
  import opened Words
  import opened Netlink

  /** A little-endian 16-bit word. */
  ghost predicate Word(buf: seq<byte>, off: nat, v: int) {
    off + 2 <= |buf| && v == buf[off] as int + 0x100 * buf[off + 1] as int
  }

  /** A printed attribute: length, kind and payload, then zeros up to a multiple of four. */
  lemma PackedBytes(a: Attr)
    requires Packable(a)
    ensures var p, n := Packed(a), |a.payload|;
            && Word(p, 0, 4 + n) && Word(p, 2, a.kind) && p[4..4 + n] == a.payload
            && |p| == (n + 7) / 4 * 4 && forall k :: 4 + n <= k < |p| ==> p[k] == 0
    ensures Packable(a) <==> 0 <= a.kind <= 0xffff && |a.payload| <= 0xfffb
  {
    var p, n := Packed(a), |a.payload|;
    assert p == (Le16(4 + n) + Le16(a.kind)) + a.payload + seq(Pad(4 + n), _ => 0);
    assert p[0] == Le16(4 + n)[0] && p[1] == Le16(4 + n)[1] && p[2] == Le16(a.kind)[0] && p[3] == Le16(a.kind)[1];
  }

  /** A turn of the loop that reads its attribute. */
  ghost predicate Turn(buf: seq<byte>, v: Visit, end: nat) {
    && v.off < end && v.size >= 4 && Word(buf, v.off, v.size) && Word(buf, v.off + 2, v.kind)
    && (if v.kind == 1 then v.id.Some? && Word(buf, v.off + 4, v.id.value) else v.id.None?)
  }

  /** How the loop ends at `off`: there is nothing left, the length is too small, or a read leaves the buffer. */
  ghost predicate Ends(buf: seq<byte>, off: nat, end: nat, stop: Stop) {
    match stop
    case Ended(at) => at == off && off >= end
    case Stopped(at) => at == off && off < end && off + 4 <= |buf| && buf[off] < 4 && buf[off + 1] == 0
    case StructError =>
      && off < end
      && (off + 4 > |buf| || (off + 6 > |buf| && (buf[off] >= 4 || buf[off + 1] != 0) && Word(buf, off + 2, 1)))
  }

  /** Each turn reads the attribute it stands on and moves on by its length rounded up to four. */
  ghost predicate Walked(buf: seq<byte>, off: nat, end: nat, visits: seq<Visit>, stop: Stop)
    decreases |visits|
  {
    if visits == [] then Ends(buf, off, end, stop)
    else
      && visits[0].off == off && Turn(buf, visits[0], end)
      && Walked(buf, off + (visits[0].size + 3) / 4 * 4, end, visits[1..], stop)
  }

  lemma PadRounds(n: nat)
    ensures n + Pad(n) == (n + 3) / 4 * 4
  {
  }

  lemma OneTurn(buf: seq<byte>, v: Visit, end: nat)
    requires Turn(buf, v, end)
    ensures var trail, rest := Walk(buf, v.off, end), Walk(buf, v.off + (v.size + 3) / 4 * 4, end);
            trail.visits == [v] + rest.visits && trail.stop == rest.stop
  {
    PadRounds(v.size);
  }

  lemma FirstTurn(buf: seq<byte>, off: nat, end: nat)
    requires Walk(buf, off, end).visits != []
    ensures var v := Walk(buf, off, end).visits[0]; v.off == off && Turn(buf, v, end)
  {
  }

  lemma NoTurn(buf: seq<byte>, off: nat, end: nat, stop: Stop)
    ensures Ends(buf, off, end, stop) <==> Walk(buf, off, end) == Trail([], stop)
  {
  }

  /** After a turn, the walk is that turn and the walk from where it leads. */
  lemma TailDecides(buf: seq<byte>, off: nat, end: nat, visits: seq<Visit>, stop: Stop)
    requires visits != [] && visits[0].off == off && Turn(buf, visits[0], end)
    ensures Walk(buf, off, end) == Trail(visits, stop)
            <==> Walk(buf, off + (visits[0].size + 3) / 4 * 4, end) == Trail(visits[1..], stop)
  {
    OneTurn(buf, visits[0], end);
    var trail, rest := Walk(buf, off, end), Walk(buf, off + (visits[0].size + 3) / 4 * 4, end);
    assert visits == [visits[0]] + visits[1..];
    assert ([visits[0]] + rest.visits)[1..] == rest.visits;
  }

  /** On any buffer at all there is exactly one such walk, and it is the loop's. */
  lemma {:induction false} WalkedExactly(buf: seq<byte>, off: nat, end: nat, visits: seq<Visit>, stop: Stop)
    ensures Walked(buf, off, end, visits, stop) <==> Walk(buf, off, end) == Trail(visits, stop)
    decreases |visits|
  {
    if visits == [] {
      NoTurn(buf, off, end, stop);
    } else if visits[0].off == off && Turn(buf, visits[0], end) {
      TailDecides(buf, off, end, visits, stop);
      WalkedExactly(buf, off + (visits[0].size + 3) / 4 * 4, end, visits[1..], stop);
    } else if Walk(buf, off, end).visits != [] {
      FirstTurn(buf, off, end);
    }
  }

  /** The family id left after some turns is the one read last, if any was. */
  lemma {:induction false} LastOneWins(visits: seq<Visit>, before: Option<u16>)
    ensures (forall i :: 0 <= i < |visits| ==> visits[i].id.None?) ==> LastId(visits, before) == before
    ensures forall k :: 0 <= k < |visits| && visits[k].id.Some?
                        && (forall i :: k < i < |visits| ==> visits[i].id.None?)
                        ==> LastId(visits, before) == visits[k].id
    decreases |visits|
  {
    if visits != [] {
      var now, rest := if visits[0].id.Some? then visits[0].id else before, visits[1..];
      LastOneWins(rest, now);
      forall k | 0 <= k < |visits| && visits[k].id.Some? && (forall i :: k < i < |visits| ==> visits[i].id.None?)
        ensures LastId(visits, before) == visits[k].id
      {
        if k > 0 {
          assert rest[k - 1] == visits[k];
          forall i | k - 1 < i < |rest|
            ensures rest[i].id.None?
          {
            assert rest[i] == visits[i + 1];
          }
        } else {
          assert forall i :: 0 <= i < |rest| ==> rest[i] == visits[i + 1];
        }
      }
    }
  }

  /** A reply of type 2 that carries the kernel's -e is the error e, and leaves the family id alone. */
  lemma KernelErrors(resp: seq<byte>, before: Option<u16>, e: int)
    requires |resp| >= 20 && Word(resp, 4, 2) && -0x8000_0000 < e <= 0x8000_0000
    requires resp[16] as int + 0x100 * resp[17] as int + 0x1_0000 * resp[18] as int + 0x100_0000 * resp[19] as int
             == (0x1_0000_0000 - e) % 0x1_0000_0000
    ensures Resolve(resp, before) == (OsError(e), before)
  {
  }

  /** A reply that ends inside its header, or inside the code of an error. */
  lemma TruncatedReplies(resp: seq<byte>, before: Option<u16>)
    requires |resp| < 16 || (|resp| < 20 && Word(resp, 4, 2))
    ensures Resolve(resp, before) == (ShortReply, before)
  {
  }

  /**
   * Every other reply is walked from byte 20 to the length in its first word; the socket keeps the last family id seen
   * even if the walk leaves the buffer.
   */
  lemma OtherReplies(resp: seq<byte>, before: Option<u16>, end: nat, visits: seq<Visit>, stop: Stop)
    requires |resp| >= 16 && !Word(resp, 4, 2) && Walked(resp, 20, end, visits, stop)
    requires end == resp[0] as int + 0x100 * resp[1] as int + 0x1_0000 * resp[2] as int + 0x100_0000 * resp[3] as int
    ensures var id := LastId(visits, before);
            Resolve(resp, before)
            == (if stop == StructError then ShortReply else if id.Some? then Family(id.value) else NotFound, id)
  {
    WalkedExactly(resp, 20, end, visits, stop);
  }
}

module GenlSocketState {
  import opened Words
  import opened Netlink

  class GenlSocket {
    var familyId: Option<u16>

    constructor ()
      ensures familyId == None
    {
      familyId := None;
    }

    /** The reading half of resolve_family, from the reply on. */
    method ResolveFamily(resp: seq<byte>) returns (r: Resolution)
      modifies this
      ensures (r, familyId) == Resolve(resp, old(familyId))
    {
      if |resp| < 16 {
        return ShortReply;
      }
      if U16At(resp, 4) == NLMSG_ERROR {
        if |resp| < 20 {
          return ShortReply;
        }
        return OsError(-I32At(resp, 16));
      }
      var off, end := 20, U32At(resp, 0);
      ghost var before := familyId;
      ghost var trail := Walk(resp, 20, end);
      while off < end
        invariant off >= 20
        invariant Walk(resp, off, end).stop == trail.stop
        invariant LastId(Walk(resp, off, end).visits, familyId) == LastId(trail.visits, before)
        decreases end - off
      {
        if off + 4 > |resp| {
          return ShortReply;
        }
        var size, kind := U16At(resp, off), U16At(resp, off + 2);
        if size < 4 {
          break;
        }
        if kind == CTRL_ATTR_FAMILY_ID && off + 6 > |resp| {
          return ShortReply;
        }
        ghost var here := Walk(resp, off, end);
        ghost var next := Walk(resp, off + size + Pad(size), end);
        assert here.visits[1..] == next.visits;
        if kind == CTRL_ATTR_FAMILY_ID {
          familyId := Some(U16At(resp, off + 4));
        }
        off := off + size + Pad(size);
      }
      if familyId.None? {
        return NotFound;
      }
      return Family(familyId.value);
    }
  }
}
