/** The code that writes and reads frames in packet buffers. */
module FrameCode {
  import opened NetBytes
  import opened Checksum
  import opened Frames
  import opened Subnets

  /** A buffer after the bytes b were written at the offset. */
  function Patch(s: seq<byte>, off: nat, b: seq<byte>): (r: seq<byte>)
    requires off + |b| <= |s|
    ensures |r| == |s|
  {
    seq(|s|, i requires 0 <= i < |s| => if off <= i < off + |b| then b[i - off] else s[i])
  }

  /** Writing inside a window that was written before changes the window. */
  lemma PatchWindow(s: seq<byte>, base: nat, w: seq<byte>, off: nat, b: seq<byte>)
    requires base + |w| <= |s| && off + |b| <= |w|
    ensures Patch(Patch(s, base, w), base + off, b) == Patch(s, base, Patch(w, off, b))
  {
  }

  // ---------------------------------------------------------------------------------
  // Fields of a header that starts at `base`; w is what the header's window holds
  // ---------------------------------------------------------------------------------

  method PutBytes(buf: array<byte>, base: nat, off: nat, b: seq<byte>, ghost s: seq<byte>, ghost w: seq<byte>)
    returns (ghost w': seq<byte>)
    requires |s| == buf.Length && base + |w| <= |s| && off + |b| <= |w| && buf[..] == Patch(s, base, w)
    modifies buf
    ensures w' == Patch(w, off, b) && buf[..] == Patch(s, base, w')
  {
    for i := 0 to |b|
      invariant buf[..] == Patch(Patch(s, base, w), base + off, b[..i])
    {
      buf[base + off + i] := b[i];
    }
    assert b[..|b|] == b;
    PatchWindow(s, base, w, off, b);
    w' := Patch(w, off, b);
  }

  /** A 16-bit field, stored with its bytes swapped into network order. */
  method Put16(buf: array<byte>, base: nat, off: nat, v: nat, ghost s: seq<byte>, ghost w: seq<byte>)
    returns (ghost w': seq<byte>)
    requires |s| == buf.Length && base + |w| <= |s| && off + 2 <= |w| && buf[..] == Patch(s, base, w)
    modifies buf
    ensures w' == Patch(w, off, Net16(v)) && buf[..] == Patch(s, base, w')
  {
    var word := NetSwap16(v);
    Swap16(v);
    w' := PutBytes(buf, base, off, [word % 256, word / 256 % 256], s, w);
  }

  method Put32(buf: array<byte>, base: nat, off: nat, v: nat, ghost s: seq<byte>, ghost w: seq<byte>)
    returns (ghost w': seq<byte>)
    requires |s| == buf.Length && base + |w| <= |s| && off + 4 <= |w| && buf[..] == Patch(s, base, w)
    modifies buf
    ensures w' == Patch(w, off, Net32(v)) && buf[..] == Patch(s, base, w')
  {
    Swap32(v);
    w' := PutBytes(buf, base, off, Word32(NetSwap32(v)), s, w);
  }

  lemma OwnWindow(s: seq<byte>, base: nat, n: nat)
    requires base + n <= |s|
    ensures Patch(s, base, s[base..base + n]) == s
  {
  }

  // ---------------------------------------------------------------------------------
  // tcp_req
  // ---------------------------------------------------------------------------------

  /** The pseudo header and, after it, the TCP header with the given checksum. */
  function TcpWindow(i: Interface, ip: nat, s: Segment, checksum: seq<byte>): (w: seq<byte>)
    requires |checksum| == 2
    ensures |w| == PSEUDO_LEN + TCP_LEN
  {
    PseudoBytes(Net32(i.ipAddr), Net32(ip), TCP_LEN + |s.payload|) + TcpBytes(s.(payload := []), checksum)
  }

  // The fields of tcp_req's two headers, the checksum still zero.
  method WriteTcpFields(buf: array<byte>, base: nat, len: nat, i: Interface, ip: nat, s: Segment)
    requires base + PSEUDO_LEN + TCP_LEN <= buf.Length && len == TCP_LEN + |s.payload|
    modifies buf
    ensures buf[..] == Patch(old(buf[..]), base, TcpWindow(i, ip, s, ZERO2))
  {
    hide Patch;
    hide Net16;
    hide Net32;
    ghost var b := buf[..];
    ghost var w := b[base..base + PSEUDO_LEN + TCP_LEN];
    ghost var w0 := w;
    OwnWindow(b, base, PSEUDO_LEN + TCP_LEN);
    w := PutBytes(buf, base, 12, [0, 0, 0, 0, 0, 0, 0, 0, 0, 0, 0, 0, 0, 0, 0, 0, 0, 0, 0, 0], b, w);
    w := Put16(buf, base, 12, s.srcPort, b, w);
    w := Put16(buf, base, 14, s.destPort, b, w);
    w := PutBytes(buf, base, 24, [0x50, s.flags], b, w);
    w := Put16(buf, base, 26, 0x4000, b, w);
    w := Put32(buf, base, 16, s.seqNumber, b, w);
    w := Put32(buf, base, 20, s.ackNumber, b, w);
    w := Put32(buf, base, 0, i.ipAddr, b, w);
    w := Put32(buf, base, 4, ip, b, w);
    w := PutBytes(buf, base, 8, [0, IPV4_PROTOCOL_TCP], b, w);
    w := Put16(buf, base, 10, len, b, w);
    TcpWindowWritten(w0, Net16(s.srcPort), Net16(s.destPort), [0x50, s.flags], Net16(0x4000), Net32(s.seqNumber),
      Net32(s.ackNumber), Net32(i.ipAddr), Net32(ip), [0, IPV4_PROTOCOL_TCP], Net16(len));
    assert w == TcpWindow(i, ip, s, ZERO2);
  }

  lemma TcpWindowChecksum(i: Interface, ip: nat, s: Segment, checksum: seq<byte>)
    requires |checksum| == 2
    ensures Patch(TcpWindow(i, ip, s, ZERO2), 28, checksum) == TcpWindow(i, ip, s, checksum)
    ensures TcpWindow(i, ip, s, ZERO2) + s.payload ==
            PseudoBytes(Net32(i.ipAddr), Net32(ip), TCP_LEN + |s.payload|) + TcpBytes(s, ZERO2)
  {
    hide Net16;
    hide Net32;
  }

  lemma PatchWhole(s: seq<byte>, base: nat, w: seq<byte>)
    requires base + |w| <= |s|
    ensures Patch(s, base, w)[base..base + |w|] == w
  {
  }

  lemma PatchRun(s: seq<byte>, base: nat, w: seq<byte>, end: nat)
    requires base + |w| <= end <= |s|
    ensures Patch(s, base, w)[base..end] == w + s[base + |w|..end]
  {
  }

  /** tcp_req down to its call of ipv4_req: the header at p, the pseudo header below it, and
      the checksum over both and the payload that follows. */
  method WriteTcp(buf: array<byte>, p: nat, end: nat, i: Interface, ip: nat, s: Segment)
    requires PSEUDO_LEN <= p && p + TCP_LEN <= end <= buf.Length && end - p < 0x1_0000
    requires buf[p + TCP_LEN..end] == s.payload
    modifies buf
    ensures 0 <= TcpChecksum(i, ip, s) < M16
    ensures buf[..] == Patch(old(buf[..]), p - PSEUDO_LEN, TcpWindow(i, ip, s, Net16(TcpChecksum(i, ip, s))))
  {
    hide Patch;
    hide PseudoBytes;
    hide TcpBytes;
    hide TcpWindow;
    hide RfcChecksum;
    hide LeSum;
    ghost var b := buf[..];
    var base := p - PSEUDO_LEN;
    assert end - p == TCP_LEN + |s.payload| by { assert |buf[p + TCP_LEN..end]| == end - p - TCP_LEN; }
    WriteTcpFields(buf, base, end - p, i, ip, s);
    ghost var w := TcpWindow(i, ip, s, ZERO2);
    PatchRun(b, base, w, end);
    assert b[base + |w|..end] == s.payload;
    assert buf[..][base..end] == buf[base..end];
    var checksum := NetChecksum(buf, base, end);
    TcpWindowChecksum(i, ip, s, Net16(checksum));
    assert checksum == TcpChecksum(i, ip, s);
    w := Put16(buf, base, 28, checksum, b, w);
  }

  // The fields in the order the code writes them, and in the order they come to stand.
  lemma TcpWindowWritten(w: seq<byte>, src: seq<byte>, dest: seq<byte>, flags: seq<byte>, window: seq<byte>,
                         sq: seq<byte>, ack: seq<byte>, own: seq<byte>, target: seq<byte>, proto: seq<byte>, len: seq<byte>)
    requires |w| == 32 && |src| == |dest| == |flags| == |window| == |proto| == |len| == 2
    requires |sq| == |ack| == |own| == |target| == 4
    ensures var w1 := Patch(w, 12, [0, 0, 0, 0, 0, 0, 0, 0, 0, 0, 0, 0, 0, 0, 0, 0, 0, 0, 0, 0]);
            var w2 := Patch(Patch(Patch(Patch(w1, 12, src), 14, dest), 24, flags), 26, window);
            var w3 := Patch(Patch(Patch(Patch(w2, 16, sq), 20, ack), 0, own), 4, target);
            Patch(Patch(w3, 8, proto), 10, len) ==
            own + target + proto + len + src + dest + sq + ack + flags + window + [0, 0, 0, 0]
  {
  }

  // ---------------------------------------------------------------------------------
  // ipv4_req
  // ---------------------------------------------------------------------------------

  /** ipv4_req down to its choice of the next hop: the header below p.  With no address of
      its own the source field keeps the bytes that were there. */
  method WriteIpv4(buf: array<byte>, p: nat, end: nat, i: Interface, ip: nat)
    requires IPV4_LEN <= p <= end <= buf.Length
    modifies buf
    ensures var src := if i.ipAddr != 0 then Net32(i.ipAddr) else old(buf[p - 8..p - 4]);
            buf[..] == Patch(old(buf[..]), p - IPV4_LEN, Ipv4Checked(src, TargetBytes(ip), end - p + IPV4_LEN))
  {
    hide Patch;
    hide Net16;
    hide Net32;
    hide OnesSum;
    hide Ipv4Bytes;
    ghost var b := buf[..];
    var base := p - IPV4_LEN;
    ghost var w := b[base..p];
    ghost var w0 := w;
    OwnWindow(b, base, IPV4_LEN);
    w := PutBytes(buf, base, 0, [0x45, 0x10], b, w);
    w := Put16(buf, base, 2, end - base, b, w);
    w := PutBytes(buf, base, 4, [0, 0, 0, 0, 64, IPV4_PROTOCOL_TCP, 0, 0], b, w);
    ghost var w1 := w;
    ghost var src := w0[12..16];
    SourceKept(w0, Net16(end - base));
    if i.ipAddr != 0 {
      w := Put32(buf, base, 12, i.ipAddr, b, w);
      src := Net32(i.ipAddr);
    }
    if ip == 0 {
      w := PutBytes(buf, base, 16, [0xFF, 0xFF, 0xFF, 0xFF], b, w);
    } else {
      w := Put32(buf, base, 16, ip, b, w);
    }
    Ipv4WindowWritten(w0, Net16(end - base), src, TargetBytes(ip), end - base);
    assert w == Ipv4Bytes(src, TargetBytes(ip), end - base, ZERO2);
    PatchWhole(b, base, w);
    assert buf[base..p] == buf[..][base..p];
    assert buf[base..p] == w;
    var checksum := NetChecksum(buf, base, p);
    OnesSumRange(w);
    Ipv4WindowChecksum(src, TargetBytes(ip), end - base, Net16(checksum));
    w := Put16(buf, base, 10, checksum, b, w);
    SliceOfSlice(b, base, p, 12, 16);
  }

  lemma SourceKept(w: seq<byte>, len: seq<byte>)
    requires |w| == IPV4_LEN && |len| == 2
    ensures var w1 := Patch(Patch(Patch(w, 0, [0x45, 0x10]), 2, len), 4, [0, 0, 0, 0, 64, IPV4_PROTOCOL_TCP, 0, 0]);
            Patch(w1, 12, w[12..16]) == w1
  {
  }

  lemma Ipv4WindowWritten(w: seq<byte>, len: seq<byte>, src: seq<byte>, dest: seq<byte>, total: nat)
    requires |w| == IPV4_LEN && |len| == 2 && |src| == |dest| == 4 && len == Net16(total)
    ensures var w1 := Patch(Patch(Patch(w, 0, [0x45, 0x10]), 2, len), 4, [0, 0, 0, 0, 64, IPV4_PROTOCOL_TCP, 0, 0]);
            Patch(Patch(w1, 12, src), 16, dest) == Ipv4Bytes(src, dest, total, ZERO2)
  {
    hide Net16;
  }

  lemma Ipv4WindowChecksum(src: seq<byte>, dest: seq<byte>, total: nat, checksum: seq<byte>)
    requires |src| == |dest| == 4 && |checksum| == 2
    ensures Patch(Ipv4Bytes(src, dest, total, ZERO2), 10, checksum) == Ipv4Bytes(src, dest, total, checksum)
  {
    hide Net16;
  }

  /** The hop a packet is sent to: zero for a broadcast, the target itself on the subnet of
      the DHCP server, and that server otherwise. */
  function NextHop(i: Interface, ip: nat): (hop: nat)
    requires i.Ok() && ip < M32
  {
    if ip == 0 then 0
    else if BitAnd(i.subnetMask, ip) == BitAnd(i.subnetMask, i.ipDhcp) then ip
    else i.ipDhcp
  }

  // ---------------------------------------------------------------------------------
  // ether_req
  // ---------------------------------------------------------------------------------

  /** The hardware address for a hop; one the ARP cache does not know leaves the field. */
  function HopAddress(arp: map<nat, seq<byte>>, hop: nat, field: seq<byte>): (mac: seq<byte>)
    requires ArpOk(arp) && |field| == 6
    ensures |mac| == 6
  {
    if hop == 0 then [0xFF, 0xFF, 0xFF, 0xFF, 0xFF, 0xFF] else if hop in arp then arp[hop] else field
  }

  predicate ArpOk(arp: map<nat, seq<byte>>) {
    forall ip :: ip in arp ==> |arp[ip]| == 6
  }

  /** Where a packet for ip goes, told from the interface and the ARP cache: a broadcast to
      everyone, a target on the DHCP server's subnet to its own hardware address, any other
      to that server's; with no server known to everyone.  If the address is not cached, the
      field keeps what it held. */
  ghost predicate GoesTo(i: Interface, arp: map<nat, seq<byte>>, ip: nat, field: seq<byte>, mac: seq<byte>)
    requires i.Ok() && ip < M32
  {
    var onSubnet := BitAnd(i.subnetMask, ip) == BitAnd(i.subnetMask, i.ipDhcp);
    var server := i.ipDhcp;
    && (ip == 0 ==> mac == [0xFF, 0xFF, 0xFF, 0xFF, 0xFF, 0xFF])
    && (ip != 0 && onSubnet ==> mac == if ip in arp then arp[ip] else field)
    && (ip != 0 && !onSubnet && server != 0 ==> mac == if server in arp then arp[server] else field)
    && (ip != 0 && !onSubnet && server == 0 ==> mac == [0xFF, 0xFF, 0xFF, 0xFF, 0xFF, 0xFF])
  }

  lemma HopIsReached(i: Interface, arp: map<nat, seq<byte>>, ip: nat, field: seq<byte>)
    requires i.Ok() && ip < M32 && ArpOk(arp) && |field| == 6
    ensures GoesTo(i, arp, ip, field, HopAddress(arp, NextHop(i, ip), field))
  {
  }

  /** ether_req for an IPv4 packet that starts at p. */
  method WriteEther(buf: array<byte>, p: nat, i: Interface, arp: map<nat, seq<byte>>, hop: nat)
    requires ETHER_LEN <= p <= buf.Length && i.Ok() && ArpOk(arp)
    modifies buf
    ensures var mac := HopAddress(arp, hop, old(buf[p - 14..p - 8]));
            buf[..] == Patch(old(buf[..]), p - ETHER_LEN, mac + i.etherAddr + Net16(ETHER_TYPE_IPV4))
  {
    hide Patch;
    hide Net16;
    ghost var b := buf[..];
    var base := p - ETHER_LEN;
    ghost var w := b[base..p];
    ghost var w0 := w;
    OwnWindow(b, base, ETHER_LEN);
    FieldKept(w);
    if hop == 0 {
      w := PutBytes(buf, base, 0, [0xFF, 0xFF, 0xFF, 0xFF, 0xFF, 0xFF], b, w);
    } else if hop in arp {
      w := PutBytes(buf, base, 0, arp[hop], b, w);
    }
    assert w0[..6] == b[p - 14..p - 8];
    EtherWindowWritten(w0, HopAddress(arp, hop, w0[..6]), i.etherAddr, Net16(ETHER_TYPE_IPV4));
    w := PutBytes(buf, base, 6, i.etherAddr, b, w);
    w := Put16(buf, base, 12, ETHER_TYPE_IPV4, b, w);
  }

  lemma FieldKept(w: seq<byte>)
    requires |w| == ETHER_LEN
    ensures Patch(w, 0, w[..6]) == w
  {
  }

  lemma EtherWindowWritten(w: seq<byte>, mac: seq<byte>, own: seq<byte>, kind: seq<byte>)
    requires |w| == ETHER_LEN && |mac| == |own| == 6 && |kind| == 2
    ensures Patch(Patch(Patch(w, 0, mac), 6, own), 12, kind) == mac + own + kind
  {
  }

  // ---------------------------------------------------------------------------------
  // The three calls together
  // ---------------------------------------------------------------------------------

  const HEADERS: nat := ETHER_LEN + IPV4_LEN + TCP_LEN

  /** A packet in its buffer: headers are put in front by moving start down. */
  class Packet {
    const buf: array<byte>
    var start: nat
    const end: nat

    ghost predicate Valid()
      reads this
    {
      start <= end <= buf.Length
    }

    function Bytes(): seq<byte>
      requires Valid()
      reads this, buf
    {
      buf[start..end]
    }

    constructor (buf: array<byte>, start: nat, end: nat)
      requires start <= end <= buf.Length
      ensures Valid() && this.buf == buf && this.start == start && this.end == end
    {
      this.buf, this.start, this.end := buf, start, end;
    }

    /** tcp_req, with the ipv4_req and ether_req it calls: around the payload the packet
        held, it becomes the frame of that segment, addressed to the next hop, with every
        field at its place, and nothing else in the buffer moves. */
    method TcpReq(i: Interface, arp: map<nat, seq<byte>>, sendPort: nat, recvPort: nat, ip: nat, flags: byte,
                  seqNumber: nat, ackNumber: nat)
      requires Valid() && HEADERS <= start && end - start + TCP_LEN < 0x1_0000
      requires i.Ok() && ArpOk(arp) && ip < M32
      modifies this, buf
      ensures Valid() && start == old(start) - HEADERS
      ensures var mac := HopAddress(arp, NextHop(i, ip), old(buf[start - HEADERS..start - HEADERS + 6]));
              Bytes() == Frame(i, mac, ip, Segment(recvPort, sendPort, seqNumber, ackNumber, flags, old(Bytes())))
      ensures GoesTo(i, arp, ip, old(buf[start - HEADERS..start - HEADERS + 6]), Bytes()[..6])
      ensures HeadersAt(Bytes(), i.etherAddr, if i.ipAddr != 0 then i.ipAddr else ip, if ip == 0 then 0xFFFF_FFFF else ip)
      ensures SegmentAt(Bytes(), recvPort % M16, sendPort % M16, seqNumber % M32, ackNumber % M32, flags, old(Bytes()))
      ensures buf[..start] == old(buf[..start - HEADERS]) && buf[end..] == old(buf[end..])
    {
      hide Patch;
      hide HopAddress;
      hide BitAnd;
      hide GoesTo;
      hide HeadersAt;
      hide SegmentAt;
      hide Frame;
      ghost var b, q := buf[..], start;
      var s := Segment(recvPort, sendPort, seqNumber, ackNumber, flags, buf[start..end]);
      start := start - TCP_LEN;
      WriteTcp(buf, start, end, i, ip, s);
      ghost var b1 := buf[..];
      start := start - IPV4_LEN;
      WriteIpv4(buf, start + IPV4_LEN, end, i, ip);
      ghost var b2 := buf[..];
      start := start - ETHER_LEN;
      var hop := i.ipDhcp;
      if ip == 0 {
        hop := 0;
      } else if BitAnd(i.subnetMask, ip) == BitAnd(i.subnetMask, i.ipDhcp) {
        hop := ip;
      }
      WriteEther(buf, start + ETHER_LEN, i, arp, hop);
      FrameWritten(b, b1, b2, buf[..], q, end, i, ip, s, HopAddress(arp, hop, b2[start..start + 6]));
      FrameShows(Bytes(), i, arp, ip, s, b[start..start + 6]);
    }
  }

  // A frame's fields and its target address.
  lemma FrameShows(f: seq<byte>, i: Interface, arp: map<nat, seq<byte>>, ip: nat, s: Segment, field: seq<byte>)
    requires i.Ok() && ip < M32 && ArpOk(arp) && |field| == 6
    requires f == Frame(i, HopAddress(arp, NextHop(i, ip), field), ip, s)
    ensures |f| >= 54 && GoesTo(i, arp, ip, field, f[..6])
    ensures HeadersAt(f, i.etherAddr, if i.ipAddr != 0 then i.ipAddr else ip, if ip == 0 then 0xFFFF_FFFF else ip)
    ensures SegmentAt(f, s.srcPort % M16, s.destPort % M16, s.seqNumber % M32, s.ackNumber % M32, s.flags, s.payload)
  {
    hide Frame;
    hide NextHop;
    hide HopAddress;
    hide GoesTo;
    HopIsReached(i, arp, ip, field);
    FrameFields(i, HopAddress(arp, NextHop(i, ip), field), ip, s);
  }

  // tcp_req's pseudo header lies below its header, where the IPv4 header then goes; if the
  // source field is left alone, what stays there is the pseudo header's target.
  lemma FrameWritten(b: seq<byte>, b1: seq<byte>, b2: seq<byte>, b3: seq<byte>, q: nat, end: nat, i: Interface,
                     ip: nat, s: Segment, mac: seq<byte>)
    requires HEADERS <= q <= end <= |b| && s.payload == b[q..end] && |mac| == 6 && i.Ok()
    requires 0 <= TcpChecksum(i, ip, s)
    requires b1 == Patch(b, q - 32, TcpWindow(i, ip, s, Net16(TcpChecksum(i, ip, s))))
    requires b2 == Patch(b1, q - 40, Ipv4Checked(if i.ipAddr != 0 then Net32(i.ipAddr) else b1[q - 28..q - 24],
                                                 TargetBytes(ip), end - q + 40))
    requires b3 == Patch(b2, q - HEADERS, mac + i.etherAddr + Net16(ETHER_TYPE_IPV4))
    ensures b3[q - HEADERS..end] == Frame(i, mac, ip, s)
    ensures b3[..q - HEADERS] == b[..q - HEADERS] && b3[end..] == b[end..]
    ensures b2[q - HEADERS..q - HEADERS + 6] == b[q - HEADERS..q - HEADERS + 6]
  {
    hide Net16;
    hide Net32;
    hide TcpChecksum;
    hide Ipv4Checked;
    hide TcpWindow;
    hide TcpBytes;
    hide Patch;
    var w := TcpWindow(i, ip, s, Net16(TcpChecksum(i, ip, s)));
    var src := if i.ipAddr != 0 then Net32(i.ipAddr) else b1[q - 28..q - 24];
    var header := Ipv4Checked(src, TargetBytes(ip), end - q + 40);
    PatchRun(b, q - 32, w, end);
    PatchRun(b1, q - 40, header, end);
    PatchRun(b2, q - HEADERS, mac + i.etherAddr + Net16(ETHER_TYPE_IPV4), end);
    TcpWindowParts(i, ip, s, Net16(TcpChecksum(i, ip, s)));
    SliceOfSlice(b1, q - 32, end, 4, 8);
    assert (w + s.payload)[4..8] == w[4..8];
    SliceOfSlice(b1, q - 32, end, 12, end - q + 32);
    assert b1[q - 32..end][12..end - q + 32] == b1[q - 32..end][12..];
    assert b1[q - 20..end] == TcpSegment(i, ip, s);
    PatchOutside(b, q - 32, w);
    PatchOutside(b1, q - 40, header);
    PatchOutside(b2, q - HEADERS, mac + i.etherAddr + Net16(ETHER_TYPE_IPV4));
  }

  lemma TcpWindowParts(i: Interface, ip: nat, s: Segment, checksum: seq<byte>)
    requires |checksum| == 2
    ensures TcpWindow(i, ip, s, checksum)[4..8] == Net32(ip)
    ensures (TcpWindow(i, ip, s, checksum) + s.payload)[12..] == TcpBytes(s, checksum)
  {
    hide Net16;
    hide Net32;
  }

  lemma PatchOutside(s: seq<byte>, base: nat, w: seq<byte>)
    requires base + |w| <= |s|
    ensures forall k :: 0 <= k < |s| && !(base <= k < base + |w|) ==> Patch(s, base, w)[k] == s[k]
  {
  }

  // ---------------------------------------------------------------------------------
  // ether_decode, ipv4_decode, tcp_decode
  // ---------------------------------------------------------------------------------

  /** A received message: its bytes up to len. */
  class Message {
    const buf: array<byte>
    var len: nat

    constructor (capacity: nat)
      ensures fresh(buf) && buf.Length == capacity && len == 0
    {
      buf := new byte[capacity](_ => 0);
      len := 0;
    }
  }

  /** What the sorter is told about a message. */
  class Description {
    var srcPort: nat
    var destPort: nat
    var flags: byte
    var seqNumber: nat
    var ackNumber: nat

    constructor () {
      srcPort, destPort, flags, seqNumber, ackNumber := 0, 0, 0, 0, 0;
    }
  }

  /** Which decoder took the frame; the ones for UDP and ARP are not part of this model. */
  datatype Protocol = TcpMessage | UdpMessage | ArpMessage | Rejected

  /** tcp_decode on the bytes from off to end. */
  method DecodeTcp(msg: Message, desc: Description, buf: array<byte>, off: nat, end: nat)
    requires off + TCP_LEN <= end <= buf.Length && end - off - TCP_LEN <= msg.buf.Length && buf != msg.buf
    modifies msg, msg.buf, desc
    ensures msg.len <= msg.buf.Length
    ensures TcpDecode(buf[off..end]) == Segment(desc.srcPort, desc.destPort, desc.seqNumber, desc.ackNumber,
                                                desc.flags, msg.buf[..msg.len])
  {
    hide NetSwap16;
    hide NetSwap32;
    hide Load16;
    hide Load32;
    CopyPayload(msg, buf, off + TCP_LEN, end);
    desc.srcPort, desc.destPort := NetSwap16(Load16(buf[off..off + 2])), NetSwap16(Load16(buf[off + 2..off + 4]));
    desc.flags := buf[off + 13];
    desc.seqNumber, desc.ackNumber := NetSwap32(Load32(buf[off + 4..off + 8])), NetSwap32(Load32(buf[off + 8..off + 12]));
    ghost var b := buf[off..end];
    assert b[0..2] == buf[off..off + 2] && b[2..4] == buf[off + 2..off + 4];
    assert b[4..8] == buf[off + 4..off + 8] && b[8..12] == buf[off + 8..off + 12];
    assert b[20..] == buf[off + 20..end];
  }

  method CopyPayload(msg: Message, buf: array<byte>, off: nat, end: nat)
    requires off <= end <= buf.Length && end - off <= msg.buf.Length && buf != msg.buf
    modifies msg, msg.buf
    ensures msg.len <= msg.buf.Length && msg.buf[..msg.len] == buf[off..end]
  {
    for k := 0 to end - off
      invariant msg.buf[..k] == buf[off..off + k]
    {
      msg.buf[k] := buf[off + k];
    }
    msg.len := end - off;
  }

  /** ether_decode and ipv4_decode: what they make of a received frame is what EtherDecode
      says; the last n bytes of it may be padding. */
  method DecodeEther(msg: Message, desc: Description, buf: array<byte>, n: nat) returns (protocol: Protocol)
    requires n <= buf.Length && LongEnough(buf[..n]) && n <= msg.buf.Length && buf != msg.buf
    modifies msg, msg.buf, desc
    ensures msg.len <= msg.buf.Length || protocol != TcpMessage
    ensures match EtherDecode(buf[..n])
            case Tcp(s) => protocol == TcpMessage && s == Segment(desc.srcPort, desc.destPort, desc.seqNumber,
                                                                  desc.ackNumber, desc.flags, msg.buf[..msg.len])
            case Udp => protocol == UdpMessage
            case Arp => protocol == ArpMessage
            case Fail => protocol == Rejected
  {
    hide TcpDecode;
    hide NetSwap16;
    ghost var b := buf[..n];
    assert b[12..14] == buf[12..14];
    var kind := NetSwap16(Load16(buf[12..14]));
    if kind == ETHER_TYPE_IPV4 {
      assert b[16..18] == buf[16..18];
      if buf[23] == IPV4_PROTOCOL_UDP {
        return UdpMessage;
      } else if buf[23] == IPV4_PROTOCOL_TCP {
        var total := NetSwap16(Load16(buf[16..18]));
        assert b[34..14 + total] == buf[34..14 + total];
        DecodeTcp(msg, desc, buf, 34, 14 + total);
        return TcpMessage;
      }
      return Rejected;
    } else if kind == ETHER_TYPE_ARP {
      return ArpMessage;
    }
    return Rejected;
  }
}
