/** Ethernet frames that carry TCP segments: what the bytes on the wire are, and what
    decoding and the receiver's checks make of them. */
module Frames {
  import opened NetBytes
  import opened Checksum

  const ETHER_TYPE_IPV4: nat := 0x0800
  const ETHER_TYPE_ARP: nat := 0x0806
  const IPV4_PROTOCOL_TCP: byte := 6
  const IPV4_PROTOCOL_UDP: byte := 17

  const ETHER_LEN: nat := 14
  const IPV4_LEN: nat := 20
  const TCP_LEN: nat := 20
  const PSEUDO_LEN: nat := 12

  /** What the sender knows of its interface. */
  datatype Interface = Interface(etherAddr: seq<byte>, ipAddr: nat, ipDhcp: nat, subnetMask: nat) {
    predicate Ok() {
      |etherAddr| == 6 && ipAddr < M32 && ipDhcp < M32 && subnetMask < M32
    }
  }

  /** The fields of a TCP segment that the code sets. */
  datatype Segment = Segment(srcPort: nat, destPort: nat, seqNumber: nat, ackNumber: nat, flags: byte, payload: seq<byte>)

  // ---------------------------------------------------------------------------------
  // The bytes on the wire
  // ---------------------------------------------------------------------------------

  /** TCP header (section 3.1 of RFC 9293) with the given checksum bytes. */
  function TcpBytes(s: Segment, checksum: seq<byte>): (b: seq<byte>)
    requires |checksum| == 2
    ensures |b| == TCP_LEN + |s.payload|
  {
    Net16(s.srcPort) + Net16(s.destPort) + Net32(s.seqNumber) + Net32(s.ackNumber)
    + [0x50, s.flags] + Net16(0x4000) + checksum + [0, 0] + s.payload
  }

  /** The pseudo header of section 3.1 of RFC 9293. */
  function PseudoBytes(src: seq<byte>, dest: seq<byte>, len: nat): (b: seq<byte>)
    requires |src| == 4 && |dest| == 4
    ensures |b| == PSEUDO_LEN
  {
    src + dest + [0, IPV4_PROTOCOL_TCP] + Net16(len)
  }

  /** IPv4 header (section 3.1 of RFC 791) with the given checksum bytes. */
  function Ipv4Bytes(src: seq<byte>, dest: seq<byte>, total: nat, checksum: seq<byte>): (b: seq<byte>)
    requires |src| == 4 && |dest| == 4 && |checksum| == 2
    ensures |b| == IPV4_LEN
  {
    [0x45, 0x10] + Net16(total) + [0, 0, 0, 0, 64, IPV4_PROTOCOL_TCP] + checksum + src + dest
  }

  const ZERO2: seq<byte> := [0, 0]

  /** The checksum tcp_req computes: over the pseudo header it wrote, with the interface's
      address and the target as given, and the segment. */
  function TcpChecksum(i: Interface, ip: nat, s: Segment): int {
    RfcChecksum(PseudoBytes(Net32(i.ipAddr), Net32(ip), TCP_LEN + |s.payload|) + TcpBytes(s, ZERO2))
  }

  /** The source address in the IPv4 header.  Without an address of its own the code leaves
      the field as it is, and there it is what tcp_req put into the pseudo header's target. */
  function SourceBytes(i: Interface, ip: nat): (b: seq<byte>)
    ensures |b| == 4
  {
    if i.ipAddr != 0 then Net32(i.ipAddr) else Net32(ip)
  }

  /** Target zero is sent as a broadcast. */
  function TargetBytes(ip: nat): (b: seq<byte>)
    ensures |b| == 4
  {
    if ip == 0 then [0xFF, 0xFF, 0xFF, 0xFF] else Net32(ip)
  }

  function Ipv4Header(i: Interface, ip: nat, total: nat): (b: seq<byte>)
    ensures |b| == IPV4_LEN
  {
    Ipv4Checked(SourceBytes(i, ip), TargetBytes(ip), total)
  }

  function Ipv4Checked(src: seq<byte>, dest: seq<byte>, total: nat): (b: seq<byte>)
    requires |src| == 4 && |dest| == 4
    ensures |b| == IPV4_LEN
  {
    Ipv4Bytes(src, dest, total, Net16(Complement(OnesSum(Ipv4Bytes(src, dest, total, ZERO2)))))
  }

  function Complement(s: nat): nat {
    if s <= 0xFFFF then 0xFFFF - s else 0
  }

  function TcpSegment(i: Interface, ip: nat, s: Segment): (b: seq<byte>)
    ensures |b| == TCP_LEN + |s.payload|
  {
    TcpBytes(s, Net16(if TcpChecksum(i, ip, s) >= 0 then TcpChecksum(i, ip, s) else 0))
  }

  /** The whole frame. */
  function Frame(i: Interface, mac: seq<byte>, ip: nat, s: Segment): (b: seq<byte>)
    requires |mac| == 6 && |i.etherAddr| == 6
    ensures |b| == ETHER_LEN + IPV4_LEN + TCP_LEN + |s.payload|
  {
    mac + i.etherAddr + Net16(ETHER_TYPE_IPV4)
    + Ipv4Header(i, ip, IPV4_LEN + TCP_LEN + |s.payload|) + TcpSegment(i, ip, s)
  }

  // ---------------------------------------------------------------------------------
  // Decoding
  // ---------------------------------------------------------------------------------

  datatype Decoded = Tcp(segment: Segment) | Udp | Arp | Fail

  /** The total length field of the IPv4 header inside a frame. */
  function TotalLength(b: seq<byte>): nat
    requires |b| >= ETHER_LEN + IPV4_LEN
  {
    NetSwap16(Load16(b[16..18]))
  }

  function EtherType(b: seq<byte>): nat
    requires |b| >= ETHER_LEN
  {
    NetSwap16(Load16(b[12..14]))
  }

  /** A frame long enough for what its own fields announce. */
  predicate LongEnough(b: seq<byte>) {
    && |b| >= ETHER_LEN
    && (EtherType(b) == ETHER_TYPE_IPV4 ==>
          && |b| >= ETHER_LEN + IPV4_LEN
          && (b[23] == IPV4_PROTOCOL_TCP ==> IPV4_LEN + TCP_LEN <= TotalLength(b) <= |b| - ETHER_LEN))
  }

  /** tcp_decode on the bytes after the IPv4 header: ports swapped back, the payload what
      follows a header of fixed size, options included. */
  function TcpDecode(b: seq<byte>): Segment
    requires |b| >= TCP_LEN
  {
    Segment(NetSwap16(Load16(b[0..2])), NetSwap16(Load16(b[2..4])),
            NetSwap32(Load32(b[4..8])), NetSwap32(Load32(b[8..12])), b[13], b[20..])
  }

  function EtherDecode(b: seq<byte>): Decoded
    requires LongEnough(b)
  {
    if EtherType(b) == ETHER_TYPE_IPV4 then
      if b[23] == IPV4_PROTOCOL_UDP then Udp
      else if b[23] == IPV4_PROTOCOL_TCP then Tcp(TcpDecode(b[34..14 + TotalLength(b)]))
      else Fail
    else if EtherType(b) == ETHER_TYPE_ARP then Arp
    else Fail
  }

  /** The segment with its numbers cut to the width of their fields. */
  function Cut(s: Segment): Segment {
    Segment(s.srcPort % M16, s.destPort % M16, s.seqNumber % M32, s.ackNumber % M32, s.flags, s.payload)
  }

  /** Decoding a frame, padded or not, gives back the segment it was built from. */
  lemma DecodeOfFrame(i: Interface, mac: seq<byte>, ip: nat, s: Segment, padding: seq<byte>)
    requires |mac| == 6 && |i.etherAddr| == 6 && IPV4_LEN + TCP_LEN + |s.payload| < M16
    ensures LongEnough(Frame(i, mac, ip, s) + padding)
    ensures EtherDecode(Frame(i, mac, ip, s) + padding) == Tcp(Cut(s))
  {
    var total := IPV4_LEN + TCP_LEN + |s.payload|;
    var b := Frame(i, mac, ip, s) + padding;
    hide Ipv4Header;
    hide TcpSegment;
    hide Frame;
    hide EtherDecode;
    hide LongEnough;
    hide TcpDecode;
    FrameParts(i, mac, ip, s, padding);
    Ipv4Fields(i, ip, total);
    DecodeParts(b, total);
    TcpDecodeOf(i, ip, s);
  }

  lemma DecodeParts(b: seq<byte>, total: nat)
    requires IPV4_LEN + TCP_LEN <= total < M16 && ETHER_LEN + total <= |b|
    requires b[12..14] == Net16(ETHER_TYPE_IPV4) && b[14..34][2..4] == Net16(total)
    requires b[14..34][9] == IPV4_PROTOCOL_TCP
    ensures LongEnough(b) && EtherDecode(b) == Tcp(TcpDecode(b[34..14 + total]))
  {
    hide TcpDecode;
    hide EtherType;
    hide TotalLength;
    hide Net16;
    EtherTypeOf(b, ETHER_TYPE_IPV4);
    assert b[16..18] == b[14..34][2..4] && b[23] == b[14..34][9];
    TotalOf(b, total);
  }

  lemma EtherTypeOf(b: seq<byte>, v: nat)
    requires |b| >= ETHER_LEN && b[12..14] == Net16(v) && v < M16
    ensures EtherType(b) == v
  {
    hide NetSwap16;
    hide Load16;
    hide Net16;
    Swap16(v);
  }

  lemma TotalOf(b: seq<byte>, v: nat)
    requires |b| >= ETHER_LEN + IPV4_LEN && b[16..18] == Net16(v) && v < M16
    ensures TotalLength(b) == v
  {
    hide NetSwap16;
    hide Load16;
    hide Net16;
    Swap16(v);
  }

  lemma FrameParts(i: Interface, mac: seq<byte>, ip: nat, s: Segment, padding: seq<byte>)
    requires |mac| == 6 && |i.etherAddr| == 6
    ensures var b, total := Frame(i, mac, ip, s) + padding, IPV4_LEN + TCP_LEN + |s.payload|;
            && b[12..14] == Net16(ETHER_TYPE_IPV4)
            && b[14..34] == Ipv4Header(i, ip, total)
            && b[34..14 + total] == TcpSegment(i, ip, s)
  {
    hide Ipv4Header;
    hide TcpSegment;
  }

  lemma Ipv4Fields(i: Interface, ip: nat, total: nat)
    ensures Ipv4Header(i, ip, total)[2..4] == Net16(total)
    ensures Ipv4Header(i, ip, total)[9] == IPV4_PROTOCOL_TCP
  {
  }

  lemma TcpDecodeOf(i: Interface, ip: nat, s: Segment)
    ensures TcpDecode(TcpSegment(i, ip, s)) == Cut(s)
  {
    var c := Net16(if TcpChecksum(i, ip, s) >= 0 then TcpChecksum(i, ip, s) else 0);
    hide TcpChecksum;
    var b := TcpBytes(s, c);
    assert b[0..2] == Net16(s.srcPort) && b[2..4] == Net16(s.destPort);
    assert b[4..8] == Net32(s.seqNumber) && b[8..12] == Net32(s.ackNumber);
    assert b[13] == s.flags && b[20..] == s.payload;
    Swap16(s.srcPort);
    Swap16(s.destPort);
    Swap32(s.seqNumber);
    Swap32(s.ackNumber);
  }

  // ---------------------------------------------------------------------------------
  // Fields by their places in the frame
  // ---------------------------------------------------------------------------------

  /** The fields of a TCP segment at their places in a frame, numbers in network order. */
  predicate SegmentAt(b: seq<byte>, srcPort: nat, destPort: nat, seqNumber: nat, ackNumber: nat, flags: byte,
                      payload: seq<byte>) {
    && |b| >= 54
    && Number(b[34..36]) == srcPort && Number(b[36..38]) == destPort
    && Number(b[38..42]) == seqNumber && Number(b[42..46]) == ackNumber
    && b[47] == flags && b[54..] == payload
  }

  /** Ethernet and IPv4 fields at their places in a frame (RFC 894, section 3.1 of RFC 791): type, header length and service, total length, no fragments, time to live, protocol, source and
      target; and those fields of the TCP header that are always the same. */
  predicate HeadersAt(b: seq<byte>, etherAddr: seq<byte>, src: nat, dest: nat) {
    && |b| >= 54 && b[6..12] == etherAddr && Number(b[12..14]) == 0x0800
    && b[14] == 0x45 && b[15] == 0x10 && Number(b[16..18]) == (|b| - 14) % M16
    && b[18..24] == [0, 0, 0, 0, 64, 6] && Number(b[26..30]) == src && Number(b[30..34]) == dest
    && b[46] == 0x50 && Number(b[48..50]) == 0x4000 && b[52..54] == [0, 0]
  }

  /** Where every field of a frame stands.  Target zero is the broadcast; without an address
      of its own the sender puts the target into the source field. */
  lemma FrameFields(i: Interface, mac: seq<byte>, ip: nat, s: Segment)
    requires |mac| == 6 && i.Ok() && ip < M32
    ensures var b := Frame(i, mac, ip, s);
            && |b| >= 54 && b[..6] == mac
            && HeadersAt(b, i.etherAddr, if i.ipAddr != 0 then i.ipAddr else ip, if ip == 0 then 0xFFFF_FFFF else ip)
            && SegmentAt(b, s.srcPort % M16, s.destPort % M16, s.seqNumber % M32, s.ackNumber % M32, s.flags, s.payload)
  {
    var b, total := Frame(i, mac, ip, s), IPV4_LEN + TCP_LEN + |s.payload|;
    var none: seq<byte> := [];
    FrameParts(i, mac, ip, s, none);
    assert b + none == b && |b| == ETHER_LEN + total;
    FrameFront(i, mac, ip, s);
    Ipv4Places(i, ip, total);
    TcpPlaces(i, ip, s);
    NetIsNumber(ETHER_TYPE_IPV4);
    hide Frame;
    hide Ipv4Header;
    hide TcpSegment;
    hide Net16;
    hide Number;
    HeaderSlices(b);
    SegmentSlices(b, TcpSegment(i, ip, s));
  }

  lemma HeaderSlices(b: seq<byte>)
    requires |b| >= 54
    ensures var h := b[14..34];
            && b[14] == h[0] && b[15] == h[1] && b[16..18] == h[2..4] && b[18..24] == h[4..10]
            && b[26..30] == h[12..16] && b[30..34] == h[16..20]
  {
    SliceOfSlice(b, 14, 34, 2, 4);
    SliceOfSlice(b, 14, 34, 4, 10);
    SliceOfSlice(b, 14, 34, 12, 16);
    SliceOfSlice(b, 14, 34, 16, 20);
  }

  lemma SegmentSlices(b: seq<byte>, t: seq<byte>)
    requires |b| >= 54 && t == b[34..|b|]
    ensures b[34..36] == t[0..2] && b[36..38] == t[2..4] && b[38..42] == t[4..8] && b[42..46] == t[8..12]
    ensures b[46] == t[12] && b[47] == t[13] && b[48..50] == t[14..16] && b[52..54] == t[18..20] && b[54..] == t[20..]
  {
    SliceOfSlice(b, 34, |b|, 0, 2);
    SliceOfSlice(b, 34, |b|, 2, 4);
    SliceOfSlice(b, 34, |b|, 4, 8);
    SliceOfSlice(b, 34, |b|, 8, 12);
    SliceOfSlice(b, 34, |b|, 14, 16);
    SliceOfSlice(b, 34, |b|, 18, 20);
  }

  lemma FrameFront(i: Interface, mac: seq<byte>, ip: nat, s: Segment)
    requires |mac| == 6 && |i.etherAddr| == 6
    ensures var b := Frame(i, mac, ip, s); b[..6] == mac && b[6..12] == i.etherAddr
  {
    hide Ipv4Header;
    hide TcpSegment;
    hide Net16;
  }

  lemma Ipv4Places(i: Interface, ip: nat, total: nat)
    requires i.Ok() && ip < M32
    ensures var h := Ipv4Header(i, ip, total);
            && h[0] == 0x45 && h[1] == 0x10 && Number(h[2..4]) == total % M16 && h[4..10] == [0, 0, 0, 0, 64, 6]
            && Number(h[12..16]) == (if i.ipAddr != 0 then i.ipAddr else ip)
            && Number(h[16..20]) == (if ip == 0 then 0xFFFF_FFFF else ip)
  {
    hide Net16;
    hide Net32;
    hide OnesSum;
    hide Number;
    NetIsNumber(total);
    NetIsNumber(i.ipAddr);
    NetIsNumber(ip);
    BroadcastNumber();
    var h := Ipv4Header(i, ip, total);
    assert h[2..4] == Net16(total) && h[12..16] == SourceBytes(i, ip) && h[16..20] == TargetBytes(ip);
  }

  lemma BroadcastNumber()
    ensures Number([0xFF, 0xFF, 0xFF, 0xFF]) == 0xFFFF_FFFF
  {
    NumberOfFour([0xFF, 0xFF, 0xFF, 0xFF]);
  }

  lemma TcpPlaces(i: Interface, ip: nat, s: Segment)
    ensures var t := TcpSegment(i, ip, s);
            && Number(t[0..2]) == s.srcPort % M16 && Number(t[2..4]) == s.destPort % M16
            && Number(t[4..8]) == s.seqNumber % M32 && Number(t[8..12]) == s.ackNumber % M32
            && t[12] == 0x50 && t[13] == s.flags && Number(t[14..16]) == 0x4000 && t[18..20] == [0, 0]
            && t[20..] == s.payload
  {
    hide Net16;
    hide Net32;
    hide TcpChecksum;
    hide Number;
    NetIsNumber(s.srcPort);
    NetIsNumber(s.destPort);
    NetIsNumber(s.seqNumber);
    NetIsNumber(s.ackNumber);
    NetIsNumber(0x4000);
    var t := TcpSegment(i, ip, s);
    assert t[0..2] == Net16(s.srcPort) && t[2..4] == Net16(s.destPort);
    assert t[4..8] == Net32(s.seqNumber) && t[8..12] == Net32(s.ackNumber) && t[14..16] == Net16(0x4000);
  }

  /** Which frames are long enough for their own fields, by the places of these. */
  lemma LongEnoughReads(b: seq<byte>)
    ensures LongEnough(b) <==>
            && |b| >= 14
            && (Number(b[12..14]) == 0x0800 ==>
                  && |b| >= 34
                  && (b[23] == 6 ==> 40 <= Number(b[16..18]) <= |b| - 14))
  {
    hide NetSwap16;
    hide Load16;
    hide Number;
    if |b| >= 14 {
      SwapReads(b[12..14]);
    }
    if |b| >= 34 {
      SwapReads(b[16..18]);
    }
  }

  /** What the decoder makes of any frame, by the places of the fields: the type chooses
      between IPv4 and ARP, the protocol between TCP and UDP, and a segment ends where the
      total length of the IPv4 header says. */
  lemma DecodeReads(b: seq<byte>)
    requires LongEnough(b)
    ensures |b| >= 14 && (Number(b[12..14]) == 0x0800 ==> |b| >= 34)
    ensures EtherDecode(b).Tcp? <==> Number(b[12..14]) == 0x0800 && b[23] == 6
    ensures EtherDecode(b).Udp? <==> Number(b[12..14]) == 0x0800 && b[23] == 17
    ensures EtherDecode(b).Arp? <==> Number(b[12..14]) == 0x0806
    ensures EtherDecode(b).Tcp? ==>
              var s, end := EtherDecode(b).segment, 14 + Number(b[16..18]);
              54 <= end <= |b| && SegmentAt(b[..end], s.srcPort, s.destPort, s.seqNumber, s.ackNumber, s.flags, s.payload)
  {
    hide TcpDecode;
    hide NetSwap16;
    hide NetSwap32;
    hide Load16;
    hide Load32;
    hide Number;
    LongEnoughReads(b);
    SwapReads(b[12..14]);
    if EtherDecode(b).Tcp? {
      SwapReads(b[16..18]);
      var end := 14 + TotalLength(b);
      var f := b[..end];
      assert f[34..] == b[34..end];
      DecodedSlices(f);
      SwapReads(f[34..36]);
      SwapReads(f[36..38]);
      SwapReads(f[38..42]);
      SwapReads(f[42..46]);
    }
  }

  lemma DecodedSlices(f: seq<byte>)
    requires |f| >= 54
    ensures TcpDecode(f[34..]) == Segment(NetSwap16(Load16(f[34..36])), NetSwap16(Load16(f[36..38])),
                                          NetSwap32(Load32(f[38..42])), NetSwap32(Load32(f[42..46])), f[47], f[54..])
  {
    hide NetSwap16;
    hide NetSwap32;
    hide Load16;
    hide Load32;
    assert f[34..|f|] == f[34..];
    SegmentSlices(f, f[34..]);
  }

  // ---------------------------------------------------------------------------------
  // The receiver's checks
  // ---------------------------------------------------------------------------------

  /** Every IPv4 header sent passes the header check of section 3.1 of RFC 791. */
  lemma Ipv4HeaderChecks(i: Interface, ip: nat, total: nat)
    ensures OnesSum(Ipv4Header(i, ip, total)) == 0xFFFF
  {
    var src, dest := SourceBytes(i, ip), TargetBytes(ip);
    var a: seq<byte> := [0x45, 0x10] + Net16(total) + [0, 0, 0, 0, 64, IPV4_PROTOCOL_TCP];
    var b := src + dest;
    CheckedSum(a, b);
    OnesSumRange(a + ZERO2 + b);
    assert Ipv4Bytes(src, dest, total, ZERO2) == a + ZERO2 + b;
    var c := Net16(RfcChecksum(a + ZERO2 + b));
    assert Ipv4Bytes(src, dest, total, c) == a + c + b;
  }

  /** What the receiver adds up for a segment: the pseudo header made from the addresses in
      the IPv4 header, and the segment. */
  function ReceiverBytes(i: Interface, ip: nat, s: Segment): seq<byte> {
    PseudoBytes(SourceBytes(i, ip), TargetBytes(ip), TCP_LEN + |s.payload|) + TcpSegment(i, ip, s)
  }

  lemma SenderSum(i: Interface, ip: nat, s: Segment)
    ensures 0 <= TcpChecksum(i, ip, s) < M16
    ensures OnesSum(PseudoBytes(Net32(i.ipAddr), Net32(ip), TCP_LEN + |s.payload|) + TcpSegment(i, ip, s)) == 0xFFFF
  {
    var p := PseudoBytes(Net32(i.ipAddr), Net32(ip), TCP_LEN + |s.payload|);
    var t := Net16(s.srcPort) + Net16(s.destPort) + Net32(s.seqNumber) + Net32(s.ackNumber)
             + [0x50, s.flags] + Net16(0x4000);
    var b := ZERO2 + s.payload;
    CheckedSum(p + t, b);
    assert p + TcpBytes(s, ZERO2) == p + t + ZERO2 + b;
    var c := Net16(RfcChecksum(p + t + ZERO2 + b));
    assert p + TcpBytes(s, c) == p + t + c + b;
  }

  lemma OnesSumAddress(v: nat)
    requires v < M32
    ensures OnesSum(Net32(v)) == OnesAdd(v / M16, v % M16)
    ensures OnesSum(Net32(v)) == 0 <==> v == 0
    ensures v != 0 ==> (OnesSum(Net32(v)) == 0xFFFF <==> v % 0xFFFF == 0)
  {
    var high, low := v / M16, v % M16;
    HighLow(v);
    WordsMod(high, low);
    OnesAddCases(high, low);
    hide Net16;
    hide Net32;
    hide OnesSum;
    hide OnesAdd;
    OnesSumWord(high);
    OnesSumWord(low);
    OnesSumConcat(Net16(high), Net16(low));
    assert v == M16 * high + low;
  }

  lemma WordsMod(high: nat, low: nat)
    ensures (M16 * high + low) % 0xFFFF == (high + low) % 0xFFFF
  {
    assert M16 * high + low == 0xFFFF * high + (high + low);
  }

  lemma OnesAddCases(x: nat, y: nat)
    requires x < M16 && y < M16
    ensures OnesAdd(x, y) == 0 <==> x == 0 && y == 0
    ensures x != 0 || y != 0 ==> (OnesAdd(x, y) == 0xFFFF <==> (x + y) % 0xFFFF == 0)
  {
  }

  lemma HighLow(v: nat)
    requires v < M32
    ensures v / M16 < M16 && Net32(v) == Net16(v / M16) + Net16(v % M16)
  {
    var high, low := v / M16, v % M16;
    hide ByteAt;
    BytesAre(v);
    BytesAre(high);
    BytesAre(low);
    assert v / 256 == 256 * high + low / 256;
    assert v / 256 / 256 == high;
  }

  // Replacing a zero target by the broadcast, or a zero source by the target.
  lemma SumCases(x: nat, y: nat, p: nat)
    requires x < M16 && y < M16 && p < M16 && OnesAdd(x, OnesAdd(y, p)) == 0xFFFF
    ensures y == 0 ==> OnesAdd(x, OnesAdd(0xFFFF, p)) == 0xFFFF
    ensures x == 0 ==> (OnesAdd(y, OnesAdd(y, p)) == 0xFFFF <==> y == 0 || y == 0xFFFF)
  {
  }

  lemma PseudoSum(src: seq<byte>, dest: seq<byte>, rest: seq<byte>)
    requires |src| == 4 && |dest| == 4
    ensures OnesSum(src + dest + rest) == OnesAdd(OnesSum(src), OnesAdd(OnesSum(dest), OnesSum(rest)))
  {
    assert src + dest + rest == src + (dest + rest);
    OnesSumConcat(src, dest + rest);
    OnesSumConcat(dest, rest);
  }

  lemma BroadcastSum()
    ensures OnesSum([0xFF, 0xFF, 0xFF, 0xFF]) == 0xFFFF
  {
    var b: seq<byte> := [0xFF, 0xFF, 0xFF, 0xFF];
    assert b == Net16(0xFFFF) + Net16(0xFFFF);
    OnesSumWord(0xFFFF);
    OnesSumConcat(Net16(0xFFFF), Net16(0xFFFF));
  }

  /** A segment passes the receiver's check (section 3.1 of RFC 9293) exactly if the sender
      had an address, or the target is the broadcast, or the target's own two words vanish
      in ones' complement: without an address the header's source is the target.  A TCP
      client does not meet the failing case, as kconnect refuses TCP without an address. */
  lemma SegmentChecksIff(i: Interface, ip: nat, s: Segment)
    requires i.Ok() && ip < M32
    ensures OnesSum(ReceiverBytes(i, ip, s)) == 0xFFFF <==>
            i.ipAddr != 0 || ip == 0 || ip % 0xFFFF == 0
  {
    var seg := Checked(i, ip, s);
    SenderSum(i, ip, s);
    SumParts(i, ip, s);
    OnesSumRange(seg);
    hide OnesSum;
    hide OnesAdd;
    hide Checked;
    AddressCases(i, ip, OnesSum(seg));
  }

  /** What is added up behind the addresses. */
  function Checked(i: Interface, ip: nat, s: Segment): seq<byte> {
    [0, IPV4_PROTOCOL_TCP] + Net16(TCP_LEN + |s.payload|) + TcpSegment(i, ip, s)
  }

  lemma SumParts(i: Interface, ip: nat, s: Segment)
    ensures OnesSum(ReceiverBytes(i, ip, s)) ==
            OnesAdd(OnesSum(SourceBytes(i, ip)), OnesAdd(OnesSum(TargetBytes(ip)), OnesSum(Checked(i, ip, s))))
    ensures OnesSum(PseudoBytes(Net32(i.ipAddr), Net32(ip), TCP_LEN + |s.payload|) + TcpSegment(i, ip, s)) ==
            OnesAdd(OnesSum(Net32(i.ipAddr)), OnesAdd(OnesSum(Net32(ip)), OnesSum(Checked(i, ip, s))))
  {
    hide OnesSum;
    hide OnesAdd;
    hide TcpSegment;
    PseudoSum(SourceBytes(i, ip), TargetBytes(ip), Checked(i, ip, s));
    PseudoSum(Net32(i.ipAddr), Net32(ip), Checked(i, ip, s));
    PseudoFirst(SourceBytes(i, ip), TargetBytes(ip), TCP_LEN + |s.payload|, TcpSegment(i, ip, s));
    PseudoFirst(Net32(i.ipAddr), Net32(ip), TCP_LEN + |s.payload|, TcpSegment(i, ip, s));
  }

  lemma PseudoFirst(src: seq<byte>, dest: seq<byte>, len: nat, rest: seq<byte>)
    requires |src| == 4 && |dest| == 4
    ensures PseudoBytes(src, dest, len) + rest == src + dest + ([0, IPV4_PROTOCOL_TCP] + Net16(len) + rest)
  {
    hide Net16;
  }

  lemma AddressCases(i: Interface, ip: nat, p: nat)
    requires i.Ok() && ip < M32 && p < M16
    requires OnesAdd(OnesSum(Net32(i.ipAddr)), OnesAdd(OnesSum(Net32(ip)), p)) == 0xFFFF
    ensures OnesAdd(OnesSum(SourceBytes(i, ip)), OnesAdd(OnesSum(TargetBytes(ip)), p)) == 0xFFFF <==>
            i.ipAddr != 0 || ip == 0 || ip % 0xFFFF == 0
  {
    hide Net32;
    hide OnesSum;
    OnesSumRange(Net32(i.ipAddr));
    OnesSumRange(Net32(ip));
    OnesSumAddress(i.ipAddr);
    OnesSumAddress(ip);
    BroadcastSum();
    hide OnesAdd;
    SumCases(OnesSum(Net32(i.ipAddr)), OnesSum(Net32(ip)), p);
  }

  /** The two checks of a receiver on the bytes of a frame: the IPv4 header sums up to 0xFFFF,
      and so does the segment behind the pseudo header made of the two addresses, zero, the
      protocol and the segment's length, exactly under the condition of SegmentChecksIff. */
  lemma FrameChecksIff(i: Interface, mac: seq<byte>, ip: nat, s: Segment, len: seq<byte>)
    requires |mac| == 6 && i.Ok() && ip < M32
    requires |len| == 2 && Number(len) == (TCP_LEN + |s.payload|) % M16
    ensures var b := Frame(i, mac, ip, s);
            && OnesSum(b[14..34]) == 0xFFFF
            && (OnesSum(b[26..34] + [0, 6] + len + b[34..]) == 0xFFFF <==> i.ipAddr != 0 || ip == 0 || ip % 0xFFFF == 0)
  {
    hide OnesSum;
    hide Ipv4Header;
    hide TcpSegment;
    hide Number;
    hide Frame;
    hide Net16;
    var b, none: seq<byte> := Frame(i, mac, ip, s), [];
    FrameParts(i, mac, ip, s, none);
    assert b + none == b;
    var total := IPV4_LEN + TCP_LEN + |s.payload|;
    Ipv4HeaderChecks(i, ip, total);
    SegmentChecksIff(i, ip, s);
    AddressPlaces(i, ip, total);
    LenIsNet(len, TCP_LEN + |s.payload|);
    assert b[26..34] == b[14..34][12..20] && b[34..] == b[34..14 + total];
    assert b[26..34] + [0, 6] + len + b[34..] == ReceiverBytes(i, ip, s);
  }

  lemma AddressPlaces(i: Interface, ip: nat, total: nat)
    ensures Ipv4Header(i, ip, total)[12..20] == SourceBytes(i, ip) + TargetBytes(ip)
  {
    hide Net16;
    hide OnesSum;
  }

  // Two bytes are what Net16 writes if they stand for the same number.
  lemma LenIsNet(len: seq<byte>, v: nat)
    requires |len| == 2 && Number(len) == v % M16
    ensures len == Net16(v)
  {
    hide ByteAt;
    NumberOfTwo(len);
    NetIsNumber(v);
    NumberOfTwo(Net16(v));
    hide Number;
    assert len[0] == Net16(v)[0] && len[1] == Net16(v)[1];
  }
}
