/** dhcp_req and dhcp_client. */
module DhcpCode {
  import opened NetBytes
  import opened Checksum
  import opened FrameCode
  import opened Dhcp

  /** The interface the client configures. */
  class NetworkInterface {
    const etherAddr: seq<byte>
    var ipAddr: nat
    var ipDhcp: nat
    var ipDns: nat
    var subnetMask: nat

    constructor (etherAddr: seq<byte>)
      ensures this.etherAddr == etherAddr && ipAddr == ipDhcp == ipDns == subnetMask == 0
    {
      this.etherAddr := etherAddr;
      ipAddr, ipDhcp, ipDns, subnetMask := 0, 0, 0, 0;
    }
  }

  // Bytes stored through the advancing pointer: w is what stands before it.
  method Append(buf: array<byte>, p: nat, v: byte, ghost w: seq<byte>) returns (p': nat)
    requires p < buf.Length && buf[..p] == w
    modifies buf
    ensures p' == p + 1 && buf[..p'] == w + [v]
  {
    buf[p] := v;
    p' := p + 1;
  }

  method AppendAddress(buf: array<byte>, p: nat, v: nat, ghost w: seq<byte>) returns (p': nat)
    requires p + 4 <= buf.Length && buf[..p] == w
    modifies buf
    ensures p' == p + 4 && buf[..p'] == w + Net32(v)
  {
    Swap32(v);
    var b := Word32(NetSwap32(v));
    for k := 0 to 4
      invariant buf[..p + k] == w + b[..k]
    {
      buf[p + k] := b[k];
    }
    p' := p + 4;
  }

  method AppendItem(buf: array<byte>, p: nat, item: Item, ghost w: seq<byte>) returns (p': nat)
    requires |item.value| < 256 && p + 2 + |item.value| <= buf.Length && buf[..p] == w
    modifies buf
    ensures p' == p + 2 + |item.value| && buf[..p'] == w + [item.code, |item.value|] + item.value
  {
    p' := Append(buf, p, item.code, w);
    p' := Append(buf, p', |item.value|, w + [item.code]);
    for k := 0 to |item.value|
      invariant p' == p + 2 + k && buf[..p'] == w + [item.code, |item.value|] + item.value[..k]
    {
      p' := Append(buf, p', item.value[k], w + [item.code, |item.value|] + item.value[..k]);
    }
  }

  lemma HeaderWritten(w: seq<byte>, first: seq<byte>, xid: seq<byte>, mac: seq<byte>, siaddr: seq<byte>)
    requires |w| == HEADER_LEN && |first| == |xid| == |siaddr| == 4 && |mac| == 6
    ensures var h := Patch(Patch(Patch(Zeros(HEADER_LEN), 0, first), 4, xid), 28, mac);
            && h == first + xid + Zeros(12) + Zeros(4) + Zeros(4) + mac + Zeros(202)
            && Patch(h, 20, siaddr) == first + xid + Zeros(12) + siaddr + Zeros(4) + mac + Zeros(202)
    ensures Patch(w, 0, Zeros(HEADER_LEN)) == Zeros(HEADER_LEN)
  {
  }

  /** A reply with the magic number. */
  predicate IsReply(b: seq<byte>)
    requires |b| >= OPTIONS
  {
    b[0] == BOOTP_BOOTREPLY && b[HEADER_LEN..OPTIONS] == Net32(BOOTP_MAGIC_NUMBER)
  }

  /** A reply starts with 2 and has the four magic bytes before its options. */
  lemma ReplyIs(b: seq<byte>)
    requires |b| >= OPTIONS
    ensures IsReply(b) <==> b[0] == 2 && b[236..240] == [99, 130, 83, 99]
  {
    MagicBytes();
  }

  // Comparing loaded words compares bytes.
  lemma MagicLoaded(b: seq<byte>)
    requires |b| == 4
    ensures Load32(b) == NetSwap32(BOOTP_MAGIC_NUMBER) <==> b == Net32(BOOTP_MAGIC_NUMBER)
  {
    hide NetSwap32;
    hide ByteAt;
    hide Composed;
    var m := Net32(BOOTP_MAGIC_NUMBER);
    LoadComposes(b);
    SwapComposes(BOOTP_MAGIC_NUMBER);
    ComposedBytes(b[0], b[1], b[2], b[3]);
    ComposedBytes(m[0], m[1], m[2], m[3]);
  }

  /** The client's walk does not leave the page. */
  predicate Readable(b: seq<byte>) {
    |b| >= OPTIONS && (IsReply(b) ==> StaysInside(b, OPTIONS))
  }

  function OfferIn(b: seq<byte>): Offer
    requires Readable(b)
  {
    if IsReply(b) then Walk(b, OPTIONS, NO_OFFER) else NO_OFFER
  }

  predicate AckIn(b: seq<byte>)
    requires Readable(b)
  {
    IsReply(b) && WalkAck(b, OPTIONS, false)
  }

  method TestReply(buf: array<byte>) returns (reply: bool)
    requires Readable(buf[..])
    ensures reply <==> IsReply(buf[..])
  {
    assert buf[..][HEADER_LEN..OPTIONS] == buf[HEADER_LEN..OPTIONS];
    MagicLoaded(buf[HEADER_LEN..OPTIONS]);
    reply := buf[0] == BOOTP_BOOTREPLY && Load32(buf[HEADER_LEN..OPTIONS]) == NetSwap32(BOOTP_MAGIC_NUMBER);
  }

  // The switch of the first walk.
  method VisitOption(buf: array<byte>, p: nat, o: Offer) returns (o': Offer)
    requires p < buf.Length && StaysInside(buf[..], p) && buf[p] != END
    ensures o' == Visit(buf[..], p, o)
  {
    hide NetSwap32;
    hide Load32;
    ghost var b := buf[..];
    assert StaysInside(b, p) && b[p] == buf[p] && b[p + 2] == buf[p + 2];
    o' := o;
    if buf[p] == MESSAGE_TYPE {
      if buf[p + 2] as nat == DHCP_OFFER {
        o' := o.(isOffer := true);
      }
    } else if HoldsAddress(buf[p]) {
      assert b[p + 2..p + 6] == buf[p + 2..p + 6];
      var address := NetSwap32(Load32(buf[p + 2..p + 6]));
      if buf[p] == SERVER_IDENTIFIER {
        o' := o.(dhcp := address);
      } else if buf[p] == DOMAIN_NAME_SERVER {
        o' := o.(dns := address);
      } else {
        o' := o.(mask := address);
      }
    }
  }

  /** What the first walk finds in a page, told from the options the page carries; a page
      that is no reply offers nothing. */
  lemma OfferFound(b: seq<byte>)
    requires Readable(b)
    ensures b[0] != 2 || b[236..240] != [99, 130, 83, 99] ==> OfferIn(b) == Offer(false, 0, 0, 0)
    ensures b[0] == 2 && b[236..240] == [99, 130, 83, 99] ==>
              forall items :: Carries(b, 240, items) ==> Offers(items, OfferIn(b))
  {
    hide IsReply;
    hide Walk;
    hide StaysInside;
    hide Carries;
    hide Says;
    ReplyIs(b);
    if IsReply(b) {
      forall items | Carries(b, 240, items)
        ensures Offers(items, OfferIn(b))
      {
        WalkFindsLast(b, OPTIONS, items);
        SaysOffers(items, OfferIn(b));
      }
    }
  }

  /** What an offer with these options says, by the options' codes: 53 the message type, of
      which 2 is an offer, 54 the server, 6 the name server, 1 the subnet mask. */
  ghost predicate Offers(items: seq<Item>, o: Offer) {
    && (o.isOffer <==> HasType(items, 2))
    && o.dhcp == LastAddress(items, 54) && o.dns == LastAddress(items, 6) && o.mask == LastAddress(items, 1)
  }

  lemma SaysOffers(items: seq<Item>, o: Offer)
    requires Says(items, o)
    ensures Offers(items, o)
  {
  }

  lemma AckFound(b: seq<byte>)
    requires Readable(b)
    ensures b[0] != 2 || b[236..240] != [99, 130, 83, 99] ==> !AckIn(b)
    ensures b[0] == 2 && b[236..240] == [99, 130, 83, 99] ==>
              forall items :: Carries(b, 240, items) ==> (AckIn(b) <==> HasType(items, 5))
  {
    hide IsReply;
    hide WalkAck;
    hide StaysInside;
    hide Carries;
    hide HasType;
    ReplyIs(b);
    if IsReply(b) {
      forall items | Carries(b, 240, items)
        ensures AckIn(b) <==> HasType(items, 5)
      {
        WalkAckFinds(b, OPTIONS, items, false);
      }
    }
  }

  /** The first walk: a page that is no reply with the magic number offers nothing; else what
      is read is what the options in the page say. */
  method ReadOffer(buf: array<byte>) returns (o: Offer)
    requires Readable(buf[..])
    ensures o == OfferIn(buf[..])
    ensures buf[0] != 2 || buf[236..240] != [99, 130, 83, 99] ==> o == Offer(false, 0, 0, 0)
    ensures buf[0] == 2 && buf[236..240] == [99, 130, 83, 99] ==>
              forall items :: Carries(buf[..], 240, items) ==> Offers(items, o)
  {
    hide Offers;
    hide Carries;
    assert buf[..][236..240] == buf[236..240];
    OfferFound(buf[..]);
    hide Visit;
    hide Load32;
    hide NetSwap32;
    o := NO_OFFER;
    var reply := TestReply(buf);
    if reply {
      ghost var b := buf[..];
      var p := OPTIONS;
      while buf[p] != END
        invariant p < buf.Length && buf[..] == b && StaysInside(b, p)
        invariant Walk(b, p, o) == Walk(b, OPTIONS, NO_OFFER)
        decreases buf.Length - p
      {
        assert buf[p] == b[p] && buf[p + 1] == b[p + 1];
        o := VisitOption(buf, p, o);
        p := p + 2 + buf[p + 1];
      }
    }
  }

  /** The second walk: only in a reply with the magic number an acknowledgement is seen, and
      there exactly if an option says so. */
  method ReadAck(buf: array<byte>) returns (ack: bool)
    requires Readable(buf[..])
    ensures ack == AckIn(buf[..])
    ensures buf[0] != 2 || buf[236..240] != [99, 130, 83, 99] ==> !ack
    ensures buf[0] == 2 && buf[236..240] == [99, 130, 83, 99] ==>
              forall items :: Carries(buf[..], 240, items) ==> (ack <==> HasType(items, 5))
  {
    hide HasType;
    hide Carries;
    assert buf[..][236..240] == buf[236..240];
    AckFound(buf[..]);
    hide Load32;
    hide NetSwap32;
    hide IsReply;
    ack := false;
    var reply := TestReply(buf);
    if reply {
      ghost var b := buf[..];
      var p := OPTIONS;
      while buf[p] != END
        invariant p < buf.Length && buf[..] == b && StaysInside(b, p)
        invariant WalkAck(b, p, ack) == WalkAck(b, OPTIONS, false)
        decreases buf.Length - p
      {
        assert buf[p] == b[p] && buf[p + 1] == b[p + 1] && buf[p + 2] == b[p + 2];
        if buf[p] == MESSAGE_TYPE && buf[p + 2] as nat == DHCP_ACK {
          ack := true;
        }
        p := p + 2 + buf[p + 1];
      }
    }
  }

  class Client {
    /** g_dhcp_xid */
    var xid: nat

    constructor ()
      ensures xid == 0
    {
      xid := 0;
    }

    // The fixed header.
    method WriteHeader(buf: array<byte>, mac: seq<byte>, req: nat, ip: nat)
      requires HEADER_LEN <= buf.Length && |mac| == 6 && xid < M32
      modifies this, buf
      ensures xid == (old(xid) + 1) % M32
      ensures buf[..HEADER_LEN] == Header(old(xid), mac, if req == DHCP_REQUEST then ip else 0)
    {
      hide Patch;
      hide Net32;
      hide Zeros;
      ghost var b, w := buf[..], buf[..HEADER_LEN];
      ghost var w0 := w;
      OwnWindow(b, 0, HEADER_LEN);
      w := PutBytes(buf, 0, 0, Zeros(HEADER_LEN), b, w);
      HeaderWritten(w0, [BOOTP_BOOTREQUEST, 1, 6, 0], Net32(xid), mac, Net32(ip));
      w := PutBytes(buf, 0, 0, [BOOTP_BOOTREQUEST, 1, 6, 0], b, w);
      w := Put32(buf, 0, 4, xid, b, w);
      w := PutBytes(buf, 0, 28, mac, b, w);
      xid := (xid + 1) % M32;
      if req == DHCP_REQUEST {
        w := Put32(buf, 0, 20, ip, b, w);
      } else {
        NetZero();
      }
      PatchRun(b, 0, w, HEADER_LEN);
      assert b[HEADER_LEN..HEADER_LEN] == [] && w + [] == w;
      assert buf[..][0..HEADER_LEN] == buf[..HEADER_LEN];
    }

    /** dhcp_req: the message in the buffer, and its length. */
    method DhcpReq(mac: seq<byte>, buf: array<byte>, req: nat, ip: nat, server: nat) returns (len: nat)
      requires OPTIONS + 64 <= buf.Length && |mac| == 6 && xid < M32
      modifies this, buf
      ensures xid == (old(xid) + 1) % M32
      ensures len <= buf.Length && buf[..len] == DhcpMessage(old(xid), mac, req, ip, server)
    {
      hide Header;
      hide Net32;
      WriteHeader(buf, mac, req, ip);
      ghost var h := buf[..HEADER_LEN];
      var p := HEADER_LEN;
      ghost var items := RequestItems(req, ip, server);
      EncodeThree(req, ip, server);
      if req == DHCP_DISCOVER {
        p := AppendAddress(buf, p, BOOTP_MAGIC_NUMBER, h);
        h := h + Net32(BOOTP_MAGIC_NUMBER);
        p := WriteItems(buf, p, h, Item(MESSAGE_TYPE, [1]), Item(REQUESTED_IP_ADDRESS, [192, 168, 1, 120]),
          Item(PARAMETER_REQUEST_LIST, [SUBNET_MASK, ROUTER, DOMAIN_NAME_SERVER]));
      } else if req == DHCP_REQUEST {
        p := AppendAddress(buf, p, BOOTP_MAGIC_NUMBER, h);
        h := h + Net32(BOOTP_MAGIC_NUMBER);
        p := WriteItems(buf, p, h, Item(MESSAGE_TYPE, [3]), Item(REQUESTED_IP_ADDRESS, Net32(ip)),
          Item(SERVER_IDENTIFIER, Net32(server)));
      } else {
        assert h + [] + [] == h;
      }
      ghost var w := buf[..p];
      len := Append(buf, p, END, w);
    }

    method WriteItems(buf: array<byte>, p: nat, ghost w: seq<byte>, x: Item, y: Item, z: Item) returns (p': nat)
      requires |x.value| < 20 && |y.value| < 20 && |z.value| < 20 && p + 63 <= buf.Length && buf[..p] == w
      modifies buf
      ensures p <= p' <= p + 63 && buf[..p'] == w + Encode([x, y, z])
    {
      p' := AppendItem(buf, p, x, w);
      ghost var w1 := buf[..p'];
      p' := AppendItem(buf, p', y, w1);
      ghost var w2 := buf[..p'];
      p' := AppendItem(buf, p', z, w2);
      EncodeOfThree(x, y, z);
    }

    /** dhcp_client, given the pages that its two calls of kread leave and their lengths: the
        messages it sends, and whether it configured the interface. */
    method DhcpClient(intf: NetworkInterface, sendBuf: array<byte>, offer: array<byte>, offerLen: nat,
                      reply: array<byte>, replyLen: nat) returns (ok: bool, sent: seq<seq<byte>>)
      requires |intf.etherAddr| == 6 && xid < M32 && OPTIONS + 64 <= sendBuf.Length
      requires sendBuf != offer && sendBuf != reply && Readable(offer[..]) && Readable(reply[..])
      modifies this, intf, sendBuf
      ensures ok ==> && offer[0] == 2 && offer[236..240] == [99, 130, 83, 99]
                     && reply[0] == 2 && reply[236..240] == [99, 130, 83, 99]
      ensures forall offered, acked :: Carries(offer[..], 240, offered) && Carries(reply[..], 240, acked) ==>
                && (ok <==> && offerLen != 0 && offer[0] == 2 && offer[236..240] == [99, 130, 83, 99] && HasType(offered, 2)
                            && replyLen != 0 && reply[0] == 2 && reply[236..240] == [99, 130, 83, 99] && HasType(acked, 5))
                && (ok ==> && intf.ipAddr == Number(offer[16..20]) && intf.ipDhcp == LastAddress(offered, 54)
                           && intf.ipDns == LastAddress(offered, 6) && intf.subnetMask == LastAddress(offered, 1))
      ensures var o, ip := OfferIn(offer[..]), Address(offer[..], 16);
              && (ok <==> offerLen != 0 && replyLen != 0 && o.isOffer && AckIn(reply[..]))
              && (offerLen != 0 && o.isOffer ==>
                    sent == [DhcpMessage(old(xid), intf.etherAddr, DHCP_DISCOVER, 0, 0),
                             DhcpMessage((old(xid) + 1) % M32, intf.etherAddr, DHCP_REQUEST, ip, o.dhcp)])
              && (!(offerLen != 0 && o.isOffer) ==>
                    sent == [DhcpMessage(old(xid), intf.etherAddr, DHCP_DISCOVER, 0, 0)])
              && (ok ==> intf.ipAddr == ip && intf.ipDhcp == o.dhcp && intf.ipDns == o.dns && intf.subnetMask == o.mask)
              && (!ok ==> unchanged(intf))
    {
      hide Walk;
      hide WalkAck;
      hide StaysInside;
      hide Carries;
      hide HasType;
      hide LastAddress;
      hide Number;
      PagesShow(offer, reply);
      var len := DhcpReq(intf.etherAddr, sendBuf, DHCP_DISCOVER, 0, 0);
      sent := [sendBuf[..len]];
      if offerLen == 0 {
        return false, sent;
      }
      var o := ReadOffer(offer);
      if !o.isOffer {
        return false, sent;
      }
      assert offer[..][16..20] == offer[16..20];
      var ip := NetSwap32(Load32(offer[16..20]));
      len := DhcpReq(intf.etherAddr, sendBuf, DHCP_REQUEST, ip, o.dhcp);
      sent := sent + [sendBuf[..len]];
      if replyLen == 0 {
        return false, sent;
      }
      var ack := ReadAck(reply);
      if !ack {
        return false, sent;
      }
      intf.ipAddr, intf.ipDhcp, intf.ipDns, intf.subnetMask := ip, o.dhcp, o.dns, o.mask;
      ok := true;
    }
  }

  // What two pages say, in the terms of their options.
  lemma PagesShow(offer: array<byte>, reply: array<byte>)
    requires Readable(offer[..]) && Readable(reply[..])
    ensures Address(offer[..], 16) == Number(offer[16..20])
    ensures IsReply(offer[..]) <==> offer[0] == 2 && offer[236..240] == [99, 130, 83, 99]
    ensures IsReply(reply[..]) <==> reply[0] == 2 && reply[236..240] == [99, 130, 83, 99]
    ensures !IsReply(offer[..]) ==> !OfferIn(offer[..]).isOffer
    ensures !IsReply(reply[..]) ==> !AckIn(reply[..])
    ensures IsReply(offer[..]) ==>
              forall items :: Carries(offer[..], 240, items) ==>
                var o := OfferIn(offer[..]);
                && (o.isOffer <==> HasType(items, 2)) && o.dhcp == LastAddress(items, 54)
                && o.dns == LastAddress(items, 6) && o.mask == LastAddress(items, 1)
    ensures IsReply(reply[..]) ==> forall items :: Carries(reply[..], 240, items) ==> (AckIn(reply[..]) <==> HasType(items, 5))
  {
    hide Carries;
    hide StaysInside;
    hide Walk;
    hide WalkAck;
    hide HasType;
    hide LastAddress;
    hide Number;
    ReplyIs(offer[..]);
    ReplyIs(reply[..]);
    OfferFound(offer[..]);
    AckFound(reply[..]);
    assert offer[..][16..20] == offer[16..20] && offer[..][236..240] == offer[236..240];
    assert reply[..][236..240] == reply[236..240];
    AddressIsNumber(offer[..], 16);
    hide NetSwap32;
    hide Load32;
    hide IsReply;
  }

  lemma NetZero()
    ensures Net32(0) == Zeros(4)
  {
  }

  lemma EncodeThree(req: nat, ip: nat, server: nat)
    ensures req != DHCP_DISCOVER && req != DHCP_REQUEST ==> Encode(RequestItems(req, ip, server)) == []
  {
  }
}
