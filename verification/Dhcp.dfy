/** DHCP messages: the options a message carries, and what the client's walk over them
    finds (section 2 of RFC 2132). */
module Dhcp {
  import opened NetBytes
  import opened Checksum

  const DHCP_DISCOVER: nat := 1
  const DHCP_OFFER: nat := 2
  const DHCP_REQUEST: nat := 3
  const DHCP_ACK: nat := 5

  const BOOTP_BOOTREQUEST: byte := 1
  const BOOTP_BOOTREPLY: byte := 2
  const BOOTP_MAGIC_NUMBER: nat := 0x63825363

  const PAD: byte := 0
  const SUBNET_MASK: byte := 1
  const ROUTER: byte := 3
  const DOMAIN_NAME_SERVER: byte := 6
  const REQUESTED_IP_ADDRESS: byte := 50
  const MESSAGE_TYPE: byte := 53
  const SERVER_IDENTIFIER: byte := 54
  const PARAMETER_REQUEST_LIST: byte := 55
  const END: byte := 255

  const HEADER_LEN: nat := 236
  const OPTIONS: nat := 240

  datatype Item = Item(code: byte, value: seq<byte>) {
    /** Codes and lengths that can be written, and values long enough for what is read. */
    predicate Ok() {
      && code != END && |value| < 256
      && (code == MESSAGE_TYPE ==> |value| >= 1)
      && (code == SERVER_IDENTIFIER || code == DOMAIN_NAME_SERVER || code == SUBNET_MASK ==> |value| >= 4)
    }
  }

  function Encode(items: seq<Item>): seq<byte>
    requires forall i :: 0 <= i < |items| ==> |items[i].value| < 256
  {
    if items == [] then [] else [items[0].code, |items[0].value|] + items[0].value + Encode(items[1..])
  }

  // ---------------------------------------------------------------------------------
  // The walk
  // ---------------------------------------------------------------------------------

  /** What the client remembers of an offer. */
  datatype Offer = Offer(isOffer: bool, dhcp: nat, dns: nat, mask: nat)

  const NO_OFFER := Offer(false, 0, 0, 0)

  predicate HoldsAddress(code: byte) {
    code == SERVER_IDENTIFIER || code == DOMAIN_NAME_SERVER || code == SUBNET_MASK
  }

  /** The walk from p meets END without reading past the buffer. */
  predicate StaysInside(b: seq<byte>, p: nat)
    decreases if p <= |b| then |b| - p else 0
  {
    && p < |b|
    && (b[p] != END ==>
          && p + 1 < |b| && p + 2 + b[p + 1] < |b| && (HoldsAddress(b[p]) ==> p + 6 <= |b|)
          && StaysInside(b, p + 2 + b[p + 1]))
  }

  /** The address in network order at an offset. */
  function Address(b: seq<byte>, p: nat): nat
    requires p + 4 <= |b|
  {
    NetSwap32(Load32(b[p..p + 4]))
  }

  lemma AddressIsNumber(b: seq<byte>, p: nat)
    requires p + 4 <= |b|
    ensures Address(b, p) == Number(b[p..p + 4])
  {
    SwapReads(b[p..p + 4]);
  }

  /** The switch on one option. */
  function Visit(b: seq<byte>, p: nat, o: Offer): Offer
    requires StaysInside(b, p) && b[p] != END
  {
    if b[p] == MESSAGE_TYPE then (if b[p + 2] as nat == DHCP_OFFER then o.(isOffer := true) else o)
    else if b[p] == SERVER_IDENTIFIER then o.(dhcp := Address(b, p + 2))
    else if b[p] == DOMAIN_NAME_SERVER then o.(dns := Address(b, p + 2))
    else if b[p] == SUBNET_MASK then o.(mask := Address(b, p + 2))
    else o
  }

  function Walk(b: seq<byte>, p: nat, o: Offer): Offer
    requires StaysInside(b, p)
    decreases if p <= |b| then |b| - p else 0
  {
    if b[p] == END then o else Walk(b, p + 2 + b[p + 1], Visit(b, p, o))
  }

  /** The second walk: only the message type matters. */
  predicate WalkAck(b: seq<byte>, p: nat, ack: bool)
    requires StaysInside(b, p)
    decreases if p <= |b| then |b| - p else 0
  {
    if b[p] == END then ack
    else WalkAck(b, p + 2 + b[p + 1], ack || (b[p] == MESSAGE_TYPE && b[p + 2] as nat == DHCP_ACK))
  }

  // ---------------------------------------------------------------------------------
  // The options a walk sees
  // ---------------------------------------------------------------------------------

  /** The options from p on, as the walk steps over them. */
  function Items(b: seq<byte>, p: nat): seq<Item>
    requires StaysInside(b, p)
    decreases if p <= |b| then |b| - p else 0
  {
    if b[p] == END then [] else [Item(b[p], b[p + 2..p + 2 + b[p + 1]])] + Items(b, p + 2 + b[p + 1])
  }

  predicate AllOk(items: seq<Item>) {
    forall i :: 0 <= i < |items| ==> items[i].Ok()
  }

  /** Bytes that hold a list of options, then END, then anything. */
  predicate Carries(b: seq<byte>, p: nat, items: seq<Item>) {
    && AllOk(items) && p + |Encode(items)| < |b|
    && b[p..p + |Encode(items)|] == Encode(items) && b[p + |Encode(items)|] == END
  }

  // The first option of a list, and the rest of the list behind it.
  lemma CarriesFirst(b: seq<byte>, p: nat, items: seq<Item>)
    requires Carries(b, p, items) && items != []
    ensures var n := |items[0].value|;
            && p + 2 + n < |b| && b[p] == items[0].code && b[p + 1] as nat == n && b[p + 2..p + 2 + n] == items[0].value
            && Carries(b, p + 2 + n, items[1..])
  {
    var n, e, rest := |items[0].value|, Encode(items), Encode(items[1..]);
    assert e == [items[0].code, n] + items[0].value + rest;
    hide Encode;
    assert b[p..p + |e|][0] == b[p] && b[p..p + |e|][1] == b[p + 1];
    SliceOfSlice(b, p, p + |e|, 2, 2 + n);
    SliceOfSlice(b, p, p + |e|, 2 + n, |e|);
    assert e[2..2 + n] == items[0].value && e[2 + n..|e|] == rest;
    assert AllOk(items[1..]);
  }

  /** The walk steps over exactly the options of such a list, in their order. */
  lemma {:induction false} WalkSeesList(b: seq<byte>, p: nat, items: seq<Item>)
    requires Carries(b, p, items)
    ensures StaysInside(b, p) && Items(b, p) == items
    decreases |items|
  {
    if items != [] {
      CarriesFirst(b, p, items);
      WalkSeesList(b, p + 2 + |items[0].value|, items[1..]);
      assert items == [items[0]] + items[1..];
    }
  }

  lemma {:induction false} InsideCarries(b: seq<byte>, p: nat)
    requires StaysInside(b, p) && AllOk(Items(b, p))
    ensures Carries(b, p, Items(b, p))
    decreases |b| - p
  {
    var items := Items(b, p);
    if b[p] != END {
      var n := b[p + 1] as nat;
      assert items[1..] == Items(b, p + 2 + n);
      InsideCarries(b, p + 2 + n);
      var rest := Encode(items[1..]);
      assert Encode(items) == [b[p], b[p + 1]] + b[p + 2..p + 2 + n] + rest;
      assert b[p..p + 2 + n + |rest|] == [b[p], b[p + 1]] + b[p + 2..p + 2 + n] + b[p + 2 + n..p + 2 + n + |rest|];
    }
  }

  /** The walk sees a list exactly if the bytes carry it. */
  lemma WalkSeesExactly(b: seq<byte>, p: nat, items: seq<Item>)
    ensures Carries(b, p, items) <==> StaysInside(b, p) && AllOk(items) && Items(b, p) == items
  {
    if Carries(b, p, items) {
      WalkSeesList(b, p, items);
    }
    if StaysInside(b, p) && AllOk(items) && Items(b, p) == items {
      InsideCarries(b, p);
    }
  }

  // ---------------------------------------------------------------------------------
  // Pad options, which have no length byte and which the walk does not know
  // ---------------------------------------------------------------------------------

  /** From p the walk comes to q. */
  predicate Reaches(b: seq<byte>, p: nat, q: nat)
    decreases if p <= q then q - p else 0
  {
    p == q || (p < q && p + 1 < |b| && b[p] != END && Reaches(b, p + 2 + b[p + 1], q))
  }

  /** A run of n pad options from p, and the byte behind it. */
  predicate Padded(b: seq<byte>, p: nat, n: nat) {
    p + n < |b| && (forall i :: p <= i < p + n ==> b[i] == PAD) && b[p + n] != PAD
  }

  /** The walk comes to the option behind n pad options exactly if n is even, as it takes the
      second of a pair for the first one's length; then it goes on as if they were not there.
      If n is odd, the code of that option is taken for the last pad's length, and the walk
      goes on that many bytes behind the code. */
  lemma {:induction false} PadsRead(b: seq<byte>, p: nat, n: nat, o: Offer, ack: bool)
    requires Padded(b, p, n)
    ensures Reaches(b, p, p + n) <==> n % 2 == 0
    ensures var q := if n % 2 == 0 then p + n else p + n + 1 + b[p + n];
            && (StaysInside(b, p) <==> q < |b| && StaysInside(b, q))
            && (StaysInside(b, p) ==> Walk(b, p, o) == Walk(b, q, o) && (WalkAck(b, p, ack) <==> WalkAck(b, q, ack)))
    decreases n
  {
    if n == 1 {
      assert !Reaches(b, p + 2 + b[p + 1], p + 1);
    } else if n >= 2 {
      assert b[p] == PAD && b[p + 1] == PAD;
      PadsRead(b, p + 2, n - 2, o, ack);
    }
  }

  /** The value of the last option with a code, or nothing. */
  function Last(items: seq<Item>, code: byte): (v: seq<byte>) {
    if items == [] then []
    else if items[|items| - 1].code == code then items[|items| - 1].value
    else Last(items[..|items| - 1], code)
  }

  function LastAddress(items: seq<Item>, code: byte): nat {
    if |Last(items, code)| >= 4 then Address(Last(items, code), 0) else 0
  }

  predicate HasType(items: seq<Item>, kind: nat) {
    exists i :: 0 <= i < |items| && items[i].code == MESSAGE_TYPE && |items[i].value| > 0 && items[i].value[0] as nat == kind
  }

  /** What an offer with these options says. */
  predicate Says(items: seq<Item>, o: Offer) {
    && (o.isOffer <==> HasType(items, DHCP_OFFER))
    && o.dhcp == LastAddress(items, SERVER_IDENTIFIER)
    && o.dns == LastAddress(items, DOMAIN_NAME_SERVER)
    && o.mask == LastAddress(items, SUBNET_MASK)
  }

  lemma TypeMore(items: seq<Item>, item: Item, kind: nat)
    ensures HasType(items + [item], kind) <==>
            HasType(items, kind) || (item.code == MESSAGE_TYPE && |item.value| > 0 && item.value[0] as nat == kind)
  {
    var more := items + [item];
    if HasType(items, kind) {
      var i :| 0 <= i < |items| && items[i].code == MESSAGE_TYPE && |items[i].value| > 0 && items[i].value[0] as nat == kind;
      assert more[i] == items[i];
    }
    if item.code == MESSAGE_TYPE && |item.value| > 0 && item.value[0] as nat == kind {
      assert more[|items|] == item;
    }
  }

  lemma LastMore(items: seq<Item>, item: Item, code: byte)
    ensures Last(items + [item], code) == if item.code == code then item.value else Last(items, code)
  {
    assert (items + [item])[..|items|] == items;
  }

  lemma VisitSays(b: seq<byte>, p: nat, seen: seq<Item>, item: Item, o: Offer)
    requires StaysInside(b, p) && b[p] == item.code != END && b[p + 2..p + 2 + b[p + 1]] == item.value && item.Ok()
    requires Says(seen, o)
    ensures Says(seen + [item], Visit(b, p, o))
  {
    hide HasType;
    hide Last;
    hide Load32;
    hide NetSwap32;
    TypeMore(seen, item, DHCP_OFFER);
    LastMore(seen, item, SERVER_IDENTIFIER);
    LastMore(seen, item, DOMAIN_NAME_SERVER);
    LastMore(seen, item, SUBNET_MASK);
    if HoldsAddress(item.code) {
      AddressInItem(b, p, item.value);
    } else if item.code == MESSAGE_TYPE {
      assert item.value[0] == b[p + 2];
    }
  }

  lemma AddressInItem(b: seq<byte>, p: nat, value: seq<byte>)
    requires StaysInside(b, p) && b[p] != END && b[p + 2..p + 2 + b[p + 1]] == value && 4 <= |value|
    ensures p + 6 <= |b| && Address(b, p + 2) == Address(value, 0)
  {
    hide Load32;
    hide NetSwap32;
    SliceOfSlice(b, p + 2, p + 2 + b[p + 1], 0, 4);
  }

  // One step of the walk.
  lemma WalkStep(b: seq<byte>, p: nat, o: Offer)
    requires StaysInside(b, p)
    ensures b[p] == END ==> Walk(b, p, o) == o
    ensures b[p] != END ==>
              && p + 2 + b[p + 1] < |b| && StaysInside(b, p + 2 + b[p + 1])
              && Walk(b, p, o) == Walk(b, p + 2 + b[p + 1], Visit(b, p, o))
  {
  }

  lemma {:induction false} WalkSays(b: seq<byte>, p: nat, seen: seq<Item>, items: seq<Item>, o: Offer)
    requires Carries(b, p, items) && Says(seen, o)
    ensures StaysInside(b, p) && Says(seen + items, Walk(b, p, o))
    decreases |items|
  {
    hide Says;
    hide Encode;
    hide Walk;
    hide Visit;
    hide StaysInside;
    WalkSeesList(b, p, items);
    WalkStep(b, p, o);
    if items == [] {
      assert seen + items == seen;
    } else {
      CarriesFirst(b, p, items);
      VisitSays(b, p, seen, items[0], o);
      WalkSays(b, p + 2 + |items[0].value|, seen + [items[0]], items[1..], Visit(b, p, o));
      assert seen + items == seen + [items[0]] + items[1..];
    }
  }

  /** For every list of options followed by END, the walk ends and remembers of each recorded
      code the last value in the list, and whether the list says it is an offer. */
  lemma WalkFindsLast(b: seq<byte>, p: nat, items: seq<Item>)
    requires Carries(b, p, items)
    ensures StaysInside(b, p) && Items(b, p) == items && Says(items, Walk(b, p, NO_OFFER))
  {
    WalkSeesList(b, p, items);
    WalkSays(b, p, [], items, NO_OFFER);
    assert [] + items == items;
  }

  lemma {:induction false} WalkAckFinds(b: seq<byte>, p: nat, items: seq<Item>, ack: bool)
    requires Carries(b, p, items)
    ensures StaysInside(b, p) && (WalkAck(b, p, ack) <==> ack || HasType(items, DHCP_ACK))
    decreases |items|
  {
    WalkSeesList(b, p, items);
    if items != [] {
      CarriesFirst(b, p, items);
      var first := items[0];
      var here := first.code == MESSAGE_TYPE && first.value[0] as nat == DHCP_ACK;
      assert first.code == MESSAGE_TYPE ==> b[p + 2..p + 2 + |first.value|][0] == b[p + 2];
      WalkAckFinds(b, p + 2 + |first.value|, items[1..], ack || here);
      TypeFirst(items, DHCP_ACK);
    }
  }

  lemma TypeFirst(items: seq<Item>, kind: nat)
    requires items != []
    ensures HasType(items, kind) <==>
            HasType(items[1..], kind) ||
            (items[0].code == MESSAGE_TYPE && |items[0].value| > 0 && items[0].value[0] as nat == kind)
  {
    if HasType(items[1..], kind) {
      var i :| 0 <= i < |items[1..]| && items[1..][i].code == MESSAGE_TYPE && |items[1..][i].value| > 0 &&
        items[1..][i].value[0] as nat == kind;
      assert items[i + 1] == items[1..][i];
    }
    if HasType(items, kind) {
      var i :| 0 <= i < |items| && items[i].code == MESSAGE_TYPE && |items[i].value| > 0 &&
        items[i].value[0] as nat == kind;
      assert i > 0 ==> items[1..][i - 1] == items[i];
    }
  }

  // ---------------------------------------------------------------------------------
  // The client's messages
  // ---------------------------------------------------------------------------------

  /** The fixed header of a request; `siaddr` is the offered address in a DHCP_REQUEST. */
  function Header(xid: nat, mac: seq<byte>, siaddr: nat): (b: seq<byte>)
    requires |mac| == 6
    ensures |b| == HEADER_LEN
  {
    [BOOTP_BOOTREQUEST, 1, 6, 0] + Net32(xid) + Zeros(12) + Net32(siaddr) + Zeros(4) + mac + Zeros(202)
  }

  function Zeros(n: nat): (b: seq<byte>)
    ensures |b| == n
  {
    seq(n, i => 0)
  }

  /** The options of a request of a kind. */
  function RequestItems(kind: nat, ip: nat, server: nat): seq<Item> {
    if kind == DHCP_DISCOVER then
      [Item(MESSAGE_TYPE, [1]), Item(REQUESTED_IP_ADDRESS, [192, 168, 1, 120]),
       Item(PARAMETER_REQUEST_LIST, [SUBNET_MASK, ROUTER, DOMAIN_NAME_SERVER])]
    else if kind == DHCP_REQUEST then
      [Item(MESSAGE_TYPE, [3]), Item(REQUESTED_IP_ADDRESS, Net32(ip)), Item(SERVER_IDENTIFIER, Net32(server))]
    else []
  }

  /** A whole message; only the two kinds of request get the magic number. */
  function DhcpMessage(xid: nat, mac: seq<byte>, kind: nat, ip: nat, server: nat): seq<byte>
    requires |mac| == 6
  {
    Header(xid, mac, if kind == DHCP_REQUEST then ip else 0)
    + (if kind == DHCP_DISCOVER || kind == DHCP_REQUEST then Net32(BOOTP_MAGIC_NUMBER) else [])
    + Encode(RequestItems(kind, ip, server)) + [END]
  }

  /** Read back, a DHCP_REQUEST gives its message type, the requested address and the server;
      a DHCP_DISCOVER gives what it asks for. */
  lemma RequestReadBack(xid: nat, mac: seq<byte>, kind: nat, ip: nat, server: nat)
    requires |mac| == 6 && (kind == DHCP_DISCOVER || kind == DHCP_REQUEST)
    ensures var b := DhcpMessage(xid, mac, kind, ip, server);
            && Carries(b, OPTIONS, RequestItems(kind, ip, server))
            && StaysInside(b, OPTIONS) && Items(b, OPTIONS) == RequestItems(kind, ip, server)
            && HasType(Items(b, OPTIONS), kind)
            && (kind == DHCP_REQUEST ==> Walk(b, OPTIONS, NO_OFFER).dhcp == server % M32)
            && (kind == DHCP_REQUEST ==> LastAddress(Items(b, OPTIONS), REQUESTED_IP_ADDRESS) == ip % M32)
  {
    var items := RequestItems(kind, ip, server);
    var b := DhcpMessage(xid, mac, kind, ip, server);
    var e := Encode(items);
    assert b[OPTIONS..OPTIONS + |e|] == e && b[OPTIONS + |e|] == END by {
      hide Encode;
      hide RequestItems;
      hide Header;
      hide Net32;
    }
    WalkFindsLast(b, OPTIONS, items);
    assert items[0].code == MESSAGE_TYPE && items[0].value[0] as nat == kind;
    if kind == DHCP_REQUEST {
      AddressOf(ip);
      AddressOf(server);
      RequestLasts(ip, server);
    }
  }

  /** Where every field of a request stands: type of request, hardware type and address
      length, transaction number, the offered address in the server's field of a
      DHCP_REQUEST, hardware address, magic number, and the options byte by byte. */
  lemma RequestFields(xid: nat, mac: seq<byte>, kind: nat, ip: nat, server: nat)
    requires |mac| == 6
    ensures var b := DhcpMessage(xid, mac, kind, ip, server);
            && |b| > 236 && b[..4] == [1, 1, 6, 0] && Number(b[4..8]) == xid % M32
            && b[8..20] == Zeros(12) && Number(b[20..24]) == (if kind == 3 then ip % M32 else 0) && b[24..28] == Zeros(4)
            && b[28..34] == mac && b[34..236] == Zeros(202)
            && (kind == 1 || kind == 3 ==> |b| > 240 && b[236..240] == [99, 130, 83, 99])
            && (kind == 1 ==> b[240..] == [53, 1, 1, 50, 4, 192, 168, 1, 120, 55, 3, 1, 3, 6, 255])
            && (kind == 3 ==> |b| == 256 && b[240..245] == [53, 1, 3, 50, 4] && Number(b[245..249]) == ip % M32
                              && b[249..251] == [54, 4] && Number(b[251..255]) == server % M32 && b[255] == 255)
            && (kind != 1 && kind != 3 ==> b[236..] == [255])
  {
    hide Number;
    hide Encode;
    hide Net32;
    var h, e := Header(xid, mac, if kind == DHCP_REQUEST then ip else 0), Encode(RequestItems(kind, ip, server));
    var b := DhcpMessage(xid, mac, kind, ip, server);
    HeaderFields(xid, mac, if kind == DHCP_REQUEST then ip else 0);
    hide Header;
    MagicBytes();
    ItemBytes(kind, ip, server);
    assert b[..236] == h;
    HeaderSlices(b, h);
    if kind == 1 || kind == 3 {
      assert b == h + Net32(BOOTP_MAGIC_NUMBER) + e + [END];
      assert b[236..240] == Net32(BOOTP_MAGIC_NUMBER) && b[240..] == e + [END];
      if kind == 3 {
        assert b[240..][..5] == b[240..245] && b[240..][5..9] == b[245..249];
        assert b[240..][9..11] == b[249..251] && b[240..][11..15] == b[251..255] && b[240..][15] == b[255];
      }
    } else {
      assert b == h + [] + [] + [END];
    }
  }

  lemma HeaderSlices(b: seq<byte>, h: seq<byte>)
    requires |h| == 236 <= |b| && b[..236] == h
    ensures b[..4] == h[..4] && b[4..8] == h[4..8] && b[8..20] == h[8..20] && b[20..24] == h[20..24]
    ensures b[24..28] == h[24..28] && b[28..34] == h[28..34] && b[34..236] == h[34..236]
  {
  }

  lemma HeaderFields(xid: nat, mac: seq<byte>, siaddr: nat)
    requires |mac| == 6
    ensures var h := Header(xid, mac, siaddr);
            && h[..4] == [1, 1, 6, 0] && Number(h[4..8]) == xid % M32 && h[8..20] == Zeros(12)
            && Number(h[20..24]) == siaddr % M32 && h[24..28] == Zeros(4) && h[28..34] == mac && h[34..236] == Zeros(202)
  {
    hide Number;
    hide Net32;
    hide Zeros;
    NetIsNumber(xid);
    NetIsNumber(siaddr);
    var h := Header(xid, mac, siaddr);
    assert h[4..8] == Net32(xid) && h[20..24] == Net32(siaddr);
  }

  lemma MagicBytes()
    ensures Net32(BOOTP_MAGIC_NUMBER) == [99, 130, 83, 99]
  {
    hide ByteAt;
    BytesAre(BOOTP_MAGIC_NUMBER);
  }

  lemma ItemBytes(kind: nat, ip: nat, server: nat)
    ensures var e := Encode(RequestItems(kind, ip, server)) + [END];
            && (kind == 1 ==> e == [53, 1, 1, 50, 4, 192, 168, 1, 120, 55, 3, 1, 3, 6, 255])
            && (kind == 3 ==> |e| == 16 && e[..5] == [53, 1, 3, 50, 4] && Number(e[5..9]) == ip % M32
                              && e[9..11] == [54, 4] && Number(e[11..15]) == server % M32 && e[15] == 255)
            && (kind != 1 && kind != 3 ==> e == [255])
  {
    hide Number;
    hide Net32;
    NetIsNumber(ip);
    NetIsNumber(server);
    var items := RequestItems(kind, ip, server);
    if kind == 1 {
      assert items == [items[0], items[1], items[2]];
      EncodeOfThree(items[0], items[1], items[2]);
    } else if kind == 3 {
      EncodeOfThree(items[0], items[1], items[2]);
      var e := [53, 1, 3] + ([50, 4] + Net32(ip)) + ([54, 4] + Net32(server)) + [END];
      assert Encode(items) + [END] == e;
      assert e[5..9] == Net32(ip) && e[11..15] == Net32(server) && e[..5] == [53, 1, 3, 50, 4] && e[9..11] == [54, 4];
    }
  }

  lemma EncodeOfThree(x: Item, y: Item, z: Item)
    requires |x.value| < 256 && |y.value| < 256 && |z.value| < 256
    ensures Encode([x, y, z]) == [x.code, |x.value|] + x.value + [y.code, |y.value|] + y.value + [z.code, |z.value|] + z.value
  {
    assert [x, y, z][1..] == [y, z] && [y, z][1..] == [z] && [z][1..] == [];
    var none: seq<Item> := [];
    assert Encode(none) == [] && Encode([z]) == [z.code, |z.value|] + z.value;
    assert Encode([y, z]) == [y.code, |y.value|] + y.value + Encode([z]);
  }

  lemma AddressOf(v: nat)
    ensures Address(Net32(v), 0) == v % M32
  {
    Swap32(v);
    assert Net32(v)[0..4] == Net32(v);
  }

  lemma RequestLasts(ip: nat, server: nat)
    ensures var items := RequestItems(DHCP_REQUEST, ip, server);
            Last(items, SERVER_IDENTIFIER) == Net32(server) && Last(items, REQUESTED_IP_ADDRESS) == Net32(ip)
  {
    hide Net32;
    var items := RequestItems(DHCP_REQUEST, ip, server);
    assert items[..2] == [items[0], items[1]];
    LastMore(items[..2], items[2], REQUESTED_IP_ADDRESS);
    assert items == items[..2] + [items[2]];
  }
}
