/** The socket functions, the poller's TCP branch and the receive sorter's TCP branch. */
module TcpSocket {
  import opened NetBytes
  import opened Checksum
  import opened Frames
  import opened FrameCode
  import opened Subnets
  import opened FifoQueue
  import opened TcpMachine
  import opened TcpTurns

  const PAGE: nat := 0x1000
  const HEADROOM: nat := 0x100

  const SOCKET_PROTOCOL_TCP: nat := 0
  const SOCKET_PROTOCOL_UDP: nat := 1

  /** The longest message that fits a packet's page behind the room for the headers. */
  const MESSAGE_MAX: nat := PAGE - HEADROOM

  const TCP_FIN: byte := 0x01
  const TCP_SYN: byte := 0x02
  const TCP_PSH: byte := 0x08
  const TCP_ACK: byte := 0x10

  /** The flags byte of a segment the poller sends. */
  function Flags(k: Kind): byte {
    match k
    case Syn => TCP_SYN
    case Fin => TCP_FIN + TCP_ACK
    case Data => TCP_PSH + TCP_ACK
    case Ack => TCP_ACK
  }

  /** The decoded form of a segment between two ports. */
  function OnWire(portIn: nat, portOut: nat, out: Out): Segment {
    Cut(Segment(portIn, portOut, out.seqNumber, out.ackNumber, Flags(out.kind), out.payload))
  }

  /** A decoded segment as the sorter's tests of its flags see it. */
  function Arriving(s: Segment): Arrival {
    Arrival(BitAnd(s.flags, TCP_SYN) != 0, BitAnd(s.flags, TCP_FIN) != 0, BitAnd(s.flags, TCP_PSH) != 0,
            BitAnd(s.flags, TCP_ACK) != 0, s.seqNumber, s.ackNumber, s.payload)
  }

  /** A receiver that makes the sorter's tests sees each kind of segment as what it is; all
      but the SYN acknowledge. */
  lemma SeenAsSent(portIn: nat, portOut: nat, out: Out)
    ensures Arriving(OnWire(portIn, portOut, out)) ==
            Arrival(out.kind == Syn, out.kind == Fin, out.kind == Data, out.kind != Syn,
                    out.seqNumber % SEQS, out.ackNumber % SEQS, out.payload)
  {
    SynBits();
    FinBits();
    DataBits();
    AckBits();
    hide BitAnd;
  }

  lemma SynBits()
    ensures BitAnd(0x02, 0x02) != 0 && BitAnd(0x02, 0x01) == BitAnd(0x02, 0x08) == BitAnd(0x02, 0x10) == 0
  {
    assert BitAnd(1, 1) == 1 && BitAnd(1, 0) == 0 && BitAnd(1, 4) == 0 && BitAnd(1, 8) == 0;
  }

  lemma AckBits()
    ensures BitAnd(0x10, 0x10) != 0 && BitAnd(0x10, 0x01) == BitAnd(0x10, 0x02) == BitAnd(0x10, 0x08) == 0
  {
    assert BitAnd(1, 1) == 1 && BitAnd(2, 2) == 2 && BitAnd(4, 4) == 4 && BitAnd(8, 8) == 8;
    assert BitAnd(4, 2) == 0 && BitAnd(8, 4) == 0 && BitAnd(8, 1) == 0;
  }

  lemma FinBits()
    ensures BitAnd(0x11, 0x01) != 0 && BitAnd(0x11, 0x10) != 0 && BitAnd(0x11, 0x02) == BitAnd(0x11, 0x08) == 0
  {
    assert BitAnd(1, 1) == 1 && BitAnd(2, 2) == 2 && BitAnd(4, 4) == 4 && BitAnd(8, 8) == 8;
    assert BitAnd(4, 2) == 0 && BitAnd(8, 4) == 0 && BitAnd(8, 1) == 0;
  }

  lemma DataBits()
    ensures BitAnd(0x18, 0x08) != 0 && BitAnd(0x18, 0x10) != 0 && BitAnd(0x18, 0x02) == BitAnd(0x18, 0x01) == 0
  {
    assert BitAnd(3, 1) == 1 && BitAnd(6, 2) == 2 && BitAnd(12, 4) == 4;
    assert BitAnd(1, 1) == 1 && BitAnd(3, 2) == 2 && BitAnd(6, 4) == 4 && BitAnd(12, 8) == 8;
    assert BitAnd(12, 1) == 0;
  }

  /** One more frame was handed to the card: it goes to the next hop, its fields stand at
      their places, and it decodes to the segment. */
  ghost predicate FrameAdded(before: seq<seq<byte>>, after: seq<seq<byte>>, i: Interface, arp: map<nat, seq<byte>>,
                             ip: nat, srcPort: nat, destPort: nat, flags: byte, seqNumber: nat, ackNumber: nat,
                             payload: seq<byte>)
    requires i.Ok() && ip < M32
  {
    && |after| == |before| + 1 && after[..|before|] == before
    && var f := after[|before|];
    && LongEnough(f) && |f| >= 54
    && EtherDecode(f) == Tcp(Segment(srcPort % M16, destPort % M16, seqNumber, ackNumber, flags, payload))
    && GoesTo(i, arp, ip, f[..6], f[..6])
    && HeadersAt(f, i.etherAddr, if i.ipAddr != 0 then i.ipAddr else ip, if ip == 0 then 0xFFFF_FFFF else ip)
    && SegmentAt(f, srcPort % M16, destPort % M16, seqNumber, ackNumber, flags, payload)
  }

  class Socket {
    var intf: Interface
    const portIn: nat
    var portOut: nat
    var ipOut: nat
    var protocol: nat
    var status: Status
    var connectStatus: Status
    var seqNumber: nat
    var ackNumber: nat
    var queueIn: Queue<seq<byte>>
    var queueOut: Queue<seq<byte>>
    /** The frames handed to the network card. */
    var frames: seq<seq<byte>>

    ghost predicate Valid()
      reads this, queueIn, queueIn.entries, queueOut, queueOut.entries
    {
      && intf.Ok() && ipOut < M32 && seqNumber < SEQS && ackNumber < SEQS
      && queueIn != queueOut && queueIn.Valid() && queueOut.Valid()
      && (forall i :: 0 <= i < |queueIn.entries| ==> queueIn.entries[i] !in queueOut.entries)
      && (forall i :: 0 <= i < |queueOut.entries| ==> queueOut.entries[i] !in queueIn.entries)
    }

    ghost function Value(): Sock
      reads this, queueIn, queueIn.entries, queueOut, queueOut.entries
    {
      Sock(status, connectStatus, seqNumber, ackNumber, queueIn.Contents(), queueOut.Contents())
    }

    lemma Fields()
      requires Valid()
      ensures Value().status == status && Value().connect == connectStatus
      ensures Value().seqNumber == seqNumber < SEQS && Value().ackNumber == ackNumber < SEQS
      ensures queueOut.Valid() && (queueOut.Empty() <==> Value().outgoing == []) && intf.Ok()
    {
    }

    /** ksocket */
    constructor (intf: Interface, portIn: nat)
      requires intf.Ok()
      ensures Valid() && Value() == Sock(S_NULL, S_NULL, 0, 0, [], []) && frames == []
    {
      this.intf, this.portIn := intf, portIn;
      portOut, ipOut, protocol, seqNumber, ackNumber := 0, 0, 0, 0, 0;
      status, connectStatus := S_NULL, S_NULL;
      queueIn := new Queue();
      queueOut := new Queue();
      frames := [];
    }

    /** kconnect.  For TCP without an address it fails; with one it asks for the handshake and
        goes on to wait for it.  For UDP only a broadcast needs no address.  What is connected
        starts from zero numbers and empty queues; what fails is left alone. */
    method KConnect(ipOut: nat, portOut: nat, protocol: nat) returns (ok: bool)
      requires Valid() && ipOut < M32
      modifies this
      ensures Valid() && frames == old(frames) && intf == old(intf)
      ensures ok <==> || (protocol == SOCKET_PROTOCOL_TCP && intf.ipAddr != 0)
                      || (protocol == SOCKET_PROTOCOL_UDP && (intf.ipAddr != 0 || ipOut == 0))
      ensures ok ==> this.ipOut == ipOut && this.portOut == portOut && this.protocol == protocol
      ensures ok && protocol == SOCKET_PROTOCOL_TCP ==> Value() == CONNECTING
      ensures ok && protocol == SOCKET_PROTOCOL_UDP ==>
                Value() == Sock(old(status), old(connectStatus), 0, 0, [], [])
      ensures !ok ==> Value() == old(Value()) && this.ipOut == old(this.ipOut) && this.portOut == old(this.portOut)
                      && this.protocol == old(this.protocol)
    {
      hide Valid;
      hide Value;
      Fields();
      if protocol == SOCKET_PROTOCOL_TCP && intf.ipAddr == 0 {
        return false;
      }
      if protocol == SOCKET_PROTOCOL_TCP {
        Reset(ipOut, portOut, protocol);
        AskForSyn();
        return true;
      }
      if protocol == SOCKET_PROTOCOL_UDP && intf.ipAddr == 0 && ipOut != 0 {
        return false;
      }
      if protocol == SOCKET_PROTOCOL_UDP {
        Reset(ipOut, portOut, protocol);
        return true;
      }
      return false;
    }

    // The writes both protocols share.
    method Reset(ipOut: nat, portOut: nat, protocol: nat)
      requires intf.Ok() && ipOut < M32
      modifies this
      ensures Valid() && frames == old(frames) && intf == old(intf)
      ensures Value() == Sock(old(status), old(connectStatus), 0, 0, [], [])
      ensures this.ipOut == ipOut && this.portOut == portOut && this.protocol == protocol
    {
      this.ipOut, this.portOut, this.protocol := ipOut, portOut, protocol;
      queueIn := new Queue();
      queueOut := new Queue();
      seqNumber, ackNumber := 0, 0;
    }

    method AskForSyn()
      requires Valid()
      modifies this`status, this`connectStatus
      ensures Valid() && Value() == old(Value()).(status := S_SYN, connect := S_SYN)
    {
      status := S_SYN;
      connectStatus := S_SYN;
    }

    /** kwrite: the message is copied, so the caller may reuse its buffer. */
    method KWrite(buf: array<byte>, len: nat)
      requires Valid() && len <= buf.Length && len <= PAGE
      modifies this, queueOut, queueOut.entries
      ensures Valid() && frames == old(frames)
      ensures Value() == AfterWrite(old(Value()), buf[..len])
    {
      ghost var received := queueIn.Contents();
      queueOut.Push(buf[..len]);
      assert queueIn.Contents() == received;
      status := S_WRITE;
    }

    /** A turn of kread's wait loop, and what follows it once a message is there. */
    method KRead(buf: array<byte>) returns (done: bool, len: nat)
      requires Valid() && (queueIn.Contents() != [] ==> |queueIn.Contents()[0]| <= buf.Length)
      modifies queueIn, buf
      ensures Valid() && done == (old(Value()).incoming != [])
      ensures !done ==> Value() == old(Value()) && buf[..] == old(buf[..])
      ensures done ==> len <= buf.Length && buf[len..] == old(buf[len..])
      ensures done ==> Value() == AfterRead(old(Value())) && buf[..len] == old(Value()).incoming[0]
    {
      done, len := !queueIn.Empty(), 0;
      if done {
        var message := queueIn.Pop();
        len := |message|;
        CopyMessage(buf, message);
      }
    }

    static method CopyMessage(buf: array<byte>, message: seq<byte>)
      requires |message| <= buf.Length
      modifies buf
      ensures buf[..|message|] == message && buf[|message|..] == old(buf[|message|..])
    {
      forall k | 0 <= k < |message| {
        buf[k] := message[k];
      }
    }

    /** A turn of kclose's wait loop, which only a TCP socket enters. */
    method KClose() returns (done: bool)
      requires Valid()
      modifies this`status
      ensures Valid() && done == (protocol != SOCKET_PROTOCOL_TCP || old(status) == S_OPEN)
      ensures Value() == if protocol == SOCKET_PROTOCOL_TCP then AfterClose(old(Value())) else old(Value())
    {
      done := true;
      if protocol == SOCKET_PROTOCOL_TCP {
        done := status == S_OPEN;
        if done {
          status := S_FIN;
        }
      }
    }

    // A page with the message behind the headroom, around which the headers are put.
    method BuildFrame(arp: map<nat, seq<byte>>, kind: Kind, message: seq<byte>) returns (frame: seq<byte>)
      requires Valid() && ArpOk(arp) && |message| <= MESSAGE_MAX
      ensures FrameAdded([], [frame], intf, arp, ipOut, portIn, portOut, Flags(kind), seqNumber, ackNumber, message)
    {
      hide Frame;
      hide NextHop;
      hide HopAddress;
      hide EtherDecode;
      hide LongEnough;
      hide GoesTo;
      hide HeadersAt;
      hide SegmentAt;
      var page := new byte[PAGE](k requires 0 <= k < PAGE =>
        if HEADROOM <= k < HEADROOM + |message| then message[k - HEADROOM] else 0);
      var packet := new Packet(page, HEADROOM, HEADROOM + |message|);
      assert packet.Bytes() == message by {
        assert forall k :: 0 <= k < |message| ==> page[HEADROOM + k] == message[k];
      }
      ghost var field := page[HEADROOM - HEADERS..HEADROOM - HEADERS + 6];
      packet.TcpReq(intf, arp, portOut, portIn, ipOut, Flags(kind), seqNumber, ackNumber);
      frame := packet.Bytes();
      ghost var s := Segment(portIn, portOut, seqNumber, ackNumber, Flags(kind), message);
      var none: seq<byte> := [];
      assert frame + none == frame;
      DecodeOfFrame(intf, HopAddress(arp, NextHop(intf, ipOut), field), ipOut, s, none);
      FieldAsFound(intf, arp, ipOut, field, frame[..6]);
    }

    // tcp_req, the step of the sequence number, and tx_send.
    method Emit(arp: map<nat, seq<byte>>, kind: Kind, message: seq<byte>)
      requires Valid() && ArpOk(arp) && |message| <= MESSAGE_MAX
      modifies this`seqNumber, this`frames
      ensures var size := Size(Out(kind, old(seqNumber), ackNumber, message));
              Valid() && Value() == old(Value()).(seqNumber := (old(seqNumber) + size) % SEQS)
      ensures FrameAdded(old(frames), frames, intf, arp, ipOut, portIn, portOut, Flags(kind), old(seqNumber), ackNumber,
                         message)
    {
      hide GoesTo;
      hide HeadersAt;
      hide SegmentAt;
      hide EtherDecode;
      hide LongEnough;
      var frame := BuildFrame(arp, kind, message);
      seqNumber := (seqNumber + Size(Out(kind, seqNumber, ackNumber, message))) % SEQS;
      frames := frames + [frame];
    }

    // SYN, FIN or ACK: the status is opened first.
    method SendControl(arp: map<nat, seq<byte>>, kind: Kind)
      requires Valid() && ArpOk(arp) && kind != Data && (kind == Ack <==> status == S_ACK)
      modifies this`status, this`connectStatus, this`seqNumber, this`frames
      ensures var k, out := old(Value()), Out(kind, old(seqNumber), ackNumber, []);
              && Valid()
              && Value() == k.(status := S_OPEN, seqNumber := (k.seqNumber + Size(out)) % SEQS,
                               connect := if kind == Ack && k.connect == S_SYN then S_OPEN else k.connect)
      ensures FrameAdded(old(frames), frames, intf, arp, ipOut, portIn, portOut, Flags(kind), old(seqNumber), ackNumber, [])
    {
      hide FrameAdded;
      status := S_OPEN;
      Emit(arp, kind, []);
      if kind == Ack && connectStatus == S_SYN {
        connectStatus := S_OPEN;
      }
    }

    method PopOutgoing() returns (message: seq<byte>)
      requires Valid() && Value().outgoing != []
      modifies queueOut
      ensures Valid() && message == old(Value()).outgoing[0]
      ensures Value() == old(Value()).(outgoing := old(Value()).outgoing[1..])
      ensures old(Value()).seqNumber == seqNumber && old(Value()).ackNumber == ackNumber
    {
      message := queueOut.Pop();
    }

    method SendMessage(arp: map<nat, seq<byte>>)
      requires Valid() && ArpOk(arp) && Value().outgoing != [] && |Value().outgoing[0]| <= MESSAGE_MAX
      modifies this`seqNumber, this`frames, queueOut
      ensures var k, out := old(Value()), Out(Data, old(seqNumber), ackNumber, old(Value()).outgoing[0]);
              && Valid() && Value() == k.(outgoing := k.outgoing[1..], seqNumber := (k.seqNumber + Size(out)) % SEQS)
      ensures FrameAdded(old(frames), frames, intf, arp, ipOut, portIn, portOut, 0x18, old(seqNumber), ackNumber,
                         old(Value()).outgoing[0])
    {
      hide FrameAdded;
      hide Valid;
      hide Value;
      var message := PopOutgoing();
      Emit(arp, Data, message);
    }

    /** The poller's TCP branch: a turn sends at most one frame, SYN, FIN with ACK, PSH with
        ACK and the first message, or ACK, as the status calls for, and leaves the socket as
        AfterPoll says.  A message has to fit the page that the frame is built in. */
    method TxPoll(arp: map<nat, seq<byte>>)
      requires Valid() && ArpOk(arp)
      requires Polled(Value()) != [] ==> |Polled(Value())[0].payload| <= MESSAGE_MAX
      modifies this`status, this`connectStatus, this`seqNumber, this`frames, queueOut
      ensures Valid() && Value() == AfterPoll(old(Value()))
      ensures var flags := match old(status)
                           case S_SYN => 0x02
                           case S_FIN => 0x11
                           case S_WRITE => if old(Value()).outgoing != [] then 0x18 else 0
                           case S_ACK => 0x10
                           case _ => 0;
              if flags == 0 then frames == old(frames)
              else FrameAdded(old(frames), frames, intf, arp, ipOut, portIn, portOut, flags, old(seqNumber), ackNumber,
                              if flags == 0x18 then old(Value()).outgoing[0] else [])
    {
      hide FrameAdded;
      hide Valid;
      hide Value;
      Fields();
      if status == S_SYN {
        SendControl(arp, Syn);
      } else if status == S_FIN {
        SendControl(arp, Fin);
      } else if status == S_WRITE && !queueOut.Empty() {
        SendMessage(arp);
      } else if status == S_ACK {
        SendControl(arp, Ack);
      }
    }

    method QueueIncoming(message: seq<byte>)
      requires Valid()
      modifies queueIn, queueIn.entries
      ensures Valid() && Value() == old(Value()).(incoming := old(Value()).incoming + [message])
    {
      ghost var outgoing := queueOut.Contents();
      queueIn.Push(message);
      assert queueOut.Contents() == outgoing;
    }

    method Acknowledge(number: nat)
      requires Valid() && number < SEQS
      modifies this`ackNumber, this`status
      ensures Valid() && Value() == old(Value()).(ackNumber := number, status := S_ACK)
    {
      ackNumber := number;
      status := S_ACK;
    }

    method OpenConnection()
      requires Valid()
      modifies this`connectStatus
      ensures Valid() && Value() == old(Value()).(connect := S_OPEN)
    {
      connectStatus := S_OPEN;
    }

    /** The sorter's TCP branch for this socket; it keeps the segment if it queues it.  The
        usual four segments: with an open status, data, FIN and ACK in order, and the SYN-ACK
        while nothing of the peer is acknowledged. */
    method RxSort(p: Segment) returns (kept: bool)
      requires Valid()
      modifies this`status, this`connectStatus, this`ackNumber, queueIn, queueIn.entries
      ensures Valid() && Value() == AfterSort(old(Value()), Arriving(p))
      ensures kept <==> Value().incoming != old(Value()).incoming
      ensures var k, open := old(Value()), old(status) == S_OPEN || old(status) == S_WRITE;
              var inOrder := open && p.ackNumber == k.seqNumber && p.seqNumber == k.ackNumber;
              && (inOrder && p.flags == 0x18 ==>
                    kept && Value() == k.(ackNumber := (k.ackNumber + |p.payload|) % SEQS, status := S_ACK,
                                          incoming := k.incoming + [p.payload]))
              && (inOrder && p.flags == 0x11 ==> Value() == k.(ackNumber := (k.ackNumber + 1) % SEQS, status := S_ACK))
              && (inOrder && p.flags == 0x10 ==> Value() == k.(connect := S_OPEN))
              && (open && p.ackNumber == k.seqNumber && k.ackNumber == 0 && p.flags == 0x12 ==>
                    Value() == k.(ackNumber := (p.seqNumber + 1) % SEQS, status := S_ACK))
              && (!open || p.ackNumber != k.seqNumber || (p.seqNumber != k.ackNumber && k.ackNumber != 0) ==> Value() == k)
    {
      hide Valid;
      hide Value;
      hide BitAnd;
      UsualFlags();
      Fields();
      kept := false;
      if status == S_OPEN || status == S_WRITE {
        if BitAnd(p.flags, TCP_SYN) != 0 && ackNumber == 0 && seqNumber == p.ackNumber {
          Acknowledge((p.seqNumber + 1) % SEQS);
        } else if BitAnd(p.flags, TCP_FIN) != 0 && seqNumber == p.ackNumber && ackNumber == p.seqNumber {
          Acknowledge((p.seqNumber + 1) % SEQS);
        } else if BitAnd(p.flags, TCP_PSH) != 0 && seqNumber == p.ackNumber && ackNumber == p.seqNumber {
          Acknowledge((ackNumber + |p.payload|) % SEQS);
          QueueIncoming(p.payload);
          kept := true;
        } else if BitAnd(p.flags, TCP_ACK) != 0 && seqNumber == p.ackNumber && ackNumber == p.seqNumber {
          OpenConnection();
        }
      }
    }
  }

  // A frame whose target field was left alone shows what was found there.
  lemma FieldAsFound(i: Interface, arp: map<nat, seq<byte>>, ip: nat, field: seq<byte>, mac: seq<byte>)
    requires i.Ok() && ip < M32 && GoesTo(i, arp, ip, field, mac)
    ensures GoesTo(i, arp, ip, mac, mac)
  {
    hide BitAnd;
  }

  lemma UsualFlags()
    ensures BitAnd(0x12, 0x02) != 0 && BitAnd(0x11, 0x01) != 0 && BitAnd(0x18, 0x08) != 0 && BitAnd(0x10, 0x10) != 0
    ensures BitAnd(0x11, 0x02) == BitAnd(0x18, 0x02) == BitAnd(0x18, 0x01) == BitAnd(0x10, 0x02) == 0
    ensures BitAnd(0x10, 0x01) == BitAnd(0x10, 0x08) == 0
  {
    assert BitAnd(9, 1) == 1;
    FinBits();
    DataBits();
    AckBits();
  }
}
