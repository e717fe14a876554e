/** The TCP client: an application task, the transmit poller and the receive sorter on one
    socket, interleaved statement by statement, against one peer. */
module TcpMachine {
  import opened NetBytes

  const SEQS: nat := 0x1_0000_0000

  datatype Status = S_SYN | S_ACK | S_FIN | S_OPEN | S_WRITE | S_READ | S_NULL

  datatype Kind = Syn | Fin | Data | Ack

  /** A segment handed to the network card. */
  datatype Out = Out(kind: Kind, seqNumber: nat, ackNumber: nat, payload: seq<byte>)

  /** A segment that arrives, with the flags the sorter looks at. */
  datatype Arrival = Arrival(syn: bool, fin: bool, psh: bool, ack: bool, seqNumber: nat, ackNumber: nat,
                             payload: seq<byte>)

  /** The fields of the socket. */
  datatype Sock = Sock(status: Status, connect: Status, seqNumber: nat, ackNumber: nat,
                       incoming: seq<seq<byte>>, outgoing: seq<seq<byte>>)

  /** Where the application is: before kconnect; between its two status writes; in its wait
      loop; between calls; in kwrite before its status write; in kclose's wait loop; and
      after that loop, before the status write. */
  datatype App = Fresh | Arming | Connecting | Ready | Writing | Closing | Finishing

  /** Where the poller is: at one of its tests; about to open the status; about to build; at
      the pop; about to advance the sequence number; about to send; in the test of the
      connect status; about to write it; stuck, after a pop from an empty queue. */
  datatype Tx = TestSyn | TestFin | TestWrite | TestAck
              | Opening(kind: Kind) | Building(kind: Kind, payload: seq<byte>) | Popping
              | Built(out: Out) | Counted(out: Out) | TestConnect | Confirming | Faulted

  /** Where the sorter is with a segment: between segments; at its tests; after it has moved
      the acknowledgement number; after the status write of a data segment; about to write
      the connect status. */
  datatype Rx = Idle | Sorting(p: Arrival) | TestSynAck(p: Arrival) | TestFinAck(p: Arrival) | TestData(p: Arrival)
              | TestAckOnly(p: Arrival) | Moved(p: Arrival, queues: bool) | Queueing(p: Arrival) | Accepting

  /** The socket, the three tasks, and what happened so far: segments sent, messages given to
      kwrite, bytes returned by kread, whether the peer's SYN and FIN were taken. */
  datatype State = State(sock: Sock, app: App, tx: Tx, rx: Rx, wire: seq<Out>, written: seq<seq<byte>>,
                         read: seq<byte>, synTaken: bool, finTaken: bool)

  /** The peer: its initial sequence number and the bytes it sends. */
  datatype Peer = Peer(isn: nat, stream: seq<byte>) {
    /** Its sequence numbers do not wrap through zero. */
    predicate Ok() {
      isn + |stream| + 2 < SEQS
    }

    /** What the peer may send, in any order and any number of times, with any
        acknowledgement number; FIN carries no data. */
    predicate Sends(p: Arrival) {
      if p.syn then
        p.seqNumber == isn && p.payload == [] && !p.fin && !p.psh
      else
        && isn + 1 <= p.seqNumber <= isn + |stream| + 2
        && var off := p.seqNumber - isn - 1;
        && (p.fin ==> off == |stream| && p.payload == [] && !p.psh)
        && (p.payload != [] ==> off + |p.payload| <= |stream| && p.payload == stream[off..off + |p.payload|])
    }
  }

  // ---------------------------------------------------------------------------------
  // Steps
  // ---------------------------------------------------------------------------------

  datatype Op = Connect | Arm | Connected | Write(message: seq<byte>) | MarkWrite | Read | Close | SeeOpen | Finish
              | TxStep | Arrive(p: Arrival) | RxStep

  predicate Enabled(peer: Peer, s: State, op: Op) {
    match op
    case Connect => s.app == Fresh
    case Arm => s.app == Arming
    case Connected => s.app == Connecting && s.sock.connect == S_OPEN
    case Write(m) => s.app == Ready
    case MarkWrite => s.app == Writing
    case Read => s.app == Ready && s.sock.incoming != []
    case Close => s.app == Ready
    case SeeOpen => s.app == Closing && s.sock.status == S_OPEN
    case Finish => s.app == Finishing
    case TxStep => true
    case Arrive(p) => s.rx.Idle? && s.wire != [] && peer.Sends(p)
    case RxStep => !s.rx.Idle?
  }

  function Step(s: State, op: Op): State
    requires op.Read? ==> s.sock.incoming != []
  {
    match op
    case Connect => s.(app := Arming, sock := s.sock.(seqNumber := 0, ackNumber := 0, status := S_SYN))
    case Arm => s.(app := Connecting, sock := s.sock.(connect := S_SYN))
    case Connected => s.(app := Ready)
    case Write(m) => s.(app := Writing, sock := s.sock.(outgoing := s.sock.outgoing + [m]), written := s.written + [m])
    case MarkWrite => s.(app := Ready, sock := s.sock.(status := S_WRITE))
    case Read => s.(sock := s.sock.(incoming := s.sock.incoming[1..]), read := s.read + s.sock.incoming[0])
    case Close => s.(app := Closing)
    case SeeOpen => s.(app := Finishing)
    case Finish => s.(app := Ready, sock := s.sock.(status := S_FIN))
    case TxStep => Transmit(s)
    case Arrive(p) => s.(rx := Sorting(p))
    case RxStep => Receive(s)
  }

  /** One statement of networking_tx_poll. */
  function Transmit(s: State): State {
    match s.tx
    case TestSyn => s.(tx := if s.sock.status == S_SYN then Opening(Syn) else TestFin)
    case TestFin => s.(tx := if s.sock.status == S_FIN then Opening(Fin) else TestWrite)
    case TestWrite => s.(tx := if s.sock.status == S_WRITE && s.sock.outgoing != [] then Popping else TestAck)
    case TestAck => s.(tx := if s.sock.status == S_ACK then Opening(Ack) else TestSyn)
    case Opening(k) => s.(sock := s.sock.(status := S_OPEN), tx := Building(k, []))
    case Popping =>
      if s.sock.outgoing == [] then s.(tx := Faulted)
      else s.(sock := s.sock.(outgoing := s.sock.outgoing[1..]), tx := Building(Data, s.sock.outgoing[0]))
    case Building(k, m) => s.(tx := Built(Out(k, s.sock.seqNumber, s.sock.ackNumber, m)))
    case Built(out) => s.(sock := s.sock.(seqNumber := (s.sock.seqNumber + Size(out)) % SEQS), tx := Counted(out))
    case Counted(out) => s.(wire := s.wire + [out], tx := if out.kind == Ack then TestConnect else TestSyn)
    case TestConnect => s.(tx := if s.sock.connect == S_SYN then Confirming else TestSyn)
    case Confirming => s.(sock := s.sock.(connect := S_OPEN), tx := TestSyn)
    case Faulted => s
  }

  /** What a segment adds to the sequence number. */
  function Size(out: Out): nat {
    match out.kind
    case Syn => 1
    case Fin => 1
    case Data => |out.payload|
    case Ack => 0
  }

  /** One statement of networking_rx_sort. */
  function Receive(s: State): State {
    match s.rx
    case Idle => s
    case Sorting(p) => s.(rx := if s.sock.status == S_OPEN || s.sock.status == S_WRITE then TestSynAck(p) else Idle)
    case TestSynAck(p) =>
      if p.syn && s.sock.ackNumber == 0 && s.sock.seqNumber == p.ackNumber then
        s.(sock := s.sock.(ackNumber := (p.seqNumber + 1) % SEQS), rx := Moved(p, false), synTaken := true)
      else s.(rx := TestFinAck(p))
    case TestFinAck(p) =>
      if p.fin && InOrder(s, p) then
        s.(sock := s.sock.(ackNumber := (p.seqNumber + 1) % SEQS), rx := Moved(p, false), finTaken := true)
      else s.(rx := TestData(p))
    case TestData(p) =>
      if p.psh && InOrder(s, p) then
        s.(sock := s.sock.(ackNumber := (s.sock.ackNumber + |p.payload|) % SEQS), rx := Moved(p, true))
      else s.(rx := TestAckOnly(p))
    case TestAckOnly(p) => s.(rx := if p.ack && InOrder(s, p) then Accepting else Idle)
    case Moved(p, queues) => s.(sock := s.sock.(status := S_ACK), rx := if queues then Queueing(p) else Idle)
    case Queueing(p) => s.(sock := s.sock.(incoming := s.sock.incoming + [p.payload]), rx := Idle)
    case Accepting => s.(sock := s.sock.(connect := S_OPEN), rx := Idle)
  }

  predicate InOrder(s: State, p: Arrival) {
    s.sock.seqNumber == p.ackNumber && s.sock.ackNumber == p.seqNumber
  }

  /** After ksocket. */
  predicate Init(s: State) {
    s == State(Sock(S_NULL, S_NULL, 0, 0, [], []), Fresh, TestSyn, Idle, [], [], [], false, false)
  }

  // ---------------------------------------------------------------------------------
  // Before and during the handshake
  // ---------------------------------------------------------------------------------

  predicate Testing(tx: Tx) {
    tx.TestSyn? || tx.TestFin? || tx.TestWrite? || tx.TestAck?
  }

  const FIRST := Out(Syn, 0, 0, [])

  /** Nothing of the peer has been taken and no message has been written. */
  predicate Quiet(s: State) {
    && s.sock.ackNumber == 0 && s.sock.incoming == [] && s.sock.outgoing == []
    && s.written == [] && s.read == [] && !s.synTaken && !s.finTaken
    && (s.sock.connect == S_NULL || s.sock.connect == S_SYN)
  }

  predicate Unconnected(s: State) {
    && s.app.Fresh? && s.wire == [] && s.rx.Idle? && Quiet(s)
    && Testing(s.tx) && s.sock.status == S_NULL && s.sock.seqNumber == 0
  }

  predicate BeforeSyn(s: State) {
    && (s.app.Arming? || s.app.Connecting?) && s.wire == [] && s.rx.Idle? && Quiet(s)
    && (if s.sock.status == S_SYN then (Testing(s.tx) || s.tx == Opening(Syn)) && s.sock.seqNumber == 0
        else s.sock.status == S_OPEN &&
             if s.sock.seqNumber == 0 then s.tx == Building(Syn, []) || s.tx == Built(FIRST)
             else s.sock.seqNumber == 1 && s.tx == Counted(FIRST))
  }

  /** The segment being sorted comes from the peer. */
  predicate FromPeer(peer: Peer, rx: Rx) {
    match rx
    case Sorting(p) => peer.Sends(p)
    case TestSynAck(p) => peer.Sends(p)
    case TestFinAck(p) => peer.Sends(p)
    case TestData(p) => peer.Sends(p)
    case TestAckOnly(p) => peer.Sends(p)
    case _ => true
  }

  /** The SYN is out, its answer is not taken yet. */
  predicate Handshake(s: State) {
    && (s.app.Arming? || s.app.Connecting?) && s.wire == [FIRST] && Quiet(s)
    && Testing(s.tx) && s.sock.status == S_OPEN && s.sock.seqNumber == 1
    && !s.rx.Moved? && !s.rx.Queueing? && !s.rx.Accepting?
    && (match s.rx
        case TestFinAck(p) => p.syn ==> p.ackNumber != 1
        case TestData(p) => p.syn ==> p.ackNumber != 1
        case TestAckOnly(p) => p.syn ==> p.ackNumber != 1
        case _ => true)
  }

  // ---------------------------------------------------------------------------------
  // What was sent
  // ---------------------------------------------------------------------------------

  /** The messages in the data segments. */
  function Payloads(w: seq<Out>): seq<seq<byte>> {
    if w == [] then [] else Payloads(w[..|w| - 1]) + Carried(w[|w| - 1])
  }

  function Carried(out: Out): seq<seq<byte>> {
    if out.kind == Data then [out.payload] else []
  }

  /** Sequence numbers used up by segments. */
  function Consumed(w: seq<Out>): nat {
    if w == [] then 0 else Consumed(w[..|w| - 1]) + Size(w[|w| - 1])
  }

  /** Each segment carries the number of what was sent before it. */
  predicate Numbered(w: seq<Out>) {
    forall i :: 0 <= i < |w| ==> w[i].seqNumber == Consumed(w[..i]) % SEQS
  }

  predicate OneSyn(w: seq<Out>) {
    w != [] && w[0].kind == Syn && forall i :: 0 < i < |w| ==> w[i].kind != Syn
  }

  /** The message the poller has popped and not sent yet. */
  function InHand(tx: Tx): seq<seq<byte>> {
    match tx
    case Building(k, m) => if k == Data then [m] else []
    case Built(out) => Carried(out)
    case Counted(out) => Carried(out)
    case _ => []
  }

  predicate TxOk(s: State) {
    match s.tx
    case Opening(k) => k != Syn && k != Data
    case Building(k, m) => k != Syn
    case Popping => s.sock.outgoing != []
    case Built(out) => out.kind != Syn && out.seqNumber == s.sock.seqNumber
    case Counted(out) => out.kind != Syn && out.seqNumber == Consumed(s.wire) % SEQS
    case Faulted => false
    case _ => true
  }

  /** The messages given to kwrite are those sent, the one in hand, and those queued. */
  predicate SendInv(s: State) {
    && s.written == Payloads(s.wire) + InHand(s.tx) + s.sock.outgoing
    && Numbered(s.wire) && OneSyn(s.wire) && TxOk(s) && s.sock.status != S_SYN
    && s.sock.seqNumber == (Consumed(s.wire) + if s.tx.Counted? then Size(s.tx.out) else 0) % SEQS
  }

  // ---------------------------------------------------------------------------------
  // What was received
  // ---------------------------------------------------------------------------------

  function Flat(q: seq<seq<byte>>): seq<byte> {
    if q == [] then [] else Flat(q[..|q| - 1]) + q[|q| - 1]
  }

  /** The data of a segment that is acknowledged and not queued yet. */
  function Accepted(rx: Rx): seq<byte> {
    match rx
    case Moved(p, queues) => if queues then p.payload else []
    case Queueing(p) => p.payload
    case _ => []
  }

  function Taken(s: State): seq<byte> {
    s.read + Flat(s.sock.incoming) + Accepted(s.rx)
  }

  /** The bytes taken are the first ones of the peer's stream, and the acknowledgement number
      counts them, its SYN and its FIN. */
  predicate ReceiveInv(peer: Peer, s: State) {
    && Taken(s) <= peer.stream
    && s.sock.ackNumber == peer.isn + 1 + |Taken(s)| + (if s.finTaken then 1 else 0)
    && (s.finTaken ==> Taken(s) == peer.stream)
    && FromPeer(peer, s.rx)
  }

  predicate Established(peer: Peer, s: State) {
    && s.synTaken && !s.app.Fresh? && SendInv(s) && ReceiveInv(peer, s)
  }

  predicate Inv(peer: Peer, s: State) {
    || Unconnected(s)
    || BeforeSyn(s)
    || (Handshake(s) && FromPeer(peer, s.rx))
    || Established(peer, s)
  }

  // ---------------------------------------------------------------------------------
  // Every step keeps the invariant
  // ---------------------------------------------------------------------------------

  lemma UnconnectedStep(peer: Peer, s: State, op: Op)
    requires Unconnected(s) && Enabled(peer, s, op)
    ensures Inv(peer, Step(s, op))
  {
  }

  lemma BeforeSynStep(peer: Peer, s: State, op: Op)
    requires BeforeSyn(s) && Enabled(peer, s, op)
    ensures Inv(peer, Step(s, op))
  {
    hide Established;
    hide Unconnected;
  }

  lemma HandshakeStep(peer: Peer, s: State, op: Op)
    requires peer.Ok() && Handshake(s) && FromPeer(peer, s.rx) && Enabled(peer, s, op)
    ensures Inv(peer, Step(s, op))
  {
    hide SendInv;
    hide ReceiveInv;
    hide Unconnected;
    hide BeforeSyn;
    if op.RxStep? && s.rx.TestSynAck? && Step(s, op).rx.Moved? {
      SynAnswered(peer, s, op);
    }
  }

  lemma SynAnswered(peer: Peer, s: State, op: Op)
    requires peer.Ok() && Handshake(s) && FromPeer(peer, s.rx)
    requires op.RxStep? && s.rx.TestSynAck? && Step(s, op).rx.Moved?
    ensures Established(peer, Step(s, op))
  {
    assert [FIRST][..0] == [];
    assert Step(s, op).sock.incoming == [] && Taken(Step(s, op)) == [];
  }

  // The peer's segments do not concern what was sent, and the other way round.
  predicate SameSending(s: State, s': State) {
    && s'.sock.seqNumber == s.sock.seqNumber && s'.sock.outgoing == s.sock.outgoing
    && s'.tx == s.tx && s'.wire == s.wire && s'.written == s.written
    && (s'.sock.status == s.sock.status || s'.sock.status != S_SYN)
  }

  predicate SameReceiving(s: State, s': State) {
    && s'.sock.ackNumber == s.sock.ackNumber && s'.sock.incoming == s.sock.incoming
    && s'.rx == s.rx && s'.read == s.read && s'.finTaken == s.finTaken
  }

  lemma SendingFrame(s: State, s': State)
    requires SendInv(s) && SameSending(s, s')
    ensures SendInv(s')
  {
  }

  lemma TransmitStep(s: State)
    requires SendInv(s)
    ensures SendInv(Transmit(s)) && SameReceiving(s, Transmit(s))
    ensures Transmit(s).synTaken == s.synTaken && Transmit(s).app == s.app
  {
    hide SendInv;
    if s.tx.Counted? {
      SegmentSent(s);
    } else if s.tx.Built? {
      SegmentCounted(s);
    } else {
      OtherTransmit(s);
    }
  }

  lemma SegmentSent(s: State)
    requires SendInv(s) && s.tx.Counted?
    ensures SendInv(Transmit(s))
  {
    var s' := Transmit(s);
    assert s' == s.(wire := s.wire + [s.tx.out], tx := s'.tx) && InHand(s'.tx) == [] && TxOk(s');
    hide Transmit;
    hide Carried;
    assert s'.wire[..|s'.wire| - 1] == s.wire;
    NumberedMore(s.wire, s.tx.out);
    assert Payloads(s'.wire) == Payloads(s.wire) + Carried(s.tx.out);
    assert InHand(s.tx) == Carried(s.tx.out) && InHand(s'.tx) == [];
    assert Payloads(s.wire) + Carried(s.tx.out) + [] + s.sock.outgoing ==
           Payloads(s.wire) + Carried(s.tx.out) + s.sock.outgoing;
    assert s'.written == Payloads(s'.wire) + InHand(s'.tx) + s'.sock.outgoing;
    hide Payloads;
    hide Numbered;
  }

  lemma NumberedMore(w: seq<Out>, out: Out)
    requires Numbered(w) && out.seqNumber == Consumed(w) % SEQS
    ensures Numbered(w + [out])
  {
    var w' := w + [out];
    forall i | 0 <= i < |w'|
      ensures w'[i].seqNumber == Consumed(w'[..i]) % SEQS
    {
      if i < |w| {
        assert w'[..i] == w[..i];
      } else {
        assert w'[..i] == w;
      }
    }
  }

  lemma SegmentCounted(s: State)
    requires SendInv(s) && s.tx.Built?
    ensures SendInv(Transmit(s))
  {
    hide Payloads;
    hide Numbered;
    hide Consumed;
    hide OneSyn;
    hide Carried;
    hide Size;
    WrapTwice(Consumed(s.wire), Size(s.tx.out));
    assert Consumed(s.wire) + 0 == Consumed(s.wire);
  }

  lemma OtherTransmit(s: State)
    requires SendInv(s) && !s.tx.Counted? && !s.tx.Built?
    ensures SendInv(Transmit(s)) && SameReceiving(s, Transmit(s))
  {
    hide Payloads;
    hide Numbered;
    hide Consumed;
    hide OneSyn;
    var p := Payloads(s.wire);
    if s.tx.Popping? {
      assert s.sock.outgoing == [s.sock.outgoing[0]] + s.sock.outgoing[1..];
      assert p + [s.sock.outgoing[0]] + s.sock.outgoing[1..] == p + s.sock.outgoing == p + [] + s.sock.outgoing;
    }
  }

  lemma WrapTwice(x: nat, y: nat)
    ensures (x % SEQS + y) % SEQS == (x + y) % SEQS
  {
  }

  lemma {:induction false} FlatFirst(q: seq<seq<byte>>)
    requires q != []
    ensures Flat(q) == q[0] + Flat(q[1..])
  {
    if |q| == 1 {
      assert q[..0] == [] && q[1..] == [];
    } else {
      FlatFirst(q[..|q| - 1]);
      assert q[..|q| - 1][1..] == q[1..][..|q| - 2];
    }
  }

  lemma ReceiveKeepsSending(s: State)
    requires s.synTaken
    ensures Receive(s).synTaken && SameSending(s, Receive(s)) && Receive(s).app == s.app
  {
  }

  // What is acknowledged is queued, or was queued.
  lemma SegmentQueued(peer: Peer, s: State)
    requires ReceiveInv(peer, s) && (s.rx.Queueing? || s.rx.Moved?)
    ensures ReceiveInv(peer, Receive(s))
  {
    var s' := Receive(s);
    assert Taken(s') == Taken(s) by {
      if s.rx.Queueing? {
        assert s'.sock.incoming[..|s'.sock.incoming| - 1] == s.sock.incoming;
        FlatLast(s.sock.incoming, s.rx.p.payload);
        hide Flat;
      }
    }
    hide Taken;
  }

  lemma FlatLast(q: seq<seq<byte>>, m: seq<byte>)
    ensures Flat(q + [m]) == Flat(q) + m
  {
    assert (q + [m])[..|q|] == q;
  }

  // A test that fails, or the end of a segment without data.
  lemma NothingTaken(peer: Peer, s: State)
    requires peer.Ok() && ReceiveInv(peer, s) && s.synTaken
    requires !s.rx.Queueing? && !s.rx.Moved? && !Receive(s).rx.Moved?
    ensures ReceiveInv(peer, Receive(s))
  {
    hide Flat;
    assert Taken(Receive(s)) == Taken(s);
    hide Taken;
  }

  /** Receiving moves the taken bytes on, in the order of the stream. */
  lemma ReceiveStep(peer: Peer, s: State)
    requires peer.Ok() && ReceiveInv(peer, s) && s.synTaken
    ensures ReceiveInv(peer, Receive(s)) && Receive(s).synTaken && SameSending(s, Receive(s))
    ensures Receive(s).app == s.app
  {
    hide ReceiveInv;
    ReceiveKeepsSending(s);
    if s.rx.Queueing? || s.rx.Moved? {
      SegmentQueued(peer, s);
    } else if Receive(s).rx.Moved? {
      SegmentTaken(peer, s);
    } else {
      NothingTaken(peer, s);
    }
  }

  lemma PrefixGrows(stream: seq<byte>, a: seq<byte>, b: seq<byte>)
    requires a <= stream && |a| + |b| <= |stream| && b == stream[|a|..|a| + |b|]
    ensures a + b <= stream
  {
  }

  lemma SegmentTaken(peer: Peer, s: State)
    requires peer.Ok() && ReceiveInv(peer, s) && s.synTaken && !s.rx.Moved? && Receive(s).rx.Moved?
    ensures ReceiveInv(peer, Receive(s))
  {
    var p := s.rx.p;
    var s' := Receive(s);
    assert s.sock.ackNumber > 0 && s.sock.ackNumber == p.seqNumber;
    var taken := s.read + Flat(s.sock.incoming);
    assert taken + [] == taken;
    assert Taken(s) == taken && Taken(s') == taken + if s.rx.TestData? then p.payload else [];
    hide Flat;
    hide Receive;
    hide Taken;
    assert !p.syn ==> p.seqNumber - peer.isn - 1 == |taken| + if s.finTaken then 1 else 0;
    if s.rx.TestData? && p.payload != [] {
      PrefixGrows(peer.stream, taken, p.payload);
    }
  }

  lemma AppStep(peer: Peer, s: State, op: Op)
    requires Established(peer, s) && Enabled(peer, s, op) && !op.TxStep? && !op.RxStep?
    ensures Established(peer, Step(s, op))
  {
    hide Payloads;
    hide Numbered;
    hide Consumed;
    hide OneSyn;
    hide Flat;
    if op.Read? {
      FlatFirst(s.sock.incoming);
      assert Taken(Step(s, op)) == Taken(s);
    } else {
      assert Taken(Step(s, op)) == Taken(s);
    }
  }

  lemma EstablishedStep(peer: Peer, s: State, op: Op)
    requires peer.Ok() && Established(peer, s) && Enabled(peer, s, op)
    ensures Established(peer, Step(s, op))
  {
    if op.TxStep? {
      TransmitStep(s);
    } else if op.RxStep? {
      ReceiveStep(peer, s);
      SendingFrame(s, Step(s, op));
    } else {
      AppStep(peer, s, op);
    }
  }

  /** Every statement of every task keeps the invariant. */
  lemma StepKeepsInv(peer: Peer, s: State, op: Op)
    requires peer.Ok() && Inv(peer, s) && Enabled(peer, s, op)
    ensures Inv(peer, Step(s, op))
  {
    hide Unconnected;
    hide BeforeSyn;
    hide Handshake;
    hide Established;
    if Unconnected(s) {
      UnconnectedStep(peer, s, op);
    } else if BeforeSyn(s) {
      BeforeSynStep(peer, s, op);
    } else if Handshake(s) && FromPeer(peer, s.rx) {
      HandshakeStep(peer, s, op);
    } else {
      EstablishedStep(peer, s, op);
    }
  }

  // ---------------------------------------------------------------------------------
  // Runs
  // ---------------------------------------------------------------------------------

  predicate Run(peer: Peer, s: State, ops: seq<Op>)
    decreases |ops|
  {
    ops == [] || (Enabled(peer, s, ops[0]) && Run(peer, Step(s, ops[0]), ops[1..]))
  }

  function After(peer: Peer, s: State, ops: seq<Op>): State
    requires Run(peer, s, ops)
    decreases |ops|
  {
    if ops == [] then s else After(peer, Step(s, ops[0]), ops[1..])
  }

  lemma {:induction false} EveryRunKeepsInv(peer: Peer, s: State, ops: seq<Op>)
    requires peer.Ok() && Inv(peer, s) && Run(peer, s, ops)
    ensures Inv(peer, After(peer, s, ops))
    decreases |ops|
  {
    if ops != [] {
      StepKeepsInv(peer, s, ops[0]);
      EveryRunKeepsInv(peer, Step(s, ops[0]), ops[1..]);
    }
  }

  /** Whatever the network loses, repeats or reorders: the bytes kread has returned, then
      those it will return next, are the beginning of the peer's stream; between segments
      the acknowledgement number counts exactly these bytes, the SYN and the FIN. */
  lemma ReceiveSafety(peer: Peer, s: State, ops: seq<Op>)
    requires peer.Ok() && Init(s) && Run(peer, s, ops)
    ensures var e := After(peer, s, ops); var bytes := e.read + Flat(e.sock.incoming);
            && bytes <= peer.stream
            && (e.synTaken && e.rx.Idle? ==>
                  e.sock.ackNumber == peer.isn + 1 + |bytes| + if e.finTaken then 1 else 0)
            && (e.finTaken && e.rx.Idle? ==> bytes == peer.stream)
            && (!e.synTaken ==> e.sock.ackNumber == 0 && bytes == [])
  {
    EveryRunKeepsInv(peer, s, ops);
    var e := After(peer, s, ops);
    var bytes := e.read + Flat(e.sock.incoming);
    hide SendInv;
    assert bytes <= Taken(e);
    if e.rx.Idle? {
      assert Taken(e) == bytes;
    }
  }

  function Syns(w: seq<Out>): nat {
    if w == [] then 0 else Syns(w[..|w| - 1]) + if w[|w| - 1].kind == Syn then 1 else 0
  }

  function Fins(w: seq<Out>): nat {
    if w == [] then 0 else Fins(w[..|w| - 1]) + if w[|w| - 1].kind == Fin then 1 else 0
  }

  /** How many sequence numbers the SYNs, bytes and FINs of some segments take. */
  function Counts(w: seq<Out>): nat {
    Syns(w) + |Flat(Payloads(w))| + Fins(w)
  }

  lemma {:induction false} ConsumedIs(w: seq<Out>)
    ensures Consumed(w) == Counts(w)
  {
    if w != [] {
      var r, out := w[..|w| - 1], w[|w| - 1];
      ConsumedIs(r);
      if out.kind == Data {
        assert Payloads(w)[..|Payloads(w)| - 1] == Payloads(r);
      } else {
        assert Payloads(w) == Payloads(r);
      }
    }
  }

  lemma {:induction false} OnlyOneSyn(w: seq<Out>)
    requires OneSyn(w)
    ensures Syns(w) == 1
  {
    if |w| == 1 {
      assert w[..0] == [];
    } else {
      OnlyOneSyn(w[..|w| - 1]);
    }
  }

  /** The poller never pops from an empty queue; the messages sent, then the one in its hand,
      then those queued are those given to kwrite; every segment carries the number of SYNs,
      bytes and FINs sent before it, and the socket's number counts all that were sent. */
  lemma SendAccounting(peer: Peer, s: State, ops: seq<Op>)
    requires peer.Ok() && Init(s) && Run(peer, s, ops)
    ensures var e := After(peer, s, ops);
            && !e.tx.Faulted?
            && e.written == Payloads(e.wire) + InHand(e.tx) + e.sock.outgoing
            && (forall i :: 0 <= i < |e.wire| ==> e.wire[i].seqNumber == Counts(e.wire[..i]) % SEQS)
            && (!e.tx.Counted? ==> e.sock.seqNumber == Counts(e.wire) % SEQS)
  {
    EveryRunKeepsInv(peer, s, ops);
    var e := After(peer, s, ops);
    SendFacts(peer, e);
    hide Inv;
    hide Counts;
    hide Payloads;
    forall i | 0 <= i < |e.wire|
      ensures e.wire[i].seqNumber == Counts(e.wire[..i]) % SEQS
    {
      ConsumedIs(e.wire[..i]);
    }
    ConsumedIs(e.wire);
  }

  lemma SendFacts(peer: Peer, e: State)
    requires Inv(peer, e)
    ensures !e.tx.Faulted? && e.written == Payloads(e.wire) + InHand(e.tx) + e.sock.outgoing && Numbered(e.wire)
    ensures !e.tx.Counted? ==> e.sock.seqNumber == Consumed(e.wire) % SEQS
  {
    hide ReceiveInv;
    if Handshake(e) {
      assert e.wire[..0] == [];
    }
  }

  /** kconnect can return success only when exactly one SYN was sent and the peer's answer
      to it was taken, however the three tasks interleave. */
  lemma ConnectedMeansHandshake(peer: Peer, s: State, ops: seq<Op>)
    requires peer.Ok() && Init(s) && Run(peer, s, ops)
    ensures var e := After(peer, s, ops);
            Enabled(peer, e, Connected) ==> e.synTaken && Syns(e.wire) == 1 && e.wire[0].kind == Syn
  {
    EveryRunKeepsInv(peer, s, ops);
    var e := After(peer, s, ops);
    hide ReceiveInv;
    if Established(peer, e) {
      OnlyOneSyn(e.wire);
    }
  }
}
