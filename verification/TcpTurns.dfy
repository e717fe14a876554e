/** What a whole turn of the poller or the sorter does to a socket when no other task runs
    in between: the form in which the code's functions are specified. */
module TcpTurns {
  import opened NetBytes
  import opened TcpMachine

  /** The segment a turn of the poller sends, if any. */
  function Polled(k: Sock): seq<Out> {
    if k.status == S_SYN then [Out(Syn, k.seqNumber, k.ackNumber, [])]
    else if k.status == S_FIN then [Out(Fin, k.seqNumber, k.ackNumber, [])]
    else if k.status == S_WRITE && k.outgoing != [] then [Out(Data, k.seqNumber, k.ackNumber, k.outgoing[0])]
    else if k.status == S_ACK then [Out(Ack, k.seqNumber, k.ackNumber, [])]
    else []
  }

  function AfterPoll(k: Sock): Sock {
    if Polled(k) == [] then k
    else
      var out := Polled(k)[0];
      k.(status := if out.kind == Data then S_WRITE else S_OPEN,
         seqNumber := (k.seqNumber + Size(out)) % SEQS,
         outgoing := if out.kind == Data then k.outgoing[1..] else k.outgoing,
         connect := if out.kind == Ack && k.connect == S_SYN then S_OPEN else k.connect)
  }

  /** Does the sorter keep the segment's data, and does it keep the segment at all? */
  predicate Relevant(k: Sock, p: Arrival) {
    && (k.status == S_OPEN || k.status == S_WRITE) && k.seqNumber == p.ackNumber
    && ((p.syn && k.ackNumber == 0) || ((p.fin || p.psh || p.ack) && k.ackNumber == p.seqNumber))
  }

  function AfterSort(k: Sock, p: Arrival): Sock {
    if !Relevant(k, p) then k
    else if p.syn && k.ackNumber == 0 then k.(ackNumber := (p.seqNumber + 1) % SEQS, status := S_ACK)
    else if p.fin then k.(ackNumber := (p.seqNumber + 1) % SEQS, status := S_ACK)
    else if p.psh then k.(ackNumber := (k.ackNumber + |p.payload|) % SEQS, status := S_ACK,
                          incoming := k.incoming + [p.payload])
    else k.(connect := S_OPEN)
  }

  /** How far the poller is from the end of its turn on the socket, at most. */
  function Left(tx: Tx): nat {
    match tx
    case TestSyn => 11
    case TestFin => 10
    case TestWrite => 9
    case TestAck => 8
    case Opening(_) => 7
    case Popping => 7
    case Building(_, _) => 6
    case Built(_) => 5
    case Counted(_) => 4
    case TestConnect => 3
    case Confirming => 2
    case Faulted => 1
  }

  /** The poller's statements up to the end of its turn, without a switch to another task. */
  function PollTurn(s: State): State
    decreases Left(s.tx)
  {
    var s' := Transmit(s);
    if Left(s'.tx) >= Left(s.tx) then s' else PollTurn(s')
  }

  lemma SentTurn(s: State)
    requires s.tx.Counted? && s.tx.out.kind != Ack
    ensures PollTurn(s) == s.(wire := s.wire + [s.tx.out], tx := TestSyn)
  {
  }

  lemma AckSentTurn(s: State)
    requires s.tx.Counted? && s.tx.out.kind == Ack
    ensures PollTurn(s) == s.(wire := s.wire + [s.tx.out], tx := TestSyn,
                              sock := if s.sock.connect == S_SYN then s.sock.(connect := S_OPEN) else s.sock)
  {
    var s1 := Transmit(s);
    assert PollTurn(s) == PollTurn(s1);
    var s2 := Transmit(s1);
    if s.sock.connect == S_SYN {
      assert PollTurn(s1) == PollTurn(s2);
    }
  }

  lemma BuiltTurn(s: State)
    requires s.tx.Building?
    ensures var out := Out(s.tx.kind, s.sock.seqNumber, s.sock.ackNumber, s.tx.payload);
            PollTurn(s) == PollTurn(s.(sock := s.sock.(seqNumber := (s.sock.seqNumber + Size(out)) % SEQS), tx := Counted(out)))
  {
    hide Size;
    var s1 := Transmit(s);
    assert PollTurn(s) == PollTurn(s1);
    var s2 := Transmit(s1);
    assert PollTurn(s1) == PollTurn(s2);
  }

  lemma ChosenTurn(s: State)
    requires s.tx.Opening? || (s.tx.Popping? && s.sock.outgoing != [])
    ensures PollTurn(s) == PollTurn(Transmit(s)) && Transmit(s).tx.Building?
  {
  }

  // The tests a turn passes before it finds the status it acts on.
  lemma TestsTurn(s: State)
    requires s.tx.TestSyn?
    ensures s.sock.status == S_SYN ==> PollTurn(s) == PollTurn(s.(tx := Opening(Syn)))
    ensures s.sock.status != S_SYN ==> PollTurn(s) == PollTurn(s.(tx := TestFin))
  {
  }

  lemma FinTestTurn(s: State)
    requires s.tx.TestFin?
    ensures s.sock.status == S_FIN ==> PollTurn(s) == PollTurn(s.(tx := Opening(Fin)))
    ensures s.sock.status != S_FIN ==> PollTurn(s) == PollTurn(s.(tx := TestWrite))
  {
  }

  lemma WriteTestTurn(s: State)
    requires s.tx.TestWrite?
    ensures s.sock.status == S_WRITE && s.sock.outgoing != [] ==> PollTurn(s) == PollTurn(s.(tx := Popping))
    ensures !(s.sock.status == S_WRITE && s.sock.outgoing != []) ==> PollTurn(s) == PollTurn(s.(tx := TestAck))
  {
  }

  lemma AckTestTurn(s: State)
    requires s.tx.TestAck?
    ensures s.sock.status == S_ACK ==> PollTurn(s) == PollTurn(s.(tx := Opening(Ack)))
    ensures s.sock.status != S_ACK ==> PollTurn(s) == s.(tx := TestSyn)
  {
  }

  /** A turn does what the poller's branches say. */
  lemma PollTurnIs(s: State)
    requires s.tx.TestSyn? && s.sock.seqNumber < SEQS
    ensures PollTurn(s) == s.(sock := AfterPoll(s.sock), wire := s.wire + Polled(s.sock))
  {
    hide PollTurn;
    hide AfterPoll;
    hide Polled;
    TestsTurn(s);
    FinTestTurn(s.(tx := TestFin));
    WriteTestTurn(s.(tx := TestWrite));
    AckTestTurn(s.(tx := TestAck));
    if s.sock.status == S_SYN {
      ControlTurn(s, Syn);
    } else if s.sock.status == S_FIN {
      ControlTurn(s, Fin);
    } else if s.sock.status == S_WRITE && s.sock.outgoing != [] {
      DataTurn(s);
    } else if s.sock.status == S_ACK {
      ControlTurn(s, Ack);
    } else {
      IdleTurn(s);
    }
  }

  lemma ControlTurn(s: State, kind: Kind)
    requires s.tx.TestSyn? && s.sock.seqNumber < SEQS
    requires match kind
             case Syn => s.sock.status == S_SYN
             case Fin => s.sock.status == S_FIN
             case Ack => s.sock.status == S_ACK
             case Data => false
    ensures PollTurn(s.(tx := Opening(kind))) == s.(sock := AfterPoll(s.sock), wire := s.wire + Polled(s.sock))
  {
    OpenedTurn(s.(tx := Opening(kind)));
    hide PollTurn;
    hide Size;
  }

  lemma DataTurn(s: State)
    requires s.tx.TestSyn? && s.sock.status == S_WRITE && s.sock.outgoing != []
    ensures PollTurn(s.(tx := Popping)) == s.(sock := AfterPoll(s.sock), wire := s.wire + Polled(s.sock))
  {
    PoppedTurn(s.(tx := Popping));
    hide PollTurn;
    hide Size;
  }

  lemma IdleTurn(s: State)
    requires s.tx.TestSyn? && s.sock.status != S_SYN && s.sock.status != S_FIN && s.sock.status != S_ACK
    requires !(s.sock.status == S_WRITE && s.sock.outgoing != [])
    ensures s.(tx := TestSyn) == s.(sock := AfterPoll(s.sock), wire := s.wire + Polled(s.sock))
  {
    assert s.wire + [] == s.wire;
  }

  lemma OpenedTurn(s: State)
    requires s.tx.Opening? && s.tx.kind != Data && s.sock.seqNumber < SEQS
    ensures var k, out := s.sock, Out(s.tx.kind, s.sock.seqNumber, s.sock.ackNumber, []);
            PollTurn(s) == s.(tx := TestSyn, wire := s.wire + [out],
                              sock := k.(status := S_OPEN, seqNumber := (k.seqNumber + Size(out)) % SEQS,
                                         connect := if out.kind == Ack && k.connect == S_SYN then S_OPEN else k.connect))
  {
    hide PollTurn;
    hide Size;
    ChosenTurn(s);
    BuiltTurn(Transmit(s));
    var k, out := s.sock, Out(s.tx.kind, s.sock.seqNumber, s.sock.ackNumber, []);
    var t := s.(tx := Counted(out), sock := k.(status := S_OPEN, seqNumber := (k.seqNumber + Size(out)) % SEQS));
    assert PollTurn(s) == PollTurn(t);
    if out.kind == Ack {
      AckSentTurn(t);
    } else {
      SentTurn(t);
    }
  }

  lemma PoppedTurn(s: State)
    requires s.tx.Popping? && s.sock.outgoing != []
    ensures var k, out := s.sock, Out(Data, s.sock.seqNumber, s.sock.ackNumber, s.sock.outgoing[0]);
            PollTurn(s) == s.(tx := TestSyn, wire := s.wire + [out],
                              sock := k.(outgoing := k.outgoing[1..], seqNumber := (k.seqNumber + Size(out)) % SEQS))
  {
    hide PollTurn;
    hide Size;
    ChosenTurn(s);
    BuiltTurn(Transmit(s));
    var k, out := s.sock, Out(Data, s.sock.seqNumber, s.sock.ackNumber, s.sock.outgoing[0]);
    var t := s.(tx := Counted(out), sock := k.(outgoing := k.outgoing[1..], seqNumber := (k.seqNumber + Size(out)) % SEQS));
    assert PollTurn(s) == PollTurn(t);
    SentTurn(t);
  }

  /** How far the sorter is from the end of a segment, at most. */
  function Open(rx: Rx): nat {
    match rx
    case Idle => 0
    case Sorting(_) => 8
    case TestSynAck(_) => 7
    case TestFinAck(_) => 6
    case TestData(_) => 5
    case TestAckOnly(_) => 4
    case Moved(_, _) => 3
    case Queueing(_) => 2
    case Accepting => 1
  }

  /** The sorter's statements for one segment, without a switch to another task. */
  function SortTurn(s: State): State
    decreases Open(s.rx)
  {
    if s.rx.Idle? then s else SortTurn(Receive(s))
  }

  lemma MovedTurn(s: State)
    requires s.rx.Moved?
    ensures SortTurn(s) == s.(rx := Idle, sock := s.sock.(status := S_ACK,
                              incoming := if s.rx.queues then s.sock.incoming + [s.rx.p.payload] else s.sock.incoming))
  {
    var s1 := Receive(s);
    assert SortTurn(s) == SortTurn(s1);
    if s.rx.queues {
      assert SortTurn(s1) == SortTurn(Receive(s1));
    }
  }

  lemma SortTestsTurn(s: State)
    requires !s.rx.Idle?
    ensures SortTurn(s) == SortTurn(Receive(s))
  {
  }

  /** A turn does what the sorter's branches say. */
  lemma SortTurnIs(s: State, p: Arrival)
    requires s.rx == Sorting(p)
    ensures SortTurn(s).sock == AfterSort(s.sock, p) && SortTurn(s).rx.Idle?
    ensures SortTurn(s).tx == s.tx && SortTurn(s).wire == s.wire
  {
    SortTestsTurn(s);
    var s1 := Receive(s);
    if s1.rx.TestSynAck? {
      hide SortTurn;
      SortTestsTurn(s1);
      var s2 := Receive(s1);
      if s2.rx.Moved? {
        MovedTurn(s2);
      } else {
        LaterTests(s2, p);
      }
    }
  }

  lemma LaterTests(s: State, p: Arrival)
    requires s.rx == TestFinAck(p) && (s.sock.status == S_OPEN || s.sock.status == S_WRITE)
    requires !(p.syn && s.sock.ackNumber == 0 && s.sock.seqNumber == p.ackNumber)
    ensures SortTurn(s).sock == AfterSort(s.sock, p) && SortTurn(s).rx.Idle?
    ensures SortTurn(s).tx == s.tx && SortTurn(s).wire == s.wire
  {
    hide SortTurn;
    var s1 := Receive(s);
    SortTestsTurn(s);
    if s1.rx.Moved? {
      MovedTurn(s1);
    } else {
      SortTestsTurn(s1);
      var s2 := Receive(s1);
      if s2.rx.Moved? {
        MovedTurn(s2);
      } else {
        AckTestTurnOfSort(s2, p);
      }
    }
  }

  lemma AckTestTurnOfSort(s: State, p: Arrival)
    requires s.rx == TestAckOnly(p)
    ensures SortTurn(s) == s.(rx := Idle, sock := if p.ack && InOrder(s, p) then s.sock.(connect := S_OPEN) else s.sock)
  {
    var s1 := Receive(s);
    assert SortTurn(s) == SortTurn(s1);
    if s1.rx.Accepting? {
      assert SortTurn(s1) == SortTurn(Receive(s1));
    }
  }

  // ---------------------------------------------------------------------------------
  // The application's calls
  // ---------------------------------------------------------------------------------

  /** A socket whose handshake is asked for. */
  const CONNECTING := Sock(S_SYN, S_SYN, 0, 0, [], [])

  function AfterWrite(k: Sock, message: seq<byte>): Sock {
    k.(outgoing := k.outgoing + [message], status := S_WRITE)
  }

  function AfterRead(k: Sock): Sock
    requires k.incoming != []
  {
    k.(incoming := k.incoming[1..])
  }

  /** A turn of kclose's wait loop. */
  function AfterClose(k: Sock): Sock {
    if k.status == S_OPEN then k.(status := S_FIN) else k
  }

  /** kconnect's two status writes on a socket that was never connected start the handshake:
      the poller's next turn sends the SYN. */
  lemma ConnectTurnIs(peer: Peer, s: State)
    requires Inv(peer, s) && s.app.Fresh?
    ensures Enabled(peer, s, Connect) && Enabled(peer, Step(s, Connect), Arm)
    ensures Step(Step(s, Connect), Arm) == s.(app := Connecting, sock := CONNECTING)
    ensures Polled(CONNECTING) == [FIRST]
  {
    hide Established;
    hide Handshake;
    hide BeforeSyn;
    FreshIsUnconnected(peer, s);
  }

  lemma FreshIsUnconnected(peer: Peer, s: State)
    requires Inv(peer, s) && s.app.Fresh?
    ensures Unconnected(s)
  {
  }

  /** kwrite, between two other calls. */
  lemma WriteTurnIs(peer: Peer, s: State, message: seq<byte>)
    requires s.app.Ready?
    ensures Enabled(peer, s, Write(message)) && Enabled(peer, Step(s, Write(message)), MarkWrite)
    ensures Step(Step(s, Write(message)), MarkWrite) ==
            s.(sock := AfterWrite(s.sock, message), written := s.written + [message])
  {
  }

  /** kread takes the first message, if there is one. */
  lemma ReadTurnIs(peer: Peer, s: State)
    requires s.app.Ready?
    ensures Enabled(peer, s, Read) <==> s.sock.incoming != []
    ensures s.sock.incoming != [] ==>
              Step(s, Read) == s.(sock := AfterRead(s.sock), read := s.read + s.sock.incoming[0])
  {
  }

  /** kclose's loop ends exactly if the status is open; then the poller's next turn sends a
      FIN that carries the number of all that was sent. */
  lemma CloseTurnIs(peer: Peer, s: State)
    requires Inv(peer, s) && s.app.Closing? && s.tx.TestSyn?
    ensures Enabled(peer, s, SeeOpen) <==> s.sock.status == S_OPEN
    ensures s.sock.status != S_OPEN ==> AfterClose(s.sock) == s.sock
    ensures s.sock.status == S_OPEN ==>
              var e := Step(Step(s, SeeOpen), Finish);
              && Enabled(peer, Step(s, SeeOpen), Finish) && e == s.(app := Ready, sock := AfterClose(s.sock))
              && PollTurn(e).wire == s.wire + [Out(Fin, Consumed(s.wire) % SEQS, s.sock.ackNumber, [])]
              && PollTurn(e).sock.status == S_OPEN
  {
    hide PollTurn;
    hide Handshake;
    hide BeforeSyn;
    hide Unconnected;
    hide ReceiveInv;
    if s.sock.status == S_OPEN {
      ClosingIsEstablished(peer, s);
      PollTurnIs(Step(Step(s, SeeOpen), Finish));
    }
  }

  lemma ClosingIsEstablished(peer: Peer, s: State)
    requires Inv(peer, s) && s.app.Closing?
    ensures Established(peer, s)
  {
  }

  // ---------------------------------------------------------------------------------
  // Turn after turn
  // ---------------------------------------------------------------------------------

  function PollTurns(s: State, n: nat): State
    decreases n
  {
    if n == 0 then s else PollTurns(PollTurn(s), n - 1)
  }

  // A turn that sends a message.
  lemma MessageTurn(s: State)
    requires s.tx.TestSyn? && s.sock.status == S_WRITE && s.sock.seqNumber < SEQS && s.sock.outgoing != []
    ensures var s1 := PollTurn(s);
            && s1.tx.TestSyn? && s1.sock.status == S_WRITE && s1.sock.seqNumber < SEQS
            && s1.sock.outgoing == s.sock.outgoing[1..] && |s1.wire| == |s.wire| + 1 && s1.wire[..|s.wire|] == s.wire
            && Payloads(s1.wire) == Payloads(s.wire) + [s.sock.outgoing[0]]
  {
    hide PollTurn;
    PollTurnIs(s);
    var out := Polled(s.sock)[0];
    assert (s.wire + [out])[..|s.wire|] == s.wire;
  }

  /** Left undisturbed, the poller sends every queued message, one a turn, in order. */
  lemma {:induction false} QueueIsSent(s: State)
    requires s.tx.TestSyn? && s.sock.status == S_WRITE && s.sock.seqNumber < SEQS
    ensures var e := PollTurns(s, |s.sock.outgoing|);
            && e.tx.TestSyn? && e.sock.outgoing == [] && e.sock.status == S_WRITE
            && |e.wire| == |s.wire| + |s.sock.outgoing| && e.wire[..|s.wire|] == s.wire
            && Payloads(e.wire) == Payloads(s.wire) + s.sock.outgoing
    decreases |s.sock.outgoing|
  {
    hide PollTurn;
    hide Payloads;
    if s.sock.outgoing != [] {
      var s1 := PollTurn(s);
      MessageTurn(s);
      QueueIsSent(s1);
      var e := PollTurns(s1, |s1.sock.outgoing|);
      assert e.wire[..|s.wire|] == e.wire[..|s1.wire|][..|s.wire|];
      assert s.sock.outgoing == [s.sock.outgoing[0]] + s.sock.outgoing[1..];
    } else {
      assert Payloads(s.wire) + [] == Payloads(s.wire);
    }
  }
}
