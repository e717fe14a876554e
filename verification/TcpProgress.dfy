/** What undisturbed turns of the sorter and the poller achieve: the handshake comes about,
    segments that arrive in order are taken and acknowledged, and messages are sent. */
module TcpProgress {
  import opened NetBytes
  import opened TcpMachine
  import opened TcpTurns

  // ---------------------------------------------------------------------------------
  // Turns keep the invariant
  // ---------------------------------------------------------------------------------

  lemma {:induction false} PollTurnKeeps(peer: Peer, s: State)
    requires Established(peer, s)
    ensures Established(peer, PollTurn(s)) && SameReceiving(s, PollTurn(s)) && PollTurn(s).app == s.app
    decreases Left(s.tx)
  {
    hide SendInv;
    hide Transmit;
    hide FromPeer;
    TransmitStep(s);
    SameTaken(peer, s, Transmit(s));
    if Left(Transmit(s).tx) < Left(s.tx) {
      hide ReceiveInv;
      PollTurnKeeps(peer, Transmit(s));
    }
  }

  lemma SameTaken(peer: Peer, s: State, s': State)
    requires ReceiveInv(peer, s) && SameReceiving(s, s')
    ensures ReceiveInv(peer, s')
  {
    hide FromPeer;
    assert Taken(s') == Taken(s);
  }

  lemma {:induction false} SortTurnKeeps(peer: Peer, s: State)
    requires peer.Ok() && Established(peer, s)
    ensures Established(peer, SortTurn(s)) && SortTurn(s).rx.Idle? && SameSending(s, SortTurn(s))
    ensures SortTurn(s).app == s.app
    decreases Open(s.rx)
  {
    hide ReceiveInv;
    hide SendInv;
    if !s.rx.Idle? {
      ReceiveStep(peer, s);
      SendingFrame(s, Receive(s));
      SortTurnKeeps(peer, Receive(s));
    }
  }

  // ---------------------------------------------------------------------------------
  // One segment
  // ---------------------------------------------------------------------------------

  /** A segment arrives while nobody else runs; then the poller takes its turn. */
  function Answered(s: State, p: Arrival): State {
    PollTurn(SortTurn(s.(rx := Sorting(p))))
  }

  /** Sorter and poller are at the start of their turns. */
  predicate Rests(s: State) {
    s.rx.Idle? && s.tx.TestSyn?
  }

  lemma Arrives(peer: Peer, s: State, p: Arrival)
    requires peer.Ok() && Established(peer, s) && s.rx.Idle? && peer.Sends(p)
    ensures Enabled(peer, s, Arrive(p)) && Established(peer, s.(rx := Sorting(p)))
  {
    hide Flat;
    var s1 := s.(rx := Sorting(p));
    assert Taken(s1) == Taken(s);
    SendingFrame(s, s1);
  }

  lemma SequenceBounded(peer: Peer, s: State)
    requires Established(peer, s)
    ensures s.sock.seqNumber < SEQS && s.sock.seqNumber == (Consumed(s.wire) + if s.tx.Counted? then Size(s.tx.out) else 0) % SEQS
  {
  }

  // What the two turns amount to.
  lemma AnsweredIs(peer: Peer, s: State, p: Arrival)
    requires peer.Ok() && Established(peer, s) && Rests(s) && peer.Sends(p)
    ensures Enabled(peer, s, Arrive(p)) && Established(peer, Answered(s, p)) && Rests(Answered(s, p))
    ensures var k, e := AfterSort(s.sock, p), Answered(s, p);
            e.sock == AfterPoll(k) && e.wire == s.wire + Polled(k) && e.app == s.app && e.written == s.written
  {
    hide PollTurn;
    hide SortTurn;
    hide ReceiveInv;
    hide SendInv;
    hide AfterSort;
    hide AfterPoll;
    hide Polled;
    hide Enabled;
    var s1 := s.(rx := Sorting(p));
    var s2 := SortTurn(s1);
    Arrives(peer, s, p);
    SortTurnKeeps(peer, s1);
    SortTurnIs(s1, p);
    SequenceBounded(peer, s2);
    PollTurnIs(s2);
    PollTurnKeeps(peer, s2);
  }

  /** Data and FIN that arrive in order while the status is open are taken and acknowledged:
      the data joins the queue of kread, and the poller's turn sends an acknowledgement that
      counts it. */
  lemma InOrderAnswered(peer: Peer, s: State, p: Arrival)
    requires peer.Ok() && Established(peer, s) && Rests(s) && peer.Sends(p) && InOrder(s, p)
    requires !p.syn && (p.psh || p.fin) && (s.sock.status == S_OPEN || s.sock.status == S_WRITE)
    ensures Enabled(peer, s, Arrive(p)) && Established(peer, Answered(s, p)) && Rests(Answered(s, p))
    ensures var e := Answered(s, p);
            && e.sock.status == S_OPEN && e.sock.seqNumber == s.sock.seqNumber && e.sock.outgoing == s.sock.outgoing
            && e.sock.incoming == (if p.fin then s.sock.incoming else s.sock.incoming + [p.payload])
            && e.sock.ackNumber == (s.sock.ackNumber + if p.fin then 1 else |p.payload|) % SEQS
            && e.wire == s.wire + [Out(Ack, Consumed(s.wire) % SEQS, e.sock.ackNumber, [])]
  {
    hide Established;
    hide Answered;
    hide Consumed;
    AnsweredIs(peer, s, p);
    SequenceBounded(peer, s);
    SocketAnswers(s.sock, p);
  }

  lemma SocketAnswers(k: Sock, p: Arrival)
    requires k.seqNumber < SEQS && k.seqNumber == p.ackNumber && k.ackNumber == p.seqNumber
    requires !p.syn && (p.psh || p.fin) && (k.status == S_OPEN || k.status == S_WRITE)
    ensures var k1 := AfterSort(k, p);
            && k1.ackNumber == (k.ackNumber + if p.fin then 1 else |p.payload|) % SEQS
            && k1.incoming == (if p.fin then k.incoming else k.incoming + [p.payload])
            && Polled(k1) == [Out(Ack, k.seqNumber, k1.ackNumber, [])]
            && AfterPoll(k1).status == S_OPEN && AfterPoll(k1).seqNumber == k.seqNumber
            && AfterPoll(k1).ackNumber == k1.ackNumber
            && AfterPoll(k1).incoming == k1.incoming && AfterPoll(k1).outgoing == k.outgoing
  {
    NumberKept(k.seqNumber);
  }

  lemma NumberKept(v: nat)
    requires v < SEQS
    ensures (v + 0) % SEQS == v
  {
  }

  // ---------------------------------------------------------------------------------
  // The whole stream
  // ---------------------------------------------------------------------------------

  /** The segment with the next chunk of the peer's stream. */
  function Next(k: Sock, chunk: seq<byte>): Arrival {
    Arrival(false, false, true, true, k.ackNumber, k.seqNumber, chunk)
  }

  /** Chunks that arrive one after the other, each followed by a turn of the poller. */
  function Delivered(s: State, chunks: seq<seq<byte>>): State
    decreases |chunks|
  {
    if chunks == [] then s else Delivered(Answered(s, Next(s.sock, chunks[0])), chunks[1..])
  }

  /** Segments that acknowledge one chunk after the other. */
  function Acks(seqNumber: nat, ackNumber: nat, chunks: seq<seq<byte>>): seq<Out>
    decreases |chunks|
  {
    if chunks == [] then []
    else [Out(Ack, seqNumber, ackNumber + |chunks[0]|, [])] + Acks(seqNumber, ackNumber + |chunks[0]|, chunks[1..])
  }

  // The next chunk is something the peer may send.
  lemma NextSent(peer: Peer, s: State, chunk: seq<byte>)
    requires peer.Ok() && Established(peer, s) && s.rx.Idle? && !s.finTaken && Taken(s) + chunk <= peer.stream
    ensures peer.Sends(Next(s.sock, chunk)) && InOrder(s, Next(s.sock, chunk))
    ensures s.sock.ackNumber + |chunk| < SEQS && s.sock.ackNumber == peer.isn + 1 + |Taken(s)|
  {
    hide SendInv;
    var a := Taken(s);
    hide Taken;
    assert chunk == peer.stream[|a|..|a| + |chunk|] by {
      assert (a + chunk)[|a|..] == chunk;
      assert peer.stream[..|a| + |chunk|] == a + chunk;
    }
  }

  lemma ChunkTaken(peer: Peer, s: State, chunk: seq<byte>)
    requires peer.Ok() && Established(peer, s) && Rests(s) && !s.finTaken && Taken(s) + chunk <= peer.stream
    requires s.sock.status == S_OPEN || s.sock.status == S_WRITE
    ensures var p, e := Next(s.sock, chunk), Answered(s, Next(s.sock, chunk));
            && peer.Sends(p) && Enabled(peer, s, Arrive(p))
            && Established(peer, e) && Rests(e) && !e.finTaken && e.sock.status == S_OPEN
            && e.sock.seqNumber == s.sock.seqNumber && e.sock.ackNumber == s.sock.ackNumber + |chunk|
            && e.sock.incoming == s.sock.incoming + [chunk] && Taken(e) == Taken(s) + chunk && e.read == s.read
            && e.wire == s.wire + [Out(Ack, s.sock.seqNumber, e.sock.ackNumber, [])]
  {
    hide Established;
    hide Answered;
    hide Taken;
    var p := Next(s.sock, chunk);
    NextSent(peer, s, chunk);
    InOrderAnswered(peer, s, p);
    SequenceBounded(peer, s);
    DataKeepsFin(peer, s, p);
    QueuedTaken(s, Answered(s, p), chunk);
  }

  lemma QueuedTaken(s: State, e: State, chunk: seq<byte>)
    requires s.rx.Idle? && e.rx.Idle? && e.read == s.read && e.sock.incoming == s.sock.incoming + [chunk]
    ensures Taken(e) == Taken(s) + chunk
  {
    FlatLast(s.sock.incoming, chunk);
    hide Flat;
  }

  // Neither turn takes a FIN or returns bytes to the application.
  lemma DataKeepsFin(peer: Peer, s: State, p: Arrival)
    requires peer.Ok() && Established(peer, s) && Rests(s) && peer.Sends(p) && !p.fin
    ensures Answered(s, p).finTaken == s.finTaken && Answered(s, p).read == s.read
  {
    hide PollTurn;
    hide SortTurn;
    hide Established;
    var s1 := s.(rx := Sorting(p));
    Arrives(peer, s, p);
    SortTurnKeeps(peer, s1);
    PollTurnKeeps(peer, SortTurn(s1));
    SortTurnLeaves(s1);
  }

  lemma {:induction false} SortTurnLeaves(s: State)
    requires match s.rx
             case Sorting(p) => !p.fin
             case TestSynAck(p) => !p.fin
             case TestFinAck(p) => !p.fin
             case _ => true
    ensures SortTurn(s).finTaken == s.finTaken && SortTurn(s).read == s.read && SortTurn(s).app == s.app
    decreases Open(s.rx)
  {
    if !s.rx.Idle? {
      SortTurnLeaves(Receive(s));
    }
  }

  function Joined(chunks: seq<seq<byte>>): seq<byte> {
    if chunks == [] then [] else chunks[0] + Joined(chunks[1..])
  }

  /** If the peer sends what is left of its stream in chunks, each in order and left alone by
      the network, the whole stream comes to wait for kread, chunk by chunk, and each chunk is
      acknowledged by one segment. */
  lemma {:induction false} StreamIsDelivered(peer: Peer, s: State, chunks: seq<seq<byte>>)
    requires peer.Ok() && Established(peer, s) && Rests(s) && !s.finTaken
    requires s.sock.status == S_OPEN || s.sock.status == S_WRITE
    requires Taken(s) + Joined(chunks) == peer.stream
    ensures var e := Delivered(s, chunks);
            && Established(peer, e) && Rests(e) && e.read == s.read && Taken(e) == peer.stream
            && e.sock.incoming == s.sock.incoming + chunks
            && e.sock.ackNumber == peer.isn + 1 + |peer.stream|
            && e.wire == s.wire + Acks(s.sock.seqNumber, s.sock.ackNumber, chunks)
    decreases |chunks|
  {
    hide Established;
    hide Answered;
    hide Taken;
    if chunks == [] {
      NoChunkLeft(peer, s);
    } else {
      var e, rest := Answered(s, Next(s.sock, chunks[0])), Joined(chunks[1..]);
      assert Taken(s) + chunks[0] + rest == peer.stream;
      assert Taken(s) + chunks[0] <= peer.stream;
      ChunkTaken(peer, s, chunks[0]);
      StreamIsDelivered(peer, e, chunks[1..]);
      assert [chunks[0]] + chunks[1..] == chunks;
    }
  }

  lemma NoChunkLeft(peer: Peer, s: State)
    requires Established(peer, s) && !s.finTaken && Taken(s) + Joined([]) == peer.stream
    ensures Taken(s) == peer.stream && s.sock.ackNumber == peer.isn + 1 + |peer.stream|
    ensures s.sock.incoming + [] == s.sock.incoming && s.wire + [] == s.wire
  {
    hide SendInv;
    hide Taken;
  }

  // ---------------------------------------------------------------------------------
  // The handshake
  // ---------------------------------------------------------------------------------

  /** kconnect on a fresh socket, a turn of the poller, the peer's answer to the SYN, and
      another turn of the poller: a SYN and the acknowledgement of the answer were sent, the
      socket is open, and kconnect's wait loop ends. */
  lemma HandshakeCompletes(peer: Peer, s: State, p: Arrival)
    requires peer.Ok() && Inv(peer, s) && s.app.Fresh? && Rests(s)
    requires peer.Sends(p) && p.syn && p.ackNumber == 1
    ensures Enabled(peer, s, Connect) && Enabled(peer, Step(s, Connect), Arm)
    ensures var s1 := PollTurn(Step(Step(s, Connect), Arm));
            var e := Answered(s1, p);
            && s1.wire == [Out(Syn, 0, 0, [])] && Enabled(peer, s1, Arrive(p))
            && e.wire == s1.wire + [Out(Ack, 1, peer.isn + 1, [])]
            && e.sock == Sock(S_OPEN, S_OPEN, 1, peer.isn + 1, [], []) && Rests(e) && Enabled(peer, e, Connected)
            && Established(peer, e) && !e.finTaken && Taken(e) == []
  {
    hide PollTurn;
    hide SortTurn;
    ConnectTurnIs(peer, s);
    FreshIsUnconnected(peer, s);
    var s0 := Step(Step(s, Connect), Arm);
    StepKeepsInv(peer, s, Connect);
    StepKeepsInv(peer, Step(s, Connect), Arm);
    hide Inv;
    PollTurnIs(s0);
    PollTurnInv(peer, s0);
    var s1 := PollTurn(s0);
    var s2 := s1.(rx := Sorting(p));
    StepKeepsInv(peer, s1, Arrive(p));
    AnswerTaken(peer, s2, p);
  }

  lemma AnswerTaken(peer: Peer, s: State, p: Arrival)
    requires peer.Ok() && Inv(peer, s) && s.rx == Sorting(p) && peer.Sends(p) && p.syn && p.ackNumber == 1
    requires s.app.Connecting? && s.wire == [FIRST] && s.tx.TestSyn?
    requires s.sock == Sock(S_OPEN, S_SYN, 1, 0, [], []) && !s.finTaken && s.read == []
    ensures var e := PollTurn(SortTurn(s));
            && e.wire == [FIRST, Out(Ack, 1, peer.isn + 1, [])] && e.app.Connecting?
            && e.sock == Sock(S_OPEN, S_OPEN, 1, peer.isn + 1, [], []) && Rests(e)
            && Established(peer, e) && !e.finTaken && Taken(e) == []
  {
    hide PollTurn;
    hide SortTurn;
    hide Inv;
    hide Established;
    SortTurnIs(s, p);
    SortTurnLeaves(s);
    SortTurnInv(peer, s);
    var s1 := SortTurn(s);
    PollTurnIs(s1);
    PollTurnInv(peer, s1);
    AckedIsEstablished(peer, PollTurn(s1));
  }

  lemma {:induction false} SortTurnInv(peer: Peer, s: State)
    requires peer.Ok() && Inv(peer, s)
    ensures Inv(peer, SortTurn(s))
    decreases Open(s.rx)
  {
    hide Inv;
    if !s.rx.Idle? {
      StepKeepsInv(peer, s, RxStep);
      SortTurnInv(peer, Receive(s));
    }
  }

  lemma {:induction false} PollTurnInv(peer: Peer, s: State)
    requires peer.Ok() && Inv(peer, s)
    ensures Inv(peer, PollTurn(s))
    decreases Left(s.tx)
  {
    hide Inv;
    hide Transmit;
    StepKeepsInv(peer, s, TxStep);
    if Left(Transmit(s).tx) < Left(s.tx) {
      PollTurnInv(peer, Transmit(s));
    }
  }

  // Once the acknowledgement is out, the connection stands.
  lemma AckedIsEstablished(peer: Peer, e: State)
    requires Inv(peer, e) && |e.wire| == 2
    ensures Established(peer, e)
  {
    hide Established;
  }

  // ---------------------------------------------------------------------------------
  // Messages
  // ---------------------------------------------------------------------------------

  /** What kwrite is given is sent: left alone after a call, the poller sends every message
      queued before it and then this one, each in a segment numbered by what went before. */
  lemma WrittenIsSent(peer: Peer, s: State, message: seq<byte>)
    requires peer.Ok() && Established(peer, s) && s.app.Ready? && s.tx.TestSyn?
    ensures var s1 := Step(Step(s, Write(message)), MarkWrite);
            var e := PollTurns(s1, |s.sock.outgoing| + 1);
            && Enabled(peer, s, Write(message)) && Enabled(peer, Step(s, Write(message)), MarkWrite)
            && Established(peer, e) && e.tx.TestSyn? && e.sock.outgoing == []
            && |e.wire| == |s.wire| + |s.sock.outgoing| + 1 && e.wire[..|s.wire|] == s.wire
            && Payloads(e.wire) == Payloads(s.wire) + s.sock.outgoing + [message] == e.written && Numbered(e.wire)
  {
    hide PollTurns;
    hide Payloads;
    hide Numbered;
    var s1 := Step(Step(s, Write(message)), MarkWrite);
    AppKeeps(peer, s, Write(message));
    AppKeeps(peer, Step(s, Write(message)), MarkWrite);
    SequenceBounded(peer, s1);
    QueueIsSent(s1);
    PollTurnsKeep(peer, s1, |s1.sock.outgoing|);
    var e := PollTurns(s1, |s1.sock.outgoing|);
    AllSent(e);
    assert Payloads(s.wire) + (s.sock.outgoing + [message]) == Payloads(s.wire) + s.sock.outgoing + [message];
  }

  lemma AllSent(e: State)
    requires SendInv(e) && e.tx.TestSyn? && e.sock.outgoing == []
    ensures Payloads(e.wire) == e.written && Numbered(e.wire)
  {
    hide Payloads;
    hide Numbered;
    assert Payloads(e.wire) + [] + [] == Payloads(e.wire);
  }

  lemma AppKeeps(peer: Peer, s: State, op: Op)
    requires peer.Ok() && Established(peer, s) && Enabled(peer, s, op) && (op.Write? || op.MarkWrite?)
    ensures Established(peer, Step(s, op))
  {
    EstablishedStep(peer, s, op);
  }

  lemma {:induction false} PollTurnsKeep(peer: Peer, s: State, n: nat)
    requires Established(peer, s)
    ensures Established(peer, PollTurns(s, n))
    decreases n
  {
    hide Established;
    hide PollTurn;
    if n > 0 {
      PollTurnKeeps(peer, s);
      PollTurnsKeep(peer, PollTurn(s), n - 1);
    }
  }
}
