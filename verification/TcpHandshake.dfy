/** Opening a connection (kernel/net/tcp.c, kernel/net/tcp_socket.c): the three-way handshake from the connect and
    accept calls to two endpoints that agree where their streams start, where the two opening states lead, and which
    segments are acceptable. */
module TcpHandshake {
  import opened Common
  import opened TcpControlBlock
  import opened TcpInvariants
  import opened TcpStream
  import opened TcpAcks

  // ---------------------------------------------------------------- the three segments

  /** A block that has sent its SYN and nothing else, before its peer has said anything, or only its SYN. */
  function Waiting(state: State, iss: nat, rcv: Rcv, mss: nat, recvMss: nat, lastUnacked: bool, nodelay: bool): (r: Tcb)
  {
    Tcb(state, Snd(iss, iss + 1, 1, 0, 0, 0, [], true, false), rcv, mss, recvMss, lastUnacked, false,
        state.SynReceived?, nodelay, false)
  }

  /** A block whose SYN is acknowledged and that has sent nothing since. */
  function Open(iss: nat, peer: Segment, rcv: Rcv, mss: nat, recvMss: nat, passive: bool, nodelay: bool): (r: Tcb) {
    Tcb(Established, Snd(iss + 1, iss + 1, peer.window, peer.window, peer.number, peer.ack, [], false, false), rcv,
        mss, recvMss, true, false, passive, nodelay, false)
  }

  function Control(number: nat, ack: nat, mss: nat, syn: bool, hasAck: bool): (r: Segment) {
    Segment(number, ack, 16384, mss, [], syn, false, false, false, hasAck)
  }

  /** The sending loop sends a waiting SYN in a segment of its own. */
  lemma SynGoes(t: Tcb, failAfter: nat)
    requires t.snd.una == t.snd.next && t.snd.window == 1 && t.snd.buffer == [] && t.snd.pendingSyn
    requires !t.snd.pendingFin && 0 < t.mss && !t.ackTimer
    ensures SendSegments(t, failAfter) ==
            (t.(snd := t.snd.(next := t.snd.una + 1)),
             [Segment(t.snd.una, t.rcv.next, U16(t.rcv.window), t.recvMss, [], true, false, false, false,
                      !t.state.SynSent?)])
  {
    var t1 := t.(snd := t.snd.(next := t.snd.una + 1));
    assert NextChunk(t.snd, t.mss, t.nodelay) == 1 && Advanced(t, 1) == t1;
    assert NextChunk(t1.snd, t.mss, t.nodelay) == 0;
    assert Outgoing(t1, t.snd.una, t1.snd.next, false).data == [];
    assert t.(snd := t1.snd) == t1;
    if failAfter > 0 {
      assert SendSegments(t1, failAfter - 1) == (t1, []);
      assert [Outgoing(t1, t.snd.una, t1.snd.next, false)] + [] == [Outgoing(t1, t.snd.una, t1.snd.next, false)];
    }
  }

  lemma SynReceives(v: Rcv, s: Segment, mss: nat)
    requires v == Rcv(s.number, 16384, []) && s.data == [] && s.syn && !s.fin && 0 < mss
    ensures Fresh(v, s) == [] && Received(v, s, mss) == (Rcv(s.number + 1, 16384, []), false)
  {
    assert Fresh(v, s) == [] by { assert U64(0) == 0; }
    hide Fresh, Bytes, U64;
    assert U32(16384) == 16384 && U32(0) == 0;
    assert v.buffer + Fresh(v, s) == [];
  }

  /** A SYN without text, taken by a block that has received nothing. */
  lemma SynTaken(t: Tcb, s: Segment)
    requires t.state.SynSent? || t.state.SynReceived?
    requires t.rcv.window == 16384 && t.rcv.buffer == [] && !t.lastUnacked && !t.ackTimer
    requires s.data == [] && s.syn && !s.fin && !s.rst && !s.psh && 0 < s.mss
    ensures var u := t.(rcv := Rcv(s.number + 1, 16384, []), mss := s.mss, lastUnacked := true);
            ProcessSegment(t, s) == Effect(Some(u), if s.hasAck then [EmptyAck(u)] else [], true)
  {
    hide Received, Fresh, Reset, U16;
    SynReceives(Rcv(s.number, 16384, []), s, s.mss);
  }

  /** connect sends a SYN. */
  lemma ConnectSends(iss: nat, recvMss: nat, nodelay: bool, failAfter: nat)
    ensures Connect(iss, recvMss, nodelay, failAfter) ==
            (Waiting(SynSent, iss, Rcv(0, 16384, []), 536, recvMss, false, nodelay),
             [Control(iss, 0, recvMss, true, false)])
  {
    hide SendSegments;
    var t := Allocated(iss, SynSent, recvMss, false, nodelay);
    SynGoes(t.(snd := t.snd.(pendingSyn := true)), failAfter);
  }

  /** accept answers it with a SYN of its own that acknowledges it. */
  lemma AcceptSends(iss: nat, recvMss: nat, nodelay: bool, peer: nat, mss: nat, failAfter: nat)
    requires 0 < mss
    ensures Accept(iss, recvMss, nodelay, Control(peer, 0, mss, true, false), failAfter) ==
            (Waiting(SynReceived, iss, Rcv(peer + 1, 16384, []), mss, recvMss, true, nodelay),
             [Control(iss, peer + 1, recvMss, true, true)])
  {
    hide SendSegments, ProcessSegment, EmptyAck;
    var s := Control(peer, 0, mss, true, false);
    var t := Tcb(SynReceived, Snd(iss, iss, 1, 0, 0, 0, [], false, false), Rcv(peer + 1, 16384, []), mss, recvMss,
                 true, false, true, nodelay, false);
    SynTaken(Allocated(iss, SynReceived, recvMss, true, nodelay), s);
    assert U16(16384) == 16384;
    SynGoes(t.(snd := t.snd.(pendingSyn := true), closing := false), failAfter);
    var answer := Control(iss, peer + 1, recvMss, true, true);
    assert [] + [answer] == [answer];
  }

  lemma NothingGoes(t: Tcb, failAfter: nat)
    requires t.snd.una == t.snd.next && Pending(t.snd) == 0
    ensures SendSegments(t, failAfter) == (t, [])
  {
  }

  lemma SynAcked(t: Tcb, failAfter: nat)
    requires !Synchronized(t.state) && t.snd.next == t.snd.una + 1 && t.snd.buffer == []
    requires t.snd.pendingSyn && !t.snd.pendingFin
    ensures AdvanceAck(t, t.snd.una + 1, failAfter) ==
            Live(t.(snd := t.snd.(una := t.snd.una + 1, pendingSyn := false)))
  {
  }

  /** The answer opens the active side, which acknowledges it. */
  lemma AnswerOpens(iss: nat, recvMss: nat, nodelay: bool, peer: nat, mss: nat, failAfter: nat)
    requires 0 < mss
    ensures var s := Control(peer, iss + 1, mss, true, true);
            Next(Waiting(SynSent, iss, Rcv(0, 16384, []), 536, recvMss, false, nodelay), Arrive(s, failAfter)) ==
            Effect(Some(Open(iss, s, Rcv(peer + 1, 16384, []), mss, recvMss, false, nodelay)),
                   [Control(iss + 1, peer + 1, 0, false, true)], true)
  {
    hide SendSegments, ProcessSegment, AdvanceAck;
    var s := Control(peer, iss + 1, mss, true, true);
    var t := Waiting(SynSent, iss, Rcv(0, 16384, []), 536, recvMss, false, nodelay);
    var t1 := t.(snd := t.snd.(una := iss + 1, pendingSyn := false));
    SynAcked(t, failAfter);
    SynTaken(t1, s);
    var t2 := t1.(rcv := Rcv(peer + 1, 16384, []), mss := mss, lastUnacked := true);
    NothingGoes(t2.(state := Established, closing := false, snd := UpdateSendWindow(t2.snd, s)), failAfter);
  }

  /** That acknowledgement opens the passive side. */
  lemma AckOpens(iss: nat, recvMss: nat, nodelay: bool, peer: nat, mss: nat, failAfter: nat)
    ensures var s := Control(peer + 1, iss + 1, 0, false, true);
            Next(Waiting(SynReceived, iss, Rcv(peer + 1, 16384, []), mss, recvMss, true, nodelay),
                 Arrive(s, failAfter)) ==
            Effect(Some(Open(iss, s, Rcv(peer + 1, 16384, []), mss, recvMss, true, nodelay)), [], true)
  {
    hide SendSegments, AdvanceAck, Reset;
    var s := Control(peer + 1, iss + 1, 0, false, true);
    var t := Waiting(SynReceived, iss, Rcv(peer + 1, 16384, []), mss, recvMss, true, nodelay);
    var t1 := t.(snd := t.snd.(una := iss + 1, pendingSyn := false));
    SynAcked(t, failAfter);
    NothingGoes(t1.(state := Established, closing := false, snd := UpdateSendWindow(t1.snd, s)), failAfter);
  }

  // ---------------------------------------------------------------- the three-way handshake

  /** Two endpoints that have each sent a SYN and nothing else, at these numbers, once established. */
  function Pair(client: Tcb, server: Tcb, a: nat, b: nat): (r: World) {
    World(Side(client, a + 1, [], [], []), Side(server, b + 1, [], [], []), {}, {})
  }

  /** The three-way handshake: connect sends one segment; accept answers it with one; that opens the client, which
      sends one; and that opens the server. Both then agree where their streams start, each has the other's window
      and segment size, and each has acknowledged the other's SYN. */
  lemma HandshakeOpens(a: nat, b: nat, clientMss: nat, serverMss: nat, clientNodelay: bool, serverNodelay: bool,
                       fails: (nat, nat, nat, nat))
    requires 0 < clientMss < 0x1_0000 && 0 < serverMss < 0x1_0000
    ensures var (c0, o1) := Connect(a, clientMss, clientNodelay, fails.0);
            && |o1| == 1 && o1[0].syn && !o1[0].hasAck
            && var (s0, o2) := Accept(b, serverMss, serverNodelay, o1[0], fails.1);
            && |o2| == 1 && o2[0].syn && o2[0].hasAck && c0.snd.una <= c0.snd.next
            && var c1 := Next(c0, Arrive(o2[0], fails.2));
            && c1.ok && c1.tcb.Some? && |c1.out| == 1 && !c1.out[0].syn
            && var s1 := Next(s0, Arrive(c1.out[0], fails.3));
            && s1.ok && s1.tcb.Some? && s1.out == []
            && Opened(c1.tcb.value, s1.tcb.value, a, b, clientMss, serverMss)
  {
    hide Connect, Accept, Next;
    ConnectSends(a, clientMss, clientNodelay, fails.0);
    AcceptSends(b, serverMss, serverNodelay, a, clientMss, fails.1);
    AnswerOpens(a, clientMss, clientNodelay, b, serverMss, fails.2);
    AckOpens(b, serverMss, serverNodelay, a, clientMss, fails.3);
  }

  ghost predicate Opened(client: Tcb, server: Tcb, a: nat, b: nat, clientMss: nat, serverMss: nat) {
    && Start(Pair(client, server, a, b))
    && client.mss == serverMss && server.mss == clientMss
    && client.snd.window == server.rcv.window == 16384 && server.snd.window == client.rcv.window == 16384
    && Kept(b + 1, client) && Kept(a + 1, server)
  }

  /** So the streams are safe from the calls that open the connection on, whatever the network does after the
      handshake. */
  lemma OpenedSafe(client: Tcb, server: Tcb, a: nat, b: nat, clientMss: nat, serverMss: nat, acts: seq<Action>)
    requires Opened(client, server, a, b, clientMss, serverMss)
    ensures var r := Play(Pair(client, server, a, b), acts); SafeTo(r.here, r.there) && SafeTo(r.there, r.here)
  {
    hide Play, SafeTo, Start, Kept;
    StreamSafety(Pair(client, server, a, b), acts);
  }

  // ---------------------------------------------------------------- where the opening states lead

  /** The segment acknowledges something sent and not yet acknowledged. */
  predicate Acks(t: Tcb, s: Segment) { s.hasAck && t.snd.una < s.ack <= t.snd.next }

  /** SYN-SENT: a SYN that acknowledges ours establishes the connection; a SYN alone leads to SYN-RECEIVED; a reset that
      acknowledges our SYN, or closing, frees the block; nothing else has an effect on the receive side. */
  lemma SynSentLeads(t: Tcb, e: Event)
    requires Consistent(t) && t.state.SynSent? && !Hazard(t, e)
    ensures var r := Next(t, e);
            && r.ok
            && (r.tcb.None? <==> e.AppClose? || (e.Arrive? && e.s.rst && Acks(t, e.s)))
            && (r.tcb.Some? ==> LeavesSynSent(t, e, r.tcb.value))
  {
    hide ProcessSegment, SendSegments, AdvanceAck, Acceptable, Outgoing, EmptyAck, Reset, Hazard, Consistent;
    match e
    case Arrive(s, failAfter) =>
      NextConsistent(t, e);
      if s.syn && !s.rst && (s.hasAck ==> Acks(t, s)) { SynSentText(t, s, failAfter); }
    case _ =>
  }

  predicate LeavesSynSent(t: Tcb, e: Event, u: Tcb) {
    var syn := e.Arrive? && e.s.syn && !e.s.rst;
    var fin := syn && e.s.fin && u.rcv.next == e.s.number + e.s.Length();
    && (u.state.Established? <==> syn && Acks(t, e.s))
    && (u.state.SynReceived? <==> syn && !e.s.hasAck && !fin)
    && (u.state.CloseWait? <==> syn && !e.s.hasAck && fin)
    && (u.state.SynSent? <==> !(syn && (e.s.hasAck ==> Acks(t, e.s))))
    && (u.state.SynSent? ==> u.rcv == t.rcv || e.AppRead?)
    && (u.state.Established? ==> u.snd.una == e.s.ack && u.snd.window == e.s.window && u.mss == e.s.mss)
  }

  /** A SYN's text, whatever it carries besides. */
  lemma SynText(t: Tcb, s: Segment)
    requires (t.state.SynSent? || t.state.SynReceived?) && !t.closing && s.syn
    ensures var r := ProcessSegment(t, s);
            && r.tcb.Some?
            && var u := r.tcb.value;
            && u.mss == s.mss
            && u.state == if s.fin && u.rcv.next == s.number + s.Length() then CloseWait else t.state
  {
    hide Received, Fresh, Reset, EmptyAck;
  }

  /** What completing the handshake sets. */
  lemma HandshakeSets(t: Tcb, s: Segment, failAfter: nat)
    requires t.snd.una <= s.ack <= t.snd.next && !Synchronized(t.state) && (s.syn ==> !t.closing && !t.state.Listen?)
    requires Handshake(t, s, failAfter).ok && !t.state.Closed?
    ensures var r := Handshake(t, s, failAfter);
            && r.tcb.Some? && r.tcb.value.state.Established? && (s.syn ==> r.tcb.value.mss == s.mss)
            && var d := r.tcb.value.snd;
            && d.una == s.ack && d.window == s.window && d.pendingSyn == (t.snd.pendingSyn && s.ack == t.snd.una)
  {
    hide ProcessSegment, SendSegments, RingAdvance;
    if s.syn { SynText(AdvanceAck(t, s.ack, failAfter).tcb.value, s); }
  }

  lemma SynSentText(t: Tcb, s: Segment, failAfter: nat)
    requires Consistent(t) && t.state.SynSent? && !Hazard(t, Arrive(s, failAfter))
    requires s.syn && !s.rst && (s.hasAck ==> Acks(t, s))
    ensures var r := RecvInSynSent(t, s, failAfter);
            r.tcb.Some? && LeavesSynSent(t, Arrive(s, failAfter), r.tcb.value)
  {
    hide ProcessSegment, Handshake, Reset, Pending, Accounted;
    if s.hasAck {
      HandshakeConsistent(t, s, failAfter);
      HandshakeSets(t, s, failAfter);
    } else {
      SynText(t.(state := SynReceived), s);
    }
  }

  /** SYN-RECEIVED: an acceptable acknowledgement establishes the connection, of the SYN or not; a reset leads back to
      LISTEN after a passive open and frees the block after an active one; a SYN frees it too. A FIN is counted even
      when the acknowledgement it comes with is for something never sent. */
  lemma SynReceivedLeads(t: Tcb, e: Event)
    requires Consistent(t) && t.state.SynReceived? && !Hazard(t, e)
    ensures var r := Next(t, e);
            && r.ok
            && (r.tcb.None? <==> || (e.Arrive? && Acceptable(t.rcv, e.s) && if e.s.rst then !t.passive else e.s.syn)
                                 || (e.AppClose? && t.rcv.buffer != []))
            && (r.tcb.Some? ==> LeavesSynReceived(t, e, r.tcb.value))
  {
    hide RecvData, SendSegments, Acceptable, Outgoing, EmptyAck, Reset, Hazard, LeavesSynReceived;
    NextConsistent(t, e);
    if e.Arrive? { SynReceivedText(t, e.s, e.failAfter); } else { SynReceivedCalls(t, e); }
  }

  predicate LeavesSynReceived(t: Tcb, e: Event, u: Tcb) {
    var taken := e.Arrive? && Acceptable(t.rcv, e.s);
    var acked := taken && !e.s.rst && e.s.hasAck && t.snd.una <= e.s.ack <= t.snd.next;
    var wrong := taken && !e.s.rst && e.s.hasAck && !(t.snd.una <= e.s.ack <= t.snd.next);
    var fin := e.Arrive? && e.s.fin && u.rcv.next == e.s.number + e.s.Length() && t.rcv.next < u.rcv.next;
    && (u.state.Listen? <==> taken && e.s.rst)
    && (u.state.Established? <==> acked)
    && (u.state.CloseWait? <==> wrong && fin)
    && (u.state.FinWait1? <==> e.AppClose? && t.snd.next == t.snd.una + 1)
    && (acked ==> && u.snd.una == e.s.ack && u.snd.window == e.s.window
                  && u.snd.pendingSyn == (t.snd.pendingSyn && e.s.ack == t.snd.una))
  }

  lemma SynReceivedCalls(t: Tcb, e: Event)
    requires t.snd.una <= t.snd.next && t.state.SynReceived? && !e.Arrive?
    ensures var r := Next(t, e);
            && (r.tcb.None? <==> e.AppClose? && t.rcv.buffer != [])
            && (r.tcb.Some? ==> LeavesSynReceived(t, e, r.tcb.value))
  {
    hide SendSegments, Outgoing, EmptyAck, Reset, Acceptable, UpdateRecvWindow;
  }

  lemma SynReceivedText(t: Tcb, s: Segment, failAfter: nat)
    requires Consistent(t) && t.state.SynReceived? && !Hazard(t, Arrive(s, failAfter))
    ensures var r := RecvData(t, s, failAfter);
            && (r.tcb.None? <==> Acceptable(t.rcv, s) && if s.rst then !t.passive else s.syn)
            && (r.tcb.Some? ==> LeavesSynReceived(t, Arrive(s, failAfter), r.tcb.value))
  {
    hide ProcessSegment, Handshake, AdvanceAck, EmptyAck, Reset, Acceptable, Hazard, Consistent;
    if Acceptable(t.rcv, s) && !s.rst && !s.syn && s.hasAck {
      if t.snd.una <= s.ack <= t.snd.next { EstablishedBy(t, s, failAfter); } else { WrongAckLeads(t, s); }
    }
  }

  lemma EstablishedBy(t: Tcb, s: Segment, failAfter: nat)
    requires Consistent(t) && t.state.SynReceived? && !Hazard(t, Arrive(s, failAfter))
    requires Acceptable(t.rcv, s) && !s.rst && !s.syn && s.hasAck && t.snd.una <= s.ack <= t.snd.next
    ensures var r := Handshake(t, s, failAfter);
            && r.tcb.Some? && r.tcb.value.state.Established?
            && var d := r.tcb.value.snd;
            && d.una == s.ack && d.window == s.window && d.pendingSyn == (t.snd.pendingSyn && s.ack == t.snd.una)
  {
    hide Handshake, Acceptable, Pending, Accounted;
    HandshakeConsistent(t, s, failAfter);
    HandshakeSets(t, s, failAfter);
  }

  lemma WrongAckLeads(t: Tcb, s: Segment)
    requires Consistent(t) && t.state.SynReceived? && !s.syn
    ensures var r := ProcessSegment(t, s);
            && r.tcb.Some?
            && var u := r.tcb.value;
            && (u.state.SynReceived? || u.state.CloseWait?)
            && (u.state.CloseWait? <==> s.fin && u.rcv.next == s.number + s.Length() && t.rcv.next < u.rcv.next)
  {
    hide Fresh, EmptyAck, Reset;
  }

  // ---------------------------------------------------------------- acceptable segments

  /** The test in section 3.3 of RFC 793: the first or the last number of the segment lies in the window. */
  predicate Rfc793Acceptable(v: Rcv, s: Segment) {
    var n := s.Length();
    if n == 0 then if v.window == 0 then s.number == v.next else v.next <= s.number < v.next + v.window
    else 0 < v.window && (v.next <= s.number < v.next + v.window || v.next <= s.number + n - 1 < v.next + v.window)
  }

  /** The code tests the number after the last one instead: it differs exactly for a segment from before the window
      that ends right at recv_next, which it accepts, or right at the window's end, which it refuses. */
  lemma AcceptableExact(v: Rcv, s: Segment)
    ensures Acceptable(v, s) == Rfc793Acceptable(v, s) <==>
            !(&& 0 < s.Length() && 0 < v.window && s.number < v.next
              && (s.number + s.Length() == v.next || s.number + s.Length() == v.next + v.window))
  {
  }

  /** So the peer's SYN, repeated because its acknowledgement was lost, frees the block of the connection it opened if
      and only if nothing has been received since, and the window is open; otherwise it is acknowledged again. */
  lemma RepeatedSyn(t: Tcb, s: Segment, failAfter: nat)
    requires t.snd.una <= t.snd.next && s.syn && !s.fin && !s.rst && s.data == [] && s.number < t.rcv.next
    ensures RecvData(t, s, failAfter) ==
            if s.number + 1 == t.rcv.next && 0 < t.rcv.window then Effect(None, [Reset(t, s)], true)
            else Effect(Some(Acked(t)), [EmptyAck(t)], true)
  {
    hide Handshake, AdvanceAck, ProcessSegment;
  }

  /** And the peer's FIN, repeated because its acknowledgement was lost, is not answered while the window is open, so
      the peer is never told. Only a closed window, or more received than the FIN, would get it an answer. */
  lemma RepeatedFin(t: Tcb, s: Segment, failAfter: nat)
    requires t.snd.una <= t.snd.next
    requires t.state.CloseWait? || t.state.Closing? || t.state.LastAck? || t.state.TimeWait?
    requires s.fin && !s.syn && !s.rst && s.hasAck && s.ack <= t.snd.una && s.number < t.rcv.next
    requires s.number + s.Length() <= t.rcv.next
    ensures Next(t, Arrive(s, failAfter)) ==
            if s.number + s.Length() == t.rcv.next && 0 < t.rcv.window then Live(t)
            else Effect(Some(Acked(t)), [EmptyAck(t)], true)
  {
    hide Handshake, AdvanceAck;
  }

  /** The handshake of which the last acknowledgement is lost: the server's SYN comes again, and the client resets the
      connection it has established. */
  lemma LostAckResets(a: nat, b: nat, clientMss: nat, serverMss: nat, nodelay: bool, fails: (nat, nat))
    requires 0 < clientMss < 0x1_0000 && 0 < serverMss < 0x1_0000
    ensures var answer := Control(b, a + 1, serverMss, true, true);
            var c0 := Connected(a, clientMss, nodelay, 0);
            && c0.snd.una <= c0.snd.next
            && var c1 := Next(c0, Arrive(answer, fails.0));
            && c1.ok && c1.tcb.Some? && c1.tcb.value.state.Established?
            && var c2 := Next(c1.tcb.value, Arrive(answer, fails.1));
            && c2.tcb.None? && |c2.out| == 1 && c2.out[0].rst
  {
    hide RecvData, Connect;
    ConnectSends(a, clientMss, nodelay, 0);
    AnswerOpens(a, clientMss, nodelay, b, serverMss, fails.0);
    var answer := Control(b, a + 1, serverMss, true, true);
    RepeatedSyn(Open(a, answer, Rcv(b + 1, 16384, []), serverMss, clientMss, false, nodelay), answer, fails.1);
  }

  // ---------------------------------------------------------------- resets

  /** A reset is believed by the block whose segment it answers: by one in SYN-SENT whose SYN it was, and by one past
      that if the segment acknowledged what it had received. */
  lemma ResetBelieved(t: Tcb, s: Segment, p: Tcb, failAfter: nat)
    requires p.snd.una <= p.snd.next && !Synchronized(t.state)
    requires if p.state.SynSent? then !s.hasAck && s.syn && s.number == p.snd.una && s.number + s.Length() <= p.snd.next
             else s.hasAck && s.ack == p.rcv.next && !p.state.Closed? && !p.state.Listen?
    ensures var r := Next(p, Arrive(Reset(t, s), failAfter));
            && r.out == []
            && if p.state.SynReceived? && p.passive then r.tcb == Some(p.(state := Listen)) else r.tcb.None?
  {
    hide Handshake, AdvanceAck, ProcessSegment;
  }

  /** Past the handshake, a reset is believed by a peer that has received everything sent before it: the reset that
      answers a segment, and the one that close sends when there is unread data. */
  lemma ResetHeard(t: Tcb, s: Segment, p: Tcb, failAfter: nat)
    requires p.snd.una <= p.snd.next && t.snd.una <= t.snd.next && Synchronized(t.state) && Synchronized(p.state)
    requires p.rcv.next == t.snd.next && 0 < p.rcv.window
    ensures Next(p, Arrive(Reset(t, s), failAfter)) == Effect(None, [], true)
    ensures t.rcv.buffer != [] ==>
              var c := Next(t, AppClose(failAfter));
              && c.tcb.None? && |c.out| == 1
              && Next(p, Arrive(c.out[0], failAfter)) == Effect(None, [], true)
  {
    hide Handshake, AdvanceAck, ProcessSegment, Bytes;
  }
}
