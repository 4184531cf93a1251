/** What every run of one TCP endpoint keeps, whatever segments arrive: sequence accounting and the teardown
    states. */
module TcpInvariants {
  import opened Common
  import opened TcpControlBlock

  datatype Event = Arrive(s: Segment, failAfter: nat)
                 | AppWrite(data: seq<byte>, failAfter: nat) | AppRead(len: nat) | AppClose(failAfter: nat)
                 | RetransmitTimer | AckTimer

  function Next(t: Tcb, e: Event): (r: Effect)
    requires t.snd.una <= t.snd.next
    ensures Forward(t, r)
  {
    match e
    case Arrive(s, failAfter) =>
      if t.state.SynSent? then RecvInSynSent(t, s, failAfter)
      else if t.state.Closed? || t.state.Listen? then Live(t)
      else RecvData(t, s, failAfter)
    case AppWrite(data, failAfter) => var (t1, out, _) := Write(t, data, failAfter); Effect(Some(t1), out, true)
    case AppRead(len) => var (t1, out, _) := Read(t, len); Effect(Some(t1), out, true)
    case AppClose(failAfter) => Close(t, failAfter)
    case RetransmitTimer => var (t1, s) := Retransmit(t); Effect(Some(t1), [s], true)
    case AckTimer => Effect(Some(t.(ackTimer := false, lastUnacked := false)), [EmptyAck(t)], true)
  }

  // ---------------------------------------------------------------- accounting and teardown

  /** Sent but unacknowledged sequence numbers are covered by what is still pending. */
  ghost predicate Accounted(d: Snd) { d.una <= d.next <= d.una + Pending(d) }

  /** FIN-WAIT-1, CLOSING and LAST-ACK wait for the acknowledgement of our FIN; FIN-WAIT-2 and TIME-WAIT have
      nothing left to send and nothing unacknowledged. A socket is not closing before the peer's FIN, or the
      acknowledgement of our own. */
  ghost predicate Consistent(t: Tcb) {
    && Accounted(t.snd)
    && (t.state.FinWait1? || t.state.Closing? || t.state.LastAck? ==> t.snd.pendingFin)
    && (t.state.FinWait2? || t.state.TimeWait? ==> Pending(t.snd) == 0)
    && (t.state.SynSent? || t.state.SynReceived? || t.state.Established? || t.state.FinWait1? ==> !t.closing)
    && !t.state.Closed?
  }

  /** Acknowledging the SYN alone while the send buffer is exactly full clears the buffer, and that breaks the
      accounting if data has been sent already. */
  predicate Loses(d: Snd, ack: nat) {
    d.pendingSyn && ack == d.una + 1 && |d.buffer| == BUFFER_SIZE && ack + Bit(d.pendingFin) < d.next
  }

  /** An accepted acknowledgement is consumed to the last number, always; it keeps the accounting if and only
      if it does not clear the buffer. */
  lemma AcknowledgeExact(d: Snd, ack: nat)
    requires Accounted(d) && d.una < ack <= d.next
    ensures Acknowledge(d, ack).1 == 0
    ensures Accounted(Acknowledge(d, ack).0) <==> !Loses(d, ack)
    ensures !Loses(d, ack) && d.pendingFin && !Acknowledge(d, ack).0.pendingFin ==> Pending(Acknowledge(d, ack).0) == 0
    ensures d.pendingFin ==> (Acknowledge(d, ack).0.pendingFin <==> ack < d.una + Pending(d))
    ensures Acknowledge(d, ack).0.pendingFin ==> d.pendingFin
  {
  }

  /** The data waiting behind a SYN survives its acknowledgement if and only if the buffer is not full. */
  lemma SynAckKeepsData(d: Snd)
    requires d.pendingSyn
    ensures Acknowledge(d, d.una + 1).0.buffer == d.buffer <==> |d.buffer| < BUFFER_SIZE
  {
  }

  /** The segment's acknowledgement is taken: it passes every check before `tcp_advance_ack_number`. */
  predicate Takes(t: Tcb, s: Segment) {
    && t.snd.una < s.ack <= t.snd.next && s.hasAck && !s.rst
    && (if t.state.SynSent? then s.syn else Acceptable(t.rcv, s) && !s.syn)
  }

  /** The two steps after which the block is not in order: an acknowledgement that clears the buffer, and one
      in LAST-ACK that does not cover our FIN. */
  predicate Hazard(t: Tcb, e: Event) {
    && e.Arrive? && Takes(t, e.s) && !t.state.Listen?
    && (Loses(t.snd, e.s.ack) || (t.state.LastAck? && e.s.ack < t.snd.una + Pending(t.snd)))
  }

  lemma AdvanceAckConsistent(t: Tcb, ack: nat, failAfter: nat)
    requires Accounted(t.snd) && t.snd.una <= ack <= t.snd.next
    requires ack == t.snd.una || !Loses(t.snd, ack)
    ensures var a := AdvanceAck(t, ack, failAfter);
            && a.ok && Accounted(a.tcb.value.snd)
            && a.tcb.value == t.(snd := a.tcb.value.snd, ackTimer := a.tcb.value.ackTimer,
                                 lastUnacked := a.tcb.value.lastUnacked)
            && (a.tcb.value.snd.pendingFin ==> t.snd.pendingFin)
            && (t.snd.pendingFin && ack != t.snd.una ==>
                (a.tcb.value.snd.pendingFin <==> ack < t.snd.una + Pending(t.snd)))
            && (t.snd.pendingFin && !a.tcb.value.snd.pendingFin ==> Pending(a.tcb.value.snd) == 0)
            && (Pending(t.snd) == 0 ==> Pending(a.tcb.value.snd) == 0)
  {
    if ack != t.snd.una { AcknowledgeExact(t.snd, ack); }
  }

  ghost predicate Sound(e: Effect) { e.ok && (e.tcb.Some? ==> Consistent(e.tcb.value)) }

  /** The states whose blocks take the text of a segment. */
  predicate TakesText(s: State) { s.SynSent? || s.SynReceived? || s.Established? || s.FinWait1? || s.FinWait2? }

  lemma OnFinConsistent(t: Tcb, s: Segment)
    requires Consistent(t) && TakesText(t.state)
    ensures Sound(OnFin(t, s))
  {
  }

  lemma ProcessConsistent(t: Tcb, s: Segment)
    requires Consistent(t) && !t.state.Listen?
    ensures Sound(ProcessSegment(t, s))
    ensures ProcessSegment(t, s).tcb.None? ==> t.closing
  {
    hide Received, Fresh, Announce, OnFin, Accounted, Pending, Reset;
    if !t.state.CloseWait? && !t.state.Closing? && !t.state.LastAck? && !t.state.TimeWait? && s.Length() != 0 {
      var t0 := if s.syn then t.(rcv := t.rcv.(next := s.number), mss := s.mss) else t;
      if s.number <= t0.rcv.next {
        var (v, widened) := Received(t0.rcv, s, t0.mss);
        OnFinConsistent(Announce(t0.(rcv := v), s, widened).0, s);
      }
    }
  }

  lemma EstablishedConsistent(t: Tcb, s: Segment, failAfter: nat)
    requires Accounted(t.snd)
    ensures Sound(EnterEstablished(t, s, failAfter))
  {
  }

  lemma HandshakeConsistent(t: Tcb, s: Segment, failAfter: nat)
    requires Consistent(t) && (t.state.SynSent? || t.state.SynReceived?) && t.snd.una <= s.ack <= t.snd.next
    requires s.ack == t.snd.una || !Loses(t.snd, s.ack)
    ensures Sound(Handshake(t, s, failAfter))
  {
    hide ProcessSegment, EnterEstablished, AdvanceAck;
    AdvanceAckConsistent(t, s.ack, failAfter);
    var t1 := AdvanceAck(t, s.ack, failAfter).tcb.value;
    ProcessConsistent(t1, s);
    var p := ProcessSegment(t1, s);
    if p.tcb.Some? { EstablishedConsistent(p.tcb.value, s, failAfter); }
  }

  /** Where a forward acknowledgement leads from each state. */
  lemma OnAckedConsistent(t: Tcb, d: Snd, s: Segment)
    requires Consistent(t) && Synchronized(t.state) && Accounted(d) && !s.rst
    requires (d.pendingFin ==> t.snd.pendingFin) && (Pending(t.snd) == 0 ==> Pending(d) == 0)
    requires t.snd.pendingFin && !d.pendingFin ==> Pending(d) == 0
    requires t.state.LastAck? ==> !d.pendingFin
    ensures Sound(OnAcked(t.(snd := d), s))
  {
    hide ProcessSegment;
    var t1 := t.(snd := d);
    match t.state
    case FinWait1 => ProcessConsistent(if d.pendingFin then t1 else t1.(state := FinWait2, closing := true), s);
    case FinWait2 => ProcessConsistent(t1.(closing := true), s);
    case Closing => if !d.pendingFin { ProcessConsistent(t1.(state := TimeWait), s); }
    case LastAck =>
    case TimeWait =>
    case _ => ProcessConsistent(t1, s);
  }

  /** The acknowledgement's effect on the send side, with or without the new window it brings. */
  lemma AckedSnd(t: Tcb, s: Segment, failAfter: nat, d: Snd)
    requires Consistent(t) && t.snd.una < s.ack <= t.snd.next && !Loses(t.snd, s.ack)
    requires t.state.LastAck? ==> s.ack == t.snd.una + Pending(t.snd)
    requires var d1 := AdvanceAck(t, s.ack, failAfter).tcb.value.snd; d == d1 || d == UpdateSendWindow(d1, s)
    ensures Accounted(d) && (d.pendingFin ==> t.snd.pendingFin) && (Pending(t.snd) == 0 ==> Pending(d) == 0)
    ensures (t.snd.pendingFin && !d.pendingFin ==> Pending(d) == 0) && (t.state.LastAck? ==> !d.pendingFin)
  {
    hide AdvanceAck, Loses;
    AdvanceAckConsistent(t, s.ack, failAfter);
  }

  lemma ForwardAckConsistent(t: Tcb, s: Segment, failAfter: nat)
    requires Consistent(t) && Synchronized(t.state) && !s.rst && t.snd.una < s.ack <= t.snd.next
    requires !Loses(t.snd, s.ack) && (t.state.LastAck? ==> s.ack == t.snd.una + Pending(t.snd))
    ensures var a := AdvanceAck(t, s.ack, failAfter);
            && a.ok
            && var d := a.tcb.value.snd;
               var current := d.wl1 < s.number || (d.wl1 == s.number && d.wl2 <= s.ack);
               Sound(OnAcked(if current then a.tcb.value.(snd := UpdateSendWindow(d, s)) else a.tcb.value, s))
  {
    hide OnAcked, AdvanceAck, Loses, Accounted, Pending, Sound;
    AdvanceAckConsistent(t, s.ack, failAfter);
    var t1 := AdvanceAck(t, s.ack, failAfter).tcb.value;
    var current := t1.snd.wl1 < s.number || (t1.snd.wl1 == s.number && t1.snd.wl2 <= s.ack);
    var d := if current then UpdateSendWindow(t1.snd, s) else t1.snd;
    AckedSnd(t, s, failAfter, d);
    OnAckedConsistent(t.(ackTimer := t1.ackTimer, lastUnacked := t1.lastUnacked), d, s);
    assert t1.(snd := d) == t.(ackTimer := t1.ackTimer, lastUnacked := t1.lastUnacked).(snd := d);
  }

  lemma RecvDataConsistent(t: Tcb, s: Segment, failAfter: nat)
    requires Consistent(t) && !t.state.SynSent? && !t.state.Listen? && !Hazard(t, Arrive(s, failAfter))
    ensures Sound(RecvData(t, s, failAfter))
  {
    hide ProcessSegment, AdvanceAck, OnAcked, Handshake, Reset, EmptyAck;
    if !Acceptable(t.rcv, s) || s.rst || s.syn || !s.hasAck {
    } else if t.state.SynReceived? {
      if t.snd.una > s.ack || s.ack > t.snd.next {
        ProcessConsistent(t, s);
      } else {
        HandshakeConsistent(t, s, failAfter);
      }
    } else if s.ack <= t.snd.una {
      ProcessConsistent(t, s);
    } else if s.ack <= t.snd.next {
      ForwardAckConsistent(t, s, failAfter);
    }
  }

  lemma ArriveConsistent(t: Tcb, s: Segment, failAfter: nat)
    requires Consistent(t) && !Hazard(t, Arrive(s, failAfter))
    ensures Sound(Next(t, Arrive(s, failAfter)))
  {
    hide RecvData, ProcessSegment, Handshake;
    if t.state.SynSent? {
      if s.hasAck && t.snd.una < s.ack <= t.snd.next && !s.rst && s.syn { HandshakeConsistent(t, s, failAfter); }
      if !s.hasAck && s.syn && !s.rst { ProcessConsistent(t.(state := SynReceived), s); }
    } else if !t.state.Listen? {
      RecvDataConsistent(t, s, failAfter);
    }
  }

  lemma WriteConsistent(t: Tcb, data: seq<byte>, failAfter: nat)
    requires Consistent(t)
    ensures Consistent(Write(t, data, failAfter).0)
  {
    hide SendSegments;
  }

  lemma ReadConsistent(t: Tcb, len: nat)
    requires Consistent(t)
    ensures Consistent(Read(t, len).0)
  {
    hide Outgoing, UpdateRecvWindow;
  }

  lemma CloseIntoConsistent(t: Tcb, state: State, failAfter: nat)
    requires Consistent(t) && ((state.FinWait1? && !t.closing) || state.LastAck?)
    ensures Sound(CloseInto(t, state, failAfter))
  {
    hide SendSegments;
  }

  lemma CloseConsistent(t: Tcb, failAfter: nat)
    requires Consistent(t)
    ensures Sound(Close(t, failAfter))
  {
    hide Outgoing, CloseInto;
    if !t.closing { CloseIntoConsistent(t, FinWait1, failAfter); }
    CloseIntoConsistent(t, LastAck, failAfter);
  }

  /** Every event short of the two hazards keeps the block consistent and fails no assertion. */
  lemma NextConsistent(t: Tcb, e: Event)
    requires Consistent(t) && !Hazard(t, e)
    ensures Sound(Next(t, e))
  {
    hide Hazard, Consistent, RecvData, RecvInSynSent, Write, Read, Close, EmptyAck, Outgoing;
    match e
    case Arrive(s, failAfter) => ArriveConsistent(t, s, failAfter);
    case AppWrite(data, failAfter) => WriteConsistent(t, data, failAfter);
    case AppRead(len) => ReadConsistent(t, len);
    case AppClose(failAfter) => CloseConsistent(t, failAfter);
    case _ => TimersConsistent(t);
  }

  lemma TimersConsistent(t: Tcb)
    requires Consistent(t)
    ensures Sound(Next(t, RetransmitTimer)) && Sound(Next(t, AckTimer))
  {
    hide EmptyAck, Outgoing;
  }

  /** In LAST-ACK the code asserts that any acknowledgement it takes covers the FIN: exactly then it holds. */
  lemma LastAckExact(t: Tcb, s: Segment, failAfter: nat)
    requires Consistent(t) && t.state.LastAck? && Takes(t, s)
    ensures Next(t, Arrive(s, failAfter)).ok <==> s.ack == t.snd.una + Pending(t.snd)
  {
    AcknowledgeExact(t.snd, s.ack);
  }

  // ---------------------------------------------------------------- what the hazards do

  lemma AdvanceAckLoses(t: Tcb, ack: nat, failAfter: nat)
    requires Accounted(t.snd) && t.snd.una < ack <= t.snd.next && Loses(t.snd, ack)
    ensures var a := AdvanceAck(t, ack, failAfter);
            && a.ok && !Accounted(a.tcb.value.snd) && a.tcb.value.snd.pendingFin == t.snd.pendingFin
            && a.tcb.value.state == t.state && a.tcb.value.closing == t.closing
  {
    hide SendSegments;
    AcknowledgeExact(t.snd, ack);
  }

  /** Only a closing socket's block is freed by text. */
  lemma ProcessFrees(t: Tcb, s: Segment)
    ensures ProcessSegment(t, s).tcb.None? ==> t.closing && TakesText(t.state)
  {
    hide Received, Fresh, Announce, OnFin, Reset;
  }

  lemma HandshakeLoses(t: Tcb, s: Segment, failAfter: nat)
    requires Consistent(t) && (t.state.SynSent? || t.state.SynReceived?) && t.snd.una < s.ack <= t.snd.next
    requires Loses(t.snd, s.ack)
    ensures !Sound(Handshake(t, s, failAfter))
  {
    hide ProcessSegment, AdvanceAck, SendSegments, Loses;
    AdvanceAckLoses(t, s.ack, failAfter);
  }

  lemma OnAckedLoses(t: Tcb, s: Segment)
    requires !Accounted(t.snd) && !t.state.LastAck? && !t.state.FinWait2?
    requires (t.state.Established? || t.state.FinWait1? ==> !t.closing) && (t.state.FinWait1? ==> t.snd.pendingFin)
    requires Synchronized(t.state)
    ensures !Sound(OnAcked(t, s))
  {
    hide ProcessSegment, Pending, EmptyAck;
    ProcessFrees(t, s);
    ProcessFrees(t.(state := TimeWait), s);
  }

  lemma ForwardAckLoses(t: Tcb, s: Segment, failAfter: nat)
    requires Consistent(t) && Synchronized(t.state) && !t.state.LastAck? && Takes(t, s) && Loses(t.snd, s.ack)
    ensures !Sound(RecvData(t, s, failAfter))
  {
    hide OnAcked, AdvanceAck, Acceptable, ProcessSegment, Handshake, EmptyAck, Reset;
    AdvanceAckLoses(t, s.ack, failAfter);
    var t1 := AdvanceAck(t, s.ack, failAfter).tcb.value;
    OnAckedLoses(t1, s);
    OnAckedLoses(t1.(snd := UpdateSendWindow(t1.snd, s)), s);
  }

  lemma HazardBreaks(t: Tcb, s: Segment, failAfter: nat)
    requires Consistent(t) && Hazard(t, Arrive(s, failAfter))
    ensures !Sound(Next(t, Arrive(s, failAfter)))
  {
    if t.state.LastAck? {
      LastAckExact(t, s, failAfter);
    } else {
      hide Loses, Acceptable, AdvanceAck, Accounted, Pending, ProcessSegment, OnAcked, Handshake, EmptyAck, Reset;
      if t.state.SynSent? || t.state.SynReceived? {
        HandshakeLoses(t, s, failAfter);
      } else {
        ForwardAckLoses(t, s, failAfter);
      }
    }
  }

  /** Whatever the peer sends and the application does, an event keeps the block consistent and fails no
      assertion if and only if it is not one of the two hazards. */
  lemma NextExact(t: Tcb, e: Event)
    requires Consistent(t)
    ensures Sound(Next(t, e)) <==> !Hazard(t, e)
  {
    if Hazard(t, e) {
      HazardBreaks(t, e.s, e.failAfter);
    } else {
      NextConsistent(t, e);
    }
  }

  // ---------------------------------------------------------------- whole runs

  /** A fresh block: the window is 1 until the peer says otherwise. */
  function Allocated(iss: nat, state: State, recvMss: nat, passive: bool, nodelay: bool): (r: Tcb) {
    Tcb(state, Snd(iss, iss, 1, 0, 0, 0, [], false, false), Rcv(0, BUFFER_SIZE, []), 536, recvMss,
        false, false, passive, nodelay, false)
  }

  /** An active open: the block and the SYN it sends. */
  function Connect(iss: nat, recvMss: nat, nodelay: bool, failAfter: nat): (r: (Tcb, seq<Segment>)) {
    var t := Allocated(iss, SynSent, recvMss, false, nodelay);
    SendSegments(t.(snd := t.snd.(pendingSyn := true)), failAfter)
  }

  function Connected(iss: nat, recvMss: nat, nodelay: bool, failAfter: nat): (r: Tcb) {
    Connect(iss, recvMss, nodelay, failAfter).0
  }

  /** A passive open: the peer's SYN processed on the listening socket, then accepted on a new socket and
      answered. */
  function Accept(iss: nat, recvMss: nat, nodelay: bool, s: Segment, failAfter: nat): (r: (Tcb, seq<Segment>))
    requires s.syn
    ensures r.0.snd.una <= r.0.snd.next
  {
    var p := ProcessSegment(Allocated(iss, SynReceived, recvMss, true, nodelay), s);
    var t := if p.tcb.Some? then p.tcb.value else Allocated(iss, SynReceived, recvMss, true, nodelay);
    var (u, out) := SendSegments(t.(snd := t.snd.(pendingSyn := true), closing := false), failAfter);
    (u, p.out + out)
  }

  function Accepted(iss: nat, recvMss: nat, nodelay: bool, s: Segment, failAfter: nat): (r: Tcb)
    requires s.syn
    ensures r.snd.una <= r.snd.next
  {
    Accept(iss, recvMss, nodelay, s, failAfter).0
  }

  lemma ConnectedConsistent(iss: nat, recvMss: nat, nodelay: bool, failAfter: nat)
    ensures Consistent(Connected(iss, recvMss, nodelay, failAfter))
  {
    hide SendSegments;
  }

  lemma AcceptedConsistent(iss: nat, recvMss: nat, nodelay: bool, s: Segment, failAfter: nat)
    requires s.syn
    ensures Consistent(Accepted(iss, recvMss, nodelay, s, failAfter))
  {
    hide SendSegments, Received, Fresh, Announce;
    ProcessConsistent(Allocated(iss, SynReceived, recvMss, true, nodelay), s);
  }

  /** A block that can run: freed blocks and failed assertions end a run. */
  function Run(t: Tcb, es: seq<Event>): (r: Effect)
    requires t.snd.una <= t.snd.next
    ensures Forward(t, r)
  {
    hide Next;
    if es == [] then Live(t)
    else
      var r := Run(t, es[..|es| - 1]);
      if r.tcb.None? || !r.ok then r
      else Next(r.tcb.value, es[|es| - 1])
  }

  ghost predicate HazardFree(t: Tcb, es: seq<Event>)
    requires t.snd.una <= t.snd.next
  {
    forall k :: 0 <= k < |es| ==>
      var r := Run(t, es[..k]);
      r.tcb.Some? ==> !Hazard(r.tcb.value, es[k])
  }

  /** In every run, against any peer, the accounting and the teardown states hold and no assertion fails. */
  lemma {:induction false} RunConsistent(t: Tcb, es: seq<Event>)
    requires Consistent(t) && HazardFree(t, es)
    ensures Sound(Run(t, es))
  {
    hide Next, Hazard;
    if es != [] {
      var n := |es| - 1;
      assert HazardFree(t, es[..n]) by {
        forall k | 0 <= k < n ensures es[..n][..k] == es[..k] {}
      }
      RunConsistent(t, es[..n]);
      var r := Run(t, es[..n]);
      if r.tcb.Some? { NextConsistent(r.tcb.value, es[n]); }
    }
  }

  // A run that reaches the first hazard: a passive open whose peer repeats an old acknowledgement, then a
  // full buffer of data of which one segment goes out, then the acknowledgement of the SYN alone.

  const PEER_SYN := Segment(100, 0, 0, 536, [], true, false, false, false, false)
  const OLD_ACK := Segment(101, 0, 60000, 0, [], false, false, false, false, true)
  const SYN_ACK := Segment(101, 1, 60000, 0, [], false, false, false, false, true)

  function Opened(state: State, snd: Snd): (r: Tcb) {
    Tcb(state, snd, Rcv(101, BUFFER_SIZE, []), 536, 1460, true, false, true, false, false)
  }

  lemma HazardOpen()
    ensures Accepted(0, 1460, false, PEER_SYN, 0) == Opened(SynReceived, Snd(0, 1, 1, 0, 0, 0, [], true, false))
  {
    hide Reset, EmptyAck, Outgoing;
    var t := Opened(SynReceived, Snd(0, 0, 1, 0, 0, 0, [], false, false));
    assert ProcessSegment(Allocated(0, SynReceived, 1460, true, false), PEER_SYN) == Live(t);
  }

  lemma HazardHandshake()
    ensures Next(Opened(SynReceived, Snd(0, 1, 1, 0, 0, 0, [], true, false)), Arrive(OLD_ACK, 0)) ==
            Live(Opened(Established, Snd(0, 1, 60000, 60000, 101, 0, [], true, false)))
  {
    hide Reset, EmptyAck, Outgoing;
  }

  lemma HazardWrite(data: seq<byte>)
    requires |data| == BUFFER_SIZE
    ensures var t := Opened(Established, Snd(0, 1, 60000, 60000, 101, 0, [], true, false));
            var r := Next(t, AppWrite(data, 0));
            r.ok && r.tcb == Some(Opened(Established, Snd(0, 537, 60000, 60000, 101, 0, data, true, false)))
  {
    hide Reset, EmptyAck, Outgoing;
    assert data[..BUFFER_SIZE] == data && [] + data == data;
  }

  /** The acknowledgement of the SYN empties the buffer, of which nothing has been acknowledged. */
  lemma HazardLoss(data: seq<byte>)
    requires |data| == BUFFER_SIZE
    ensures var t := Opened(Established, Snd(0, 537, 60000, 60000, 101, 0, data, true, false));
            var r := Next(t, Arrive(SYN_ACK, 0));
            && Hazard(t, Arrive(SYN_ACK, 0)) && r.ok && r.tcb.Some?
            && r.tcb.value.snd.buffer == [] && !Accounted(r.tcb.value.snd)
  {
    hide Reset, EmptyAck, Outgoing;
  }

  lemma Run3(t: Tcb, e1: Event, e2: Event, e3: Event)
    requires t.snd.una <= t.snd.next
    ensures var r1 := Next(t, e1);
            r1.ok && r1.tcb.Some? ==>
              var r2 := Next(r1.tcb.value, e2);
              Run(t, [e1, e2]) == r2 && (r2.ok && r2.tcb.Some? ==> Run(t, [e1, e2, e3]) == Next(r2.tcb.value, e3))
  {
    hide Next;
    assert [e1, e2, e3][..2] == [e1, e2] && [e1, e2][..1] == [e1] && [e1][..0] == [];
    assert Run(t, [e1]) == Next(t, e1);
  }

  lemma HazardIsReachable(data: seq<byte>)
    requires |data| == BUFFER_SIZE
    ensures var t := Accepted(0, 1460, false, PEER_SYN, 0);
            var r := Run(t, [Arrive(OLD_ACK, 0), AppWrite(data, 0)]);
            var w := Run(t, [Arrive(OLD_ACK, 0), AppWrite(data, 0), Arrive(SYN_ACK, 0)]);
            && Consistent(t) && r.ok && r.tcb.Some? && Hazard(r.tcb.value, Arrive(SYN_ACK, 0))
            && w.ok && w.tcb.Some? && w.tcb.value.snd.buffer == [] && !Accounted(w.tcb.value.snd)
  {
    hide Next, Accepted, Hazard, Accounted;
    HazardOpen();
    HazardHandshake();
    HazardWrite(data);
    HazardLoss(data);
    AcceptedConsistent(0, 1460, false, PEER_SYN, 0);
    Run3(Accepted(0, 1460, false, PEER_SYN, 0), Arrive(OLD_ACK, 0), AppWrite(data, 0), Arrive(SYN_ACK, 0));
  }
}
