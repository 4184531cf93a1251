/** What every run of one TCP endpoint does with its receive window: it stays within the free space of the
    buffer and never takes back what was offered, except when a FIN that has been counted is processed again. */
module TcpWindow {
  import opened Common
  import opened TcpControlBlock
  import opened TcpInvariants

  ghost predicate WindowFits(v: Rcv) { v.window <= BUFFER_SIZE - |v.buffer| }

  ghost function Edge(v: Rcv): (r: nat) { v.next + v.window }

  /** The segment stays within the window that was offered. */
  ghost predicate InWindow(v: Rcv, s: Segment) { s.number + s.Length() <= Edge(v) }

  /** The segment ends in a FIN that has been received: everything up to and including it is counted. */
  predicate CountedFin(v: Rcv, s: Segment) { s.fin && s.number + s.Length() == v.next }

  // ---------------------------------------------------------------- one segment's text

  lemma FreshInWindow(v: Rcv, s: Segment)
    requires WindowFits(v) && Acceptable(v, s) && InWindow(v, s) && !CountedFin(v, s)
    requires !s.syn && s.number <= v.next && 0 < s.Length()
    ensures v.next - s.number <= |s.data| && Fresh(v, s) == s.data[v.next - s.number..]
  {
  }

  /** A segment inside the window is taken whole, the window stays within the free space, and its right edge
      does not move left. */
  lemma ReceivedWindow(v: Rcv, s: Segment, mss: nat)
    requires WindowFits(v) && Acceptable(v, s) && InWindow(v, s) && !CountedFin(v, s)
    requires !s.syn && s.number <= v.next && 0 < s.Length()
    ensures var w := Received(v, s, mss).0;
            && w.next == s.number + s.Length()
            && w.buffer == v.buffer + s.data[v.next - s.number..]
            && WindowFits(w) && Edge(v) <= Edge(w)
  {
    FreshInWindow(v, s);
    hide Fresh, Acceptable;
  }

  /** The window already reaches over all the free space, or is so far from it that it will be reopened. */
  predicate Reopens(v: Rcv, mss: nat) {
    var space := BUFFER_SIZE - |v.buffer|;
    space == v.window || space - v.window >= Min(BUFFER_SIZE / 2, mss)
  }

  /** A FIN that has been counted fills all the free space with bytes from beyond the segment, and the window
      survives that if and only if it is exactly the free space or is reopened at once. */
  lemma CountedFinWindow(v: Rcv, s: Segment, mss: nat)
    requires WindowFits(v) && Acceptable(v, s) && CountedFin(v, s) && !s.syn
    ensures |Fresh(v, s)| == BUFFER_SIZE - |v.buffer| && 0 < |Fresh(v, s)|
    ensures var w := Received(v, s, mss).0;
            WindowFits(w) && Edge(v) <= Edge(w) <==> Reopens(v, mss)
  {
  }

  // ---------------------------------------------------------------- one step

  ghost predicate KeepsWindow(v: Rcv, e: Effect) {
    e.tcb.Some? ==> WindowFits(e.tcb.value.rcv) && Edge(v) <= Edge(e.tcb.value.rcv)
  }

  /** The one kind of text that spoils the window. */
  predicate Spoils(t: Tcb, s: Segment) {
    TakesText(t.state) && !t.closing && CountedFin(t.rcv, s) && !Reopens(t.rcv, t.mss)
  }

  lemma OnFinRcv(t: Tcb, s: Segment)
    ensures OnFin(t, s).tcb.value.rcv == t.rcv
  {
  }

  lemma TextRcv(t: Tcb, s: Segment)
    requires TakesText(t.state) && 0 < s.Length() && s.number <= t.rcv.next && !s.syn
    ensures var r := ProcessSegment(t, s);
            && (r.tcb.None? <==> t.closing && Fresh(t.rcv, s) != [])
            && (r.tcb.Some? ==> r.tcb.value.rcv == Received(t.rcv, s, t.mss).0)
  {
    hide Received, Fresh, OnFin, Reset, EmptyAck;
    var (v, widened) := Received(t.rcv, s, t.mss);
    OnFinRcv(Announce(t.(rcv := v), s, widened).0, s);
  }

  lemma NoTextRcv(t: Tcb, s: Segment)
    requires !TakesText(t.state) || s.Length() == 0 || s.number > t.rcv.next
    requires !s.syn
    ensures ProcessSegment(t, s).tcb.Some? && ProcessSegment(t, s).tcb.value.rcv == t.rcv
  {
  }

  lemma ProcessWindow(t: Tcb, s: Segment)
    requires WindowFits(t.rcv) && Acceptable(t.rcv, s) && InWindow(t.rcv, s) && !s.syn
    ensures KeepsWindow(t.rcv, ProcessSegment(t, s)) <==> !Spoils(t, s)
  {
    hide ProcessSegment, Received, Fresh, Acceptable, InWindow, WindowFits, Edge, Reopens;
    if TakesText(t.state) && 0 < s.Length() && s.number <= t.rcv.next {
      TextRcv(t, s);
      if CountedFin(t.rcv, s) { CountedFinWindow(t.rcv, s, t.mss); } else { ReceivedWindow(t.rcv, s, t.mss); }
    } else {
      NoTextRcv(t, s);
    }
  }

  lemma OnAckedWindow(t: Tcb, s: Segment)
    requires WindowFits(t.rcv) && Acceptable(t.rcv, s) && InWindow(t.rcv, s) && !s.syn
    ensures !Spoils(t, s) ==> KeepsWindow(t.rcv, OnAcked(t, s))
    ensures t.state.Established? || (t.state.FinWait1? && t.snd.pendingFin) ==>
              (KeepsWindow(t.rcv, OnAcked(t, s)) <==> !Spoils(t, s))
    ensures t.state.FinWait1? && !t.snd.pendingFin ==> KeepsWindow(t.rcv, OnAcked(t, s))
  {
    hide ProcessSegment, Acceptable, InWindow, WindowFits, Edge, CountedFin, Reopens;
    ProcessWindow(t, s);
    ProcessWindow(t.(state := FinWait2, closing := true), s);
    ProcessWindow(t.(closing := true), s);
    ProcessWindow(t.(state := TimeWait), s);
  }

  lemma AdvanceAckFrame(t: Tcb, ack: nat, failAfter: nat)
    requires t.snd.una <= ack <= t.snd.next
    ensures var t1 := AdvanceAck(t, ack, failAfter).tcb.value;
            t1.(snd := t.snd, ackTimer := t.ackTimer, lastUnacked := t.lastUnacked) == t
  {
    hide SendSegments, Acknowledge;
  }

  lemma HandshakeWindow(t: Tcb, s: Segment, failAfter: nat)
    requires t.snd.una <= s.ack <= t.snd.next
    requires WindowFits(t.rcv) && Acceptable(t.rcv, s) && InWindow(t.rcv, s) && !s.syn
    ensures !Spoils(t, s) ==> KeepsWindow(t.rcv, Handshake(t, s, failAfter))
    ensures Spoils(t, s) && AdvanceAck(t, s.ack, failAfter).ok ==> !KeepsWindow(t.rcv, Handshake(t, s, failAfter))
  {
    hide ProcessSegment, Acceptable, InWindow, WindowFits, Edge, AdvanceAck, SendSegments, CountedFin, Reopens;
    AdvanceAckFrame(t, s.ack, failAfter);
    ProcessWindow(AdvanceAck(t, s.ack, failAfter).tcb.value, s);
  }

  /** A forward acknowledgement and the text behind it. */
  function ForwardAck(t: Tcb, s: Segment, failAfter: nat): (r: Effect)
    requires t.snd.una <= s.ack <= t.snd.next
  {
    var a := AdvanceAck(t, s.ack, failAfter);
    if !a.ok then a
    else
      var d := a.tcb.value.snd;
      var current := d.wl1 < s.number || (d.wl1 == s.number && d.wl2 <= s.ack);
      After(a.out, OnAcked(if current then a.tcb.value.(snd := UpdateSendWindow(d, s)) else a.tcb.value, s))
  }

  lemma ForwardAckWindow(t: Tcb, s: Segment, failAfter: nat)
    requires t.snd.una <= s.ack <= t.snd.next
    requires WindowFits(t.rcv) && Acceptable(t.rcv, s) && InWindow(t.rcv, s) && !s.syn
    ensures !Spoils(t, s) ==> KeepsWindow(t.rcv, ForwardAck(t, s, failAfter))
  {
    hide OnAcked, Acceptable, InWindow, WindowFits, Edge, AdvanceAck, CountedFin, Reopens;
    AdvanceAckFrame(t, s.ack, failAfter);
    var t1 := AdvanceAck(t, s.ack, failAfter).tcb.value;
    OnAckedWindow(t1, s);
    OnAckedWindow(t1.(snd := UpdateSendWindow(t1.snd, s)), s);
  }

  /** The acknowledgement covers our FIN: from then on the socket is closing, and text frees the block. */
  predicate AcksFin(t: Tcb, ack: nat) { t.state.FinWait1? && ack == t.snd.una + Pending(t.snd) }

  lemma ForwardAckExact(t: Tcb, s: Segment, failAfter: nat)
    requires Consistent(t) && t.snd.una < s.ack <= t.snd.next && Synchronized(t.state)
    requires WindowFits(t.rcv) && Acceptable(t.rcv, s) && InWindow(t.rcv, s) && !s.syn && Spoils(t, s)
    ensures KeepsWindow(t.rcv, ForwardAck(t, s, failAfter)) <==> AcksFin(t, s.ack)
  {
    hide OnAcked, Acceptable, InWindow, WindowFits, Edge, CountedFin, Reopens, SendSegments;
    AcknowledgeExact(t.snd, s.ack);
    AdvanceAckFrame(t, s.ack, failAfter);
    var t1 := AdvanceAck(t, s.ack, failAfter).tcb.value;
    OnAckedWindow(t1, s);
    OnAckedWindow(t1.(snd := UpdateSendWindow(t1.snd, s)), s);
  }

  lemma ArriveWindow(t: Tcb, s: Segment, failAfter: nat)
    requires t.snd.una <= t.snd.next && WindowFits(t.rcv) && InWindow(t.rcv, s) && !Spoils(t, s)
    ensures KeepsWindow(t.rcv, RecvData(t, s, failAfter))
  {
    hide ProcessSegment, Acceptable, InWindow, WindowFits, Edge, Reset, EmptyAck, AdvanceAck, Handshake, OnAcked,
         Spoils;
    if Acceptable(t.rcv, s) && !s.rst && !s.syn && s.hasAck {
      ProcessWindow(t, s);
      if t.snd.una <= s.ack <= t.snd.next {
        HandshakeWindow(t, s, failAfter);
        ForwardAckWindow(t, s, failAfter);
      }
    }
  }

  lemma ReadWindow(t: Tcb, len: nat)
    requires t.snd.una <= t.snd.next && WindowFits(t.rcv)
    ensures var v := Read(t, len).0.rcv; WindowFits(v) && Edge(t.rcv) <= Edge(v)
  {
    hide Outgoing;
  }

  lemma WriteKeeps(t: Tcb, data: seq<byte>, failAfter: nat)
    requires t.snd.una <= t.snd.next
    ensures var u := Write(t, data, failAfter).0; u.rcv == t.rcv && u.state == t.state
  {
    hide SendSegments;
  }

  lemma CloseIntoKeeps(t: Tcb, state: State, failAfter: nat)
    requires t.snd.una <= t.snd.next
    ensures var r := CloseInto(t, state, failAfter);
            r.tcb.Some? && r.tcb.value.rcv == t.rcv && r.tcb.value.state == state
  {
    hide SendSegments;
  }

  lemma CloseKeeps(t: Tcb, failAfter: nat)
    requires t.snd.una <= t.snd.next
    ensures var r := Close(t, failAfter);
            r.tcb.Some? ==> && r.tcb.value.rcv == t.rcv && !r.tcb.value.state.SynSent?
                            && (TakesText(r.tcb.value.state) ==> TakesText(t.state))
  {
    hide CloseInto, Outgoing;
    CloseIntoKeeps(t, FinWait1, failAfter);
    CloseIntoKeeps(t, LastAck, failAfter);
  }

  /** What the application writes, its close and the timers leave the receive side alone. */
  lemma OthersKeep(t: Tcb, e: Event)
    requires t.snd.una <= t.snd.next && !e.Arrive? && !e.AppRead?
    ensures var r := Next(t, e);
            r.tcb.Some? ==> && r.tcb.value.rcv == t.rcv && (r.tcb.value.state.SynSent? ==> t.state.SynSent?)
                            && (TakesText(r.tcb.value.state) ==> TakesText(t.state))
  {
    hide Write, Close, Outgoing, EmptyAck;
    match e
    case AppWrite(data, failAfter) => WriteKeeps(t, data, failAfter);
    case AppClose(failAfter) => CloseKeeps(t, failAfter);
    case _ =>
  }

  lemma ReadKeeps(t: Tcb, len: nat)
    requires t.snd.una <= t.snd.next
    ensures var u := Read(t, len).0; u.rcv.next == t.rcv.next && u.state == t.state
  {
    hide Outgoing;
  }

  /** Arrivals, reads and everything else keep the window honest, once the connection is synchronised. */
  lemma NextWindow(t: Tcb, e: Event)
    requires t.snd.una <= t.snd.next && !t.state.SynSent? && WindowFits(t.rcv)
    requires e.Arrive? ==> InWindow(t.rcv, e.s) && !Spoils(t, e.s)
    ensures KeepsWindow(t.rcv, Next(t, e))
  {
    hide WindowFits, Edge, InWindow, Spoils, RecvData, Read, Write, Close, Outgoing, EmptyAck;
    match e
    case Arrive(s, failAfter) => ArriveWindow(t, s, failAfter);
    case AppRead(len) => ReadWindow(t, len);
    case _ => OthersKeep(t, e);
  }

  /** The segment passes every check in front of its text, and the text spoils the window. */
  predicate Damages(t: Tcb, e: Event) {
    && e.Arrive? && Spoils(t, e.s) && Acceptable(t.rcv, e.s) && !e.s.rst && !e.s.syn && e.s.hasAck
    && (t.state.SynReceived? || e.s.ack <= t.snd.next) && !AcksFin(t, e.s.ack)
  }

  lemma DamagesWindow(t: Tcb, s: Segment, failAfter: nat)
    requires Consistent(t) && !t.state.SynSent? && WindowFits(t.rcv) && InWindow(t.rcv, s)
    requires Damages(t, Arrive(s, failAfter))
    ensures !KeepsWindow(t.rcv, RecvData(t, s, failAfter))
  {
    hide ProcessSegment, Acceptable, InWindow, WindowFits, Edge, Reset, EmptyAck, AdvanceAck, Handshake, OnAcked,
         CountedFin, Reopens;
    ProcessWindow(t, s);
    if t.snd.una <= s.ack <= t.snd.next {
      if t.state.SynReceived? {
        AdvanceAckOk(t, s.ack, failAfter);
        HandshakeWindow(t, s, failAfter);
      } else if t.snd.una < s.ack {
        ForwardAckExact(t, s, failAfter);
      }
    }
  }

  lemma AdvanceAckOk(t: Tcb, ack: nat, failAfter: nat)
    requires Accounted(t.snd) && t.snd.una <= ack <= t.snd.next
    ensures AdvanceAck(t, ack, failAfter).ok
  {
    hide SendSegments;
    if t.snd.una < ack { AcknowledgeExact(t.snd, ack); }
  }

  lemma HarmlessWindow(t: Tcb, s: Segment, failAfter: nat)
    requires Consistent(t) && !t.state.SynSent? && WindowFits(t.rcv) && InWindow(t.rcv, s)
    requires !Damages(t, Arrive(s, failAfter)) && Spoils(t, s)
    ensures KeepsWindow(t.rcv, RecvData(t, s, failAfter))
  {
    hide ProcessSegment, Acceptable, InWindow, WindowFits, Edge, Reset, EmptyAck, AdvanceAck, Handshake, OnAcked,
         CountedFin, Reopens;
    if Acceptable(t.rcv, s) && !s.rst && !s.syn && s.hasAck && t.snd.una < s.ack <= t.snd.next {
      ForwardAckExact(t, s, failAfter);
    }
  }

  /** Against a peer that keeps to the windows it is offered, an event keeps the window if and only if it is
      not a counted FIN that spoils it. */
  lemma NextWindowExact(t: Tcb, e: Event)
    requires Consistent(t) && !t.state.SynSent? && WindowFits(t.rcv) && (e.Arrive? ==> InWindow(t.rcv, e.s))
    ensures KeepsWindow(t.rcv, Next(t, e)) <==> !Damages(t, e)
  {
    hide WindowFits, Edge, InWindow, RecvData, CountedFin, Reopens, Acceptable, AcksFin, Pending;
    if e.Arrive? && Spoils(t, e.s) {
      if Damages(t, e) { DamagesWindow(t, e.s, e.failAfter); } else { HarmlessWindow(t, e.s, e.failAfter); }
    } else {
      NextWindow(t, e);
    }
  }

  lemma InOrderFresh(v: Rcv, s: Segment)
    requires WindowFits(v) && v.next == s.number && |s.data| <= v.window
    ensures Fresh(v, s) == s.data
  {
    assert U64(|s.data|) == |s.data| by { assert |s.data| < 0x1_0000_0000_0000_0000; }
  }

  lemma SynReceivedWindow(v: Rcv, s: Segment, mss: nat)
    requires WindowFits(v) && v.next == s.number && |s.data| <= v.window && s.syn
    ensures var w := Received(v, s, mss).0; WindowFits(w) && w.next == s.number + s.Length()
  {
    hide Fresh;
    InOrderFresh(v, s);
    assert U32(v.window - |s.data|) == v.window - |s.data|;
  }

  // ---------------------------------------------------------------- the peer's FIN

  /** The peer's FIN has number `fin`: it ends its segment there, and no other segment reaches that far. */
  ghost predicate OneFin(fin: nat, s: Segment) {
    if s.fin then s.number + s.Length() == fin + 1 else s.number + s.Length() <= fin
  }

  /** The FIN is still to come as long as text is taken. */
  ghost predicate Ahead(t: Tcb, fin: nat) { TakesText(t.state) ==> t.rcv.next <= fin }

  ghost predicate StaysAhead(e: Effect, fin: nat) {
    e.tcb.Some? ==> Ahead(e.tcb.value, fin) && !e.tcb.value.state.SynSent?
  }

  /** A FIN on the segment that completes an open, passive or active, after which the block enters ESTABLISHED
      anyway. */
  predicate FinHandshake(t: Tcb, e: Event) {
    && e.Arrive? && e.s.fin
    && if t.state.SynSent? then e.s.syn && e.s.hasAck && !e.s.rst && t.snd.una < e.s.ack <= t.snd.next
       else t.state.SynReceived? && t.snd.una <= e.s.ack <= t.snd.next
  }

  lemma OnFinState(t: Tcb, s: Segment)
    requires TakesText(t.state)
    ensures var t1 := OnFin(t, s).tcb.value;
            && t1.rcv == t.rcv && (!s.fin ==> t1 == t)
            && (s.fin && t.rcv.next == s.number + s.Length() ==> !TakesText(t1.state))
  {
  }

  lemma ProcessAhead(t: Tcb, s: Segment, fin: nat)
    requires !t.state.SynSent?
    requires WindowFits(t.rcv) && Acceptable(t.rcv, s) && InWindow(t.rcv, s) && !s.syn
    requires Ahead(t, fin) && OneFin(fin, s)
    ensures StaysAhead(ProcessSegment(t, s), fin)
    ensures TakesText(t.state) && !s.fin && ProcessSegment(t, s).tcb.Some? ==>
              ProcessSegment(t, s).tcb.value.rcv.next <= fin
  {
    hide Received, Fresh, OnFin, Reset, EmptyAck, Acceptable, InWindow, WindowFits, Edge;
    if TakesText(t.state) && 0 < s.Length() && s.number <= t.rcv.next {
      ReceivedWindow(t.rcv, s, t.mss);
      var (v, widened) := Received(t.rcv, s, t.mss);
      OnFinState(Announce(t.(rcv := v), s, widened).0, s);
    }
  }

  lemma OnAckedAhead(t: Tcb, s: Segment, fin: nat)
    requires !t.state.SynSent?
    requires WindowFits(t.rcv) && Acceptable(t.rcv, s) && InWindow(t.rcv, s) && !s.syn
    requires Ahead(t, fin) && OneFin(fin, s)
    ensures StaysAhead(OnAcked(t, s), fin)
  {
    hide ProcessSegment, Acceptable, InWindow, WindowFits, Edge, OneFin;
    ProcessAhead(t, s, fin);
    ProcessAhead(t.(state := TimeWait), s, fin);
    if t.state.FinWait1? { ProcessAhead(t.(state := FinWait2, closing := true), s, fin); }
    ProcessAhead(t.(closing := true), s, fin);
  }

  lemma HandshakeAhead(t: Tcb, s: Segment, failAfter: nat, fin: nat)
    requires t.snd.una <= s.ack <= t.snd.next && t.state.SynReceived? && !s.fin
    requires WindowFits(t.rcv) && Acceptable(t.rcv, s) && InWindow(t.rcv, s) && !s.syn
    requires Ahead(t, fin) && OneFin(fin, s)
    ensures StaysAhead(Handshake(t, s, failAfter), fin)
  {
    hide ProcessSegment, Acceptable, InWindow, WindowFits, Edge, AdvanceAck, SendSegments, OneFin;
    AdvanceAckFrame(t, s.ack, failAfter);
    ProcessAhead(AdvanceAck(t, s.ack, failAfter).tcb.value, s, fin);
  }

  lemma ForwardAckAhead(t: Tcb, s: Segment, failAfter: nat, fin: nat)
    requires !t.state.SynSent?
    requires t.snd.una <= s.ack <= t.snd.next
    requires WindowFits(t.rcv) && Acceptable(t.rcv, s) && InWindow(t.rcv, s) && !s.syn
    requires Ahead(t, fin) && OneFin(fin, s)
    ensures StaysAhead(ForwardAck(t, s, failAfter), fin)
  {
    hide OnAcked, Acceptable, InWindow, WindowFits, Edge, AdvanceAck, OneFin;
    AdvanceAckFrame(t, s.ack, failAfter);
    var t1 := AdvanceAck(t, s.ack, failAfter).tcb.value;
    OnAckedAhead(t1, s, fin);
    OnAckedAhead(t1.(snd := UpdateSendWindow(t1.snd, s)), s, fin);
  }

  lemma ArriveAhead(t: Tcb, s: Segment, failAfter: nat, fin: nat)
    requires t.snd.una <= t.snd.next && !t.state.SynSent? && WindowFits(t.rcv) && InWindow(t.rcv, s)
    requires Ahead(t, fin) && OneFin(fin, s) && !FinHandshake(t, Arrive(s, failAfter))
    ensures StaysAhead(RecvData(t, s, failAfter), fin)
  {
    hide ProcessSegment, Acceptable, InWindow, WindowFits, Edge, Reset, EmptyAck, AdvanceAck, Handshake, OnAcked,
         OneFin;
    if Acceptable(t.rcv, s) && !s.rst && !s.syn && s.hasAck {
      ProcessAhead(t, s, fin);
      if t.snd.una <= s.ack <= t.snd.next {
        if t.state.SynReceived? { HandshakeAhead(t, s, failAfter, fin); }
        ForwardAckAhead(t, s, failAfter, fin);
      }
    }
  }

  lemma NextAhead(t: Tcb, e: Event, fin: nat)
    requires t.snd.una <= t.snd.next && !t.state.SynSent? && WindowFits(t.rcv) && Ahead(t, fin)
    requires e.Arrive? ==> InWindow(t.rcv, e.s) && OneFin(fin, e.s) && !FinHandshake(t, e)
    ensures StaysAhead(Next(t, e), fin)
  {
    hide WindowFits, Edge, InWindow, OneFin, FinHandshake, RecvData, Write, Read, Close, Outgoing, EmptyAck;
    match e
    case Arrive(s, failAfter) => ArriveAhead(t, s, failAfter, fin);
    case AppRead(len) => ReadKeeps(t, len);
    case _ => OthersKeep(t, e);
  }

  /** The peer's SYN sets the numbers; a FIN on it that is counted ends the taking of text. */
  lemma SynText(t: Tcb, s: Segment)
    requires WindowFits(t.rcv) && s.syn && |s.data| <= t.rcv.window && TakesText(t.state)
    ensures var r := ProcessSegment(t, s);
            && (r.tcb.None? ==> t.closing)
            && (r.tcb.Some? ==> && WindowFits(r.tcb.value.rcv) && r.tcb.value.rcv.next == s.number + s.Length()
                                && (if s.fin then !TakesText(r.tcb.value.state) else r.tcb.value.state == t.state))
  {
    hide OnFin, EmptyAck, Reset, Received, Fresh;
    var t0 := t.(rcv := t.rcv.(next := s.number), mss := s.mss);
    SynReceivedWindow(t0.rcv, s, t0.mss);
    var (v, widened) := Received(t0.rcv, s, t0.mss);
    OnFinState(Announce(t0.(rcv := v), s, widened).0, s);
  }

  lemma SynHandshake(t: Tcb, s: Segment, failAfter: nat)
    requires t.snd.una <= s.ack <= t.snd.next && t.state.SynSent? && WindowFits(t.rcv)
    requires s.syn && |s.data| <= t.rcv.window
    ensures var r := Handshake(t, s, failAfter);
            r.tcb.Some? ==>
              && WindowFits(r.tcb.value.rcv)
              && (r.tcb.value.rcv == t.rcv || r.tcb.value.rcv.next == s.number + s.Length())
              && (Consistent(t) ==> r.tcb.value.state.Established? && r.tcb.value.rcv.next == s.number + s.Length())
  {
    hide ProcessSegment, AdvanceAck, SendSegments, WindowFits, Pending;
    AdvanceAckFrame(t, s.ack, failAfter);
    SynText(AdvanceAck(t, s.ack, failAfter).tcb.value, s);
    if Consistent(t) {
      AdvanceAckOk(t, s.ack, failAfter);
      SynProcessOk(AdvanceAck(t, s.ack, failAfter).tcb.value, s);
    }
  }

  lemma SynProcessOk(t: Tcb, s: Segment)
    requires t.state.SynSent? && !t.closing
    ensures ProcessSegment(t, s).ok && ProcessSegment(t, s).tcb.Some?
  {
    hide Received, Fresh, Reset;
  }

  /** In SYN-SENT, whatever arrives with no more data than was offered room leaves a window that fits, and the FIN
      is still to come unless it came on the segment that completes the open. */
  lemma SynSentWindow(t: Tcb, s: Segment, failAfter: nat, fin: nat)
    requires t.snd.una <= t.snd.next && t.state.SynSent? && WindowFits(t.rcv) && Ahead(t, fin) && OneFin(fin, s)
    requires s.syn ==> |s.data| <= t.rcv.window
    ensures var e := Arrive(s, failAfter);
            var r := Next(t, e);
            r.tcb.Some? ==> && WindowFits(r.tcb.value.rcv)
                            && (!FinHandshake(t, e) ==> Ahead(r.tcb.value, fin))
                            && (FinHandshake(t, e) && Consistent(t) ==> !Ahead(r.tcb.value, fin))
  {
    hide ProcessSegment, Handshake, Reset, WindowFits, Consistent;
    if s.syn && !s.rst {
      if s.hasAck {
        if t.snd.una < s.ack <= t.snd.next { SynHandshake(t, s, failAfter); }
      } else {
        SynText(t.(state := SynReceived), s);
      }
    }
  }

  // ---------------------------------------------------------------- whole runs

  /** A peer that keeps to the windows it is offered, has one FIN, and does not put it on the segment that
      completes an open. */
  ghost predicate Obeys(t: Tcb, e: Event, fin: nat) {
    e.Arrive? ==>
      && OneFin(fin, e.s) && !FinHandshake(t, e)
      && if t.state.SynSent? then e.s.syn ==> |e.s.data| <= t.rcv.window else InWindow(t.rcv, e.s)
  }

  ghost predicate ObeyedBy(t: Tcb, es: seq<Event>, fin: nat)
    requires t.snd.una <= t.snd.next
  {
    forall k :: 0 <= k < |es| ==> var r := Run(t, es[..k]); r.tcb.Some? ==> Obeys(r.tcb.value, es[k], fin)
  }

  /** The window fits and the FIN, once counted, will not be processed again; after the peer's SYN, the right edge
      of the window does not move left. */
  ghost predicate Honest(t: Tcb, e: Effect, fin: nat) {
    e.tcb.Some? ==> && WindowFits(e.tcb.value.rcv) && Ahead(e.tcb.value, fin)
                    && (!t.state.SynSent? ==> !e.tcb.value.state.SynSent? && Edge(t.rcv) <= Edge(e.tcb.value.rcv))
  }

  lemma AheadIsSafe(t: Tcb, s: Segment, fin: nat)
    requires Ahead(t, fin) && OneFin(fin, s)
    ensures !Spoils(t, s)
  {
  }

  lemma SynSentStep(t: Tcb, e: Event, fin: nat)
    requires t.snd.una <= t.snd.next && t.state.SynSent? && WindowFits(t.rcv) && Ahead(t, fin) && Obeys(t, e, fin)
    ensures Honest(t, Next(t, e), fin)
  {
    hide Next, WindowFits, OneFin, FinHandshake;
    match e
    case Arrive(s, failAfter) => SynSentWindow(t, s, failAfter, fin);
    case AppRead(len) => ReadStep(t, len);
    case _ => OthersKeep(t, e);
  }

  lemma ReadStep(t: Tcb, len: nat)
    requires t.snd.una <= t.snd.next && WindowFits(t.rcv)
    ensures var r := Next(t, AppRead(len));
            && r.tcb.Some? && WindowFits(r.tcb.value.rcv)
            && r.tcb.value.rcv.next == t.rcv.next && r.tcb.value.state == t.state
  {
    hide Read, WindowFits, Edge;
    ReadWindow(t, len);
    ReadKeeps(t, len);
  }

  lemma StepWindow(t: Tcb, e: Event, fin: nat)
    requires t.snd.una <= t.snd.next && WindowFits(t.rcv) && Ahead(t, fin) && Obeys(t, e, fin)
    ensures Honest(t, Next(t, e), fin)
  {
    if t.state.SynSent? {
      SynSentStep(t, e, fin);
    } else {
      hide Next, WindowFits, Edge, InWindow, OneFin, FinHandshake, Ahead, Spoils;
      if e.Arrive? { AheadIsSafe(t, e.s, fin); }
      NextWindow(t, e);
      NextAhead(t, e, fin);
    }
  }

  lemma ObeyedLast(t: Tcb, es: seq<Event>, fin: nat)
    requires t.snd.una <= t.snd.next && es != [] && ObeyedBy(t, es, fin)
    ensures var n := |es| - 1;
            && ObeyedBy(t, es[..n], fin)
            && (Run(t, es[..n]).tcb.Some? ==> Obeys(Run(t, es[..n]).tcb.value, es[n], fin))
  {
    hide Run, Obeys;
    var n := |es| - 1;
    assert forall k :: 0 <= k < n ==> es[..n][..k] == es[..k] && es[..n][k] == es[k];
  }

  /** In every run against such a peer, from SYN-SENT or later, the window never exceeds the free space, no step
      after the peer's SYN takes back what was offered, and the FIN, once counted, is never processed again. */
  lemma {:induction false} RunWindow(t: Tcb, es: seq<Event>, fin: nat)
    requires t.snd.una <= t.snd.next && WindowFits(t.rcv) && Ahead(t, fin)
    requires ObeyedBy(t, es, fin)
    ensures Honest(t, Run(t, es), fin)
  {
    hide Next, WindowFits, Edge, Obeys, Ahead, ObeyedBy;
    if es != [] {
      var n := |es| - 1;
      ObeyedLast(t, es, fin);
      RunWindow(t, es[..n], fin);
      var r := Run(t, es[..n]);
      if r.tcb.Some? && r.ok {
        StepWindow(r.tcb.value, es[n], fin);
        assert Honest(r.tcb.value, Run(t, es), fin);
      }
    }
  }

  // ---------------------------------------------------------------- runs that spoil the window

  // The peer puts its first 100 bytes and its FIN on the segment that completes the handshake of a passive open,
  // or on the SYN that answers an active one; the application reads the bytes, and the peer sends them and the
  // FIN again.

  const FIRST_AND_LAST := Segment(101, 1, 60000, 0, seq(100, i => 7), false, true, false, false, true)
  const SYN_AND_LAST := Segment(100, 1, 60000, 536, seq(100, i => 7), true, true, false, false, true)

  function AfterFin(passive: bool, window: nat, buffer: Ring): (r: Tcb) {
    Tcb(Established, Snd(1, 1, 60000, 60000, if passive then 101 else 100, 1, [], false, false),
        Rcv(202, window, buffer), 536, 1460, !passive, false, passive, false, false)
  }

  lemma SpoilHandshake()
    ensures var r := Next(Opened(SynReceived, Snd(0, 1, 1, 0, 0, 0, [], true, false)), Arrive(FIRST_AND_LAST, 0));
            r.ok && r.tcb == Some(AfterFin(true, BUFFER_SIZE - 100, FIRST_AND_LAST.data))
  {
    hide Reset, EmptyAck, Outgoing;
    var t := Opened(SynReceived, Snd(1, 1, 1, 0, 0, 0, [], false, false));
    assert |FIRST_AND_LAST.data| == 100 && [] + FIRST_AND_LAST.data == FIRST_AND_LAST.data;
    assert Fresh(t.rcv, FIRST_AND_LAST) == FIRST_AND_LAST.data;
    assert Received(t.rcv, FIRST_AND_LAST, 536) == (Rcv(202, BUFFER_SIZE - 100, FIRST_AND_LAST.data), false);
    assert AdvanceAck(Opened(SynReceived, Snd(0, 1, 1, 0, 0, 0, [], true, false)), 1, 0) == Live(t);
  }

  function Opening(snd: Snd): (r: Tcb) {
    Tcb(SynSent, snd, Rcv(0, BUFFER_SIZE, []), 536, 1460, false, false, false, false, false)
  }

  lemma ActiveOpen()
    ensures Connected(0, 1460, false, 0) == Opening(Snd(0, 1, 1, 0, 0, 0, [], true, false))
  {
    hide Outgoing;
  }

  lemma SpoilSyn()
    ensures var r := Next(Opening(Snd(0, 1, 1, 0, 0, 0, [], true, false)), Arrive(SYN_AND_LAST, 0));
            r.ok && r.tcb == Some(AfterFin(false, BUFFER_SIZE - 100, SYN_AND_LAST.data))
  {
    hide Reset, EmptyAck, Outgoing;
    var t, v := Opening(Snd(1, 1, 1, 0, 0, 0, [], false, false)), Rcv(100, BUFFER_SIZE, []);
    assert |SYN_AND_LAST.data| == 100 && [] + SYN_AND_LAST.data == SYN_AND_LAST.data;
    assert Fresh(v, SYN_AND_LAST) == SYN_AND_LAST.data;
    assert Received(v, SYN_AND_LAST, 536) == (Rcv(202, BUFFER_SIZE - 100, SYN_AND_LAST.data), false);
    assert AdvanceAck(Opening(Snd(0, 1, 1, 0, 0, 0, [], true, false)), 1, 0) == Live(t);
  }

  lemma SpoilRead(passive: bool, data: Ring)
    requires |data| == 100
    ensures var r := Next(AfterFin(passive, BUFFER_SIZE - 100, data), AppRead(100));
            r.ok && r.tcb == Some(AfterFin(passive, BUFFER_SIZE - 100, []))
  {
    hide Outgoing;
  }

  /** The property fails without the last condition: every segment is inside the window and there is one FIN. */
  lemma FinHandshakeSpoils()
    ensures var t := Accepted(0, 1460, false, PEER_SYN, 0);
            var e1, e2 := Arrive(FIRST_AND_LAST, 0), AppRead(100);
            var w := Run(t, [e1, e2]);
            && Consistent(t) && WindowFits(t.rcv) && InWindow(t.rcv, FIRST_AND_LAST) && OneFin(201, FIRST_AND_LAST)
            && FinHandshake(t, e1) && w.ok && w.tcb.Some?
            && WindowFits(w.tcb.value.rcv) && InWindow(w.tcb.value.rcv, FIRST_AND_LAST)
            && !KeepsWindow(w.tcb.value.rcv, Run(t, [e1, e2, e1]))
  {
    hide Next, Accepted, Acceptable, Consistent;
    HazardOpen();
    SpoilHandshake();
    SpoilRead(true, FIRST_AND_LAST.data);
    AcceptedConsistent(0, 1460, false, PEER_SYN, 0);
    var t, e1, e2 := Accepted(0, 1460, false, PEER_SYN, 0), Arrive(FIRST_AND_LAST, 0), AppRead(100);
    Run3(t, e1, e2, e1);
    SpoilAgain(true);
  }

  /** The same from an active open. */
  lemma FinOnSynSpoils()
    ensures var t := Connected(0, 1460, false, 0);
            var e1, e2, e3 := Arrive(SYN_AND_LAST, 0), AppRead(100), Arrive(FIRST_AND_LAST, 0);
            var w := Run(t, [e1, e2]);
            && Consistent(t) && WindowFits(t.rcv) && |SYN_AND_LAST.data| <= t.rcv.window
            && OneFin(201, SYN_AND_LAST) && OneFin(201, FIRST_AND_LAST)
            && FinHandshake(t, e1) && w.ok && w.tcb.Some?
            && WindowFits(w.tcb.value.rcv) && InWindow(w.tcb.value.rcv, FIRST_AND_LAST)
            && !KeepsWindow(w.tcb.value.rcv, Run(t, [e1, e2, e3]))
  {
    hide Next, Connected, Acceptable, Consistent;
    ActiveOpen();
    SpoilSyn();
    SpoilRead(false, SYN_AND_LAST.data);
    ConnectedConsistent(0, 1460, false, 0);
    var t, e1, e2 := Connected(0, 1460, false, 0), Arrive(SYN_AND_LAST, 0), AppRead(100);
    Run3(t, e1, e2, Arrive(FIRST_AND_LAST, 0));
    SpoilAgain(false);
  }

  lemma SpoilAgain(passive: bool)
    ensures !KeepsWindow(Rcv(202, BUFFER_SIZE - 100, []),
                         Next(AfterFin(passive, BUFFER_SIZE - 100, []), Arrive(FIRST_AND_LAST, 0)))
  {
    hide Next;
    NextWindowExact(AfterFin(passive, BUFFER_SIZE - 100, []), Arrive(FIRST_AND_LAST, 0));
  }
}
