/** The state of a connection as a function of its history: whether the peer's FIN has come, whether the application
    has closed, whether our FIN is acknowledged, and which came first (kernel/net/tcp.c, kernel/net/tcp_socket.c). */
module TcpTeardown {
  import opened Common
  import opened TcpControlBlock
  import opened TcpInvariants
  import opened TcpWindow

  /** `peerFirst` says that the peer's FIN came before the close. */
  datatype Past = Past(peerFin: bool, closed: bool, acked: bool, peerFirst: bool)

  /** Nothing of it has happened. */
  const YOUNG := Past(false, false, false, false)

  /** The step from t to u has received everything up to the FIN that the segment ends in. */
  predicate FinCounted(t: Tcb, s: Segment, u: Tcb) {
    s.fin && t.rcv.next < s.number + s.Length() == u.rcv.next
  }

  /** The step from t to u has acknowledged everything that was waiting. */
  predicate AllAcked(t: Tcb, u: Tcb) { t.snd.una < u.snd.una == t.snd.una + Pending(t.snd) }

  /** What an event that leads from t to u adds to the history, seen from the numbers. */
  function Later(h: Past, t: Tcb, e: Event, u: Tcb): (r: Past) {
    Past(h.peerFin || (e.Arrive? && FinCounted(t, e.s, u)), h.closed || e.AppClose?,
         h.acked || (h.closed && AllAcked(t, u)), h.peerFirst || (e.AppClose? && !h.closed && h.peerFin))
  }

  /** The state that goes with a history. */
  function StateOf(h: Past): (r: State) {
    if !h.closed then (if h.peerFin then CloseWait else Established)
    else if !h.peerFin then (if h.acked then FinWait2 else FinWait1)
    else if h.acked then TimeWait
    else if h.peerFirst then LastAck
    else Closing
  }

  /** The block is in the state that goes with the history. Our FIN waits from the close to its acknowledgement, and
      one who closed first and is acknowledged takes no more data. When the peer closed first, the acknowledgement
      of our FIN ends the connection. */
  ghost predicate Tells(h: Past, t: Tcb) {
    && t.state == StateOf(h)
    && (t.snd.pendingFin <==> h.closed && !h.acked)
    && (h.acked ==> h.closed && !h.peerFirst) && (h.peerFirst ==> h.closed && h.peerFin)
    && (t.state.FinWait2? ==> t.closing)
  }

  ghost predicate TellsOf(h: Past, e: Effect) { e.tcb.Some? ==> Tells(h, e.tcb.value) }

  // ---------------------------------------------------------------- text

  lemma OnFinLeads(t: Tcb, s: Segment)
    requires TakesText(t.state)
    ensures var u := OnFin(t, s).tcb.value;
            && u.rcv == t.rcv && u.snd == t.snd && (t.closing ==> u.closing)
            && u.state == if !s.fin || t.rcv.next != s.number + s.Length() then t.state
                          else if t.state.FinWait1? then Closing
                          else if t.state.FinWait2? then TimeWait
                          else CloseWait
  {
  }

  lemma ReceivedAhead(v: Rcv, s: Segment, mss: nat)
    requires s.number <= v.next
    ensures var w := Received(v, s, mss).0;
            s.fin && w.next == s.number + s.Length() ==> v.next < s.number + s.Length()
  {
    hide Fresh;
  }

  lemma TextLeads(t: Tcb, s: Segment)
    requires TakesText(t.state) && !s.syn
    ensures var r := ProcessSegment(t, s);
            r.tcb.Some? ==>
              var u := r.tcb.value;
              && u.snd == t.snd && (t.closing ==> u.closing)
              && u.state == if !FinCounted(t, s, u) then t.state
                            else if t.state.FinWait1? then Closing
                            else if t.state.FinWait2? then TimeWait
                            else CloseWait
  {
    hide Received, Fresh, OnFin, Reset, EmptyAck;
    if 0 < s.Length() && s.number <= t.rcv.next {
      var (v, widened) := Received(t.rcv, s, t.mss);
      ReceivedAhead(t.rcv, s, t.mss);
      OnFinLeads(Announce(t.(rcv := v), s, widened).0, s);
    }
  }

  /** Text changes the state exactly when it completes the peer's FIN. */
  lemma ProcessTells(t: Tcb, s: Segment, h: Past)
    requires Tells(h, t) && !s.syn
    ensures var r := ProcessSegment(t, s);
            r.tcb.Some? ==> Tells(h.(peerFin := h.peerFin || FinCounted(t, s, r.tcb.value)), r.tcb.value)
  {
    if TakesText(t.state) {
      hide ProcessSegment, FinCounted;
      TextLeads(t, s);
    }
  }

  // ---------------------------------------------------------------- acknowledgements

  /** After a forward acknowledgement, and before the text. */
  lemma OnAckedTells(t: Tcb, s: Segment, h: Past)
    requires !s.syn && t.state == StateOf(h) && (h.acked ==> h.closed && !h.peerFirst)
    requires (h.peerFirst ==> h.closed && h.peerFin) && (t.state.FinWait2? ==> t.closing)
    requires (t.snd.pendingFin ==> h.closed && !h.acked) && (h.acked ==> !t.snd.pendingFin)
    ensures var h1 := h.(acked := h.closed && !t.snd.pendingFin);
            var r := OnAcked(t, s);
            r.tcb.Some? ==> Tells(h1.(peerFin := h.peerFin || FinCounted(t, s, r.tcb.value)), r.tcb.value)
  {
    hide ProcessSegment, EmptyAck, FinCounted;
    var h1 := h.(acked := h.closed && !t.snd.pendingFin);
    match t.state
    case FinWait1 =>
      var u := if t.snd.pendingFin then t else t.(state := FinWait2, closing := true);
      ProcessTells(u, s, h1);
      SameCount(t, u, s);
    case FinWait2 =>
      ProcessTells(t.(closing := true), s, h1);
      SameCount(t, t.(closing := true), s);
    case Closing =>
      if !t.snd.pendingFin {
        ProcessTells(t.(state := TimeWait), s, h1);
        SameCount(t, t.(state := TimeWait), s);
      }
    case LastAck =>
    case TimeWait =>
    case _ => ProcessTells(t, s, h1);
  }

  lemma SameCount(t: Tcb, u: Tcb, s: Segment)
    requires u.rcv == t.rcv
    ensures forall x :: FinCounted(t, s, x) == FinCounted(u, s, x)
  {
  }

  lemma AckLeads(t: Tcb, ack: nat, failAfter: nat)
    requires Consistent(t) && t.snd.una < ack <= t.snd.next && !Loses(t.snd, ack)
    ensures var a := AdvanceAck(t, ack, failAfter);
            && a.ok && a.tcb.value.snd.una == ack
            && a.tcb.value.(snd := t.snd, ackTimer := t.ackTimer, lastUnacked := t.lastUnacked) == t
            && (a.tcb.value.snd.pendingFin <==> t.snd.pendingFin && ack < t.snd.una + Pending(t.snd))
  {
    hide SendSegments;
    AdvanceAckFrame(t, ack, failAfter);
    AcknowledgeExact(t.snd, ack);
  }

  lemma ForwardTells(t: Tcb, s: Segment, failAfter: nat, h: Past)
    requires Consistent(t) && Tells(h, t) && !s.syn && t.snd.una < s.ack <= t.snd.next && !Loses(t.snd, s.ack)
    ensures var r := ForwardAck(t, s, failAfter);
            r.tcb.Some? ==>
              && r.tcb.value.snd.una == s.ack
              && Tells(Later(h, t, Arrive(s, failAfter), r.tcb.value), r.tcb.value)
  {
    hide OnAcked, AdvanceAck, Loses, FinCounted;
    AckLeads(t, s.ack, failAfter);
    var t1 := AdvanceAck(t, s.ack, failAfter).tcb.value;
    var d := t1.snd;
    var current := d.wl1 < s.number || (d.wl1 == s.number && d.wl2 <= s.ack);
    var t2 := if current then t1.(snd := UpdateSendWindow(d, s)) else t1;
    OnAckedTells(t2, s, h);
    SameCount(t, t2, s);
  }

  lemma ArriveTells(t: Tcb, s: Segment, failAfter: nat, h: Past)
    requires Consistent(t) && Tells(h, t) && !Hazard(t, Arrive(s, failAfter))
    ensures var r := RecvData(t, s, failAfter);
            r.tcb.Some? ==> Tells(Later(h, t, Arrive(s, failAfter), r.tcb.value), r.tcb.value)
  {
    hide ProcessSegment, AdvanceAck, OnAcked, Handshake, Reset, EmptyAck, FinCounted, Loses, Pending;
    if Acceptable(t.rcv, s) && !s.rst && !s.syn && s.hasAck && s.ack <= t.snd.next {
      if t.snd.una < s.ack {
        ForwardTells(t, s, failAfter, h);
      } else {
        ProcessTells(t, s, h);
      }
    } else {
      Unmoved(t, s);
    }
  }

  lemma Unmoved(t: Tcb, s: Segment)
    ensures !FinCounted(t, s, t) && !FinCounted(t, s, Acked(t))
  {
  }

  // ---------------------------------------------------------------- the application and the timers

  lemma WriteTells(t: Tcb, data: seq<byte>, failAfter: nat, h: Past)
    requires t.snd.una <= t.snd.next && Tells(h, t)
    ensures var u := Write(t, data, failAfter).0; Tells(h, u) && u.snd.una == t.snd.una
  {
    hide SendSegments;
  }

  lemma ReadTells(t: Tcb, len: nat, h: Past)
    requires t.snd.una <= t.snd.next && Tells(h, t)
    ensures var u := Read(t, len).0; Tells(h, u) && u.snd.una == t.snd.una
  {
    hide Outgoing;
  }

  lemma CloseIntoLeads(t: Tcb, state: State, failAfter: nat)
    requires t.snd.una <= t.snd.next
    ensures var r := CloseInto(t, state, failAfter);
            && r.tcb.Some? && r.tcb.value.state == state && r.tcb.value.snd.pendingFin
            && r.tcb.value.snd.una == t.snd.una && r.tcb.value.closing == t.closing
  {
    hide SendSegments;
  }

  lemma CloseTells(t: Tcb, failAfter: nat, h: Past)
    requires t.snd.una <= t.snd.next && Tells(h, t)
    ensures var r := Close(t, failAfter);
            r.tcb.Some? ==> Tells(Later(h, t, AppClose(failAfter), r.tcb.value), r.tcb.value)
  {
    hide CloseInto, Outgoing, Pending;
    CloseIntoLeads(t, FinWait1, failAfter);
    CloseIntoLeads(t, LastAck, failAfter);
  }

  /** Every event short of the two hazards leads to the state that goes with the history. */
  lemma NextTells(t: Tcb, e: Event, h: Past)
    requires Consistent(t) && Tells(h, t) && !Hazard(t, e)
    ensures var r := Next(t, e); r.tcb.Some? ==> Tells(Later(h, t, e, r.tcb.value), r.tcb.value)
  {
    hide RecvData, Write, Read, Close, Outgoing, EmptyAck, Hazard, Pending;
    match e
    case Arrive(s, failAfter) => ArriveTells(t, s, failAfter, h);
    case AppWrite(data, failAfter) => WriteTells(t, data, failAfter, h);
    case AppRead(len) => ReadTells(t, len, h);
    case AppClose(failAfter) => CloseTells(t, failAfter, h);
    case _ =>
  }

  // ---------------------------------------------------------------- runs

  /** The history of a run. */
  function History(h: Past, t: Tcb, es: seq<Event>): (r: Past)
    requires t.snd.una <= t.snd.next
  {
    hide Next, Run;
    if es == [] then h
    else
      var p := History(h, t, es[..|es| - 1]);
      var before, after := Run(t, es[..|es| - 1]), Run(t, es);
      if before.tcb.Some? && before.ok && after.tcb.Some? then Later(p, before.tcb.value, es[|es| - 1], after.tcb.value)
      else p
  }

  /** In every run of a connection past its handshake, short of the two hazards, the state is the one that goes with
      the history. */
  lemma {:induction false} RunTells(t: Tcb, es: seq<Event>, h: Past)
    requires Consistent(t) && Tells(h, t) && HazardFree(t, es)
    ensures TellsOf(History(h, t, es), Run(t, es))
  {
    hide Next, Hazard, Tells, Later;
    if es != [] {
      var n := |es| - 1;
      assert HazardFree(t, es[..n]) by {
        forall k | 0 <= k < n ensures es[..n][..k] == es[..k] {}
      }
      RunTells(t, es[..n], h);
      RunConsistent(t, es[..n]);
      var r := Run(t, es[..n]);
      if r.tcb.Some? { NextTells(r.tcb.value, es[n], History(h, t, es[..n])); }
    }
  }

  /** Spelled out: which facts go with which state. */
  lemma RunStates(t: Tcb, es: seq<Event>, h: Past)
    requires Consistent(t) && Tells(h, t) && HazardFree(t, es) && Run(t, es).tcb.Some?
    ensures var u, p := Run(t, es).tcb.value, History(h, t, es);
            && (u.state.Established? <==> !p.peerFin && !p.closed)
            && (u.state.CloseWait? <==> p.peerFin && !p.closed)
            && (u.state.FinWait1? <==> !p.peerFin && p.closed && !p.acked)
            && (u.state.FinWait2? <==> !p.peerFin && p.closed && p.acked)
            && (u.state.Closing? <==> p.peerFin && p.closed && !p.acked && !p.peerFirst)
            && (u.state.LastAck? <==> p.peerFin && p.closed && !p.acked && p.peerFirst)
            && (u.state.TimeWait? <==> p.peerFin && p.closed && p.acked)
            && (u.snd.pendingFin <==> p.closed && !p.acked)
  {
    hide Run, History, Consistent, HazardFree;
    RunTells(t, es, h);
  }

  // ---------------------------------------------------------------- the beginning

  /** Completing the handshake begins the history, also when its segment carries a FIN that is counted: only then does
      the state not go with it. */
  lemma HandshakeTells(t: Tcb, s: Segment, failAfter: nat)
    requires Consistent(t) && (t.state.SynSent? || t.state.SynReceived?) && !t.snd.pendingFin
    requires t.snd.una <= s.ack <= t.snd.next && (s.ack == t.snd.una || !Loses(t.snd, s.ack))
    ensures var r := Handshake(t, s, failAfter);
            && r.ok && r.tcb.Some? && Consistent(r.tcb.value)
            && var fin := FinCounted(t, s, r.tcb.value); Tells(YOUNG.(peerFin := fin), r.tcb.value) <==> !fin
  {
    hide ProcessSegment, AdvanceAck, SendSegments, Loses, Pending, FinCounted;
    HandshakeConsistent(t, s, failAfter);
    AdvanceAckConsistent(t, s.ack, failAfter);
    var t1 := AdvanceAck(t, s.ack, failAfter).tcb.value;
    ProcessFrees(t1, s);
    ProcessConsistent(t1, s);
  }

  /** A close before the handshake is complete begins it too. */
  lemma EarlyCloseTells(t: Tcb, failAfter: nat)
    requires Consistent(t) && t.state.SynReceived? && t.snd.next == t.snd.una + 1 && t.rcv.buffer == []
    ensures var r := Close(t, failAfter);
            r.ok && r.tcb.Some? && Consistent(r.tcb.value) && Tells(Past(false, true, false, false), r.tcb.value)
  {
    hide CloseInto, Outgoing, Consistent;
    CloseConsistent(t, failAfter);
    CloseIntoLeads(t, FinWait1, failAfter);
  }

  // ---------------------------------------------------------------- the end

  /** The text is new, and comes when our FIN is acknowledged: there is no one left to read it. */
  predicate TooLate(t: Tcb, s: Segment) {
    && (t.state.FinWait2? || AcksFin(t, s.ack))
    && s.number <= t.rcv.next && 0 < s.Length() && Fresh(t.rcv, s) != []
  }

  /** What ends a connection past its handshake. */
  predicate Ends(t: Tcb, e: Event) {
    match e
    case AppClose(_) => t.rcv.buffer != []
    case Arrive(s, _) =>
      && Acceptable(t.rcv, s)
      && (|| s.rst || s.syn
          || (s.hasAck && s.ack <= t.snd.next && ((t.state.LastAck? && t.snd.una < s.ack) || TooLate(t, s))))
    case _ => false
  }

  lemma TextEnds(t: Tcb, s: Segment)
    requires !s.syn
    ensures ProcessSegment(t, s).tcb.None? <==>
            TakesText(t.state) && t.closing && s.number <= t.rcv.next && 0 < s.Length() && Fresh(t.rcv, s) != []
  {
    hide Fresh, ProcessSegment, Received;
    if TakesText(t.state) && 0 < s.Length() && s.number <= t.rcv.next { TextRcv(t, s); } else { NoTextRcv(t, s); }
  }

  lemma OnAckedEnds(t: Tcb, s: Segment)
    requires !s.syn && Synchronized(t.state) && (t.state.Established? || t.state.FinWait1? ==> !t.closing)
    ensures OnAcked(t, s).tcb.None? <==>
            || t.state.LastAck?
            || (&& (t.state.FinWait2? || (t.state.FinWait1? && !t.snd.pendingFin))
                && s.number <= t.rcv.next && 0 < s.Length() && Fresh(t.rcv, s) != [])
  {
    hide ProcessSegment, Fresh, EmptyAck;
    TextEnds(t, s);
    TextEnds(t.(state := FinWait2, closing := true), s);
    TextEnds(t.(closing := true), s);
    TextEnds(t.(state := TimeWait), s);
  }

  lemma ForwardEnds(t: Tcb, s: Segment, failAfter: nat, h: Past)
    requires Consistent(t) && Tells(h, t) && !s.syn && t.snd.una < s.ack <= t.snd.next && !Loses(t.snd, s.ack)
    ensures ForwardAck(t, s, failAfter).tcb.None? <==> t.state.LastAck? || TooLate(t, s)
  {
    hide OnAcked, AdvanceAck, Loses, Fresh;
    AckLeads(t, s.ack, failAfter);
    var t1 := AdvanceAck(t, s.ack, failAfter).tcb.value;
    OnAckedEnds(t1, s);
    OnAckedEnds(t1.(snd := UpdateSendWindow(t1.snd, s)), s);
  }

  /** The block is freed by these events and by no others. */
  lemma EndsExactly(t: Tcb, e: Event, h: Past)
    requires Consistent(t) && Tells(h, t) && !Hazard(t, e)
    ensures Next(t, e).tcb.None? <==> Ends(t, e)
  {
    match e
    case Arrive(s, failAfter) => ArriveEnds(t, s, failAfter, h);
    case AppClose(failAfter) => CloseEnds(t, failAfter, h);
    case _ => hide Write, Read, Outgoing, EmptyAck;
  }

  lemma CloseEnds(t: Tcb, failAfter: nat, h: Past)
    requires t.snd.una <= t.snd.next && Tells(h, t)
    ensures Close(t, failAfter).tcb.None? <==> t.rcv.buffer != []
  {
    hide CloseInto, Outgoing;
    CloseIntoLeads(t, FinWait1, failAfter);
    CloseIntoLeads(t, LastAck, failAfter);
  }

  lemma ArriveEnds(t: Tcb, s: Segment, failAfter: nat, h: Past)
    requires Consistent(t) && Tells(h, t) && !Hazard(t, Arrive(s, failAfter))
    ensures RecvData(t, s, failAfter).tcb.None? <==> Ends(t, Arrive(s, failAfter))
  {
    hide ProcessSegment, AdvanceAck, OnAcked, Handshake, Reset, EmptyAck, Loses, Acceptable, Fresh;
    if Acceptable(t.rcv, s) && !s.rst && !s.syn && s.hasAck && s.ack <= t.snd.next {
      if t.snd.una < s.ack {
        ForwardEnds(t, s, failAfter, h);
      } else {
        TextEnds(t, s);
      }
    }
  }

  // ---------------------------------------------------------------- the peer is told

  /** The last segment sent is a reset. */
  predicate ResetLast(out: seq<Segment>) { out != [] && out[|out| - 1].rst }

  lemma TextResets(t: Tcb, s: Segment)
    requires !s.rst && ProcessSegment(t, s).tcb.None?
    ensures ResetLast(ProcessSegment(t, s).out)
  {
    hide Received, Fresh, Announce, OnFin;
  }

  lemma OnAckedResets(t: Tcb, s: Segment)
    requires !s.rst && !t.state.LastAck? && OnAcked(t, s).tcb.None?
    ensures ResetLast(OnAcked(t, s).out)
  {
    hide ProcessSegment, EmptyAck;
    forall u: Tcb | ProcessSegment(u, s).tcb.None? ensures ResetLast(ProcessSegment(u, s).out) { TextResets(u, s); }
  }

  /** A connection past its handshake does not end in silence: unless the peer reset it, or has just acknowledged the
      last FIN, the peer is sent a reset. */
  lemma EndTold(t: Tcb, e: Event)
    requires t.snd.una <= t.snd.next && Synchronized(t.state) && Next(t, e).tcb.None? && Next(t, e).ok
    requires e.Arrive? ==> !e.s.rst && !t.state.LastAck?
    ensures ResetLast(Next(t, e).out)
  {
    hide ProcessSegment, AdvanceAck, OnAcked, Handshake, EmptyAck, Acceptable, SendSegments, Write, Read, Bytes;
    if e.Arrive? {
      var s := e.s;
      if t.snd.una < s.ack <= t.snd.next {
        var a := AdvanceAck(t, s.ack, e.failAfter);
        AckState(t, s.ack, e.failAfter);
        var d := a.tcb.value.snd;
        var u := if d.wl1 < s.number || (d.wl1 == s.number && d.wl2 <= s.ack)
                 then a.tcb.value.(snd := UpdateSendWindow(d, s)) else a.tcb.value;
        if OnAcked(u, s).tcb.None? { OnAckedResets(u, s); }
      } else if ProcessSegment(t, s).tcb.None? {
        TextResets(t, s);
      }
    }
  }

  lemma AckState(t: Tcb, ack: nat, failAfter: nat)
    requires t.snd.una < ack <= t.snd.next
    ensures AdvanceAck(t, ack, failAfter).tcb.value.state == t.state
  {
    hide SendSegments;
  }
}
