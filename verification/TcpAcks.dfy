/** Acknowledgements, which the code delays and piggybacks (kernel/net/tcp.c, kernel/net/tcp_socket.c): in every run
    the peer has been told recv_next, or the timer that will tell it is armed. */
module TcpAcks {
  import opened Common
  import opened TcpControlBlock
  import opened TcpInvariants

  /** The last acknowledgement number the peer has been sent: `told` before `out` was. */
  function Told(told: nat, out: seq<Segment>): (r: nat) {
    if out == [] then told
    else var s := out[|out| - 1]; if s.hasAck then s.ack else Told(told, out[..|out| - 1])
  }

  /** Past SYN-SENT: nothing taken from the peer is forgotten, and the next text is acknowledged at once if this one
      waits. */
  predicate Kept(told: nat, t: Tcb) {
    !t.state.SynSent? && (told == t.rcv.next || t.ackTimer) && (t.ackTimer ==> t.lastUnacked)
  }

  ghost predicate KeptBy(told: nat, e: Effect) { e.tcb.Some? ==> Kept(Told(told, e.out), e.tcb.value) }

  lemma ToldConcat(told: nat, a: seq<Segment>, b: seq<Segment>)
    ensures Told(told, a + b) == Told(Told(told, a), b)
    decreases |b|
  {
    if b == [] {
      assert a + b == a;
    } else {
      assert (a + b)[..|a + b| - 1] == a + b[..|b| - 1];
      ToldConcat(told, a, b[..|b| - 1]);
    }
  }

  lemma ToldOne(told: nat, s: Segment)
    ensures Told(told, [s]) == if s.hasAck then s.ack else told
  {
  }

  lemma KeptAfter(told: nat, out: seq<Segment>, e: Effect)
    requires KeptBy(Told(told, out), e)
    ensures KeptBy(told, After(out, e))
  {
    hide Told, Kept;
    ToldConcat(told, out, e.out);
  }

  // ---------------------------------------------------------------- sending

  /** The sending loop tells the peer with every segment it sends, and takes back the timer only then. */
  lemma {:induction false} SendingTells(t: Tcb, failAfter: nat, told: nat)
    requires t.snd.una <= t.snd.next && Kept(told, t)
    ensures Kept(Told(told, SendSegments(t, failAfter).1), SendSegments(t, failAfter).0)
    decreases Max(0, t.snd.una + t.snd.window - t.snd.next)
  {
    hide NextChunk, Bytes, U16;
    var n := NextChunk(t.snd, t.mss, t.nodelay);
    if n != 0 {
      var t1 := Advanced(t, n);
      var s := Outgoing(t.(snd := t1.snd), t.snd.next, t1.snd.next, false);
      ToldOne(told, s);
      assert Kept(Told(told, [s]), t1);
      if failAfter != 0 {
        SendingTells(t1, failAfter - 1, Told(told, [s]));
        ToldConcat(told, [s], SendSegments(t1, failAfter - 1).1);
      }
    }
  }

  lemma AckTells(t: Tcb, ack: nat, failAfter: nat, told: nat)
    requires t.snd.una <= ack <= t.snd.next && Kept(told, t)
    ensures var r := AdvanceAck(t, ack, failAfter); KeptBy(told, r) && r.tcb.value.state == t.state
  {
    hide SendSegments;
    if t.snd.una < ack { SendingTells(t.(snd := Acknowledge(t.snd, ack).0), failAfter, told); }
  }

  // ---------------------------------------------------------------- taking text

  /** In-order text without a SYN or RST is acknowledged at once, with the new recv_next, or the timer is armed. */
  lemma TextTells(t: Tcb, s: Segment, told: nat)
    requires s.number <= t.rcv.next && !s.syn && !s.rst && Kept(told, t)
    ensures KeptBy(told, TakeText(t, s))
  {
    hide Received, Fresh, U16;
    var (v, widened) := Received(t.rcv, s, t.mss);
    var (t1, out) := Announce(t.(rcv := v), s, widened);
    if out != [] { ToldOne(told, out[0]); }
    assert Kept(Told(told, out), t1);
    assert OnFin(t1, s).out == [];
    KeptAfter(told, out, OnFin(t1, s));
  }

  /** Only one segment's text waits: while the peer has not been told, more text without a SYN or RST is answered at
      once. So is text with a PSH or a FIN, and text that opens the window. */
  lemma TextAtOnce(t: Tcb, s: Segment, told: nat)
    requires s.number <= t.rcv.next && !s.syn && !s.rst && Kept(told, t)
    ensures var r := TakeText(t, s);
            r.tcb.Some? && (told != t.rcv.next || s.psh || s.fin || Opens(t.rcv, r.tcb.value.rcv)) ==>
              && |r.out| == 1 && r.out[0].hasAck && r.out[0].ack == r.tcb.value.rcv.next
              && r.out[0].window == U16(r.tcb.value.rcv.window)
  {
    hide Fresh, U16, U32;
    var (v, widened) := Received(t.rcv, s, t.mss);
    var (t1, out) := Announce(t.(rcv := v), s, widened);
    assert out + OnFin(t1, s).out == out;
    if !widened && !s.fin { NotOpened(t.rcv, s, t.mss); }
  }

  /** The end of the window moves up, by no more than a window field can say. */
  predicate Opens(v: Rcv, w: Rcv) { v.next + v.window < w.next + w.window && w.next + w.window <= v.next + 0x1_0000 }

  lemma NotOpened(v: Rcv, s: Segment, mss: nat)
    requires s.number <= v.next && !s.syn && !s.fin && !Received(v, s, mss).1
    ensures !Opens(v, Received(v, s, mss).0)
  {
    var w := Received(v, s, mss).0;
    if |Fresh(v, s)| <= v.window < 0x1_0000_0000 { assert w.window == v.window - |Fresh(v, s)|; }
  }

  lemma ProcessKeeps(t: Tcb, s: Segment, told: nat)
    requires !s.syn && !s.rst && Kept(told, t)
    ensures KeptBy(told, ProcessSegment(t, s))
  {
    hide TakeText;
    if s.number <= t.rcv.next { TextTells(t, s, told); }
  }

  lemma OnAckedKeeps(t: Tcb, s: Segment, told: nat)
    requires !s.syn && !s.rst && Kept(told, t)
    ensures KeptBy(told, OnAcked(t, s))
  {
    hide ProcessSegment;
    ProcessKeeps(if t.snd.pendingFin then t else t.(state := FinWait2, closing := true), s, told);
    ProcessKeeps(t.(closing := true), s, told);
    ProcessKeeps(t.(state := TimeWait), s, told);
    ProcessKeeps(t, s, told);
    ToldOne(told, EmptyAck(t));
  }

  // ---------------------------------------------------------------- arrivals

  lemma HandshakeKeeps(t: Tcb, s: Segment, failAfter: nat, told: nat)
    requires t.snd.una <= s.ack <= t.snd.next && t.state.SynReceived? && !s.syn && !s.rst && Kept(told, t)
    ensures KeptBy(told, Handshake(t, s, failAfter))
  {
    hide AdvanceAck, ProcessSegment, SendSegments, Told, Kept;
    var a := AdvanceAck(t, s.ack, failAfter);
    AckTells(t, s.ack, failAfter, told);
    if a.ok {
      var p := ProcessSegment(a.tcb.value, s);
      ProcessKeeps(a.tcb.value, s, Told(told, a.out));
      KeptAfter(told, a.out, p);
      if p.tcb.Some? && p.ok { EnterKeeps(p.tcb.value, s, failAfter, told, After(a.out, p).out); }
    }
  }

  lemma EnterKeeps(t: Tcb, s: Segment, failAfter: nat, told: nat, out: seq<Segment>)
    requires t.snd.una <= t.snd.next && Kept(Told(told, out), t)
    ensures KeptBy(told, After(out, EnterEstablished(t, s, failAfter)))
  {
    hide SendSegments, Told;
    SendingTells(t.(state := Established, closing := false, snd := UpdateSendWindow(t.snd, s)), failAfter,
                 Told(told, out));
    KeptAfter(told, out, EnterEstablished(t, s, failAfter));
  }

  lemma ForwardKeeps(t: Tcb, s: Segment, failAfter: nat, told: nat)
    requires t.snd.una < s.ack <= t.snd.next && Synchronized(t.state) && !s.syn && !s.rst && s.hasAck && Kept(told, t)
    requires Acceptable(t.rcv, s)
    ensures KeptBy(told, RecvData(t, s, failAfter))
  {
    hide AdvanceAck, OnAcked, Told, Acceptable, Handshake, ProcessSegment, EmptyAck;
    var a := AdvanceAck(t, s.ack, failAfter);
    AckTells(t, s.ack, failAfter, told);
    if a.ok {
      var d := a.tcb.value.snd;
      var current := d.wl1 < s.number || (d.wl1 == s.number && d.wl2 <= s.ack);
      var u := if current then a.tcb.value.(snd := UpdateSendWindow(d, s)) else a.tcb.value;
      OnAckedKeeps(u, s, Told(told, a.out));
      KeptAfter(told, a.out, OnAcked(u, s));
    }
  }

  lemma ArriveKeeps(t: Tcb, s: Segment, failAfter: nat, told: nat)
    requires t.snd.una <= t.snd.next && Kept(told, t)
    ensures KeptBy(told, RecvData(t, s, failAfter))
  {
    if Acceptable(t.rcv, s) && !s.rst && !s.syn && s.hasAck && Synchronized(t.state)
        && t.snd.una < s.ack <= t.snd.next {
      ForwardKeeps(t, s, failAfter, told);
    } else if Acceptable(t.rcv, s) && !s.rst && !s.syn && s.hasAck && t.state.SynReceived?
        && t.snd.una <= s.ack <= t.snd.next {
      HandshakeKeeps(t, s, failAfter, told);
    } else {
      RestKeeps(t, s, failAfter, told);
    }
  }

  lemma RestKeeps(t: Tcb, s: Segment, failAfter: nat, told: nat)
    requires t.snd.una <= t.snd.next && Kept(told, t)
    requires Acceptable(t.rcv, s) && !s.rst && !s.syn && s.hasAck ==>
               if t.state.SynReceived? then !(t.snd.una <= s.ack <= t.snd.next)
               else !Synchronized(t.state) || !(t.snd.una < s.ack <= t.snd.next)
    ensures KeptBy(told, RecvData(t, s, failAfter))
  {
    hide AdvanceAck, OnAcked, Acceptable, Handshake, ProcessSegment, U16;
    ToldOne(told, EmptyAck(t));
    if !s.rst && !s.syn {
      ProcessKeeps(t, s, told);
      if t.state.SynReceived? && s.hasAck {
        ToldOne(told, Reset(t, s));
        KeptAfter(told, [Reset(t, s)], ProcessSegment(t, s));
      }
    }
  }

  /** What does not belong is answered with where things stand, unless it is a reset, and changes nothing: a segment
      outside the window, or one that acknowledges what was never sent. */
  lemma StraysAnswered(t: Tcb, s: Segment, failAfter: nat)
    requires t.snd.una <= t.snd.next && Synchronized(t.state)
    requires !Acceptable(t.rcv, s) || (!s.rst && !s.syn && s.hasAck && t.snd.next < s.ack)
    ensures var r := Next(t, Arrive(s, failAfter));
            && r.ok && r.tcb.Some?
            && r.tcb.value == t.(ackTimer := r.tcb.value.ackTimer, lastUnacked := r.tcb.value.lastUnacked)
            && if s.rst then r.out == []
               else && |r.out| == 1 && r.out[0].Length() == 0 && r.out[0].hasAck && !r.out[0].rst
                    && r.out[0].number == t.snd.next && r.out[0].ack == t.rcv.next
                    && r.out[0].window == U16(t.rcv.window)
  {
    hide Handshake, AdvanceAck, ProcessSegment, Acceptable, U16;
  }

  // ---------------------------------------------------------------- runs

  lemma CloseKeeps(t: Tcb, failAfter: nat, told: nat)
    requires t.snd.una <= t.snd.next && Kept(told, t)
    ensures KeptBy(told, Close(t, failAfter))
  {
    hide SendSegments;
    SendingTells(t.(snd := t.snd.(pendingFin := true), state := FinWait1), failAfter, told);
    SendingTells(t.(snd := t.snd.(pendingFin := true), state := LastAck), failAfter, told);
  }

  lemma WriteKeeps(t: Tcb, data: seq<byte>, failAfter: nat, told: nat)
    requires t.snd.una <= t.snd.next && Kept(told, t)
    ensures var (t1, out, _) := Write(t, data, failAfter); Kept(Told(told, out), t1)
  {
    hide SendSegments;
    var n: nat := Min(|data|, BUFFER_SIZE - |t.snd.buffer|);
    SendingTells(t.(snd := t.snd.(buffer := t.snd.buffer + data[..n])), failAfter, told);
  }

  /** Whatever happens past SYN-SENT, the peer has been told, or will be. */
  lemma NextKeeps(t: Tcb, e: Event, told: nat)
    requires t.snd.una <= t.snd.next && Kept(told, t)
    ensures KeptBy(told, Next(t, e))
  {
    hide RecvData, Write, Close, Bytes, U16;
    match e
    case Arrive(s, failAfter) => ArriveKeeps(t, s, failAfter, told);
    case AppWrite(data, failAfter) => WriteKeeps(t, data, failAfter, told);
    case AppRead(len) =>
    case AppClose(failAfter) => CloseKeeps(t, failAfter, told);
    case RetransmitTimer =>
    case AckTimer =>
  }

  /** The last acknowledgement number sent in a run. */
  function ToldIn(told: nat, t: Tcb, es: seq<Event>): (r: nat)
    requires t.snd.una <= t.snd.next
  {
    hide Next, Run;
    if es == [] then told
    else
      var before := Run(t, es[..|es| - 1]);
      var sent := ToldIn(told, t, es[..|es| - 1]);
      if before.tcb.Some? && before.ok then Told(sent, Run(t, es).out) else sent
  }

  /** An acknowledgement is never forgotten: at the end of every run past SYN-SENT, whatever arrives, the peer has
      been sent recv_next, or the timer that sends it is armed. */
  lemma {:induction false} RunKeeps(t: Tcb, es: seq<Event>, told: nat)
    requires t.snd.una <= t.snd.next && Kept(told, t)
    ensures var r := Run(t, es);
            r.tcb.Some? ==> Kept(ToldIn(told, t, es), r.tcb.value)
  {
    hide Next, Kept, Told;
    if es != [] {
      var n := |es| - 1;
      RunKeeps(t, es[..n], told);
      var r := Run(t, es[..n]);
      if r.tcb.Some? && r.ok { NextKeeps(r.tcb.value, es[n], ToldIn(told, t, es[..n])); }
    }
  }
}
