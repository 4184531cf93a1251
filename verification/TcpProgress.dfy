/** What is sent again, and that it moves a connection on whose segments were lost (kernel/net/tcp_socket.c,
    kernel/net/tcp.c). */
module TcpProgress {
  import opened Common
  import opened TcpControlBlock
  import opened TcpInvariants
  import opened TcpStream
  import TcpWindow

  /** The retransmission timer sends one segment from the first unacknowledged number on. It is as long as what is
      unacknowledged, or as a full segment, unless SYN and FIN are both pending and only the SYN was sent: then both
      flags are set, and the length of the data comes out as -1. */
  lemma RetransmitExact(t: Tcb)
    requires Accounted(t.snd) && t.snd.una < t.snd.next && 0 < t.mss < 0x1_0000
    ensures var r := Next(t, RetransmitTimer);
            && r.ok && r.tcb.Some? && r.tcb.value.snd == t.snd && r.tcb.value.rcv == t.rcv && |r.out| == 1
            && r.out[0].number == t.snd.una
            && (r.out[0].Length() == Min(t.snd.next - t.snd.una, t.mss) <==>
                !(t.snd.pendingSyn && t.snd.pendingFin && t.snd.next == t.snd.una + 1))
  {
    hide Bytes;
    var n := Min(t.snd.next - t.snd.una, t.mss);
    assert n < 0x1_0000;
  }

  /** Once the SYN is acknowledged the data is the front of the buffer, and a FIN is with it if and only if it has been
      sent and the segment reaches it. */
  lemma RetransmitBytes(t: Tcb)
    requires Accounted(t.snd) && t.snd.una < t.snd.next && 0 < t.mss < 0x1_0000 && !t.snd.pendingSyn
    ensures var s := Next(t, RetransmitTimer).out[0];
            var n := Min(t.snd.next - t.snd.una, t.mss);
            && !s.syn && (s.fin <==> t.snd.pendingFin && t.snd.una + n == t.snd.next)
            && n - Bit(s.fin) <= |t.snd.buffer| && s.data == t.snd.buffer[..n - Bit(s.fin)]
            && s.ack == t.rcv.next && s.window == U16(t.rcv.window) && !s.rst
  {
    hide U16, Bytes, Outgoing;
    FrontIs(t, Min(t.snd.next - t.snd.una, t.mss));
  }

  lemma FrontIs(t: Tcb, n: nat)
    requires Accounted(t.snd) && 0 < n <= t.snd.next - t.snd.una && n < 0x1_0000 && !t.snd.pendingSyn
    ensures var s := Outgoing(t, t.snd.una, t.snd.una + n, false);
            && !s.syn && (s.fin <==> t.snd.pendingFin && t.snd.una + n == t.snd.next)
            && n - Bit(s.fin) <= |t.snd.buffer| && s.data == t.snd.buffer[..n - Bit(s.fin)]
            && s.ack == t.rcv.next && s.window == U16(t.rcv.window) && !s.rst
  {
    hide Bytes;
    var m := n - Bit(t.snd.pendingFin && t.snd.una + n == t.snd.next);
    assert m <= |t.snd.buffer|;
    assert U16(m) == m;
    assert t.snd.buffer[0..0 + m] == t.snd.buffer[..m];
  }

  /** The exception is reached from a passive open that is closed before its SYN is acknowledged: the timer then sends
      65535 bytes that nobody wrote. */
  lemma RetransmitOverruns()
    ensures var t := Accepted(0, 1460, false, PEER_SYN, 0);
            var r := Run(t, [AppClose(0), RetransmitTimer]);
            && Consistent(t) && r.ok && |r.out| == 1
            && r.out[0].syn && r.out[0].fin && |r.out[0].data| == 65535
  {
    hide Next, Accepted, Consistent;
    HazardOpen();
    AcceptedConsistent(0, 1460, false, PEER_SYN, 0);
    var t := Accepted(0, 1460, false, PEER_SYN, 0);
    ClosedEarly();
    Run3(t, AppClose(0), RetransmitTimer, RetransmitTimer);
  }

  lemma ClosedEarly()
    ensures var t := Opened(SynReceived, Snd(0, 1, 1, 0, 0, 0, [], true, false));
            var u := Opened(FinWait1, Snd(0, 1, 1, 0, 0, 0, [], true, true));
            && Next(t, AppClose(0)) == Live(u)
            && var r := Next(u, RetransmitTimer);
               r.ok && |r.out| == 1 && r.out[0].syn && r.out[0].fin && |r.out[0].data| == 65535
  {
  }

  // ---------------------------------------------------------------- two endpoints

  /** Retransmitting at one endpoint and taking the segment at the other. */
  function Resend(w: World): (r: World)
    requires w.here.tcb.snd.una <= w.here.tcb.snd.next
  {
    var s := Retransmit(w.here.tcb).1;
    Step(Step(w, Action(true, RetransmitTimer)), Action(false, Arrive(s, 0)))
  }

  /** What a plain receiver does with the next bytes, if they fit its window: it takes them all. */
  lemma TakesNext(t: Tcb, s: Segment, failAfter: nat)
    requires Plain(t) && PlainSegment(s) && s.ack <= t.snd.next && TcpWindow.WindowFits(t.rcv)
    requires s.number == t.rcv.next && 0 < |s.data| <= t.rcv.window
    ensures var r := Next(t, Arrive(s, failAfter));
            && r.ok && r.tcb.Some? && r.tcb.value.rcv.next == t.rcv.next + |s.data|
            && r.tcb.value.rcv.buffer == t.rcv.buffer + s.data
  {
    hide ProcessSegment, AdvanceAck;
    TextTaken(t, s);
    if t.snd.una < s.ack {
      AckPlain(t, s.ack, failAfter);
      var u := AdvanceAck(t, s.ack, failAfter).tcb.value;
      TextTaken(u, s);
      TextTaken(u.(snd := UpdateSendWindow(u.snd, s)), s);
    }
  }

  lemma AckPlain(t: Tcb, ack: nat, failAfter: nat)
    requires Plain(t) && t.snd.una < ack <= t.snd.next
    ensures var a := AdvanceAck(t, ack, failAfter); a.ok && Plain(a.tcb.value) && a.tcb.value.rcv == t.rcv
  {
    hide SendSegments;
  }

  lemma TextTaken(t: Tcb, s: Segment)
    requires Plain(t) && PlainSegment(s) && TcpWindow.WindowFits(t.rcv)
    requires s.number == t.rcv.next && 0 < |s.data| <= t.rcv.window
    ensures Acceptable(t.rcv, s)
    ensures var r := ProcessSegment(t, s);
            && r.ok && r.tcb.Some? && r.tcb.value.rcv.next == t.rcv.next + |s.data|
            && r.tcb.value.rcv.buffer == t.rcv.buffer + s.data
  {
    assert Acceptable(t.rcv, s);
    TcpWindow.ReceivedWindow(t.rcv, s, t.mss);
    assert s.data[0..] == s.data;
    ProcessPlain(t, s);
    TcpWindow.TextRcv(t, s);
    hide ProcessSegment, Received, Fresh, Acceptable;
  }

  /** However many segments were lost: sending again moves the receiver on, by exactly the bytes sent again, if these
      are the bytes it waits for and they fit the window it has. */
  lemma ResendAdvances(w: World)
    requires Inv(w) && w.there.tcb.rcv.next == w.here.tcb.snd.una < w.here.tcb.snd.next && 0 < w.here.tcb.mss
    requires TcpWindow.WindowFits(w.there.tcb.rcv)
    requires Min(w.here.tcb.snd.next - w.here.tcb.snd.una, w.here.tcb.mss) <= w.there.tcb.rcv.window
    ensures var n := Min(w.here.tcb.snd.next - w.here.tcb.snd.una, w.here.tcb.mss);
            var r := Resend(w);
            && 0 < n && Inv(r) && r.there.tcb.rcv.next == w.there.tcb.rcv.next + n
            && n <= |w.here.tcb.snd.buffer| && r.there.accepted == w.there.accepted + w.here.tcb.snd.buffer[..n]
  {
    var t := w.here.tcb;
    var s := Retransmit(t).1;
    ResentIs(w);
    var n := Min(t.snd.next - t.snd.una, t.mss);
    hide Inv, Next, Retransmit, StepHere;
    var w1 := Step(w, Action(true, RetransmitTimer));
    ResendStep(w);
    assert Enabled(Swap(w1), Arrive(s, 0));
    SwapInv(w1);
    StepHereInv(Swap(w1), Arrive(s, 0));
    TakesNext(w1.there.tcb, s, 0);
    SwapInv(StepHere(Swap(w1), Arrive(s, 0)));
    TakenStep(Swap(w1), s);
  }

  lemma SwapInv(w: World)
    requires Inv(w)
    ensures Inv(Swap(w)) && w.here.tcb.snd.una <= w.here.tcb.snd.next && w.there.tcb.snd.una <= w.there.tcb.snd.next
  {
    hide Stream;
  }

  lemma ResentIs(w: World)
    requires Inv(w) && w.here.tcb.snd.una < w.here.tcb.snd.next && 0 < w.here.tcb.mss
    ensures var t, s := w.here.tcb, Retransmit(w.here.tcb).1;
            var n := Min(t.snd.next - t.snd.una, t.mss);
            && PlainSegment(s) && s.number == t.snd.una && n <= |t.snd.buffer| && s.data == t.snd.buffer[..n]
            && s.ack == t.rcv.next <= w.there.tcb.snd.next && Plain(w.there.tcb)
  {
    RetransmitBytes(w.here.tcb);
    hide Carries;
  }

  lemma ResendStep(w: World)
    requires Inv(w)
    ensures var w1 := Step(w, Action(true, RetransmitTimer));
            && w.here.tcb.snd.una <= w.here.tcb.snd.next
            && Inv(w1) && Retransmit(w.here.tcb).1 in w1.toThere && w1.there == w.there
  {
    assert Plain(w.here.tcb);
    StepHereInv(w, RetransmitTimer);
    hide Inv, Outgoing;
  }

  lemma TakenStep(w: World, s: Segment)
    requires w.here.tcb.snd.una <= w.here.tcb.snd.next
    requires var r := Next(w.here.tcb, Arrive(s, 0));
             r.tcb.Some? && r.tcb.value.rcv.buffer == w.here.tcb.rcv.buffer + s.data
    ensures var r := StepHere(w, Arrive(s, 0));
            r.here.tcb == Next(w.here.tcb, Arrive(s, 0)).tcb.value && r.here.accepted == w.here.accepted + s.data
  {
    hide Next, SetOf;
    var b := w.here.tcb.rcv.buffer;
    assert (b + s.data)[|b|..] == s.data;
  }

  // ---------------------------------------------------------------- the acknowledgement comes back

  /** The acknowledgement that the timer sends is heard by a peer that has everything sent before it: exactly what it
      acknowledges leaves the peer's send buffer. */
  lemma AckHeard(x: Tcb, y: Tcb, failAfter: nat)
    requires Plain(x) && Plain(y) && y.rcv.next == x.snd.next && y.snd.una < x.rcv.next <= y.snd.next
    ensures var a := Next(x, AckTimer);
            && |a.out| == 1
            && var r := Next(y, Arrive(a.out[0], failAfter));
            && r.ok && r.tcb.Some? && r.tcb.value.snd.una == x.rcv.next
            && r.tcb.value.snd.buffer == y.snd.buffer[x.rcv.next - y.snd.una..]
  {
    hide SendSegments;
    assert !y.snd.pendingFin && !y.snd.pendingSyn;
  }

  /** So a round of the timers moves the sender on. */
  lemma AckReturns(w: World)
    requires Inv(w) && w.here.tcb.snd.una < w.there.tcb.rcv.next && w.here.tcb.rcv.next == w.there.tcb.snd.next
    ensures var s := EmptyAck(w.there.tcb);
            var r := Step(Step(w, Action(false, AckTimer)), Action(true, Arrive(s, 0)));
            Inv(r) && r.here.tcb.snd.una == w.there.tcb.rcv.next
  {
    hide Inv, Next, StepHere, EmptyAck;
    var s := EmptyAck(w.there.tcb);
    var w1 := Step(w, Action(false, AckTimer));
    AckStep(w);
    StepHereInv(w1, Arrive(s, 0));
    AckHeard(w.there.tcb, w.here.tcb, 0);
    StepHereIs(w1, Arrive(s, 0));
  }

  lemma AckStep(w: World)
    requires Inv(w)
    ensures var w1 := Step(w, Action(false, AckTimer));
            && Inv(w1) && EmptyAck(w.there.tcb) in w1.toHere && w1.here == w.here
            && Next(w.there.tcb, AckTimer).out == [EmptyAck(w.there.tcb)]
            && Plain(w.here.tcb) && Plain(w.there.tcb) && w.there.tcb.rcv.next <= w.here.tcb.snd.next
            && w.here.tcb.snd.una <= w.here.tcb.snd.next
  {
    SwapInv(w);
    StepHereInv(Swap(w), AckTimer);
    SwapInv(StepHere(Swap(w), AckTimer));
    hide Carries;
  }

  lemma StepHereIs(w: World, e: Event)
    requires w.here.tcb.snd.una <= w.here.tcb.snd.next && Next(w.here.tcb, e).tcb.Some?
    ensures StepHere(w, e).here.tcb == Next(w.here.tcb, e).tcb.value
  {
    hide Next;
  }

  // ---------------------------------------------------------------- PSH

  /** PSH marks exactly the segments that carry the last byte queued. */
  lemma PushExact(t: Tcb, start: nat, end: nat)
    requires Plain(t) && t.snd.una <= start <= end <= t.snd.una + |t.snd.buffer| && end - start < 0x1_0000
    ensures var s := Outgoing(t, start, end, false);
            s.psh <==> s.data != [] && s.number + |s.data| == t.snd.una + |t.snd.buffer|
  {
    assert U16(end - start) == end - start;
  }
}
