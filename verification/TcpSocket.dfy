/** The control block as the kernel keeps it: fields updated in place by the handlers. Each handler is proved
    to do what the value model says, and so the invariants and the runs of that model hold of the object
    (kernel/net/tcp.c, kernel/net/tcp_socket.c). */
module TcpSocket {
  import opened Common
  import opened TcpControlBlock
  import opened TcpInvariants
  import opened TcpTeardown
  import opened TcpWindow

  class Socket {
    var state: State
    var una: nat
    var next: nat
    var window: nat
    var windowMax: nat
    var wl1: nat
    var wl2: nat
    var sendBuffer: Ring
    var pendingSyn: bool
    var pendingFin: bool
    var recvNext: nat
    var recvWindow: nat
    var recvBuffer: Ring
    var mss: nat
    var lastUnacked: bool
    var ackTimer: bool
    var closing: bool
    const recvMss: nat
    const passive: bool
    const nodelay: bool

    function Snd(): (r: TcpControlBlock.Snd)
      reads this
    {
      TcpControlBlock.Snd(una, next, window, windowMax, wl1, wl2, sendBuffer, pendingSyn, pendingFin)
    }

    function Rcv(): (r: TcpControlBlock.Rcv)
      reads this
    {
      TcpControlBlock.Rcv(recvNext, recvWindow, recvBuffer)
    }

    function View(): (r: Tcb)
      reads this
    {
      Tcb(state, Snd(), Rcv(), mss, recvMss, lastUnacked, ackTimer, passive, nodelay, closing)
    }

    /** The accounting and the teardown states are in order. */
    ghost predicate Valid()
      reads this
    {
      Consistent(View())
    }

    constructor (iss: nat, recvMss: nat, passive: bool, nodelay: bool)
      ensures View() == Tcb(Closed, TcpControlBlock.Snd(iss, iss, 1, 0, 0, 0, [], false, false),
                            TcpControlBlock.Rcv(0, BUFFER_SIZE, []), 536, recvMss,
                            false, false, passive, nodelay, false)
    {
      state := Closed;
      una, next, window, windowMax, wl1, wl2 := iss, iss, 1, 0, 0, 0;
      sendBuffer, recvBuffer := [], [];
      pendingSyn, pendingFin, lastUnacked, ackTimer, closing := false, false, false, false, false;
      recvNext, recvWindow, mss := 0, BUFFER_SIZE, 536;
      this.recvMss, this.passive, this.nodelay := recvMss, passive, nodelay;
    }

    /** Builds a segment; sending it stands for any acknowledgement that was being delayed. */
    method SendFromSocket(start: nat, end: nat, rst: bool) returns (s: Segment)
      requires una <= start <= end
      modifies this
      ensures s == Outgoing(old(View()), start, end, rst) && View() == Acked(old(View()))
    {
      hide U16, Bytes;
      var syn := pendingSyn && start == una;
      var fin := pendingFin && end == next;
      var n := U16(end - start - Bit(syn) - Bit(fin));
      s := Segment(start, recvNext, U16(recvWindow), recvMss, Bytes(sendBuffer, start - una, n),
                   syn, fin, rst, n > 0 && end - una >= |sendBuffer|, !state.SynSent?);
      if ackTimer {
        ackTimer, lastUnacked := false, false;
      }
    }

    method SendNext(n: nat) returns (s: Segment)
      requires una <= next
      modifies this
      ensures var t := old(View()).(snd := old(Snd()).(next := old(next) + n));
              View() == Acked(t) && s == Outgoing(t, old(next), old(next) + n, false)
    {
      hide Outgoing;
      next := next + n;
      s := SendFromSocket(next - n, next, false);
    }

    /** The sending loop. */
    method SendAll(failAfter: nat) returns (out: seq<Segment>)
      requires una <= next
      modifies this
      ensures (View(), out) == SendSegments(old(View()), failAfter)
    {
      hide Outgoing, NextChunk, SendSegments, Acked;
      out := [];
      var sent := 0;
      ghost var t, goal := View(), SendSegments(View(), failAfter);
      assert [] + goal.1 == goal.1;
      while sent <= failAfter
        invariant View() == t && t.snd.una <= t.snd.next && sent <= failAfter + 1
        invariant sent <= failAfter ==> Remains(goal, out, SendSegments(t, failAfter - sent))
        invariant sent == failAfter + 1 ==> goal == (t, out)
      {
        var n := NextChunk(Snd(), mss, nodelay);
        Unfold(t, failAfter - sent);
        if n == 0 {
          assert out + [] == out;
          return;
        }
        var s := SendNext(n);
        t := Acked(t.(snd := t.snd.(next := t.snd.next + n)));
        StillRemains(goal, out, s, if sent == failAfter then (t, []) else SendSegments(t, failAfter - sent - 1));
        out, sent := out + [s], sent + 1;
      }
    }

    /** What an acknowledgement consumes: the SYN, then data, then the FIN; and what is left over of it. */
    method Consume(ack: nat) returns (left: int)
      requires una < ack
      modifies this`una, this`sendBuffer, this`pendingSyn, this`pendingFin
      ensures (Snd(), left) == Acknowledge(old(Snd()), ack)
    {
      hide RingAdvance;
      left := ack - una;
      if pendingSyn {
        left := left - 1;
      }
      var acked := Min(left, |sendBuffer|);
      left := left - acked;
      var fin := pendingFin && left > 0;
      if fin {
        left := left - 1;
      }
      sendBuffer, pendingSyn, pendingFin, una := RingAdvance(sendBuffer, acked), false, pendingFin && !fin, ack;
    }

    /** Moves the acknowledged edge; `ok` is the assertion that the acknowledgement was consumed whole. */
    method AdvanceAckNumber(ack: nat, failAfter: nat) returns (out: seq<Segment>, ok: bool)
      requires una <= ack <= next
      modifies this
      ensures Effect(Some(View()), out, ok) == AdvanceAck(old(View()), ack, failAfter)
    {
      hide SendSegments, RingAdvance;
      out, ok := [], true;
      if ack == una { return; }
      var left := Consume(ack);
      ok := left == 0;
      if ok && Synchronized(state) {
        out := SendAll(failAfter);
      }
    }

    method UpdateWindow() returns (widened: bool)
      modifies this`recvWindow
      ensures (Rcv(), widened) == UpdateRecvWindow(old(Rcv()), mss)
    {
      widened := U32(BUFFER_SIZE - |recvBuffer| - recvWindow) >= Min(BUFFER_SIZE / 2, mss);
      if widened {
        recvWindow := BUFFER_SIZE - |recvBuffer|;
      }
    }

    /** Moves the segment's new bytes into the receive buffer. */
    method TakeData(s: Segment) returns (widened: bool)
      requires s.number <= recvNext
      modifies this`recvNext, this`recvBuffer, this`recvWindow
      ensures (Rcv(), widened) == Received(old(Rcv()), s, mss)
    {
      hide TcpControlBlock.Fresh, UpdateRecvWindow;
      var added := TcpControlBlock.Fresh(Rcv(), s);
      recvNext := recvNext + Bit(s.syn) + Bit(s.fin) + |added|;
      recvBuffer := recvBuffer + added;
      recvWindow := U32(recvWindow - |added|);
      widened := UpdateWindow();
    }

    method SendEmptyAck(s: Segment) returns (out: seq<Segment>)
      modifies this`ackTimer, this`lastUnacked
      ensures out == if s.rst then [] else [EmptyAck(old(View()))]
      ensures View() == if s.rst then old(View()) else Acked(old(View()))
    {
      if s.rst { return []; }
      out := [EmptyAck(View())];
      if ackTimer {
        ackTimer, lastUnacked := false, false;
      }
    }

    method Confirm(s: Segment, widened: bool) returns (out: seq<Segment>)
      modifies this`ackTimer, this`lastUnacked
      ensures (View(), out) == Announce(old(View()), s, widened)
    {
      hide TcpControlBlock.EmptyAck;
      out := [];
      if s.psh || (s.syn && s.hasAck) || s.fin || widened || lastUnacked {
        out := SendEmptyAck(s);
        lastUnacked := false;
      } else if !s.syn && !ackTimer {
        ackTimer, lastUnacked := true, true;
      }
      if s.syn {
        lastUnacked := true;
      }
    }

    method HandleFin(s: Segment) returns (ok: bool)
      modifies this`state, this`closing
      ensures Effect(Some(View()), [], ok) == OnFin(old(View()), s)
    {
      ok := true;
      if !s.fin || recvNext != s.number + s.Length() { return; }
      closing := true;
      match state
      case SynSent | SynReceived | Established => state := CloseWait;
      case FinWait1 =>
        ok := pendingFin;
        state := Closing;
      case FinWait2 => state := TimeWait;
      case _ =>
    }

    /** The part of a segment that is in order; `freed` tells that the block is gone. */
    method TakeInOrder(s: Segment) returns (out: seq<Segment>, freed: bool, ok: bool)
      requires s.number <= recvNext
      modifies this`recvNext, this`recvBuffer, this`recvWindow, this`ackTimer, this`lastUnacked, this`state,
               this`closing
      ensures Effect(if freed then None else Some(View()), out, ok) == TakeText(old(View()), s)
    {
      hide TcpControlBlock.Fresh, Received, Announce, OnFin, Reset;
      var before := Rcv();
      var widened := TakeData(s);
      if closing && TcpControlBlock.Fresh(before, s) != [] {
        var t := View().(rcv := before.(next := recvNext));
        return if s.rst then [] else [Reset(t, s)], true, true;
      }
      freed := false;
      out := Confirm(s, widened);
      ok := HandleFin(s);
      assert out + [] == out;
    }

    method Process(s: Segment) returns (out: seq<Segment>, freed: bool, ok: bool)
      modifies this`recvNext, this`recvBuffer, this`recvWindow, this`mss, this`ackTimer, this`lastUnacked, this`state,
               this`closing
      ensures Effect(if freed then None else Some(View()), out, ok) == ProcessSegment(old(View()), s)
    {
      hide TakeText;
      out, freed, ok := [], false, true;
      if state.CloseWait? || state.Closing? || state.LastAck? || state.TimeWait? { return; }
      if state.Closed? || state.Listen? { return [], false, false; }
      if s.Length() == 0 { return; }
      if s.syn {
        recvNext := s.number;
        mss := s.mss;
      }
      if s.number <= recvNext {
        out, freed, ok := TakeInOrder(s);
      }
    }

    /** Where an acknowledgement that moved forward leads. */
    method AfterAck(s: Segment) returns (out: seq<Segment>, freed: bool, ok: bool)
      modifies this`recvNext, this`recvBuffer, this`recvWindow, this`mss, this`ackTimer, this`lastUnacked, this`state,
               this`closing
      ensures Effect(if freed then None else Some(View()), out, ok) == OnAcked(old(View()), s)
    {
      hide ProcessSegment;
      out, freed, ok := [], false, true;
      match state
      case FinWait1 =>
        if !pendingFin {
          state := FinWait2;
          closing := true;
        }
        out, freed, ok := Process(s);
      case FinWait2 =>
        closing := true;
        out, freed, ok := Process(s);
      case Closing =>
        if !pendingFin {
          state := TimeWait;
          out, freed, ok := Process(s);
        }
      case LastAck =>
        freed, ok := true, !pendingFin;
      case TimeWait =>
        out := SendEmptyAck(s);
      case _ =>
        out, freed, ok := Process(s);
    }

    method UpdatePeerWindow(s: Segment)
      modifies this`window, this`windowMax, this`wl1, this`wl2
      ensures Snd() == UpdateSendWindow(old(Snd()), s)
    {
      window := s.window;
      windowMax := Max(windowMax, window);
      wl1 := s.number;
      wl2 := s.ack;
    }

    /** An acknowledgement beyond send_unacknowledged on a synchronised connection, and the rest of its segment. */
    method ForwardAck(s: Segment, failAfter: nat) returns (out: seq<Segment>, freed: bool, ok: bool)
      requires una < s.ack <= next && Synchronized(state)
      requires Acceptable(Rcv(), s) && !s.rst && !s.syn && s.hasAck
      modifies this
      ensures Effect(if freed then None else Some(View()), out, ok) == RecvData(old(View()), s, failAfter)
    {
      hide AdvanceAck, OnAcked, Acceptable;
      freed := false;
      out, ok := AdvanceAckNumber(s.ack, failAfter);
      if !ok { return; }
      if wl1 < s.number || (wl1 == s.number && wl2 <= s.ack) {
        UpdatePeerWindow(s);
      }
      var more;
      more, freed, ok := AfterAck(s);
      out := out + more;
    }

    method FinishHandshake(s: Segment, failAfter: nat) returns (out: seq<Segment>, freed: bool, ok: bool)
      requires una <= s.ack <= next
      modifies this
      ensures Effect(if freed then None else Some(View()), out, ok) == Handshake(old(View()), s, failAfter)
    {
      hide AdvanceAck, ProcessSegment, SendSegments;
      freed := false;
      out, ok := AdvanceAckNumber(s.ack, failAfter);
      if !ok { return; }
      var more;
      more, freed, ok := Process(s);
      out := out + more;
      if freed || !ok { return out, freed, false; }
      state, closing := Established, false;
      UpdatePeerWindow(s);
      more := SendAll(failAfter);
      out := out + more;
    }

    /** A segment for a connection past LISTEN and SYN-SENT. A block in order stays in order and no assertion
        fails, short of the two hazards, and what is acknowledged or sent stays so. */
    method Receive(s: Segment, failAfter: nat) returns (out: seq<Segment>, freed: bool, ok: bool)
      requires una <= next
      modifies this
      ensures Effect(if freed then None else Some(View()), out, ok) == RecvData(old(View()), s, failAfter)
      ensures freed || (old(una) <= una <= next && old(next) <= next)
      ensures old(Valid() && !state.SynSent? && !state.Listen? && !Hazard(View(), Arrive(s, failAfter))) ==>
                ok && (freed || Valid())
    {
      ghost var t := View();
      out, freed, ok := Take(s, failAfter);
      hide RecvData, Hazard, Consistent;
      if Consistent(t) && !t.state.SynSent? && !t.state.Listen? && !Hazard(t, Arrive(s, failAfter)) {
        RecvDataConsistent(t, s, failAfter);
      }
    }

    method Take(s: Segment, failAfter: nat) returns (out: seq<Segment>, freed: bool, ok: bool)
      requires una <= next
      modifies this
      ensures Effect(if freed then None else Some(View()), out, ok) == RecvData(old(View()), s, failAfter)
    {
      hide AdvanceAck, ProcessSegment, Handshake, OnAcked, Acceptable, Reset, EmptyAck;
      out, freed, ok := [], false, true;
      if !Acceptable(Rcv(), s) {
        out := SendEmptyAck(s);
      } else if s.rst {
        if state.SynReceived? && passive {
          state := Listen;
        } else {
          freed := true;
        }
      } else if s.syn {
        return [Reset(View(), s)], true, true;
      } else if !s.hasAck {
        return;
      } else if state.SynReceived? {
        if una > s.ack || s.ack > next {
          var reset := Reset(View(), s);
          out, freed, ok := Process(s);
          out := [reset] + out;
        } else {
          out, freed, ok := FinishHandshake(s, failAfter);
        }
      } else if !Synchronized(state) {
        ok := false;
      } else if s.ack <= una {
        out, freed, ok := Process(s);
      } else if s.ack > next {
        out := SendEmptyAck(s);
      } else {
        out, freed, ok := ForwardAck(s, failAfter);
      }
    }

    /** A segment for a connection in SYN-SENT. */
    method ReceiveInSynSent(s: Segment, failAfter: nat) returns (out: seq<Segment>, freed: bool, ok: bool)
      requires una <= next
      modifies this
      ensures Effect(if freed then None else Some(View()), out, ok) == RecvInSynSent(old(View()), s, failAfter)
    {
      hide ProcessSegment, Handshake, Reset;
      out, freed, ok := [], false, true;
      if s.hasAck && (s.ack <= una || s.ack > next) {
        out := if s.rst then [] else [Reset(View(), s)];
      } else if s.rst {
        freed := s.hasAck;
      } else if !s.syn {
        return;
      } else if s.hasAck {
        out, freed, ok := FinishHandshake(s, failAfter);
      } else {
        state := SynReceived;
        out, freed, ok := Process(s);
      }
    }

    /** Closing a block in order leaves it in order. The block is freed at once exactly when unread data would
        be lost or no connection has been made; otherwise our FIN is on its way or already acknowledged. */
    method Shutdown(failAfter: nat) returns (out: seq<Segment>, freed: bool, ok: bool)
      requires una <= next
      modifies this
      ensures Effect(if freed then None else Some(View()), out, ok) == Close(old(View()), failAfter)
      ensures old(Valid()) ==> ok && (freed || Valid())
      ensures freed <==> old(recvBuffer != [] || state.Listen? || state.SynSent?)
      ensures old(Valid()) && !freed ==> pendingFin || state.FinWait2? || state.TimeWait?
    {
      hide Close, Consistent;
      ghost var t := View();
      out, freed, ok := BeginClose(failAfter);
      CloseQueuesFin(t, failAfter);
      if Consistent(t) { CloseConsistent(t, failAfter); }
    }

    method BeginClose(failAfter: nat) returns (out: seq<Segment>, freed: bool, ok: bool)
      requires una <= next
      modifies this
      ensures Effect(if freed then None else Some(View()), out, ok) == Close(old(View()), failAfter)
    {
      hide SendSegments, Outgoing;
      out, freed, ok := [], false, true;
      if recvBuffer != [] {
        var s := SendFromSocket(next, next, true);
        return [s], true, true;
      }
      match state
      case Listen | SynSent => freed := true;
      case SynReceived =>
        pendingFin := true;
        if una == next - 1 {
          state := FinWait1;
          out := SendAll(failAfter);
        }
      case Established =>
        pendingFin, state := true, FinWait1;
        out := SendAll(failAfter);
      case CloseWait =>
        pendingFin, state := true, LastAck;
        out := SendAll(failAfter);
      case FinWait1 | FinWait2 | Closing | LastAck | TimeWait =>
      case Closed => ok := false;
    }

    /** One round of the send call: as much of the data as there is room for is queued behind what is there, and nothing
        after a close. */
    method SendTo(data: seq<byte>, failAfter: nat) returns (out: seq<Segment>, n: nat)
      requires una <= next
      modifies this
      ensures (View(), out, n) == Write(old(View()), data, failAfter)
      ensures old(Valid()) ==> Valid()
      ensures n <= |data| && sendBuffer == old(sendBuffer) + data[..n]
      ensures n == if old(HasClosed(state)) then 0 else Min(|data|, BUFFER_SIZE - |old(sendBuffer)|)
    {
      hide Write, Consistent;
      ghost var t := View();
      out, n := Enqueue(data, failAfter);
      WriteQueues(t, data, failAfter);
      if Consistent(t) { WriteConsistent(t, data, failAfter); }
    }

    method Enqueue(data: seq<byte>, failAfter: nat) returns (out: seq<Segment>, n: nat)
      requires una <= next
      modifies this
      ensures (View(), out, n) == Write(old(View()), data, failAfter)
    {
      hide SendSegments;
      out, n := [], 0;
      if state.FinWait1? || state.FinWait2? || state.Closing? || state.LastAck? || state.TimeWait? { return; }
      n := Min(|data|, BUFFER_SIZE - |sendBuffer|);
      sendBuffer := sendBuffer + data[..n];
      if n != 0 && !state.SynReceived? && !state.SynSent? {
        out := SendAll(failAfter);
      }
    }

    /** One round of the receive call: as many bytes as are asked for and there leave the front of the buffer, none
        are lost, and the window stays within the free space without taking back what was offered. It is opened to
        the free space, and announced, exactly when that gains half the buffer or a full segment. */
    method RecvFrom(len: nat) returns (out: seq<Segment>, data: seq<byte>)
      requires una <= next
      modifies this
      ensures (View(), out, data) == Read(old(View()), len)
      ensures old(Valid()) ==> Valid()
      ensures data + recvBuffer == old(recvBuffer)
      ensures |data| == if old(state.Closing? || state.LastAck? || state.TimeWait?) then 0
                        else Min(len, |old(recvBuffer)|)
      ensures old(WindowFits(Rcv())) ==>
                var space := BUFFER_SIZE - |recvBuffer|;
                if data != [] && space - old(recvWindow) >= Min(BUFFER_SIZE / 2, mss)
                then recvWindow == space && |out| == 1 && out[0].ack == recvNext && out[0].window == space
                else recvWindow == old(recvWindow) && out == []
      ensures old(WindowFits(Rcv())) ==> WindowFits(Rcv()) && old(Edge(Rcv())) <= Edge(Rcv())
    {
      hide Read, Consistent, Edge;
      ghost var t := View();
      out, data := Dequeue(len);
      ReadDequeues(t, len);
      if Consistent(t) { ReadConsistent(t, len); }
      if WindowFits(t.rcv) { ReadWindow(t, len); }
    }

    method Dequeue(len: nat) returns (out: seq<Segment>, data: seq<byte>)
      requires una <= next
      modifies this
      ensures (View(), out, data) == Read(old(View()), len)
    {
      hide Outgoing, UpdateRecvWindow;
      out, data := [], [];
      if state.Closing? || state.LastAck? || state.TimeWait? { return; }
      var n := Min(|recvBuffer|, len);
      if n == 0 { return; }
      data := recvBuffer[..n];
      recvBuffer := recvBuffer[n..];
      var widened := UpdateWindow();
      if widened {
        var s := SendFromSocket(next, next, false);
        out := [s];
      }
    }

    /** Anything that can happen to the block. */
    method Dispatch(e: Event) returns (out: seq<Segment>, freed: bool, ok: bool)
      requires una <= next
      modifies this
      ensures Effect(if freed then None else Some(View()), out, ok) == Next(old(View()), e)
    {
      hide RecvData, RecvInSynSent, Write, Read, Close, Outgoing, EmptyAck;
      out, freed, ok := [], false, true;
      match e
      case Arrive(s, failAfter) =>
        if state.SynSent? {
          out, freed, ok := ReceiveInSynSent(s, failAfter);
        } else if !state.Closed? && !state.Listen? {
          out, freed, ok := Receive(s, failAfter);
        }
      case AppWrite(data, failAfter) =>
        var n;
        out, n := SendTo(data, failAfter);
      case AppRead(len) =>
        var data;
        out, data := RecvFrom(len);
      case AppClose(failAfter) =>
        out, freed, ok := Shutdown(failAfter);
      case RetransmitTimer =>
        var s := SendFromSocket(una, una + Min(next - una, mss), false);
        out := [s];
      case AckTimer =>
        out := [EmptyAck(View())];
        ackTimer, lastUnacked := false, false;
    }

    /** A block in order stays in order and fails no assertion if and only if the event is none of the two
        hazards; it never moves back; and against a peer inside its window, the window stays within the free
        space and is never taken back if and only if no counted FIN spoils it. */
    method Handle(e: Event) returns (out: seq<Segment>, freed: bool, ok: bool)
      requires Valid()
      modifies this
      ensures Effect(if freed then None else Some(View()), out, ok) == Next(old(View()), e)
      ensures ok && (freed || Valid()) <==> !old(Hazard(View(), e))
      ensures freed || (old(una) <= una <= next && old(next) <= next)
      ensures old(!state.SynSent? && WindowFits(Rcv()) && (e.Arrive? ==> InWindow(Rcv(), e.s))) ==>
                (freed || (WindowFits(Rcv()) && old(Edge(Rcv())) <= Edge(Rcv())) <==> !old(Damages(View(), e)))
    {
      ghost var t := View();
      out, freed, ok := Dispatch(e);
      hide Next, Hazard, WindowFits, Edge, InWindow, Damages;
      NextExact(t, e);
      if !t.state.SynSent? && WindowFits(t.rcv) && (e.Arrive? ==> InWindow(t.rcv, e.s)) { NextWindowExact(t, e); }
    }

    /** A whole run on the object: it ends early only with the block freed or an assertion failed, and the theorems
        on accounting, state and window hold of where it ends. */
    method HandleAll(es: seq<Event>, ghost fin: nat, ghost h: Past) returns (freed: bool, ok: bool)
      requires Valid()
      modifies this
      ensures (if freed then None else Some(View())) == Run(old(View()), es).tcb && ok == Run(old(View()), es).ok
      ensures old(HazardFree(View(), es)) ==> ok && (freed || Valid())
      ensures old(HazardFree(View(), es) && Tells(h, View())) ==>
                freed || Tells(History(h, old(View()), es), View())
      ensures freed || (old(una) <= una <= next && old(next) <= next)
      ensures old(WindowFits(Rcv()) && Ahead(View(), fin) && ObeyedBy(View(), es, fin)) ==>
                freed || (WindowFits(Rcv()) && (old(state.SynSent?) || old(Edge(Rcv())) <= Edge(Rcv())))
    {
      hide Next, WindowFits, Edge, Ahead, ObeyedBy, HazardFree, Tells, History;
      ghost var t := View();
      freed, ok := false, true;
      var i := 0;
      while i < |es| && !freed && ok
        invariant i <= |es|
        invariant (if freed then None else Some(View())) == Run(t, es[..i]).tcb && ok == Run(t, es[..i]).ok
        invariant freed || una <= next
      {
        assert es[..i + 1][..i] == es[..i];
        var out;
        out, freed, ok := Dispatch(es[i]);
        i := i + 1;
      }
      RunStops(t, es, i);
      if HazardFree(t, es) {
        RunConsistent(t, es);
        if Tells(h, t) { RunTells(t, es, h); }
      }
      if WindowFits(t.rcv) && Ahead(t, fin) && ObeyedBy(t, es, fin) { RunWindow(t, es, fin); }
    }
  }

  /** A run that has ended stays where it ended. */
  lemma {:induction false} RunStops(t: Tcb, es: seq<Event>, i: nat)
    requires t.snd.una <= t.snd.next && i <= |es|
    requires i < |es| ==> Run(t, es[..i]).tcb.None? || !Run(t, es[..i]).ok
    ensures Run(t, es) == Run(t, es[..i])
  {
    hide Next;
    if i < |es| {
      assert es[..|es| - 1][..i] == es[..i];
      RunStops(t, es[..|es| - 1], i);
    } else {
      assert es[..i] == es;
    }
  }

  /** The application has closed its side. */
  predicate HasClosed(s: State) { s.FinWait1? || s.FinWait2? || s.Closing? || s.LastAck? || s.TimeWait? }

  /** Nothing of the data is queued out of order, and what is not queued did not fit or may not be sent. */
  lemma WriteQueues(t: Tcb, data: seq<byte>, failAfter: nat)
    requires t.snd.una <= t.snd.next
    ensures var (u, _, n) := Write(t, data, failAfter);
            && n <= |data| && u.snd.buffer == t.snd.buffer + data[..n] && u.state == t.state
            && n == if HasClosed(t.state) then 0 else Min(|data|, BUFFER_SIZE - |t.snd.buffer|)
  {
    hide SendSegments;
  }

  lemma ReadDequeues(t: Tcb, len: nat)
    requires t.snd.una <= t.snd.next
    ensures var (u, out, data) := Read(t, len);
            var over := t.state.Closing? || t.state.LastAck? || t.state.TimeWait?;
            var space := BUFFER_SIZE - |u.rcv.buffer|;
            && u.rcv.next == t.rcv.next && u.mss == t.mss
            && data + u.rcv.buffer == t.rcv.buffer && |data| == (if over then 0 else Min(len, |t.rcv.buffer|))
            && (t.rcv.window <= BUFFER_SIZE - |t.rcv.buffer| ==>
                  if data != [] && space - t.rcv.window >= Min(BUFFER_SIZE / 2, t.mss)
                  then u.rcv.window == space && |out| == 1 && out[0].ack == t.rcv.next && out[0].window == space
                  else u.rcv.window == t.rcv.window && out == [])
  {
    hide Bytes;
  }

  lemma CloseIntoQueues(t: Tcb, state: State, failAfter: nat)
    requires t.snd.una <= t.snd.next
    ensures CloseInto(t, state, failAfter).tcb.Some? && CloseInto(t, state, failAfter).tcb.value.snd.pendingFin
  {
    hide SendSegments;
  }

  lemma CloseQueuesFin(t: Tcb, failAfter: nat)
    requires t.snd.una <= t.snd.next
    ensures var r := Close(t, failAfter);
            && (r.tcb.None? <==> t.rcv.buffer != [] || t.state.Listen? || t.state.SynSent?)
            && (Consistent(t) && r.tcb.Some? ==>
                r.tcb.value.snd.pendingFin || r.tcb.value.state.FinWait2? || r.tcb.value.state.TimeWait?)
  {
    hide CloseInto, Outgoing, Accounted, Pending;
    CloseIntoQueues(t, FinWait1, failAfter);
    CloseIntoQueues(t, LastAck, failAfter);
  }

  /** The loop has emitted `out`, and `rest` is what it would still do from here. */
  ghost predicate Remains(goal: (Tcb, seq<Segment>), out: seq<Segment>, rest: (Tcb, seq<Segment>)) {
    goal.0 == rest.0 && goal.1 == out + rest.1
  }

  /** One round of the sending loop, seen from the recursion. */
  lemma Unfold(t: Tcb, failAfter: nat)
    requires t.snd.una <= t.snd.next
    ensures var n := NextChunk(t.snd, t.mss, t.nodelay);
            var t1 := t.(snd := t.snd.(next := t.snd.next + n));
            && SendSegments(t, failAfter) ==
               (if n == 0 then (t, [])
                else if failAfter == 0 then (Acked(t1), [Outgoing(t1, t.snd.next, t1.snd.next, false)])
                else (SendSegments(Acked(t1), failAfter - 1).0,
                      [Outgoing(t1, t.snd.next, t1.snd.next, false)] + SendSegments(Acked(t1), failAfter - 1).1))
            && Acked(t1).snd == t1.snd
  {
    hide Outgoing, NextChunk;
  }

  lemma StillRemains(goal: (Tcb, seq<Segment>), out: seq<Segment>, s: Segment, rest: (Tcb, seq<Segment>))
    requires Remains(goal, out, (rest.0, [s] + rest.1))
    ensures Remains(goal, out + [s], rest)
  {
  }
}
