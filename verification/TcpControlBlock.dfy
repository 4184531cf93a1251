/** The TCP control block and every operation on it (kernel/net/tcp.c, kernel/net/tcp_socket.c), on values.

    Sequence numbers are unbounded: the code compares them without regard to wrap-around. Ring buffers are
    sequences of at most BUFFER_SIZE bytes; bytes read from beyond a buffer or a segment are modelled as 0.
    `failAfter` says after how many segments the interface reports its first error to a sending loop. */
module TcpControlBlock {
  import opened Common

  const BUFFER_SIZE: nat := 16384

  /** The contents of a ring buffer. */
  type Ring = s: seq<byte> | |s| <= BUFFER_SIZE

  datatype State = Closed | Listen | SynSent | SynReceived | Established | FinWait1 | FinWait2
                 | CloseWait | Closing | LastAck | TimeWait

  predicate Synchronized(s: State) { !s.Closed? && !s.Listen? && !s.SynSent? && !s.SynReceived? }

  datatype Segment = Segment(number: nat, ack: nat, window: nat, mss: nat, data: seq<byte>,
                             syn: bool, fin: bool, rst: bool, psh: bool, hasAck: bool)
  {
    function Length(): (r: nat) { |data| + Bit(syn) + Bit(fin) }
  }

  /** The send side: send_unacknowledged, send_next, the peer's window, and what is waiting to be sent. */
  datatype Snd = Snd(una: nat, next: nat, window: nat, windowMax: nat, wl1: nat, wl2: nat, buffer: Ring,
                     pendingSyn: bool, pendingFin: bool)

  /** The receive side: recv_next, recv_window and the bytes not yet read. */
  datatype Rcv = Rcv(next: nat, window: nat, buffer: Ring)

  /** `mss` is send_mss; `lastUnacked` and `ackTimer` delay acknowledgements; `closing` stands for a socket
      state of at least CLOSING. */
  datatype Tcb = Tcb(state: State, snd: Snd, rcv: Rcv, mss: nat, recvMss: nat, lastUnacked: bool, ackTimer: bool,
                     passive: bool, nodelay: bool, closing: bool)

  function Bit(b: bool): (r: nat) { if b then 1 else 0 }
  function U16(x: int): (r: nat) { x % 0x1_0000 }
  function U32(x: int): (r: nat) { x % 0x1_0000_0000 }
  function U64(x: int): (r: nat) { x % 0x1_0000_0000_0000_0000 }

  /** `n` bytes of `s` from `from` on. */
  function Bytes(s: seq<byte>, from: nat, n: nat): (r: seq<byte>)
    ensures |r| == n
    ensures from + n <= |s| ==> r == s[from..from + n]
  {
    seq(n, i requires 0 <= i => if from + i < |s| then s[from + i] else 0)
  }

  /** Advancing a ring buffer clears its full flag, so advancing a full one by nothing empties it. */
  function RingAdvance(s: Ring, n: nat): (r: Ring)
    requires n <= |s|
  {
    if n == 0 && |s| == BUFFER_SIZE then [] else s[n..]
  }

  // ---------------------------------------------------------------- sending

  /** Sequence numbers waiting in the block: the SYN, the buffered data, the FIN. */
  function Pending(d: Snd): (r: nat) { |d.buffer| + Bit(d.pendingSyn) + Bit(d.pendingFin) }

  /** A segment for sequence numbers start..end (excluded), built from the control block. */
  function Outgoing(t: Tcb, start: nat, end: nat, rst: bool): (r: Segment)
    requires t.snd.una <= start <= end
  {
    var syn := t.snd.pendingSyn && start == t.snd.una;
    var fin := t.snd.pendingFin && end == t.snd.next;
    var n := U16(end - start - Bit(syn) - Bit(fin));
    Segment(start, t.rcv.next, U16(t.rcv.window), t.recvMss, Bytes(t.snd.buffer, start - t.snd.una, n),
            syn, fin, rst, n > 0 && end - t.snd.una >= |t.snd.buffer|, !t.state.SynSent?)
  }

  /** Any segment sent from the socket counts as an acknowledgement. */
  function Acked(t: Tcb): (r: Tcb) {
    if t.ackTimer then t.(ackTimer := false, lastUnacked := false) else t
  }

  function EmptyAck(t: Tcb): (r: Segment) {
    Segment(t.snd.next, t.rcv.next, U16(t.rcv.window), 0, [], false, false, false, false, true)
  }

  function Reset(t: Tcb, s: Segment): (r: Segment) {
    if Synchronized(t.state) then Segment(t.snd.next, t.rcv.next, 0, 0, [], false, false, true, false, true)
    else if s.hasAck then Segment(s.ack, 0, 0, 0, [], false, false, true, false, false)
    else Segment(0, s.number + s.Length(), 0, 0, [], false, false, true, false, true)
  }

  /** How much the sending loop sends next: at most a segment, the usable window and what is queued. */
  function NextChunk(d: Snd, mss: nat, nodelay: bool): (r: nat)
    ensures r <= mss && (0 < r ==> r <= d.una + d.window - d.next)
    ensures d.next - d.una <= Pending(d) ==> r <= Pending(d) - (d.next - d.una)
  {
    var usable := d.una + d.window - d.next;
    if usable < 0 then 0
    else
      var queued := U32(Pending(d) - (d.next - d.una));
      var idle := nodelay || d.next == d.una;
      if || Min(usable, queued) >= mss
         || (idle && queued <= usable)
         || (idle && Min(usable, queued) >= d.windowMax / 2)
      then Min(Min(queued, mss), usable) else 0
  }

  /** The block after n more sequence numbers have been sent. */
  function Advanced(t: Tcb, n: nat): (r: Tcb)
    ensures Sends(t, r) && r.snd.next == t.snd.next + n
  {
    Acked(t.(snd := t.snd.(next := t.snd.next + n)))
  }

  /** Sending moves send_next and takes back a delayed acknowledgement, and nothing else. */
  predicate Sends(t: Tcb, r: Tcb) {
    && t.snd.next <= r.snd.next
    && r == t.(snd := t.snd.(next := r.snd.next), ackTimer := r.ackTimer, lastUnacked := r.lastUnacked)
  }

  function SendSegments(t: Tcb, failAfter: nat): (r: (Tcb, seq<Segment>))
    requires t.snd.una <= t.snd.next
    ensures Sends(t, r.0)
    ensures t.snd.next - t.snd.una <= Pending(t.snd) ==> r.0.snd.next - t.snd.una <= Pending(t.snd)
    decreases Max(0, t.snd.una + t.snd.window - t.snd.next)
  {
    hide Outgoing, NextChunk, Advanced;
    var n := NextChunk(t.snd, t.mss, t.nodelay);
    if n == 0 then (t, [])
    else
      var t1 := Advanced(t, n);
      var s := Outgoing(t.(snd := t1.snd), t.snd.next, t1.snd.next, false);
      if failAfter == 0 then (t1, [s])
      else
        var (t2, rest) := SendSegments(t1, failAfter - 1);
        (t2, [s] + rest)
  }

  /** Retransmits the oldest unacknowledged bytes. */
  function Retransmit(t: Tcb): (r: (Tcb, Segment))
    requires t.snd.una <= t.snd.next
  {
    (Acked(t), Outgoing(t, t.snd.una, t.snd.una + Min(t.snd.next - t.snd.una, t.mss), false))
  }

  // ---------------------------------------------------------------- receiving

  /** A control block (none once it is freed), the segments sent, and whether every assertion held. */
  datatype Effect = Effect(tcb: Option<Tcb>, out: seq<Segment>, ok: bool)

  function Live(t: Tcb): (r: Effect) { Effect(Some(t), [], true) }

  function After(out: seq<Segment>, e: Effect): (r: Effect) { e.(out := out + e.out) }

  predicate Acceptable(v: Rcv, s: Segment) {
    var n := s.Length();
    if n == 0 && v.window == 0 then s.number == v.next
    else if n == 0 then v.next <= s.number < v.next + v.window
    else if v.window == 0 then false
    else || v.next <= s.number < v.next + v.window
         || v.next <= s.number + n < v.next + v.window
  }

  function UpdateSendWindow(d: Snd, s: Segment): (r: Snd) {
    d.(window := s.window, windowMax := Max(d.windowMax, s.window), wl1 := s.number, wl2 := s.ack)
  }

  /** Opens the receive window to the free space when that is worth announcing. */
  function UpdateRecvWindow(v: Rcv, mss: nat): (r: (Rcv, bool)) {
    if U32(BUFFER_SIZE - |v.buffer| - v.window) >= Min(BUFFER_SIZE / 2, mss)
    then (v.(window := BUFFER_SIZE - |v.buffer|), true)
    else (v, false)
  }

  /** Consumes acknowledged sequence numbers, the SYN, then data, then the FIN, and tells how many are left
      over, which the code asserts to be none. */
  function Acknowledge(d: Snd, ack: nat): (r: (Snd, int))
    requires d.una < ack
  {
    var amount := ack - d.una - Bit(d.pendingSyn);
    var acked := Min(amount, |d.buffer|);
    var fin := d.pendingFin && amount - acked > 0;
    (d.(una := ack, pendingSyn := false, buffer := RingAdvance(d.buffer, acked), pendingFin := d.pendingFin && !fin),
     amount - acked - Bit(fin))
  }

  /** Acknowledged stays acknowledged and sent stays sent, as long as the block lives. */
  predicate Forward(t: Tcb, e: Effect) {
    e.tcb.Some? ==> var d := e.tcb.value.snd; t.snd.una <= d.una <= d.next && t.snd.next <= d.next
  }

  function AdvanceAck(t: Tcb, ack: nat, failAfter: nat): (r: Effect)
    requires t.snd.una <= ack <= t.snd.next
    ensures r.tcb.Some? && Forward(t, r)
  {
    if ack == t.snd.una then Live(t)
    else
      var (d, left) := Acknowledge(t.snd, ack);
      var t1 := t.(snd := d);
      if left != 0 then Effect(Some(t1), [], false)
      else if Synchronized(t.state) then
        var (t2, out) := SendSegments(t1, failAfter);
        Effect(Some(t2), out, true)
      else Live(t1)
  }

  /** The bytes a segment adds to the receive buffer. */
  function Fresh(v: Rcv, s: Segment): (r: seq<byte>)
    requires s.number <= v.next
    ensures |r| + |v.buffer| <= BUFFER_SIZE
  {
    var offset := v.next - s.number;
    Bytes(s.data, offset, Min(BUFFER_SIZE - |v.buffer|, U64(|s.data| - offset)))
  }

  function Received(v: Rcv, s: Segment, mss: nat): (r: (Rcv, bool))
    requires s.number <= v.next
  {
    var add := Fresh(v, s);
    UpdateRecvWindow(Rcv(v.next + Bit(s.syn) + Bit(s.fin) + |add|, U32(v.window - |add|), v.buffer + add), mss)
  }

  /** Acknowledges at once, or arms the timer that will. */
  function Announce(t: Tcb, s: Segment, widened: bool): (r: (Tcb, seq<Segment>))
    ensures r.0 == t.(ackTimer := r.0.ackTimer, lastUnacked := r.0.lastUnacked)
  {
    var now := s.psh || (s.syn && s.hasAck) || s.fin || widened || t.lastUnacked;
    var t1 := if now then (if s.rst then t else Acked(t)).(lastUnacked := false)
              else if !s.syn && !t.ackTimer then t.(ackTimer := true, lastUnacked := true)
              else t;
    (if s.syn then t1.(lastUnacked := true) else t1, if now && !s.rst then [EmptyAck(t)] else [])
  }

  function OnFin(t: Tcb, s: Segment): (r: Effect)
    ensures r.tcb.Some? && r.tcb.value.snd == t.snd
  {
    if !s.fin || t.rcv.next != s.number + s.Length() then Live(t)
    else
      var t1 := t.(closing := true);
      match t.state
      case SynSent | SynReceived | Established => Live(t1.(state := CloseWait))
      case FinWait1 => Effect(Some(t1.(state := Closing)), [], t.snd.pendingFin)
      case FinWait2 => Live(t1.(state := TimeWait))
      case _ => Live(t1)
  }

  /** The part of a segment that is in order. Data for a closed socket frees the block. */
  function TakeText(t: Tcb, s: Segment): (r: Effect)
    requires s.number <= t.rcv.next
    ensures r.tcb.Some? ==> r.tcb.value.snd == t.snd
  {
    var (v, widened) := Received(t.rcv, s, t.mss);
    if t.closing && Fresh(t.rcv, s) != [] then
      Effect(None, if s.rst then [] else [Reset(t.(rcv := t.rcv.(next := v.next)), s)], true)
    else
      var (t1, out) := Announce(t.(rcv := v), s, widened);
      After(out, OnFin(t1, s))
  }

  /** The text of a segment: nothing it does touches the send side. */
  function ProcessSegment(t: Tcb, s: Segment): (r: Effect)
    ensures r.tcb.Some? ==> r.tcb.value.snd == t.snd
  {
    match t.state
    case SynSent | SynReceived | Established | FinWait1 | FinWait2 =>
      if s.Length() == 0 then Live(t)
      else
        var t0 := if s.syn then t.(rcv := t.rcv.(next := s.number), mss := s.mss) else t;
        if s.number > t0.rcv.next then Live(t0) else TakeText(t0, s)
    case CloseWait | Closing | LastAck | TimeWait => Live(t)
    case Closed | Listen => Effect(Some(t), [], false)
  }

  function EnterEstablished(t: Tcb, s: Segment, failAfter: nat): (r: Effect)
    requires t.snd.una <= t.snd.next
    ensures Forward(t, r)
  {
    var (t1, out) := SendSegments(t.(state := Established, closing := false, snd := UpdateSendWindow(t.snd, s)),
        failAfter);
    Effect(Some(t1), out, true)
  }

  /** After an acknowledgement that moved forward: the state changes it causes, and the rest of the segment. */
  function OnAcked(t: Tcb, s: Segment): (r: Effect)
    ensures r.tcb.Some? ==> r.tcb.value.snd == t.snd
  {
    match t.state
    case FinWait1 =>
      ProcessSegment(if t.snd.pendingFin then t else t.(state := FinWait2, closing := true), s)
    case FinWait2 => ProcessSegment(t.(closing := true), s)
    case Closing => if t.snd.pendingFin then Live(t) else ProcessSegment(t.(state := TimeWait), s)
    case LastAck => Effect(None, [], !t.snd.pendingFin)
    case TimeWait => if s.rst then Live(t) else Effect(Some(Acked(t)), [EmptyAck(t)], true)
    case _ => ProcessSegment(t, s)
  }

  /** A SYN-SENT or SYN-RECEIVED block whose SYN is acknowledged; a block freed by the text would be used
      after that, which counts as a failure. */
  function Handshake(t: Tcb, s: Segment, failAfter: nat): (r: Effect)
    requires t.snd.una <= s.ack <= t.snd.next
    ensures Forward(t, r)
  {
    var a := AdvanceAck(t, s.ack, failAfter);
    if !a.ok then a
    else
      var p := After(a.out, ProcessSegment(a.tcb.value, s));
      if p.tcb.None? || !p.ok then p.(ok := false)
      else After(p.out, EnterEstablished(p.tcb.value, s, failAfter))
  }

  function RecvData(t: Tcb, s: Segment, failAfter: nat): (r: Effect)
    requires t.snd.una <= t.snd.next
    ensures Forward(t, r)
  {
    if !Acceptable(t.rcv, s) then (if s.rst then Live(t) else Effect(Some(Acked(t)), [EmptyAck(t)], true))
    else if s.rst then
      if t.state.SynReceived? && t.passive then Live(t.(state := Listen)) else Effect(None, [], true)
    else if s.syn then Effect(None, [Reset(t, s)], true)
    else if !s.hasAck then Live(t)
    else if t.state.SynReceived? then
      if t.snd.una > s.ack || s.ack > t.snd.next then After([Reset(t, s)], ProcessSegment(t, s))
      else Handshake(t, s, failAfter)
    else if !Synchronized(t.state) then Effect(Some(t), [], false)
    else if s.ack <= t.snd.una then ProcessSegment(t, s)
    else if s.ack > t.snd.next then Effect(Some(Acked(t)), [EmptyAck(t)], true)
    else
      var a := AdvanceAck(t, s.ack, failAfter);
      if !a.ok then a
      else
        var d := a.tcb.value.snd;
        var current := d.wl1 < s.number || (d.wl1 == s.number && d.wl2 <= s.ack);
        After(a.out, OnAcked(if current then a.tcb.value.(snd := UpdateSendWindow(d, s)) else a.tcb.value, s))
  }

  function RecvInSynSent(t: Tcb, s: Segment, failAfter: nat): (r: Effect)
    requires t.snd.una <= t.snd.next
    ensures Forward(t, r)
  {
    if s.hasAck && (s.ack <= t.snd.una || s.ack > t.snd.next) then
      Effect(Some(t), if s.rst then [] else [Reset(t, s)], true)
    else if s.rst then (if s.hasAck then Effect(None, [], true) else Live(t))
    else if !s.syn then Live(t)
    else if s.hasAck then Handshake(t, s, failAfter)
    else ProcessSegment(t.(state := SynReceived), s)
  }

  // ---------------------------------------------------------------- the application's calls

  /** One round of the send call: what fits in the buffer, up to where the call would block. */
  function Write(t: Tcb, data: seq<byte>, failAfter: nat): (r: (Tcb, seq<Segment>, nat))
    requires t.snd.una <= t.snd.next
  {
    match t.state
    case FinWait1 | FinWait2 | Closing | LastAck | TimeWait => (t, [], 0)
    case _ =>
      var n: nat := Min(|data|, BUFFER_SIZE - |t.snd.buffer|);
      var t1 := t.(snd := t.snd.(buffer := t.snd.buffer + data[..n]));
      if n == 0 || t.state.SynReceived? || t.state.SynSent? then (t1, [], n)
      else
        var (t2, out) := SendSegments(t1, failAfter);
        (t2, out, n)
  }

  /** One round of the receive call: what is in the buffer, up to where the call would block. */
  function Read(t: Tcb, len: nat): (r: (Tcb, seq<Segment>, seq<byte>))
    requires t.snd.una <= t.snd.next
  {
    match t.state
    case Closing | LastAck | TimeWait => (t, [], [])
    case _ =>
      var n: nat := Min(|t.rcv.buffer|, len);
      if n == 0 then (t, [], [])
      else
        var (v, widened) := UpdateRecvWindow(t.rcv.(buffer := t.rcv.buffer[n..]), t.mss);
        var t1 := t.(rcv := v);
        if widened then (Acked(t1), [Outgoing(t1, t1.snd.next, t1.snd.next, false)], t.rcv.buffer[..n])
        else (t1, [], t.rcv.buffer[..n])
  }

  function Close(t: Tcb, failAfter: nat): (r: Effect)
    requires t.snd.una <= t.snd.next
    ensures Forward(t, r)
  {
    if t.rcv.buffer != [] then Effect(None, [Outgoing(t, t.snd.next, t.snd.next, true)], true)
    else
      match t.state
      case Listen | SynSent => Effect(None, [], true)
      case SynReceived =>
        if t.snd.una == t.snd.next - 1 then CloseInto(t, FinWait1, failAfter)
        else Live(t.(snd := t.snd.(pendingFin := true)))
      case Established => CloseInto(t, FinWait1, failAfter)
      case CloseWait => CloseInto(t, LastAck, failAfter)
      case FinWait1 | FinWait2 | Closing | LastAck | TimeWait => Live(t)
      case Closed => Effect(Some(t), [], false)
  }

  function CloseInto(t: Tcb, state: State, failAfter: nat): (r: Effect)
    requires t.snd.una <= t.snd.next
    ensures Forward(t, r)
  {
    var (t1, out) := SendSegments(t.(snd := t.snd.(pendingFin := true), state := state), failAfter);
    Effect(Some(t1), out, true)
  }
}
