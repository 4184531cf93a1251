/** Two established TCP endpoints over a network that loses, repeats and reorders segments: the bytes one side
    accepts are exactly a prefix of the bytes the other side wrote (kernel/net/tcp.c, kernel/net/tcp_socket.c). */
module TcpStream {
  import opened Common
  import opened TcpControlBlock
  import opened TcpInvariants

  /** An endpoint with its history: what its application wrote, what it accepted from the peer, and what its
      application read. `iss` is the sequence number of the first byte written. */
  datatype Side = Side(tcb: Tcb, iss: nat, written: seq<byte>, accepted: seq<byte>, read: seq<byte>)

  /** A network keeps every segment ever sent: any of them may arrive, at any time, any number of times. */
  datatype World = World(here: Side, there: Side, toHere: set<Segment>, toThere: set<Segment>)

  function Swap(w: World): (r: World) { World(w.there, w.here, w.toThere, w.toHere) }

  function SetOf(s: seq<Segment>): (r: set<Segment>) { set x | x in s }

  predicate Enabled(w: World, e: Event) { (e.Arrive? ==> e.s in w.toHere) && !e.AppClose? }

  /** The endpoint `here` handles an event. */
  function StepHere(w: World, e: Event): (r: World)
    requires w.here.tcb.snd.una <= w.here.tcb.snd.next
  {
    var t := w.here.tcb;
    var n := Next(t, e);
    if n.tcb.None? then w
    else
      var u := n.tcb.value;
      var wrote := if e.AppWrite? then e.data[..Write(t, e.data, e.failAfter).2] else [];
      var took := if e.Arrive? && |t.rcv.buffer| <= |u.rcv.buffer| then u.rcv.buffer[|t.rcv.buffer|..] else [];
      var read := if e.AppRead? then Read(t, e.len).2 else [];
      World(Side(u, w.here.iss, w.here.written + wrote, w.here.accepted + took, w.here.read + read), w.there,
            w.toHere, w.toThere + SetOf(n.out))
  }

  /** Something happens at one of the two endpoints; what cannot happen is skipped. */
  datatype Action = Action(atHere: bool, e: Event)

  function Step(w: World, a: Action): (r: World) {
    var v := if a.atHere then w else Swap(w);
    if v.here.tcb.snd.una <= v.here.tcb.snd.next && Enabled(v, a.e) then
      var u := StepHere(v, a.e);
      if a.atHere then u else Swap(u)
    else w
  }

  function Play(w: World, acts: seq<Action>): (r: World) {
    if acts == [] then w else Step(Play(w, acts[..|acts| - 1]), acts[|acts| - 1])
  }

  /** A connection just established: nothing written, nothing under way, both sides agree where they start. */
  ghost predicate Start(w: World) {
    && JustOpened(w.here, w.there) && JustOpened(w.there, w.here)
    && w.toHere == {} && w.toThere == {}
  }

  ghost predicate JustOpened(x: Side, y: Side) {
    && Plain(x.tcb) && x.tcb.snd.una == x.tcb.snd.next == x.iss == y.tcb.rcv.next
    && x.tcb.snd.buffer == [] && x.tcb.rcv.buffer == []
    && x.written == [] && x.accepted == [] && x.read == []
  }

  // ---------------------------------------------------------------- the invariant

  ghost predicate Plain(t: Tcb) {
    && t.state.Established? && !t.closing && !t.snd.pendingSyn && !t.snd.pendingFin
    && Accounted(t.snd) && t.mss < 0x1_0000
  }

  ghost predicate PlainSegment(s: Segment) { !s.syn && !s.fin && !s.rst && s.hasAck }

  /** The segment carries bytes x wrote, at their place in its stream, none beyond what it has sent. */
  ghost predicate Carries(s: Segment, iss: nat, written: seq<byte>, next: nat) {
    && PlainSegment(s)
    && iss <= s.number && s.number + |s.data| <= next <= iss + |written|
    && s.data == written[s.number - iss..s.number - iss + |s.data|]
  }

  /** The send side holds exactly the bytes written and not yet acknowledged. */
  ghost predicate Holds(d: Snd, iss: nat, written: seq<byte>) {
    && iss <= d.una && d.next <= iss + |written|
    && d.una <= iss + |written| && d.buffer == written[d.una - iss..]
  }

  /** The stream from `x` to `y`. */
  ghost predicate Stream(x: Side, y: Side, toY: set<Segment>, toX: set<Segment>) {
    && Holds(x.tcb.snd, x.iss, x.written)
    && x.tcb.snd.una <= y.tcb.rcv.next <= x.tcb.snd.next
    && y.accepted == x.written[..y.tcb.rcv.next - x.iss]
    && (forall s <- toY :: Carries(s, x.iss, x.written, x.tcb.snd.next))
    && (forall s <- toX :: s.ack <= y.tcb.rcv.next)
  }

  ghost predicate Inv(w: World) {
    && Plain(w.here.tcb) && Plain(w.there.tcb)
    && Stream(w.here, w.there, w.toThere, w.toHere) && Stream(w.there, w.here, w.toHere, w.toThere)
    && w.here.accepted == w.here.read + w.here.tcb.rcv.buffer
    && w.there.accepted == w.there.read + w.there.tcb.rcv.buffer
  }

  // ---------------------------------------------------------------- what one endpoint does

  ghost predicate AllCarry(out: seq<Segment>, iss: nat, written: seq<byte>, next: nat, ack: nat) {
    forall s <- out :: Carries(s, iss, written, next) && s.ack <= ack
  }

  lemma OutgoingCarries(t: Tcb, start: nat, end: nat, iss: nat, written: seq<byte>)
    requires Plain(t) && Holds(t.snd, iss, written)
    requires t.snd.una <= start <= end <= t.snd.next && end - start <= t.mss
    ensures Carries(Outgoing(t, start, end, false), iss, written, t.snd.next)
    ensures Outgoing(t, start, end, false).ack == t.rcv.next
  {
    var from, n := start - t.snd.una, end - start;
    assert written[t.snd.una - iss..][from..from + n] == written[start - iss..start - iss + n];
  }

  lemma CarriesLater(s: Segment, iss: nat, written: seq<byte>, next: nat, more: seq<byte>, next': nat)
    requires Carries(s, iss, written, next) && next <= next' <= iss + |written + more|
    ensures Carries(s, iss, written + more, next')
  {
    assert (written + more)[s.number - iss..s.number - iss + |s.data|] ==
        written[s.number - iss..s.number - iss + |s.data|];
  }

  lemma AllCarryConcat(a: seq<Segment>, b: seq<Segment>, iss: nat, written: seq<byte>, next: nat, next': nat, ack: nat,
          ack': nat)
    requires AllCarry(a, iss, written, next, ack) && AllCarry(b, iss, written, next', ack')
    requires next <= next' <= iss + |written| && ack <= ack'
    ensures AllCarry(a + b, iss, written, next', ack')
  {
    hide Carries;
    assert written + [] == written;
    forall s <- a
      ensures Carries(s, iss, written, next') && s.ack <= ack'
    {
      CarriesLater(s, iss, written, next, [], next');
    }
  }

  /** A round of the sending loop keeps the block plain, and the segment it builds is the stream's own. */
  lemma RoundCarries(t: Tcb, n: nat, iss: nat, written: seq<byte>)
    requires Plain(t) && Holds(t.snd, iss, written) && n == NextChunk(t.snd, t.mss, t.nodelay)
    ensures var t1 := Advanced(t, n);
            && Plain(t1) && Holds(t1.snd, iss, written) && t1.rcv == t.rcv
            && AllCarry([Outgoing(t.(snd := t1.snd), t.snd.next, t1.snd.next, false)],
                        iss, written, t1.snd.next, t.rcv.next)
  {
    hide NextChunk, Outgoing, Carries, AllCarry, Advanced;
    OneCarries(t.(snd := Advanced(t, n).snd), t.snd.next, Advanced(t, n).snd.next, iss, written);
  }

  /** Everything the sending loop emits is the stream's own bytes. */
  lemma {:induction false} SendingCarries(t: Tcb, failAfter: nat, iss: nat, written: seq<byte>)
    requires Plain(t) && Holds(t.snd, iss, written)
    ensures var (u, out) := SendSegments(t, failAfter);
            && Plain(u) && Holds(u.snd, iss, written)
            && AllCarry(out, iss, written, u.snd.next, t.rcv.next)
    decreases failAfter
  {
    hide NextChunk, Outgoing, Carries, AllCarry, Advanced, Plain, Holds;
    var n := NextChunk(t.snd, t.mss, t.nodelay);
    NoneCarry(iss, written, t.snd.next, t.rcv.next);
    RoundCarries(t, n, iss, written);
    Bounds(t, iss, written);
    if n != 0 && failAfter != 0 {
      var t1 := Advanced(t, n);
      var (u, rest) := SendSegments(t1, failAfter - 1);
      SendingCarries(t1, failAfter - 1, iss, written);
      Bounds(u, iss, written);
      AllCarryConcat([Outgoing(t.(snd := t1.snd), t.snd.next, t1.snd.next, false)], rest, iss, written,
                     t1.snd.next, u.snd.next, t.rcv.next, t.rcv.next);
    }
  }

  lemma Bounds(t: Tcb, iss: nat, written: seq<byte>)
    requires Plain(t) && Holds(t.snd, iss, written)
    ensures t.snd.una <= t.snd.next <= iss + |written|
  {
  }

  lemma NoneCarry(iss: nat, written: seq<byte>, next: nat, ack: nat)
    ensures AllCarry([], iss, written, next, ack)
  {
  }

  lemma OneCarries(t: Tcb, start: nat, end: nat, iss: nat, written: seq<byte>)
    requires Plain(t) && Holds(t.snd, iss, written)
    requires t.snd.una <= start <= end <= t.snd.next && end - start <= t.mss
    ensures AllCarry([Outgoing(t, start, end, false)], iss, written, t.snd.next, t.rcv.next)
  {
    hide Outgoing, Carries;
    OutgoingCarries(t, start, end, iss, written);
  }

  lemma AckCarries(t: Tcb, ack: nat, failAfter: nat, iss: nat, written: seq<byte>)
    requires Plain(t) && Holds(t.snd, iss, written) && t.snd.una < ack <= t.snd.next
    ensures var a := AdvanceAck(t, ack, failAfter);
            && a.ok && Plain(a.tcb.value) && Holds(a.tcb.value.snd, iss, written)
            && a.tcb.value.snd.una == ack && a.tcb.value.rcv == t.rcv
            && AllCarry(a.out, iss, written, a.tcb.value.snd.next, t.rcv.next)
  {
    hide SendSegments, Carries;
    var d := Acknowledge(t.snd, ack).0;
    assert d.buffer == t.snd.buffer[ack - t.snd.una..];
    assert d.buffer == written[ack - iss..];
    SendingCarries(t.(snd := d), failAfter, iss, written);
  }

  /** The receive side moves from `v` to `w` by bytes of the segment that come next, if at all. */
  ghost predicate Progress(v: Rcv, w: Rcv, s: Segment) {
    || (w.next == v.next && w.buffer == v.buffer)
    || (&& s.number <= v.next <= w.next <= s.number + |s.data|
        && w.buffer == v.buffer + s.data[v.next - s.number..w.next - s.number])
  }

  lemma ReceivedProgress(v: Rcv, s: Segment, mss: nat)
    requires PlainSegment(s) && Acceptable(v, s) && s.number <= v.next && 0 < s.Length()
    ensures Progress(v, Received(v, s, mss).0, s)
  {
    var offset, n := v.next - s.number, |Fresh(v, s)|;
    assert offset + n <= |s.data|;
    assert Fresh(v, s) == s.data[offset..offset + n];
    hide Fresh, Acceptable;
  }

  lemma ProcessPlain(t: Tcb, s: Segment)
    requires Plain(t) && PlainSegment(s) && Acceptable(t.rcv, s)
    ensures var p := ProcessSegment(t, s);
            && p.ok && p.tcb.Some? && Plain(p.tcb.value) && p.tcb.value.snd == t.snd
            && Progress(t.rcv, p.tcb.value.rcv, s)
            && (p.out == [] || p.out == [EmptyAck(p.tcb.value)])
  {
    hide Acceptable, Received, Accounted;
    if 0 < s.Length() && s.number <= t.rcv.next { ReceivedProgress(t.rcv, s, t.mss); }
  }

  lemma EmptyAckCarries(t: Tcb, iss: nat, written: seq<byte>)
    requires Plain(t) && Holds(t.snd, iss, written)
    ensures Carries(EmptyAck(t), iss, written, t.snd.next)
  {
  }

  /** The effect of one event on a plain endpoint: its own stream goes on, the peer's stream makes progress. */
  ghost predicate Moves(t: Tcb, e: Effect, iss: nat, written: seq<byte>, ack: nat) {
    && e.ok && e.tcb.Some? && Plain(e.tcb.value)
    && Holds(e.tcb.value.snd, iss, written)
    && t.snd.next <= e.tcb.value.snd.next
    && (e.tcb.value.snd.una == t.snd.una || (t.snd.una < ack && e.tcb.value.snd.una == ack))
    && t.rcv.next <= e.tcb.value.rcv.next
    && AllCarry(e.out, iss, written, e.tcb.value.snd.next, e.tcb.value.rcv.next)
  }

  lemma ProcessMoves(t: Tcb, s: Segment, iss: nat, written: seq<byte>)
    requires Plain(t) && PlainSegment(s) && Acceptable(t.rcv, s) && Holds(t.snd, iss, written)
    ensures Moves(t, ProcessSegment(t, s), iss, written, 0) && Progress(t.rcv, ProcessSegment(t, s).tcb.value.rcv, s)
  {
    hide Acceptable, ProcessSegment, Carries, Holds, EmptyAck;
    ProcessPlain(t, s);
    assert EmptyAck(ProcessSegment(t, s).tcb.value).ack == ProcessSegment(t, s).tcb.value.rcv.next by {
      EmptyAckIs(ProcessSegment(t, s).tcb.value);
    }
    EmptyAckCarries(ProcessSegment(t, s).tcb.value, iss, written);
  }

  lemma EmptyAckIs(t: Tcb)
    ensures EmptyAck(t).ack == t.rcv.next
  {
  }

  lemma ArriveMoves(t: Tcb, s: Segment, failAfter: nat, iss: nat, written: seq<byte>)
    requires Plain(t) && PlainSegment(s) && Holds(t.snd, iss, written) && s.ack <= t.snd.next
    ensures var e := Next(t, Arrive(s, failAfter));
            Moves(t, e, iss, written, s.ack) && Progress(t.rcv, e.tcb.value.rcv, s)
  {
    hide Acceptable, ProcessSegment, Carries, AllCarry, Holds, EmptyAck, AdvanceAck, UpdateSendWindow, Accounted;
    if !Acceptable(t.rcv, s) {
      EmptyAckMoves(t, iss, written);
    } else if s.ack <= t.snd.una {
      ProcessMoves(t, s, iss, written);
    } else {
      ForwardAckMoves(t, s, failAfter, iss, written);
    }
  }

  lemma EmptyAckMoves(t: Tcb, iss: nat, written: seq<byte>)
    requires Plain(t) && Holds(t.snd, iss, written)
    ensures Moves(t, Effect(Some(Acked(t)), [EmptyAck(t)], true), iss, written, 0)
  {
    EmptyAckCarries(t, iss, written);
  }

  lemma ForwardAckMoves(t: Tcb, s: Segment, failAfter: nat, iss: nat, written: seq<byte>)
    requires Plain(t) && PlainSegment(s) && Holds(t.snd, iss, written) && t.snd.una < s.ack <= t.snd.next
    requires Acceptable(t.rcv, s)
    ensures var e := RecvData(t, s, failAfter);
            Moves(t, e, iss, written, s.ack) && Progress(t.rcv, e.tcb.value.rcv, s)
  {
    hide Acceptable, ProcessSegment, Carries, AllCarry, AdvanceAck;
    AckCarries(t, s.ack, failAfter, iss, written);
    var a := AdvanceAck(t, s.ack, failAfter);
    var d := a.tcb.value.snd;
    var current := d.wl1 < s.number || (d.wl1 == s.number && d.wl2 <= s.ack);
    var t1 := if current then a.tcb.value.(snd := UpdateSendWindow(d, s)) else a.tcb.value;
    ProcessMoves(t1, s, iss, written);
    var p := ProcessSegment(t1, s);
    AllCarryConcat(a.out, p.out, iss, written, t1.snd.next, t1.snd.next, t.rcv.next, p.tcb.value.rcv.next);
  }

  lemma WriteMoves(t: Tcb, data: seq<byte>, failAfter: nat, iss: nat, written: seq<byte>)
    requires Plain(t) && Holds(t.snd, iss, written)
    ensures var n := Write(t, data, failAfter).2;
            n <= |data| && Moves(t, Next(t, AppWrite(data, failAfter)), iss, written + data[..n], 0)
    ensures Next(t, AppWrite(data, failAfter)).tcb.value.rcv == t.rcv
  {
    hide SendSegments, Carries, AllCarry;
    var n := Write(t, data, failAfter).2;
    var t1 := t.(snd := t.snd.(buffer := t.snd.buffer + data[..n]));
    var more := written + data[..n];
    assert t1.snd.buffer == more[t.snd.una - iss..];
    SendingCarries(t1, failAfter, iss, more);
    NoneCarry(iss, more, t.snd.next, t.rcv.next);
  }

  lemma ReadMoves(t: Tcb, len: nat, iss: nat, written: seq<byte>)
    requires Plain(t) && Holds(t.snd, iss, written)
    ensures Moves(t, Next(t, AppRead(len)), iss, written, 0)
    ensures var u := Next(t, AppRead(len)).tcb.value;
            u.rcv.next == t.rcv.next && Read(t, len).2 + u.rcv.buffer == t.rcv.buffer
  {
    hide Outgoing, Carries, AllCarry, Holds;
    NoneCarry(iss, written, t.snd.next, t.rcv.next);
    var t1 := t.(rcv := UpdateRecvWindow(t.rcv.(buffer := t.rcv.buffer[Min(|t.rcv.buffer|, len)..]), t.mss).0);
    OneCarries(t1, t1.snd.next, t1.snd.next, iss, written);
  }

  lemma RetransmitMoves(t: Tcb, iss: nat, written: seq<byte>)
    requires Plain(t) && Holds(t.snd, iss, written)
    ensures Moves(t, Next(t, RetransmitTimer), iss, written, 0)
  {
    hide Outgoing, Carries, AllCarry;
    OneCarries(t, t.snd.una, t.snd.una + Min(t.snd.next - t.snd.una, t.mss), iss, written);
  }

  // ---------------------------------------------------------------- what the two streams keep

  /** `x` has moved: its stream to `y` holds with the segments it sent. */
  lemma StreamSent(x: Side, y: Side, toY: set<Segment>, toX: set<Segment>, e: Effect, more: seq<byte>, ack: nat)
    requires Stream(x, y, toY, toX) && Moves(x.tcb, e, x.iss, x.written + more, ack) && ack <= y.tcb.rcv.next
    ensures Stream(x.(tcb := e.tcb.value, written := x.written + more), y, toY + SetOf(e.out), toX)
  {
    hide Carries;
    var u, written := e.tcb.value, x.written + more;
    assert u.snd.next <= x.iss + |written| by { assert Holds(u.snd, x.iss, written); }
    forall s <- toY + SetOf(e.out) ensures Carries(s, x.iss, written, u.snd.next) {
      if s in toY { CarriesLater(s, x.iss, x.written, x.tcb.snd.next, more, u.snd.next); }
    }
    assert y.accepted == written[..y.tcb.rcv.next - x.iss];
  }

  /** `y` has moved: the stream from `x` holds with what `y` took of it and the acknowledgements it sent. */
  lemma StreamTaken(x: Side, y: Side, toY: set<Segment>, toX: set<Segment>, e: Effect, took: seq<byte>)
    requires Stream(x, y, toY, toX) && e.tcb.Some?
    requires y.tcb.rcv.next <= e.tcb.value.rcv.next <= x.tcb.snd.next
    requires y.accepted + took == x.written[..e.tcb.value.rcv.next - x.iss]
    requires forall s <- e.out :: s.ack <= e.tcb.value.rcv.next
    ensures Stream(x, y.(tcb := e.tcb.value, accepted := y.accepted + took), toY, toX + SetOf(e.out))
  {
  }

  lemma SliceOfSlice<T>(s: seq<T>, lo: nat, hi: nat, i: nat, j: nat)
    requires lo <= hi <= |s| && i <= j <= hi - lo
    ensures s[lo..hi][i..j] == s[lo + i..lo + j]
  {
    var t := s[lo..hi];
    forall k | 0 <= k < j - i ensures t[i..j][k] == s[lo + i..lo + j][k] {
      assert t[i..j][k] == t[i + k];
    }
  }

  lemma TakeAndSlice<T>(s: seq<T>, i: nat, j: nat)
    requires i <= j <= |s|
    ensures s[..i] + s[i..j] == s[..j]
  {
    assert s[..j][..i] == s[..i] && s[..j][i..] == s[i..j];
  }

  lemma ProgressTakes(x: Side, y: Side, toY: set<Segment>, toX: set<Segment>, w: Rcv, s: Segment)
    requires Stream(x, y, toY, toX) && s in toY && Progress(y.tcb.rcv, w, s)
    ensures |y.tcb.rcv.buffer| <= |w.buffer| && y.tcb.rcv.next <= w.next <= x.tcb.snd.next
    ensures var took := w.buffer[|y.tcb.rcv.buffer|..];
            y.accepted + took == x.written[..w.next - x.iss] && w.buffer == y.tcb.rcv.buffer + took
  {
    hide Carries, Progress;
    assert Carries(s, x.iss, x.written, x.tcb.snd.next);
    BytesTaken(x.iss, x.written, x.tcb.snd.next, y.tcb.rcv, w, s, y.accepted);
  }

  lemma BytesTaken(iss: nat, written: seq<byte>, next: nat, v: Rcv, w: Rcv, s: Segment, accepted: seq<byte>)
    requires Carries(s, iss, written, next) && Progress(v, w, s) && iss <= v.next <= next
    requires accepted == written[..v.next - iss]
    ensures |v.buffer| <= |w.buffer| && v.next <= w.next <= next
    ensures var took := w.buffer[|v.buffer|..];
            accepted + took == written[..w.next - iss] && w.buffer == v.buffer + took
  {
    var took := w.buffer[|v.buffer|..];
    if w.next == v.next && w.buffer == v.buffer {
      assert took == [];
    } else {
      SliceOfSlice(written, s.number - iss, s.number - iss + |s.data|, v.next - s.number, w.next - s.number);
      TakeAndSlice(written, v.next - iss, w.next - iss);
      assert took == s.data[v.next - s.number..w.next - s.number];
    }
  }

  /** Putting the two streams together after an event. */
  lemma Settle(w: World, n: Effect, more: seq<byte>, took: seq<byte>, read: seq<byte>, ack: nat)
    requires Inv(w)
    requires Moves(w.here.tcb, n, w.here.iss, w.here.written + more, ack) && ack <= w.there.tcb.rcv.next
    requires w.there.iss <= n.tcb.value.rcv.next <= w.there.tcb.snd.next <= w.there.iss + |w.there.written|
    requires w.here.accepted + took == w.there.written[..n.tcb.value.rcv.next - w.there.iss]
    requires w.here.tcb.rcv.buffer + took == read + n.tcb.value.rcv.buffer
    ensures Inv(World(Side(n.tcb.value, w.here.iss, w.here.written + more, w.here.accepted + took, w.here.read + read),
                      w.there, w.toHere, w.toThere + SetOf(n.out)))
  {
    hide Plain, Holds, Carries;
    assert forall s <- n.out :: s.ack <= n.tcb.value.rcv.next;
    hide Stream, AllCarry;
    StreamSent(w.here, w.there, w.toThere, w.toHere, n, more, ack);
    StreamTaken(w.there, w.here, w.toHere, w.toThere, n, took);
    var r, b := w.here.read, w.here.tcb.rcv.buffer;
    assert (r + b) + took == r + (b + took);
    assert (r + read) + n.tcb.value.rcv.buffer == r + (read + n.tcb.value.rcv.buffer);
    StreamIgnores(w.here.(tcb := n.tcb.value, written := w.here.written + more), w.there,
                  w.toThere + SetOf(n.out), w.toHere,
                  w.here.accepted + took, w.here.read + read);
    StreamIgnores2(w.there, w.here.(tcb := n.tcb.value, accepted := w.here.accepted + took),
                   w.toHere, w.toThere + SetOf(n.out),
                   w.here.written + more, w.here.read + read);
  }

  lemma StreamIgnores(x: Side, y: Side, toY: set<Segment>, toX: set<Segment>, accepted: seq<byte>, read: seq<byte>)
    requires Stream(x, y, toY, toX)
    ensures Stream(x.(accepted := accepted, read := read), y, toY, toX)
  {
  }

  lemma StreamIgnores2(x: Side, y: Side, toY: set<Segment>, toX: set<Segment>, written: seq<byte>, read: seq<byte>)
    requires Stream(x, y, toY, toX)
    ensures Stream(x, y.(written := written, read := read), toY, toX)
  {
  }

  lemma StreamBounds(w: World)
    requires Inv(w)
    ensures w.here.tcb.snd.una <= w.here.tcb.snd.next && w.there.iss <= w.here.tcb.rcv.next <= w.there.tcb.snd.next
    ensures w.there.tcb.snd.next <= w.there.iss + |w.there.written|
    ensures w.here.accepted == w.there.written[..w.here.tcb.rcv.next - w.there.iss]
    ensures Plain(w.here.tcb) && Holds(w.here.tcb.snd, w.here.iss, w.here.written)
    ensures Stream(w.there, w.here, w.toHere, w.toThere)
  {
  }

  lemma ArriveStep(w: World, s: Segment, failAfter: nat)
    requires w.here.tcb.snd.una <= w.here.tcb.snd.next
    ensures var t, n := w.here.tcb, Next(w.here.tcb, Arrive(s, failAfter));
            n.tcb.Some? && |t.rcv.buffer| <= |n.tcb.value.rcv.buffer| ==>
              StepHere(w, Arrive(s, failAfter)) ==
              World(Side(n.tcb.value, w.here.iss, w.here.written + [],
                         w.here.accepted + n.tcb.value.rcv.buffer[|t.rcv.buffer|..], w.here.read + []), w.there,
                    w.toHere, w.toThere + SetOf(n.out))
  {
    hide Next, SetOf;
  }

  lemma StepArriveInv(w: World, s: Segment, failAfter: nat)
    requires Inv(w) && s in w.toHere
    ensures w.here.tcb.snd.una <= w.here.tcb.snd.next && Inv(StepHere(w, Arrive(s, failAfter)))
  {
    hide Plain, Holds, Carries, Next, Progress, AllCarry, SetOf, Stream, Inv, StepHere;
    StreamBounds(w);
    SegmentIsPlain(w, s);
    ArriveStep(w, s, failAfter);
    var x, y, t, n := w.here, w.there, w.here.tcb, Next(w.here.tcb, Arrive(s, failAfter));
    assert x.written + [] == x.written;
    ArriveMoves(t, s, failAfter, x.iss, x.written);
    assert [] + n.tcb.value.rcv.buffer == n.tcb.value.rcv.buffer;
    ProgressTakes(y, x, w.toHere, w.toThere, n.tcb.value.rcv, s);
    Settle(w, n, [], n.tcb.value.rcv.buffer[|t.rcv.buffer|..], [], s.ack);
  }

  /** Each event at an endpoint keeps both streams. */
  lemma StepHereInv(w: World, e: Event)
    requires Inv(w) && Enabled(w, e)
    ensures Inv(StepHere(w, e))
  {
    hide Plain, Holds, Carries, Next, Progress, AllCarry, Write, Read, SetOf, Stream, Inv;
    StreamBounds(w);
    var x, y, t := w.here, w.there, w.here.tcb;
    assert x.written + [] == x.written && x.accepted + [] == x.accepted && x.read + [] == x.read;
    assert t.rcv.buffer + [] == t.rcv.buffer;
    assert forall q: seq<byte> {:trigger [] + q} :: [] + q == q;
    match e
    case Arrive(s, failAfter) => StepArriveInv(w, s, failAfter);
    case AppWrite(data, failAfter) =>
      WriteMoves(t, data, failAfter, x.iss, x.written);
      Settle(w, Next(t, e), data[..Write(t, data, failAfter).2], [], [], 0);
    case AppRead(len) =>
      ReadMoves(t, len, x.iss, x.written);
      Settle(w, Next(t, e), [], [], Read(t, len).2, 0);
    case RetransmitTimer =>
      RetransmitMoves(t, x.iss, x.written);
      assert Next(t, e).tcb.value.rcv == t.rcv by { RetransmitRcv(t); }
      Settle(w, Next(t, e), [], [], [], 0);
    case AckTimer =>
      AckTimerMoves(t, x.iss, x.written);
      Settle(w, Next(t, e), [], [], [], 0);
  }

  lemma RetransmitRcv(t: Tcb)
    requires t.snd.una <= t.snd.next
    ensures Next(t, RetransmitTimer).tcb.value.rcv == t.rcv
  {
  }

  lemma AckTimerMoves(t: Tcb, iss: nat, written: seq<byte>)
    requires Plain(t) && Holds(t.snd, iss, written)
    ensures Moves(t, Next(t, AckTimer), iss, written, 0) && Next(t, AckTimer).tcb.value.rcv == t.rcv
  {
    EmptyAckCarries(t, iss, written);
  }

  lemma SegmentIsPlain(w: World, s: Segment)
    requires Inv(w) && s in w.toHere
    ensures PlainSegment(s) && s.ack <= w.there.tcb.rcv.next <= w.here.tcb.snd.next
  {
    assert Carries(s, w.there.iss, w.there.written, w.there.tcb.snd.next);
  }

  /** In every run, whatever is written, sent, lost, repeated, reordered, acknowledged, retransmitted or read,
      the invariant of the two streams holds. */
  lemma {:induction false} PlayInv(w: World, acts: seq<Action>)
    requires Start(w)
    ensures Inv(Play(w, acts))
  {
    hide StepHere, Stream;
    if acts == [] {
      StartInv(w);
    } else {
      var v, a := Play(w, acts[..|acts| - 1]), acts[|acts| - 1];
      PlayInv(w, acts[..|acts| - 1]);
      if a.atHere {
        if Enabled(v, a.e) { StepHereInv(v, a.e); }
      } else {
        if Enabled(Swap(v), a.e) { StepHereInv(Swap(v), a.e); }
      }
    }
  }

  lemma StartInv(w: World)
    requires Start(w)
    ensures Inv(w)
  {
    hide Stream, Plain;
    StartStream(w.here, w.there);
    StartStream(w.there, w.here);
  }

  lemma StartStream(x: Side, y: Side)
    requires JustOpened(x, y) && y.accepted == []
    ensures Stream(x, y, {}, {})
  {
    hide Carries, Plain, Holds;
    HoldsNothing(x.tcb.snd);
    var none: seq<byte> := [];
    assert none[..0] == none;
  }

  lemma HoldsNothing(d: Snd)
    requires d.una == d.next && d.buffer == []
    ensures Holds(d, d.una, [])
  {
  }

  /** Stream safety: each side has accepted exactly the peer's written bytes up to its recv_next, its
      application has read a prefix of them, and recv_next lies between what the peer knows to be acknowledged
      and what it has sent; nothing unacknowledged has left the peer's send buffer. */
  lemma StreamSafety(w: World, acts: seq<Action>)
    requires Start(w)
    ensures var r := Play(w, acts);
            && SafeTo(r.here, r.there) && SafeTo(r.there, r.here)
  {
    PlayInv(w, acts);
    hide Plain, Carries, Play;
    StreamIsSafe(Play(w, acts).here, Play(w, acts).there, Play(w, acts).toThere, Play(w, acts).toHere);
    StreamIsSafe(Play(w, acts).there, Play(w, acts).here, Play(w, acts).toHere, Play(w, acts).toThere);
  }

  lemma StreamIsSafe(x: Side, y: Side, toY: set<Segment>, toX: set<Segment>)
    requires Stream(x, y, toY, toX) && y.accepted == y.read + y.tcb.rcv.buffer
    ensures SafeTo(x, y)
  {
    hide Carries;
  }

  ghost predicate SafeTo(x: Side, y: Side) {
    var d, v := x.tcb.snd, y.tcb.rcv;
    && x.iss <= d.una <= v.next <= d.next <= x.iss + |x.written|
    && y.accepted == x.written[..v.next - x.iss]
    && y.read + v.buffer == y.accepted
    && x.written == x.written[..d.una - x.iss] + d.buffer
  }
}
