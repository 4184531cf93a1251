/** How far the sending side goes: what the sending loop emits, in closed form, and when that stays within the window
    the peer last offered (kernel/net/tcp.c, kernel/net/tcp_socket.c). */
module TcpOffers {
  import opened Common
  import opened TcpControlBlock
  import opened TcpInvariants
  import opened TcpStream
  import TcpWindow

  // ---------------------------------------------------------------- the sending loop in closed form

  /** One round of the loop: a full segment, or what is left if the connection is idle and either all of it fits or
      it is worth half the largest window. */
  function ChunkOf(usable: int, queued: nat, mss: nat, idle: bool, half: nat): (r: nat) {
    var m := Min(usable, queued);
    if usable >= 0 && (m >= mss || (idle && (queued <= usable || m >= half))) then Min(m, mss) else 0
  }

  function Times(a: nat, b: nat): (r: nat) { a * b }

  /** How many segments of mss bytes m bytes fill. */
  function Fills(m: nat, mss: nat): (r: nat)
    requires 0 < mss
    ensures Times(r, mss) <= m < Times(r, mss) + mss
  {
    m / mss
  }

  /** At most `limit` rounds: full segments while there is one, then the rest under the same conditions. Only the
      first round can find nothing outstanding. */
  function Amount(usable: int, queued: nat, mss: nat, limit: nat, nodelay: bool, quiet: bool, half: nat): (r: nat) {
    var m := Min(usable, queued);
    if m <= 0 || mss == 0 then 0
    else
      var full := Min(Fills(m, mss), limit);
      var idle := nodelay || (quiet && full == 0);
      if full < limit && idle && (queued <= usable || m - Times(full, mss) >= half) then m else Times(full, mss)
  }

  lemma TimesStep(a: nat, b: nat)
    ensures Times(a + 1, b) == Times(a, b) + b && Times(0, b) == 0
  {
  }

  lemma TimesAtMost(a: nat, b: nat, c: nat)
    requires a <= b
    ensures Times(a, c) <= Times(b, c)
  {
    assert b * c == a * c + (b - a) * c;
  }

  lemma FillsStep(m: nat, mss: nat)
    requires 0 < mss
    ensures if m < mss then Fills(m, mss) == 0 else Fills(m, mss) == Fills(m - mss, mss) + 1
  {
    hide Times, Fills;
    var q, p := Fills(m, mss), if m < mss then -1 else Fills(m - mss, mss);
    TimesStep(0, mss);
    if m < mss {
      if q > 0 { TimesAtMost(1, q, mss); }
    } else {
      TimesStep(p, mss);
      TimesStep(q, mss);
      TimesStep(p + 1, mss);
      if q < p + 1 { TimesAtMost(q + 1, p + 1, mss); } else if q > p + 1 { TimesAtMost(p + 2, q, mss); }
    }
  }

  lemma AmountStep(usable: int, queued: nat, mss: nat, limit: nat, nodelay: bool, quiet: bool, half: nat)
    requires 0 < limit
    ensures var n := ChunkOf(usable, queued, mss, nodelay || quiet, half);
            && n <= queued && (0 < n ==> n <= usable)
            && Amount(usable, queued, mss, limit, nodelay, quiet, half) ==
               if n == 0 || limit == 1 then n
               else n + Amount(usable - n, queued - n, mss, limit - 1, nodelay, false, half)
  {
    hide Times, Fills;
    var m := Min(usable, queued);
    if 0 < m && 0 < mss {
      FillsStep(m, mss);
      FillsStep(0, mss);
      TimesStep(0, mss);
      var full := Min(Fills(m, mss), limit);
      if 0 < full { TimesStep(full - 1, mss); }
    }
  }

  /** How many sequence numbers the sending loop sends. */
  function Goes(t: Tcb, failAfter: nat): (r: nat)
    requires t.snd.next - t.snd.una <= Pending(t.snd)
  {
    Amount(t.snd.una + t.snd.window - t.snd.next, Pending(t.snd) - (t.snd.next - t.snd.una), t.mss, failAfter + 1,
           t.nodelay, t.snd.next == t.snd.una, t.snd.windowMax / 2)
  }

  lemma ChunkIs(t: Tcb)
    requires Plain(t)
    ensures NextChunk(t.snd, t.mss, t.nodelay) ==
            ChunkOf(t.snd.una + t.snd.window - t.snd.next, Pending(t.snd) - (t.snd.next - t.snd.una), t.mss,
                    t.nodelay || t.snd.next == t.snd.una, t.snd.windowMax / 2)
  {
  }

  lemma GoesStep(t: Tcb, failAfter: nat)
    requires Plain(t)
    ensures var n := NextChunk(t.snd, t.mss, t.nodelay);
            && Plain(Advanced(t, n))
            && Goes(t, failAfter) == if n == 0 || failAfter == 0 then n else n + Goes(Advanced(t, n), failAfter - 1)
  {
    hide Amount, ChunkOf, NextChunk;
    ChunkIs(t);
    AmountStep(t.snd.una + t.snd.window - t.snd.next, Pending(t.snd) - (t.snd.next - t.snd.una), t.mss, failAfter + 1,
               t.nodelay, t.snd.next == t.snd.una, t.snd.windowMax / 2);
  }

  // ---------------------------------------------------------------- segments within an edge

  ghost predicate AllWithin(out: seq<Segment>, edge: nat) { forall s <- out :: s.number + s.Length() <= edge }

  lemma WithinCons(s: Segment, rest: seq<Segment>, edge: nat)
    ensures AllWithin([s] + rest, edge) <==> s.number + s.Length() <= edge && AllWithin(rest, edge)
  {
    assert s in [s] + rest;
    assert forall x <- rest :: x in [s] + rest;
  }

  lemma OutgoingWithin(t: Tcb, start: nat, end: nat)
    requires Plain(t) && t.snd.una <= start <= end && end - start <= t.mss
    ensures var s := Outgoing(t, start, end, false); s.number + s.Length() == end
  {
  }

  /** The sending loop sends exactly that many numbers, so its segments stay within an edge if and only if there are
      none or the last of these numbers is within it. */
  lemma {:induction false} SendingExact(t: Tcb, failAfter: nat, edge: nat)
    requires Plain(t)
    ensures SendSegments(t, failAfter).0.snd.next == t.snd.next + Goes(t, failAfter)
    ensures AllWithin(SendSegments(t, failAfter).1, edge) <==>
            Goes(t, failAfter) == 0 || t.snd.next + Goes(t, failAfter) <= edge
    decreases failAfter
  {
    hide NextChunk, Outgoing, Goes, AllWithin, Advanced;
    GoesStep(t, failAfter);
    var n := NextChunk(t.snd, t.mss, t.nodelay);
    NoneWithin(edge);
    if n != 0 {
      var t1 := Advanced(t, n);
      var s := Outgoing(t.(snd := t1.snd), t.snd.next, t1.snd.next, false);
      OutgoingWithin(t.(snd := t1.snd), t.snd.next, t1.snd.next);
      if failAfter == 0 {
        WithinCons(s, [], edge);
        assert [s] + [] == [s];
      } else {
        SendingExact(t1, failAfter - 1, edge);
        WithinCons(s, SendSegments(t1, failAfter - 1).1, edge);
      }
    }
  }

  lemma NoneWithin(edge: nat)
    ensures AllWithin([], edge)
  {
  }

  // ---------------------------------------------------------------- the offered window

  /** How many numbers the acknowledgement sends: it goes by the window known before it. */
  function AckGoes(t: Tcb, ack: nat, failAfter: nat): (r: nat)
    requires t.snd.una <= ack <= t.snd.next <= t.snd.una + |t.snd.buffer|
  {
    Amount(ack + t.snd.window - t.snd.next, t.snd.una + |t.snd.buffer| - t.snd.next, t.mss, failAfter + 1,
           t.nodelay, t.snd.next == ack, t.snd.windowMax / 2)
  }

  /** An acknowledgement sends before the window it brings is looked at. What it sends stays within the new offer if
      and only if it sends nothing or no more than the new offer has room for. */
  lemma AckSendsWithin(t: Tcb, s: Segment, failAfter: nat)
    requires Plain(t) && t.snd.una < s.ack <= t.snd.next
    ensures var n := AckGoes(t, s.ack, failAfter);
            AllWithin(AdvanceAck(t, s.ack, failAfter).out, s.ack + s.window) <==>
            n == 0 || t.snd.next + n <= s.ack + s.window
  {
    hide SendSegments, Amount;
    SendingExact(t.(snd := Acknowledge(t.snd, s.ack).0), failAfter, s.ack + s.window);
  }

  /** That is so whenever the window has not shrunk. */
  lemma AckAmountFits(t: Tcb, s: Segment, failAfter: nat)
    requires Plain(t) && t.snd.una < s.ack <= t.snd.next && t.snd.window <= s.window
    ensures var n := AckGoes(t, s.ack, failAfter); n == 0 || t.snd.next + n <= s.ack + s.window
  {
    AmountFits(s.ack + t.snd.window - t.snd.next, t.snd.una + |t.snd.buffer| - t.snd.next, t.mss, failAfter + 1,
               t.nodelay, t.snd.next == s.ack, t.snd.windowMax / 2);
    hide Amount;
  }

  lemma AmountFits(usable: int, queued: nat, mss: nat, limit: nat, nodelay: bool, quiet: bool, half: nat)
    ensures var n := Amount(usable, queued, mss, limit, nodelay, quiet, half); n == 0 || n <= Min(usable, queued)
  {
    hide Times, Fills;
    var m := Min(usable, queued);
    if 0 < m && 0 < mss { TimesAtMost(Min(Fills(m, mss), limit), Fills(m, mss), mss); }
  }

  /** The segment is at least as recent as the one that set the window. */
  predicate Current(d: Snd, s: Segment) { d.wl1 < s.number || (d.wl1 == s.number && d.wl2 <= s.ack) }

  /** A forward acknowledgement always moves send_unacknowledged but brings its window only if it is current. So
      the edge the sender goes by afterwards is within the offer if and only if it is current or the window known
      before was no larger. */
  lemma AckEdge(t: Tcb, s: Segment, failAfter: nat)
    requires Plain(t) && PlainSegment(s) && Acceptable(t.rcv, s) && t.snd.una < s.ack <= t.snd.next
    ensures var r := Next(t, Arrive(s, failAfter));
            && r.tcb.Some? && Plain(r.tcb.value)
            && var d := r.tcb.value.snd;
               && d.una == s.ack && d.window == (if Current(t.snd, s) then s.window else t.snd.window)
               && (d.una + d.window <= s.ack + s.window <==> Current(t.snd, s) || t.snd.window <= s.window)
  {
    hide Acceptable, ProcessSegment, SendSegments;
    var a := AdvanceAck(t, s.ack, failAfter);
    AdvanceAckConsistent(t, s.ack, failAfter);
    AckPlain(t, s.ack, failAfter);
    ProcessPlain(a.tcb.value, s);
    ProcessPlain(a.tcb.value.(snd := UpdateSendWindow(a.tcb.value.snd, s)), s);
  }

  lemma AckPlain(t: Tcb, ack: nat, failAfter: nat)
    requires Plain(t) && t.snd.una < ack <= t.snd.next
    ensures var a := AdvanceAck(t, ack, failAfter);
            && a.ok && Plain(a.tcb.value) && a.tcb.value.rcv == t.rcv
            && var d := a.tcb.value.snd;
               d.una == ack && d.(una := t.snd.una, next := t.snd.next, buffer := t.snd.buffer) == t.snd
  {
    hide SendSegments;
  }

  /** A write then goes by that edge. */
  lemma WriteSendsWithin(t: Tcb, data: seq<byte>, failAfter: nat, edge: nat)
    requires Plain(t)
    ensures var n: nat := Min(|data|, BUFFER_SIZE - |t.snd.buffer|);
            var t1 := t.(snd := t.snd.(buffer := t.snd.buffer + data[..n]));
            && t1.snd.next - t1.snd.una <= Pending(t1.snd)
            && (AllWithin(Write(t, data, failAfter).1, edge) <==>
                n == 0 || Goes(t1, failAfter) == 0 || t.snd.next + Goes(t1, failAfter) <= edge)
  {
    hide SendSegments, Amount;
    var n: nat := Min(|data|, BUFFER_SIZE - |t.snd.buffer|);
    NoneWithin(edge);
    SendingExact(t.(snd := t.snd.(buffer := t.snd.buffer + data[..n])), failAfter, edge);
  }

  // ---------------------------------------------------------------- a run that leaves the offer

  // Two endpoints just opened, each offering its whole buffer. One writes 16000 bytes, which are sent, taken and
  // acknowledged; then 384 bytes, which fill the other's buffer, and 100 more, which wait. The acknowledgement of the
  // 384 bytes closes the window, and sends the 100 bytes.

  function Endpoint(snd: Snd, rcv: Rcv): (r: Tcb) {
    Tcb(Established, snd, rcv, 20000, 1460, false, false, false, false, false)
  }

  const NEW_SIDE := Side(Endpoint(Snd(0, 0, BUFFER_SIZE, BUFFER_SIZE, 0, 0, [], false, false), Rcv(0, BUFFER_SIZE, [])),
                         0, [], [], [])
  const NEW_WORLD := World(NEW_SIDE, NEW_SIDE, {}, {})

  /** A segment with data, sent by the writing side. */
  function Data(number: nat, data: seq<byte>): (r: Segment) {
    Segment(number, 0, BUFFER_SIZE, 1460, data, false, false, false, true, true)
  }

  /** An acknowledgement sent by the other side. */
  function Ack(ack: nat, window: nat): (r: Segment) {
    Segment(0, ack, window, 0, [], false, false, false, false, true)
  }

  function Sender(una: nat, next: nat, window: nat, buffer: Ring): (r: Tcb) {
    Endpoint(Snd(una, next, window, BUFFER_SIZE, 0, una, buffer, false, false), Rcv(0, BUFFER_SIZE, []))
  }

  function Receiver(next: nat, buffer: Ring): (r: Tcb)
    requires |buffer| <= BUFFER_SIZE
  {
    Endpoint(Snd(0, 0, BUFFER_SIZE, BUFFER_SIZE, 0, 0, [], false, false), Rcv(next, BUFFER_SIZE - |buffer|, buffer))
  }

  /** What an idle connection has queued, if it all fits the window, is sent as one segment. */
  lemma IdleSends(una: nat, window: nat, wl2: nat, data: Ring)
    requires 0 < |data| <= window <= BUFFER_SIZE
    ensures var d := Snd(una, una, window, BUFFER_SIZE, 0, wl2, data, false, false);
            SendSegments(Endpoint(d, Rcv(0, BUFFER_SIZE, [])), 0) ==
            (Endpoint(d.(next := una + |data|), Rcv(0, BUFFER_SIZE, [])), [Data(una, data)])
  {
    var d := Snd(una, una, window, BUFFER_SIZE, 0, wl2, data, false, false);
    assert NextChunk(d, 20000, false) == |data|;
    OutgoingIs(una, window, wl2, data);
    hide NextChunk, Outgoing;
  }

  lemma OutgoingIs(una: nat, window: nat, wl2: nat, data: Ring)
    requires 0 < |data|
    ensures var d := Snd(una, una + |data|, window, BUFFER_SIZE, 0, wl2, data, false, false);
            Outgoing(Endpoint(d, Rcv(0, BUFFER_SIZE, [])), una, una + |data|, false) == Data(una, data)
  {
    assert Bytes(data, 0, |data|) == data;
  }

  lemma WriteSends(una: nat, window: nat, data: Ring)
    requires 0 < |data| <= window <= BUFFER_SIZE
    ensures Next(Sender(una, una, window, []), AppWrite(data, 0)) ==
            Effect(Some(Sender(una, una + |data|, window, data)), [Data(una, data)], true)
  {
    hide SendSegments;
    assert [] + data == data && data[..|data|] == data;
    IdleSends(una, window, una, data);
  }

  /** A write behind a window that is used up waits. */
  lemma WriteWaits(una: nat, sent: Ring, data: Ring)
    requires 0 < |sent| && |sent| + |data| <= BUFFER_SIZE
    ensures Next(Sender(una, una + |sent|, |sent|, sent), AppWrite(data, 0)) ==
            Live(Sender(una, una + |sent|, |sent|, sent + data))
  {
    hide Outgoing;
    assert data[..|data|] == data;
  }

  /** Bytes that come next and have room are taken and acknowledged. */
  lemma DataTaken(next: nat, buffer: Ring, data: Ring)
    requires 0 < |data| && |buffer| + |data| <= BUFFER_SIZE && |buffer| < BUFFER_SIZE
    ensures Next(Receiver(next, buffer), Arrive(Data(next, data), 0)) ==
            Effect(Some(Receiver(next + |data|, buffer + data)),
                   [Ack(next + |data|, BUFFER_SIZE - |buffer| - |data|)], true)
  {
    var v, s := Receiver(next, buffer).rcv, Data(next, data);
    TakenWhole(v, s);
    hide Received, Fresh;
    var out := [Ack(next + |data|, BUFFER_SIZE - |buffer| - |data|)];
    assert out + [] == out;
  }

  lemma TakenWhole(v: Rcv, s: Segment)
    requires v.next == s.number && 0 < |s.data| <= v.window == BUFFER_SIZE - |v.buffer| && !s.syn && !s.fin
    ensures Fresh(v, s) == s.data
    ensures Received(v, s, 20000) == (Rcv(v.next + |s.data|, v.window - |s.data|, v.buffer + s.data), false)
  {
    hide Fresh;
    TcpWindow.InOrderFresh(v, s);
    assert U32(v.window - |s.data|) == v.window - |s.data|;
  }

  /** The acknowledgement of everything written brings its window. */
  lemma AllAcked(data: Ring, window: nat)
    requires 0 < |data| && window <= BUFFER_SIZE
    ensures Next(Sender(0, |data|, BUFFER_SIZE, data), Arrive(Ack(|data|, window), 0)) ==
            Live(Sender(|data|, |data|, window, []))
  {
    hide Outgoing;
  }

  lemma WaitingAdvance(una: nat, sent: Ring, data: Ring)
    requires 0 < |data| <= |sent| && |sent| + |data| <= BUFFER_SIZE
    ensures var a := AdvanceAck(Sender(una, una + |sent|, |sent|, sent + data), una + |sent|, 0);
            a.ok && a.tcb.value.rcv == Rcv(0, BUFFER_SIZE, []) && a.tcb.value.state == Established
            && !a.tcb.value.closing && a.out == [Data(una + |sent|, data)]
  {
    hide SendSegments;
    assert (sent + data)[|sent|..] == data;
    IdleSends(una + |sent|, |sent|, una, data);
  }

  /** The acknowledgement of what was sent, with a window closed, sends what waits. */
  lemma WaitingSent(una: nat, sent: Ring, data: Ring)
    requires 0 < |data| <= |sent| && |sent| + |data| <= BUFFER_SIZE
    ensures var r := Next(Sender(una, una + |sent|, |sent|, sent + data), Arrive(Ack(una + |sent|, 0), 0));
            r.ok && r.tcb.Some? && r.out == [Data(una + |sent|, data)]
  {
    hide AdvanceAck;
    WaitingAdvance(una, sent, data);
    assert [Data(una + |sent|, data)] + [] == [Data(una + |sent|, data)];
  }

  lemma StepIs(w: World, e: Event)
    requires w.here.tcb.snd.una <= w.here.tcb.snd.next && Next(w.here.tcb, e).tcb.Some?
    ensures var r, n := StepHere(w, e), Next(w.here.tcb, e);
            && r.here.tcb == n.tcb.value && r.there == w.there
            && r.toHere == w.toHere && r.toThere == w.toThere + SetOf(n.out)
  {
    hide Next;
  }

  /** What the two endpoints hold and what has been sent either way. */
  ghost predicate Stands(w: World, here: Tcb, there: Tcb, toHere: set<Segment>, toThere: set<Segment>) {
    w.here.tcb == here && w.there.tcb == there && w.toHere == toHere && w.toThere == toThere
  }

  lemma StepStands(w: World, a: Action, here: Tcb, there: Tcb, toHere: set<Segment>, toThere: set<Segment>, n: Effect)
    requires Stands(w, here, there, toHere, toThere) && n.tcb.Some?
    requires var t := if a.atHere then here else there;
             t.snd.una <= t.snd.next && n == Next(t, a.e)
    requires !a.e.AppClose? && (a.e.Arrive? ==> a.e.s in (if a.atHere then toHere else toThere))
    ensures if a.atHere then Stands(Step(w, a), n.tcb.value, there, toHere, toThere + SetOf(n.out))
            else Stands(Step(w, a), here, n.tcb.value, toHere + SetOf(n.out), toThere)
  {
    hide Next, StepHere, SetOf;
    StepIs(if a.atHere then w else Swap(w), a.e);
  }

  lemma PlayNone(w: World)
    ensures Play(w, []) == w
  {
  }

  lemma PlaySnoc(w: World, acts: seq<Action>, a: Action)
    ensures Play(w, acts + [a]) == Step(Play(w, acts), a)
  {
    assert (acts + [a])[..|acts|] == acts;
  }

  lemma StartNew()
    ensures Start(NEW_WORLD)
  {
  }

  lemma SetOfOne(s: Segment)
    ensures SetOf([s]) == {s} && SetOf([]) == {}
  {
  }

  /** 16000 bytes are written, taken and acknowledged, and 384 more written. */
  function FirstActions(a: seq<byte>, b: seq<byte>): (r: seq<Action>) {
    [Action(true, AppWrite(a, 0)), Action(false, Arrive(Data(0, a), 0)), Action(true, Arrive(Ack(16000, 384), 0)),
     Action(true, AppWrite(b, 0))]
  }

  lemma FirstStands(a: Ring, b: Ring)
    requires |a| == 16000 && |b| == 384
    ensures Stands(Play(NEW_WORLD, FirstActions(a, b)), Sender(16000, 16384, 384, b), Receiver(16000, a),
                   {Ack(16000, 384)}, {Data(0, a), Data(16000, b)})
  {
    hide Next, Step, SetOf, Stands;
    var acts, w0 := FirstActions(a, b), NEW_WORLD;
    var w1 := Step(w0, acts[0]);
    var w2 := Step(w1, acts[1]);
    var w3 := Step(w2, acts[2]);
    var w4 := Step(w3, acts[3]);
    assert Play(w0, acts) == w4 by { Play4(w0, acts[0], acts[1], acts[2], acts[3]); }
    NewStands();
    WriteSends(0, BUFFER_SIZE, a);
    SetOfOne(Data(0, a));
    StepStands(w0, acts[0], Sender(0, 0, BUFFER_SIZE, []), Receiver(0, []), {}, {},
               Next(Sender(0, 0, BUFFER_SIZE, []), acts[0].e));
    assert {} + {Data(0, a)} == {Data(0, a)};
    DataTaken(0, [], a);
    assert [] + a == a;
    SetOfOne(Ack(16000, 384));
    StepStands(w1, acts[1], Sender(0, 16000, BUFFER_SIZE, a), Receiver(0, []), {}, {Data(0, a)},
               Next(Receiver(0, []), acts[1].e));
    assert {} + {Ack(16000, 384)} == {Ack(16000, 384)};
    AllAcked(a, 384);
    StepStands(w2, acts[2], Sender(0, 16000, BUFFER_SIZE, a), Receiver(16000, a), {Ack(16000, 384)}, {Data(0, a)},
               Next(Sender(0, 16000, BUFFER_SIZE, a), acts[2].e));
    assert {Data(0, a)} + {} == {Data(0, a)};
    WriteSends(16000, 384, b);
    SetOfOne(Data(16000, b));
    StepStands(w3, acts[3], Sender(16000, 16000, 384, []), Receiver(16000, a), {Ack(16000, 384)}, {Data(0, a)},
               Next(Sender(16000, 16000, 384, []), acts[3].e));
    assert {Data(0, a)} + {Data(16000, b)} == {Data(0, a), Data(16000, b)};
  }

  lemma NewStands()
    ensures Stands(NEW_WORLD, Sender(0, 0, BUFFER_SIZE, []), Receiver(0, []), {}, {})
  {
  }

  lemma Play4(w: World, a1: Action, a2: Action, a3: Action, a4: Action)
    ensures Play(w, [a1, a2, a3, a4]) == Step(Step(Step(Step(w, a1), a2), a3), a4)
  {
    hide Step, Play;
    PlayNone(w);
    PlaySnoc(w, [], a1);
    PlaySnoc(w, [a1], a2);
    PlaySnoc(w, [a1, a2], a3);
    PlaySnoc(w, [a1, a2, a3], a4);
    assert [] + [a1] == [a1] && [a1] + [a2] == [a1, a2] && [a1, a2] + [a3] == [a1, a2, a3];
    assert [a1, a2, a3] + [a4] == [a1, a2, a3, a4];
  }

  /** 100 bytes are written behind the 384; these are taken, and acknowledged with the window closed. */
  function LastActions(b: seq<byte>, c: seq<byte>): (r: seq<Action>) {
    [Action(true, AppWrite(c, 0)), Action(false, Arrive(Data(16000, b), 0)), Action(true, Arrive(Ack(16384, 0), 0))]
  }

  /** A run of two of these endpoints from the start after which a segment is under way that ends beyond the
      window of the receiver, who has never offered so much. */
  lemma AckOvershoots(a: Ring, b: Ring, c: Ring)
    requires |a| == 16000 && |b| == 384 && |c| == 100
    ensures var w := Play(NEW_WORLD, FirstActions(a, b) + LastActions(b, c));
            && Start(NEW_WORLD) && Data(16384, c) in w.toThere
            && TcpWindow.Edge(w.there.tcb.rcv) == 16384 < 16384 + Data(16384, c).Length()
  {
    hide Next, Step, SetOf, Stands, Play, FirstActions;
    StartNew();
    FirstStands(a, b);
    var acts, first := LastActions(b, c), FirstActions(a, b);
    var w0 := Play(NEW_WORLD, first);
    var w1 := Step(w0, acts[0]);
    var w2 := Step(w1, acts[1]);
    var w3 := Step(w2, acts[2]);
    assert Play(NEW_WORLD, first + acts) == w3 by { Play3(NEW_WORLD, first, acts[0], acts[1], acts[2]); }
    LastStands(w0, a, b, c);
  }

  lemma LastStands(w: World, a: Ring, b: Ring, c: Ring)
    requires |a| == 16000 && |b| == 384 && |c| == 100
    requires Stands(w, Sender(16000, 16384, 384, b), Receiver(16000, a),
                    {Ack(16000, 384)}, {Data(0, a), Data(16000, b)})
    ensures var acts := LastActions(b, c);
            var v := Step(Step(Step(w, acts[0]), acts[1]), acts[2]);
            Data(16384, c) in v.toThere && TcpWindow.Edge(v.there.tcb.rcv) == 16384
  {
    hide Next, Step, SetOf;
    var acts, sent := LastActions(b, c), {Data(0, a), Data(16000, b)};
    WriteWaits(16000, b, c);
    SetOfOne(Data(16384, c));
    StepStands(w, acts[0], Sender(16000, 16384, 384, b), Receiver(16000, a), {Ack(16000, 384)}, sent,
               Next(Sender(16000, 16384, 384, b), acts[0].e));
    assert sent + {} == sent;
    DataTaken(16000, a, b);
    SetOfOne(Ack(16384, 0));
    StepStands(Step(w, acts[0]), acts[1], Sender(16000, 16384, 384, b + c), Receiver(16000, a), {Ack(16000, 384)}, sent,
               Next(Receiver(16000, a), acts[1].e));
    WaitingSent(16000, b, c);
    StepStands(Step(Step(w, acts[0]), acts[1]), acts[2], Sender(16000, 16384, 384, b + c), Receiver(16384, a + b),
               {Ack(16000, 384)} + {Ack(16384, 0)}, sent, Next(Sender(16000, 16384, 384, b + c), acts[2].e));
  }

  lemma Play3(w: World, acts: seq<Action>, a1: Action, a2: Action, a3: Action)
    ensures Play(w, acts + [a1, a2, a3]) == Step(Step(Step(Play(w, acts), a1), a2), a3)
  {
    hide Step, Play;
    PlaySnoc(w, acts, a1);
    PlaySnoc(w, acts + [a1], a2);
    PlaySnoc(w, acts + [a1] + [a2], a3);
    assert acts + [a1] + [a2] + [a3] == acts + [a1, a2, a3];
  }
}
