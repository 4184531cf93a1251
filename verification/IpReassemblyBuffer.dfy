/** The reassembly buffer as kernel/net/ip.c keeps it: each hole's record (three 16-bit numbers) is stored
    in the buffer itself, in the bytes the hole stands for, and the records form a linked list. */
module IpReassemblyBuffer {
  import opened Common
  import opened IpFragments
  import opened IpReassembly

  const PAGE_SIZE: nat := 4096
  const HOLE_SIZE: nat := 6

  function AlignUp(n: nat): (r: nat) { (n + PAGE_SIZE - 1) / PAGE_SIZE * PAGE_SIZE }

  // ---------------------------------------------------------------- records in a byte sequence

  function Read16(s: seq<byte>, p: nat): (r: nat)
    requires p + 2 <= |s|
  {
    s[p] as nat + 256 * (s[p + 1] as nat)
  }

  function Put16(s: seq<byte>, p: nat, v: nat): (r: seq<byte>)
    requires p + 2 <= |s| && v < 0x1_0000
    ensures |r| == |s| && Read16(r, p) == v
    ensures forall k :: 0 <= k < |s| && k != p && k != p + 1 ==> r[k] == s[k]
  {
    s[p := (v % 256) as byte][p + 1 := (v / 256) as byte]
  }

  function PutHole(s: seq<byte>, h: Hole, next: nat): (r: seq<byte>)
    requires HEADER_SIZE + h.first + HOLE_SIZE <= |s| && HEADER_SIZE + h.first < 0x1_0000 && h.last < 0x1_0000
    requires next < 0x1_0000
    ensures |r| == |s| && Record(r, h, next)
    ensures forall k :: 0 <= k < |s| && !(HEADER_SIZE + h.first <= k < HEADER_SIZE + h.first + HOLE_SIZE) ==>
              r[k] == s[k]
  {
    var p := HEADER_SIZE + h.first;
    Put16(Put16(Put16(s, p, h.first), p + 2, h.last), p + 4, next)
  }

  predicate Record(s: seq<byte>, h: Hole, next: nat) {
    var p := HEADER_SIZE + h.first;
    && p + HOLE_SIZE <= |s| && p < 0x1_0000
    && Read16(s, p) == h.first && Read16(s, p + 2) == h.last && Read16(s, p + 4) == next
  }

  /** The number of a hole is where its record lies. */
  function Number(h: Hole): (r: nat) { HEADER_SIZE + h.first }

  /** Where a list starts that continues with `end` after the holes `hs`. */
  function Head(hs: seq<Hole>, end: nat): (r: nat) { if hs == [] then end else Number(hs[0]) }

  function Prev(hs: seq<Hole>): (r: nat) { if hs == [] then 0 else Number(hs[|hs| - 1]) }

  /** The record of hs[j] is in place and linked to the next hole, or to `end` behind the last. */
  ghost predicate Linked(s: seq<byte>, hs: seq<Hole>, end: nat, j: nat)
    requires j < |hs|
  {
    Record(s, hs[j], if j + 1 < |hs| then Number(hs[j + 1]) else end)
  }

  ghost predicate Chain(s: seq<byte>, hs: seq<Hole>, end: nat) {
    forall j: nat :: j < |hs| ==> Linked(s, hs, end, j)
  }

  /** The bytes of buffer positions lo..hi (excluded) belong to none of the holes. */
  ghost predicate Clear(hs: seq<Hole>, lo: nat, hi: nat) {
    forall j :: 0 <= j < |hs| ==> HEADER_SIZE + hs[j].last < lo || hi <= HEADER_SIZE + hs[j].first
  }

  ghost predicate SameExcept(s: seq<byte>, t: seq<byte>, lo: nat, hi: nat) {
    |s| == |t| && forall k :: 0 <= k < |s| && !(lo <= k < hi) ==> s[k] == t[k]
  }

  lemma RecordFrame(s: seq<byte>, t: seq<byte>, h: Hole, next: nat, lo: nat, hi: nat)
    requires Record(s, h, next) && SameExcept(s, t, lo, hi)
    requires Number(h) + HOLE_SIZE <= lo || hi <= Number(h)
    ensures Record(t, h, next)
  {
  }

  lemma ChainFrame(s: seq<byte>, t: seq<byte>, hs: seq<Hole>, end: nat, lo: nat, hi: nat)
    requires Chain(s, hs, end) && Ordered(hs) && Clear(hs, lo, hi) && SameExcept(s, t, lo, hi)
    ensures Chain(t, hs, end)
  {
    hide Record, Ordered;
    forall j: nat | j < |hs| ensures Linked(t, hs, end, j) {
      assert Linked(s, hs, end, j);
      HoleIsLong(hs, j);
      RecordFrame(s, t, hs[j], if j + 1 < |hs| then Number(hs[j + 1]) else end, lo, hi);
    }
  }

  /** Changing the link of the last record, which is all that unlinking or inserting behind it does. */
  lemma Relink(s: seq<byte>, hs: seq<Hole>, end: nat, v: nat)
    requires hs != [] && Ordered(hs) && Chain(s, hs, end) && v < 0x1_0000
    ensures Prev(hs) + HOLE_SIZE <= |s|
    ensures Chain(Put16(s, Prev(hs) + 4, v), hs, v)
  {
    var n := |hs| - 1;
    assert Linked(s, hs, end, n);
    var t := Put16(s, Prev(hs) + 4, v);
    forall j: nat | j < |hs| ensures Linked(t, hs, v, j) {
      assert Linked(s, hs, end, j);
      if j < n { RecordFrame(s, t, hs[j], Number(hs[j + 1]), Prev(hs) + 4, Prev(hs) + 6); }
    }
  }

  lemma ChainAppend(s: seq<byte>, hs: seq<Hole>, h: Hole, end: nat)
    requires Chain(s, hs, Number(h)) && Record(s, h, end)
    ensures Chain(s, hs + [h], end)
  {
    var r := hs + [h];
    forall j: nat | j < |r| ensures Linked(s, r, end, j) {
      if j < |hs| { assert Linked(s, hs, Number(h), j); }
    }
  }

  /** Bytes in none of the holes are the same: received data has not been touched. */
  ghost predicate Untouched(s: seq<byte>, t: seq<byte>, hs: seq<Hole>) {
    && |s| == |t|
    && forall k: nat :: HEADER_SIZE + k < |s| && !Missing(hs, k) ==> s[HEADER_SIZE + k] == t[HEADER_SIZE + k]
  }

  lemma UntouchedIfInside(s: seq<byte>, t: seq<byte>, hs: seq<Hole>, h: Hole, lo: nat, hi: nat)
    requires SameExcept(s, t, lo, hi) && h in hs && Number(h) <= lo && hi <= HEADER_SIZE + h.last + 1
    ensures Untouched(s, t, hs)
  {
    forall k: nat | HEADER_SIZE + k < |s| && !Missing(hs, k) ensures s[HEADER_SIZE + k] == t[HEADER_SIZE + k] {
      var j :| 0 <= j < |hs| && hs[j] == h;
    }
  }

  lemma UntouchedTwice(s: seq<byte>, t: seq<byte>, u: seq<byte>, hs: seq<Hole>)
    requires Untouched(s, t, hs) && Untouched(t, u, hs)
    ensures Untouched(s, u, hs)
  {
  }

  lemma ClearBelow(a: seq<Hole>, lo: nat, hi: nat)
    requires Ordered(a) && (a != [] ==> HEADER_SIZE + a[|a| - 1].last < lo)
    ensures Clear(a, lo, hi)
  {
  }

  lemma ClearAbove(b: seq<Hole>, lo: nat, hi: nat)
    requires Ordered(b) && (b != [] ==> hi <= Number(b[0]))
    ensures Clear(b, lo, hi)
  {
  }

  lemma HoleIsLong(hs: seq<Hole>, j: nat)
    requires Ordered(hs) && j < |hs|
    ensures hs[j].first + 8 <= hs[j].last + 1 <= MAX_PACKET_LENGTH + 1
  {
    assert IsHole(hs[j]);
  }

  /** What the end of a list says: its last link is where the rest starts. */
  lemma EndLink(s: seq<byte>, hs: seq<Hole>, end: nat)
    requires hs != [] && Chain(s, hs, end)
    ensures Prev(hs) + HOLE_SIZE <= |s| && Read16(s, Prev(hs) + 4) == end && end < 0x1_0000
  {
    assert Linked(s, hs, end, |hs| - 1);
  }

  lemma StartNumber(s: seq<byte>, hs: seq<Hole>, end: nat)
    requires hs != [] && Chain(s, hs, end)
    ensures Number(hs[0]) < 0x1_0000
  {
    assert Linked(s, hs, end, 0);
  }

  // ---------------------------------------------------------------- editing the list

  /** The buffer's bytes and the number of the first hole, which lives outside the buffer. */
  datatype Mem = Mem(bytes: seq<byte>, head: nat)

  /** The link behind record `prev`, or the list head when there is no record before. */
  function Next(m: Mem, prev: nat): (r: nat)
    requires prev != 0 ==> prev + HOLE_SIZE <= |m.bytes|
  {
    if prev == 0 then m.head else Read16(m.bytes, prev + 4)
  }

  function SetNext(m: Mem, prev: nat, v: nat): (r: Mem)
    requires prev != 0 ==> prev + HOLE_SIZE <= |m.bytes|
    requires v < 0x1_0000
  {
    if prev == 0 then m.(head := v) else m.(bytes := Put16(m.bytes, prev + 4, v))
  }

  /** A list in two parts: `a` ends before `b` starts, the last link of `a` is `end`, `b` ends the list. */
  ghost predicate Parts(m: Mem, a: seq<Hole>, end: nat, b: seq<Hole>) {
    && Ordered(a) && Ordered(b)
    && (a != [] && b != [] ==> a[|a| - 1].last + 1 < b[0].first)
    && Chain(m.bytes, a, end) && Chain(m.bytes, b, 0)
    && m.head == Head(a, end)
  }

  /** Re-aiming the link between the two parts. */
  lemma SetNextParts(m: Mem, a: seq<Hole>, end: nat, b: seq<Hole>, v: nat)
    requires Parts(m, a, end, b) && v < 0x1_0000
    ensures Prev(a) != 0 ==> Prev(a) + HOLE_SIZE <= |m.bytes|
    ensures Parts(SetNext(m, Prev(a), v), a, v, b)
    ensures Untouched(m.bytes, SetNext(m, Prev(a), v).bytes, a)
  {
    hide Ordered, Chain, Record, Missing, Untouched;
    if a != [] {
      var prev := Prev(a);
      Relink(m.bytes, a, end, v);
      HoleIsLong(a, |a| - 1);
      var t := Put16(m.bytes, prev + 4, v);
      ClearAbove(b, prev + 4, prev + 6);
      ChainFrame(m.bytes, t, b, 0, prev + 4, prev + 6);
      UntouchedIfInside(m.bytes, t, a, a[|a| - 1], prev + 4, prev + 6);
    } else {
      EmptyChain(m.bytes, v);
      SameIsUntouched(m.bytes, a);
    }
  }

  lemma EmptyChain(s: seq<byte>, end: nat)
    ensures Chain(s, [], end)
  {
  }

  lemma SameIsUntouched(s: seq<byte>, hs: seq<Hole>)
    ensures Untouched(s, s, hs)
  {
  }

  /** Writes a record and links it in behind record `prev`. */
  function Insert(m: Mem, prev: nat, h: Hole): (r: Mem)
    requires prev != 0 ==> prev + HOLE_SIZE <= |m.bytes|
    requires Number(h) + HOLE_SIZE <= |m.bytes| && Number(h) < 0x1_0000 && h.last < 0x1_0000 && Next(m, prev) < 0x1_0000
  {
    SetNext(m.(bytes := PutHole(m.bytes, h, Next(m, prev))), prev, Number(h))
  }

  ghost predicate FitsBetween(size: nat, a: seq<Hole>, h: Hole, b: seq<Hole>) {
    && Ordered([h]) && (a != [] ==> a[|a| - 1].last + 1 < h.first) && (b != [] ==> h.last + 1 < b[0].first)
    && Number(h) < 0x1_0000 && Number(h) + HOLE_SIZE <= size
  }

  lemma CanInsert(m: Mem, a: seq<Hole>, h: Hole, b: seq<Hole>)
    requires Parts(m, a, Head(b, 0), b) && FitsBetween(|m.bytes|, a, h, b)
    ensures Prev(a) != 0 ==> Prev(a) + HOLE_SIZE <= |m.bytes|
    ensures h.last < 0x1_0000 && Next(m, Prev(a)) == Head(b, 0) < 0x1_0000
  {
    hide Ordered, Chain;
    assert [h][0] == h;
    HoleIsLong([h], 0);
    if a != [] { EndLink(m.bytes, a, Head(b, 0)); }
    if b != [] { StartNumber(m.bytes, b, 0); }
  }

  lemma InsertParts(m: Mem, a: seq<Hole>, h: Hole, b: seq<Hole>)
    requires Parts(m, a, Head(b, 0), b) && FitsBetween(|m.bytes|, a, h, b)
    ensures Prev(a) != 0 ==> Prev(a) + HOLE_SIZE <= |m.bytes|
    ensures h.last < 0x1_0000 && Next(m, Prev(a)) == Head(b, 0) < 0x1_0000
    ensures Parts(Insert(m, Prev(a), h), a + [h], Head(b, 0), b)
    ensures Untouched(m.bytes, Insert(m, Prev(a), h).bytes, a + [h])
  {
    hide Ordered, Chain, Record, Missing, Untouched;
    CanInsert(m, a, h, b);
    assert [h][0] == h;
    HoleIsLong([h], 0);
    var end, prev, lo, hi := Head(b, 0), Prev(a), Number(h), Number(h) + HOLE_SIZE;
    var t := m.(bytes := PutHole(m.bytes, h, end));
    ClearBelow(a, lo, hi);
    ClearAbove(b, lo, hi);
    ChainFrame(m.bytes, t.bytes, a, end, lo, hi);
    ChainFrame(m.bytes, t.bytes, b, 0, lo, hi);
    UntouchedIfInside(m.bytes, t.bytes, a + [h], h, lo, hi);
    SetNextParts(t, a, end, b, Number(h));
    var u := SetNext(t, prev, Number(h));
    if a != [] {
      HoleIsLong(a, |a| - 1);
      RecordFrame(t.bytes, u.bytes, h, end, prev + 4, prev + 6);
    }
    ChainAppend(u.bytes, a, h, end);
    OrderedConcat(a, [h]);
    InsideStart(a, h);
    InsideUntouched(t.bytes, u.bytes, a, a + [h]);
    UntouchedTwice(m.bytes, t.bytes, u.bytes, a + [h]);
  }

  /** What is known when the loop stands at hole `h`. */
  lemma AtHole(m: Mem, a: seq<Hole>, h: Hole, rest: seq<Hole>)
    requires Parts(m, a, Number(h), [h] + rest)
    ensures Record(m.bytes, h, Head(rest, 0)) && Head(rest, 0) < 0x1_0000
    ensures Ordered([h]) && (a != [] ==> a[|a| - 1].last + 1 < h.first) && (rest != [] ==> h.last + 1 < rest[0].first)
    ensures Parts(m, a, Number(h), rest)
    ensures Parts(m, a + [h], Head(rest, 0), rest)
  {
    hide Record, IsHole;
    var b := [h] + rest;
    assert b[0] == h;
    assert Linked(m.bytes, b, 0, 0);
    forall j: nat | j < |rest| ensures Linked(m.bytes, rest, 0, j) { assert Linked(m.bytes, b, 0, j + 1); }
    assert Ordered([h]) && Ordered(rest) by {
      assert forall j :: 0 <= j < |rest| ==> rest[j] == b[j + 1];
    }
    assert rest != [] ==> b[0].last + 1 < b[1].first;
    HoleIsLong(b, 0);
    hide Ordered, Chain;
    if rest != [] { StartNumber(m.bytes, rest, 0); }
    ChainAppend(m.bytes, a, h, Head(rest, 0));
    OrderedConcat(a, [h]);
  }

  /** Removing `h` and inserting what the fragment leaves of it. */
  lemma PunchedPartsFit(m: Mem, a: seq<Hole>, h: Hole, rest: seq<Hole>, p: Packet)
    requires InRange(p) && !Malformed(p) && !TooBig(p)
    requires p.more ==> HEADER_SIZE + p.End() + HOLE_SIZE <= |m.bytes|
    requires Record(m.bytes, h, Head(rest, 0)) && Ordered([h])
    requires (a != [] ==> a[|a| - 1].last + 1 < h.first) && (rest != [] ==> h.last + 1 < rest[0].first)
    requires p.offset <= h.last && h.first < p.End()
    ensures p.offset > h.first ==> FitsBetween(|m.bytes|, a, Hole(h.first, p.offset - 1), rest)
    ensures p.End() - 1 < h.last && p.more ==>
            FitsBetween(|m.bytes|, if p.offset > h.first then a + [Hole(h.first, p.offset - 1)] else a,
                        Hole(p.End(), h.last), rest)
  {
    hide IsHole;
    assert IsHole(h) by { assert [h][0] == h; }
    HoleRemainders(h, p);
    hide InRange;
  }

  lemma HoleRemainders(h: Hole, p: Packet)
    requires IsHole(h) && InRange(p) && !Malformed(p) && p.offset <= h.last && h.first < p.End()
    ensures p.offset > h.first ==> IsHole(Hole(h.first, p.offset - 1))
    ensures p.End() - 1 < h.last && p.more ==> IsHole(Hole(p.End(), h.last))
  {
    assert p.more ==> p.End() % 8 == 0;
  }

  /** Every byte of a hole in `a` is a byte of a hole in `b`. */
  ghost predicate Inside(a: seq<Hole>, b: seq<Hole>) { forall k: nat :: Missing(a, k) ==> Missing(b, k) }

  lemma InsideStart(a: seq<Hole>, h: Hole)
    ensures Inside(a, a + [h])
  {
    forall k: nat { MissingConcat(a, [h], k); }
  }

  lemma InsideStep(a: seq<Hole>, now: seq<Hole>, n: Hole, h: Hole)
    requires Inside(now, a + [h]) && h.first <= n.first && n.last <= h.last
    ensures Inside(now + [n], a + [h])
  {
    forall k: nat | Missing(now + [n], k) ensures Missing(a + [h], k) {
      MissingConcat(now, [n], k);
      MissingConcat(a, [h], k);
      MissingOne(n, k);
      MissingOne(h, k);
    }
  }

  lemma InsideUntouched(s: seq<byte>, t: seq<byte>, a: seq<Hole>, b: seq<Hole>)
    requires Untouched(s, t, a) && Inside(a, b)
    ensures Untouched(s, t, b)
  {
  }

  lemma InsidePunched(hs: seq<Hole>, i: nat, p: Packet)
    requires i < |hs| && 0 < |p.payload|
    ensures Inside(Punch(hs[..i], p.offset, p.End() - 1, !p.more) + [hs[i]], hs)
  {
    var a := Punch(hs[..i], p.offset, p.End() - 1, !p.more);
    forall k: nat | Missing(a + [hs[i]], k) ensures Missing(hs, k) {
      hide Punch;
      MissingConcat(a, [hs[i]], k);
      MissingOne(hs[i], k);
      if Missing(a, k) { PunchShrinks(hs[..i], p.offset, p.End() - 1, !p.more, k); }
      assert hs == hs[..i] + hs[i..];
      MissingConcat(hs[..i], hs[i..], k);
      assert hs[i..][0] == hs[i];
    }
  }

  lemma WholeList(m: Mem, hs: seq<Hole>)
    requires Parts(m, hs, 0, [])
    ensures Parts(m, [], Head(hs, 0), hs) && m.head == Head(hs, 0)
  {
  }

  lemma LastOfParts(m: Mem, a: seq<Hole>, b: seq<Hole>)
    requires Parts(m, a, Head(b, 0), b)
    ensures Prev(a) != 0 ==> Prev(a) + HOLE_SIZE <= |m.bytes|
    ensures Next(m, Prev(a)) == Head(b, 0)
    ensures Head(b, 0) == 0 <==> b == []
  {
    hide Ordered, Chain;
    if a != [] { EndLink(m.bytes, a, Head(b, 0)); }
  }

  // ---------------------------------------------------------------- growth

  /** The capacity after making room for a fragment that ends at packet length `needed`. */
  function Grown(capacity: nat, needed: nat, more: bool): (r: nat) {
    if needed + (if more then HOLE_SIZE else 0) > capacity then AlignUp(needed) else capacity
  }

  /** The new size is rounded up from the packet length alone. A hole record behind the fragment fits if and
      only if it already did or the packet does not end four bytes before a page boundary. */
  lemma GrowthFits(capacity: nat, p: Packet)
    requires InRange(p) && p.more && !Malformed(p) && capacity % PAGE_SIZE == 0
    ensures var needed := HEADER_SIZE + p.End();
            needed + HOLE_SIZE <= Grown(capacity, needed, true) <==>
            needed + HOLE_SIZE <= capacity || needed % PAGE_SIZE != PAGE_SIZE - 4
  {
    var needed := HEADER_SIZE + p.End();
    assert needed % 8 == 4;
    AlignUpAt(needed, needed / PAGE_SIZE, needed % PAGE_SIZE);
    hide AlignUp;
  }

  lemma AlignUpAt(needed: nat, q: nat, r: nat)
    requires needed == PAGE_SIZE * q + r && 0 < r < PAGE_SIZE
    ensures AlignUp(needed) == PAGE_SIZE * q + PAGE_SIZE
  {
    assert (needed + PAGE_SIZE - 1) / PAGE_SIZE == q + 1;
  }

  /** The shortfall happens: with the first fragment that the sending loop cuts at an MTU of 4092 to 4099 from
      any datagram that does not fit, whose 4072 bytes leave four of the first page. */
  lemma GrowthFallsShort(id: FragmentId, ttl: nat, data: seq<byte>, mtu: nat)
    requires 4092 <= mtu <= 4099 && mtu < HEADER_SIZE + |data|
    ensures Fragments(id, ttl, data, mtu) != []
    ensures var p := Fragments(id, ttl, data, mtu)[0];
            var needed := HEADER_SIZE + p.End();
            && p.offset == 0 && p.more && |p.payload| == 4072 && InRange(p) && !Malformed(p) && !TooBig(p)
            && needed <= Grown(PAGE_SIZE, needed, true) == PAGE_SIZE < needed + HOLE_SIZE
  {
    assert DataMtu(mtu) == 4072;
  }

  lemma PartsMoved(m: Mem, t: seq<byte>, hs: seq<Hole>)
    requires Parts(m, hs, 0, []) && |m.bytes| <= |t| && t[..|m.bytes|] == m.bytes
    ensures Parts(Mem(t, m.head), hs, 0, [])
  {
    hide Ordered;
    forall j: nat | j < |hs| ensures Linked(t, hs, 0, j) {
      assert Linked(m.bytes, hs, 0, j);
    }
  }

  lemma PartsFilled(m: Mem, t: seq<byte>, hs: seq<Hole>, lo: nat, hi: nat)
    requires Parts(m, hs, 0, []) && Clear(hs, lo, hi) && SameExcept(m.bytes, t, lo, hi)
    ensures Parts(Mem(t, m.head), hs, 0, [])
  {
    hide Ordered, Chain;
    ChainFrame(m.bytes, t, hs, 0, lo, hi);
    EmptyChain(t, 0);
  }

  lemma EmptyIffZero(m: Mem, hs: seq<Hole>)
    requires Parts(m, hs, 0, [])
    ensures m.head == 0 <==> hs == []
    ensures hs == [] ==> forall i: nat :: !Missing(hs, i)
  {
  }

  lemma GrownMonotone(capacity: nat, needed: nat, more: bool)
    requires capacity % PAGE_SIZE == 0
    ensures capacity <= Grown(capacity, needed, more) && needed <= Grown(capacity, needed, more)
    ensures Grown(capacity, needed, more) % PAGE_SIZE == 0
  {
  }

  /** After punching, no hole (so no record) lies in the bytes about to be filled in. */
  lemma PunchedClear(hs: seq<Hole>, p: Packet)
    requires InRange(p) && !Malformed(p) && !TooBig(p) && Ordered(hs)
    ensures Clear(Punch(hs, p.offset, p.End() - 1, !p.more), HEADER_SIZE + p.offset, HEADER_SIZE + p.End())
  {
    var r := Punch(hs, p.offset, p.End() - 1, !p.more);
    PunchOrdered(hs, p);
    hide Punch, Ordered, InRange;
    forall j | 0 <= j < |r|
      ensures HEADER_SIZE + r[j].last < HEADER_SIZE + p.offset || HEADER_SIZE + p.End() <= HEADER_SIZE + r[j].first
    {
      PunchedApart(hs, p, j);
    }
  }

  lemma PunchedApart(hs: seq<Hole>, p: Packet, j: nat)
    requires InRange(p) && j < |Punch(hs, p.offset, p.End() - 1, !p.more)|
    requires Ordered(Punch(hs, p.offset, p.End() - 1, !p.more))
    ensures var h := Punch(hs, p.offset, p.End() - 1, !p.more)[j]; h.last < p.offset || p.End() <= h.first
  {
    hide Punch;
    var r := Punch(hs, p.offset, p.End() - 1, !p.more);
    HoleIsLong(r, j);
    hide Ordered;
    var i := Max(r[j].first, p.offset);
    if i <= r[j].last {
      assert Missing(r, i);
      PunchShrinks(hs, p.offset, p.End() - 1, !p.more, i);
    }
  }

  /** What became of the fragment's descriptor. */
  datatype Reply = Waiting | Refused | Done(delivery: Delivery)

  /** The bytes of the delivered packet that the descriptor knows are the specified ones. */
  ghost predicate Agrees(out: Delivery, spec: Delivery, known: map<nat, byte>) {
    && out.id == spec.id && out.ttl == spec.ttl && |out.payload| == |spec.payload|
    && forall i: nat :: i < |out.payload| && i in known ==> out.payload[i] == spec.payload[i]
  }

  class Descriptor {
    var buffer: array<byte>
    var holeList: nat
    var ttl: Option<nat>
    var length: Option<nat>
    ghost var desc: Desc

    function View(): (r: Mem)
      reads this`buffer, this`holeList, buffer
    {
      Mem(buffer[..], holeList)
    }

    /** The buffer holds the holes' records, in a list, in the holes' own bytes, and every received byte. */
    ghost predicate Stored()
      reads this`buffer, this`holeList, this`desc, buffer
    {
      && Parts(View(), desc.holes, 0, [])
      && (forall i: nat :: i in desc.got ==> HEADER_SIZE + i < buffer.Length && buffer[HEADER_SIZE + i] == desc.got[i])
      && (forall i: nat :: i in desc.got ==> !Missing(desc.holes, i))
    }

    ghost predicate Valid()
      reads this, buffer
    {
      && buffer.Length % PAGE_SIZE == 0
      && Stored()
      && desc.ttl == ttl && desc.length == length
      && (length.Some? ==> HEADER_SIZE <= length.value <= buffer.Length)
      && (length.None? ==> Missing(desc.holes, MAX_PACKET_LENGTH))
    }

    method MakeHole(h: Hole, next: nat)
      requires Number(h) + HOLE_SIZE <= buffer.Length && Number(h) < 0x1_0000 && h.last < 0x1_0000 && next < 0x1_0000
      modifies buffer
      ensures buffer[..] == PutHole(old(buffer[..]), h, next)
    {
      var p := Number(h);
      buffer[p], buffer[p + 1] := (h.first % 256) as byte, (h.first / 256) as byte;
      buffer[p + 2], buffer[p + 3] := (h.last % 256) as byte, (h.last / 256) as byte;
      buffer[p + 4], buffer[p + 5] := (next % 256) as byte, (next / 256) as byte;
    }

    method WriteNext(prev: nat, v: nat)
      requires prev != 0 ==> prev + HOLE_SIZE <= buffer.Length
      requires v < 0x1_0000
      modifies this`holeList, buffer
      ensures View() == SetNext(old(View()), prev, v)
    {
      if prev == 0 {
        holeList := v;
      } else {
        buffer[prev + 4], buffer[prev + 5] := (v % 256) as byte, (v / 256) as byte;
      }
    }

    method InsertHole(prev: nat, h: Hole)
      requires prev != 0 ==> prev + HOLE_SIZE <= buffer.Length
      requires Number(h) + HOLE_SIZE <= buffer.Length && Number(h) < 0x1_0000 && h.last < 0x1_0000
      requires Next(View(), prev) < 0x1_0000
      modifies this`holeList, buffer
      ensures View() == Insert(old(View()), prev, h)
    {
      var next := if prev == 0 then holeList else buffer[prev + 4] as nat + 256 * (buffer[prev + 5] as nat);
      MakeHole(h, next);
      WriteNext(prev, Number(h));
    }

    /** Inserts a remaining piece `n` of the hole `h` behind `now`, which lies inside `a` and `h`. */
    method InsertPiece(prev: nat, n: Hole, ghost s: seq<byte>, ghost a: seq<Hole>, ghost h: Hole, ghost now: seq<Hole>,
                       ghost rest: seq<Hole>)
      returns (prev': nat, ghost now': seq<Hole>)
      requires Parts(View(), now, Head(rest, 0), rest) && FitsBetween(buffer.Length, now, n, rest) && prev == Prev(now)
      requires Untouched(s, buffer[..], a + [h]) && Inside(now, a + [h]) && h.first <= n.first && n.last <= h.last
      modifies this`holeList, buffer
      ensures now' == now + [n] && prev' == Prev(now')
      ensures Parts(View(), now', Head(rest, 0), rest) && buffer.Length == old(buffer.Length)
      ensures Untouched(s, buffer[..], a + [h]) && Inside(now', a + [h])
    {
      hide Parts, FitsBetween, Ordered, Missing, Untouched, Inside;
      InsertParts(View(), now, n, rest);
      ghost var t := buffer[..];
      InsertHole(prev, n);
      now' := now + [n];
      prev' := Number(n);
      InsideStep(a, now, n, h);
      InsideUntouched(t, buffer[..], now', a + [h]);
      UntouchedTwice(s, t, buffer[..], a + [h]);
    }

    /** One turn of the loop over the holes, standing at `h`: keep it, or unlink it and insert what the
        fragment leaves of it. Returns the record the next turn starts behind. */
    method PunchHole(p: Packet, prev: nat, hole: nat, ghost a: seq<Hole>, ghost h: Hole, ghost rest: seq<Hole>)
      returns (prev': nat)
      requires InRange(p) && !Malformed(p) && !TooBig(p)
      requires p.more ==> HEADER_SIZE + p.End() + HOLE_SIZE <= buffer.Length
      requires Parts(View(), a, Number(h), [h] + rest) && prev == Prev(a) && hole == Number(h)
      modifies this`holeList, buffer
      ensures var r := a + PunchOne(h, p.offset, p.End() - 1, !p.more);
              Parts(View(), r, Head(rest, 0), rest) && prev' == Prev(r)
      ensures Untouched(old(buffer[..]), buffer[..], a + [h])
    {
      hide Parts, Ordered, Missing, Untouched, InRange, Malformed, Inside, FitsBetween;
      var first, last := p.offset, p.End() - 1;
      AtHole(View(), a, h, rest);
      var holeFirst, holeLast := Read16(buffer[..], hole), Read16(buffer[..], hole + 2);
      if first > holeLast || last < holeFirst {
        SameIsUntouched(buffer[..], a + [h]);
        return hole;
      }
      ghost var s := buffer[..];
      PunchedPartsFit(View(), a, h, rest, p);
      SetNextParts(View(), a, Number(h), rest, Head(rest, 0));
      WriteNext(prev, Read16(buffer[..], hole + 4));
      InsideStart(a, h);
      InsideUntouched(s, buffer[..], a, a + [h]);
      ghost var now := a;
      prev' := prev;
      if first > holeFirst {
        var left := Hole(holeFirst, first - 1);
        prev', now := InsertPiece(prev', left, s, a, h, now, rest);
      }
      if last < holeLast && p.more {
        var right := Hole(last + 1, holeLast);
        prev', now := InsertPiece(prev', right, s, a, h, now, rest);
      }
      assert now == a + PunchOne(h, first, last, !p.more);
    }

    /** The loop over the hole list: afterwards the list in the buffer is the punched one, and no byte
        outside the old holes has changed. */
    method PunchHoles(p: Packet, ghost hs: seq<Hole>)
      requires InRange(p) && !Malformed(p) && !TooBig(p)
      requires p.more ==> HEADER_SIZE + p.End() + HOLE_SIZE <= buffer.Length
      requires Parts(View(), hs, 0, [])
      modifies this`holeList, buffer
      ensures Parts(View(), Punch(hs, p.offset, p.End() - 1, !p.more), 0, [])
      ensures Untouched(old(buffer[..]), buffer[..], hs)
    {
      hide Ordered, Missing, Untouched, Malformed, Parts, PunchOne;
      var first, last := p.offset, p.End() - 1;
      var prev, hole := 0, holeList;
      ghost var i := 0;
      assert hs[i..] == hs;
      WholeList(View(), hs);
      SameIsUntouched(buffer[..], hs);
      while hole != 0
        invariant 0 <= i <= |hs| && buffer == old(buffer)
        invariant prev == Prev(Punch(hs[..i], first, last, !p.more)) && hole == Head(hs[i..], 0)
        invariant Parts(View(), Punch(hs[..i], first, last, !p.more), Head(hs[i..], 0), hs[i..])
        invariant Untouched(old(buffer[..]), buffer[..], hs)
        decreases |hs| - i
      {
        ghost var s, a := buffer[..], Punch(hs[..i], first, last, !p.more);
        assert hs[i..] == [hs[i]] + hs[i + 1..];
        assert hs[..i + 1][..i] == hs[..i];
        prev := PunchHole(p, prev, hole, a, hs[i], hs[i + 1..]);
        InsidePunched(hs, i, p);
        InsideUntouched(s, buffer[..], a + [hs[i]], hs);
        UntouchedTwice(old(buffer[..]), s, buffer[..], hs);
        i := i + 1;
        LastOfParts(View(), Punch(hs[..i], first, last, !p.more), hs[i..]);
        hole := if prev == 0 then holeList else buffer[prev + 4] as nat + 256 * (buffer[prev + 5] as nat);
      }
      assert hs[..i] == hs && hs[i..] == [];
    }

    constructor ()
      ensures Valid() && fresh(buffer) && desc == NEW_DESC
    {
      buffer := new byte[PAGE_SIZE];
      ttl, length := None, None;
      holeList := 0;
      desc := NEW_DESC;
      new;
      MakeHole(Hole(0, MAX_PACKET_LENGTH), 0);
      holeList := Number(Hole(0, MAX_PACKET_LENGTH));
      MissingOne(NEW_DESC.holes[0], MAX_PACKET_LENGTH);
    }

    /** Reallocates the buffer when the fragment does not fit; the old contents move to the new one. */
    method Grow(needed: nat, more: bool)
      requires Valid()
      modifies this`buffer
      ensures Valid() && buffer.Length == Grown(old(buffer.Length), needed, more) && needed <= buffer.Length
      ensures buffer == old(buffer) || fresh(buffer)
    {
      GrownMonotone(buffer.Length, needed, more);
      if needed + (if more then HOLE_SIZE else 0) > buffer.Length {
        hide Parts, Missing;
        var bigger := new byte[AlignUp(needed)];
        ghost var s := buffer[..];
        forall i | 0 <= i < buffer.Length && i < bigger.Length { bigger[i] := buffer[i]; }
        buffer := bigger;
        assert |s| <= buffer.Length && buffer[..|s|] == s;
        PartsMoved(Mem(s, holeList), buffer[..], desc.holes);
      }
    }

    method FillIn(p: Packet)
      requires HEADER_SIZE + p.End() <= buffer.Length
      modifies buffer
      ensures SameExcept(old(buffer[..]), buffer[..], HEADER_SIZE + p.offset, HEADER_SIZE + p.End())
      ensures forall i: nat :: Covers(p, i) ==> buffer[HEADER_SIZE + i] == p.payload[i - p.offset]
    {
      forall i: nat | i < |p.payload| { buffer[HEADER_SIZE + p.offset + i] := p.payload[i]; }
    }

    /** Punches the holes and copies the data in: the records stay intact, and so does every byte received
        before. */
    method Absorb(p: Packet)
      requires Stored() && InRange(p) && !Malformed(p) && !TooBig(p) && HEADER_SIZE + p.End() <= buffer.Length
      requires p.more ==> HEADER_SIZE + p.End() + HOLE_SIZE <= buffer.Length
      modifies this`holeList, this`desc, buffer
      ensures Stored() && desc == Updated(old(desc), p)
    {
      hide Ordered, Missing, Punch, Malformed, Chain;
      ghost var d, s := desc, buffer[..];
      PunchHoles(p, d.holes);
      PunchedClear(d.holes, p);
      ghost var t := buffer[..];
      FillIn(p);
      ghost var holes := Punch(d.holes, p.offset, p.End() - 1, !p.more);
      PartsFilled(Mem(t, holeList), buffer[..], holes, HEADER_SIZE + p.offset, HEADER_SIZE + p.End());
      desc := Updated(d, p);
      forall i: nat | i in desc.got
        ensures HEADER_SIZE + i < buffer.Length && buffer[HEADER_SIZE + i] == desc.got[i]
        ensures !Missing(desc.holes, i)
      {
        if Missing(holes, i) { PunchShrinks(d.holes, p.offset, p.End() - 1, !p.more, i); }
        if !Covers(p, i) { assert i in d.got && s[HEADER_SIZE + i] == d.got[i]; assert !Missing(d.holes, i); }
      }
    }

    /** Everything a fragment that is not refused does to the descriptor. */
    method Receive(p: Packet)
      requires Valid() && InRange(p) && !Malformed(p) && !TooBig(p)
      requires p.more ==> HEADER_SIZE + p.End() + HOLE_SIZE <= Grown(buffer.Length, HEADER_SIZE + p.End(), true)
      modifies this, buffer
      ensures Valid() && desc == Updated(old(desc), p) && (buffer == old(buffer) || fresh(buffer))
    {
      hide Punch, Missing, Stored;
      Grow(HEADER_SIZE + p.End(), p.more);
      if p.more { PunchMeaning(desc.holes, p.offset, p.End() - 1, false, MAX_PACKET_LENGTH); }
      if p.offset == 0 {
        ttl := Some(p.ttl);
      } else if !p.more {
        length := Some(HEADER_SIZE + p.End());
      }
      Absorb(p);
    }

    /** The packet as it stands in the buffer. */
    method Deliver(id: FragmentId) returns (out: Delivery)
      requires Valid() && length.Some? && HEADER_SIZE <= length.value <= buffer.Length
      ensures Agrees(out, Delivery(id, desc.ttl, Assembled(desc)), desc.got)
    {
      hide Parts, Missing;
      out := Delivery(id, ttl, buffer[HEADER_SIZE..length.value]);
    }

    /** One arriving fragment. A hole record that would not fit behind the fragment is excluded by the last
        precondition; `GrowthFits` shows when that happens. */
    method HandleFragment(p: Packet) returns (r: Reply)
      requires Valid() && InRange(p)
      requires p.more && !Malformed(p) && !TooBig(p) ==>
               HEADER_SIZE + p.End() + HOLE_SIZE <= Grown(buffer.Length, HEADER_SIZE + p.End(), true)
      modifies this, buffer
      ensures match Handle(old(desc), p)
              case Kept(d) => r == Waiting && desc == d && Valid() && (buffer == old(buffer) || fresh(buffer))
              case Rejected => r == Refused
              case Complete(out) => r.Done? && Agrees(r.delivery, out, Updated(old(desc), p).got)
    {
      hide Updated, InRange, Parts, Missing, Agrees, Assembled;
      if Malformed(p) || TooBig(p) { return Refused; }
      Receive(p);
      EmptyIffZero(View(), desc.holes);
      hide Stored;
      if holeList == 0 {
        var out := Deliver(p.id);
        return Done(out);
      }
      return Waiting;
    }
  }
}
