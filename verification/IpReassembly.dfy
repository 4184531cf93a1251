/** Reassembly by hole descriptors (sections 3 and 4 of RFC 815) on values, as kernel/net/ip.c does it:
    what one fragment does to a descriptor, and what any interleaving of fragments delivers. */
module IpReassembly {
  import opened Common
  import opened IpFragments

  /** Bytes first..last (both included) have not arrived. */
  datatype Hole = Hole(first: nat, last: nat)

  /** A reassembly descriptor: the hole list, the bytes in hand, and the two header parts that different
      fragments fill in. */
  datatype Desc = Desc(holes: seq<Hole>, got: map<nat, byte>, ttl: Option<nat>, length: Option<nat>)

  datatype Delivery = Delivery(id: FragmentId, ttl: Option<nat>, payload: seq<byte>)

  datatype Outcome = Kept(desc: Desc) | Rejected | Complete(delivery: Delivery)

  const NEW_DESC := Desc([Hole(0, MAX_PACKET_LENGTH)], map[], None, None)

  /** The loop over the hole list. */
  function Punch(holes: seq<Hole>, first: nat, last: nat, isLast: bool): (r: seq<Hole>) {
    if holes == [] then []
    else
      var n := |holes| - 1;
      Punch(holes[..n], first, last, isLast) + PunchOne(holes[n], first, last, isLast)
  }

  function PunchOne(h: Hole, first: nat, last: nat, isLast: bool): (r: seq<Hole>) {
    if first > h.last || last < h.first then [h]
    else
      (if first > h.first then [Hole(h.first, first - 1)] else []) +
      (if last < h.last && !isLast then [Hole(last + 1, h.last)] else [])
  }

  function Piece(p: Packet): (r: map<nat, byte>)
  {
    map i: nat | Covers(p, i) && i < p.End() :: p.payload[i - p.offset]
  }

  /** The bytes handed on: as many as the length field says. */
  function Assembled(d: Desc): (r: seq<byte>) {
    if d.length.Some? && HEADER_SIZE <= d.length.value then
      seq(d.length.value - HEADER_SIZE, i requires 0 <= i => if i in d.got then d.got[i] else 0)
    else []
  }

  predicate TooBig(p: Packet) { p.End() + HEADER_SIZE > MAX_PACKET_LENGTH }

  predicate Malformed(p: Packet) { p.more && |p.payload| % 8 != 0 }

  function Updated(d: Desc, p: Packet): (r: Desc)
    requires InRange(p)
  {
    Desc(Punch(d.holes, p.offset, p.End() - 1, !p.more),
         d.got + Piece(p),
         if p.offset == 0 then Some(p.ttl) else d.ttl,
         if p.offset != 0 && !p.more then Some(p.End() + HEADER_SIZE) else d.length)
  }

  function Handle(d: Desc, p: Packet): (r: Outcome)
    requires InRange(p)
  {
    if Malformed(p) || TooBig(p) then Rejected
    else
      var d' := Updated(d, p);
      if d'.holes == [] then Complete(Delivery(p.id, d'.ttl, Assembled(d'))) else Kept(d')
  }

  // ---------------------------------------------------------------- the fragment store

  type Store = map<FragmentId, Desc>

  function Lookup(store: Store, id: FragmentId): (r: Desc) {
    if id in store then store[id] else NEW_DESC
  }

  /** One arriving fragment: finds or creates its descriptor, which is removed when the fragment is
      rejected or completes it. */
  function Step(store: Store, p: Packet): (r: (Store, Option<Delivery>))
    requires InRange(p)
  {
    match Handle(Lookup(store, p.id), p)
    case Kept(d) => (store[p.id := d], None)
    case Rejected => (store - {p.id}, None)
    case Complete(out) => (store - {p.id}, Some(out))
  }

  /** Fragments arrive; the collector throws away a descriptor that has been around too long. */
  datatype Event = Arrive(p: Packet) | Expire(id: FragmentId)

  predicate AllInRange(es: seq<Event>) { forall k :: 0 <= k < |es| && es[k].Arrive? ==> InRange(es[k].p) }

  /** The store after a whole run, of any number of datagrams, from an empty store. */
  function Run(es: seq<Event>): (r: Store)
    requires AllInRange(es)
  {
    if es == [] then map[]
    else
      var before := Run(es[..|es| - 1]);
      match es[|es| - 1]
      case Arrive(p) => Step(before, p).0
      case Expire(id) => before - {id}
  }

  /** What the k-th event of the run delivers. */
  function Output(es: seq<Event>, k: nat): (r: Option<Delivery>)
    requires AllInRange(es) && k < |es|
  {
    if es[k].Arrive? then Step(Run(es[..k]), es[k].p).1 else None
  }

  // ---------------------------------------------------------------- the hole list means "not received"

  ghost predicate Missing(holes: seq<Hole>, i: nat) {
    exists k :: 0 <= k < |holes| && holes[k].first <= i <= holes[k].last
  }

  ghost predicate Received(ps: seq<Packet>, i: nat) {
    exists k :: 0 <= k < |ps| && Covers(ps[k], i)
  }

  ghost predicate SeenLast(ps: seq<Packet>) {
    exists k :: 0 <= k < |ps| && !ps[k].more
  }

  /** A hole starts and ends on an 8-byte boundary, so it is at least 8 bytes long. */
  ghost predicate IsHole(h: Hole) {
    h.first % 8 == 0 && (h.last + 1) % 8 == 0 && h.first < h.last <= MAX_PACKET_LENGTH
  }

  /** Holes ascend without touching. */
  ghost predicate Ordered(holes: seq<Hole>) {
    && (forall k :: 0 <= k < |holes| ==> IsHole(holes[k]))
    && (forall j, k :: 0 <= j < k < |holes| ==> holes[j].last + 1 < holes[k].first)
  }

  /** The descriptor describes exactly the fragments `ps` of the datagram `data`. */
  ghost predicate Describes(d: Desc, ps: seq<Packet>, ttl: nat, data: seq<byte>) {
    && Ordered(d.holes)
    && (forall i: nat :: Missing(d.holes, i) <==> i < Limit(ps, data) && !Received(ps, i))
    && (forall i: nat :: i in d.got <==> Received(ps, i))
    && (forall i: nat :: i in d.got ==> i < |data| && d.got[i] == data[i])
    && (SeenLast(ps) ==> d.length == Some(HEADER_SIZE + |data|))
    && (Received(ps, 0) ==> d.ttl == Some(ttl))
  }

  /** Unknown bytes are counted up to the largest packet until the last fragment fixes the length. */
  ghost function Limit(ps: seq<Packet>, data: seq<byte>): (r: nat) {
    if SeenLast(ps) then |data| else MAX_PACKET_LENGTH + 1
  }

  lemma MissingConcat(a: seq<Hole>, b: seq<Hole>, i: nat)
    ensures Missing(a + b, i) <==> Missing(a, i) || Missing(b, i)
  {
    if Missing(a, i) {
      var k :| 0 <= k < |a| && a[k].first <= i <= a[k].last;
      assert (a + b)[k] == a[k];
    }
    if Missing(b, i) {
      var k :| 0 <= k < |b| && b[k].first <= i <= b[k].last;
      assert (a + b)[|a| + k] == b[k];
    }
  }

  ghost predicate In(h: Hole, i: nat) { h.first <= i <= h.last }

  lemma MissingOne(h: Hole, i: nat)
    ensures Missing([h], i) <==> In(h, i)
  {
    assert [h][0] == h;
  }

  lemma PunchOneMeaning(h: Hole, first: nat, last: nat, isLast: bool, i: nat)
    requires first <= last
    ensures Missing(PunchOne(h, first, last, isLast), i) ==> In(h, i) && !(first <= i <= last)
    ensures In(h, i) && (i < first || (last < i && (!isLast || last < h.first))) ==>
              Missing(PunchOne(h, first, last, isLast), i)
    ensures isLast && h.first <= last < i ==> !Missing(PunchOne(h, first, last, isLast), i)
  {
    var left := if first > h.first then [Hole(h.first, first - 1)] else [];
    var right := if last < h.last && !isLast then [Hole(last + 1, h.last)] else [];
    MissingOne(h, i);
    MissingOne(Hole(h.first, if first > h.first then first - 1 else 0), i);
    MissingOne(Hole(last + 1, h.last), i);
    MissingConcat(left, right, i);
  }

  /** Punching removes the fragment's bytes from the union of the holes and, for a last fragment,
      everything behind it. */
  lemma {:induction false} PunchMeaning(holes: seq<Hole>, first: nat, last: nat, isLast: bool, i: nat)
    requires first <= last
    requires isLast ==> forall h <- holes :: h.first <= last
    ensures Missing(Punch(holes, first, last, isLast), i) <==>
            Missing(holes, i) && !(first <= i <= last) && !(isLast && last < i)
  {
    if holes != [] {
      var n := |holes| - 1;
      PunchMeaning(holes[..n], first, last, isLast, i);
      MissingLast(holes, i);
      PunchOneMeaning(holes[n], first, last, isLast, i);
      MissingConcat(Punch(holes[..n], first, last, isLast), PunchOne(holes[n], first, last, isLast), i);
    }
  }

  lemma MissingLast(holes: seq<Hole>, i: nat)
    requires holes != []
    ensures Missing(holes, i) <==> Missing(holes[..|holes| - 1], i) || In(holes[|holes| - 1], i)
  {
    var n := |holes| - 1;
    assert holes == holes[..n] + [holes[n]];
    MissingConcat(holes[..n], [holes[n]], i);
    MissingOne(holes[n], i);
  }

  /** Whatever the fragment, punching never opens a hole and leaves none inside the fragment. */
  lemma {:induction false} PunchShrinks(holes: seq<Hole>, first: nat, last: nat, isLast: bool, i: nat)
    requires first <= last && Missing(Punch(holes, first, last, isLast), i)
    ensures Missing(holes, i) && !(first <= i <= last)
  {
    var n := |holes| - 1;
    MissingConcat(Punch(holes[..n], first, last, isLast), PunchOne(holes[n], first, last, isLast), i);
    PunchOneMeaning(holes[n], first, last, isLast, i);
    MissingLast(holes, i);
    if Missing(Punch(holes[..n], first, last, isLast), i) { PunchShrinks(holes[..n], first, last, isLast, i); }
  }

  lemma OrderedConcat(a: seq<Hole>, b: seq<Hole>)
    requires Ordered(a) && Ordered(b)
    requires a != [] && b != [] ==> a[|a| - 1].last + 1 < b[0].first
    ensures Ordered(a + b)
  {
    var c := a + b;
    forall j, k | 0 <= j < k < |c| ensures c[j].last + 1 < c[k].first {
      if j < |a| <= k {
        assert j == |a| - 1 || a[j].last + 1 < a[|a| - 1].first;
        assert k == |a| || b[0].last + 1 < b[k - |a|].first;
      }
    }
  }

  lemma PunchOneOrdered(h: Hole, p: Packet)
    requires InRange(p) && !Malformed(p) && !TooBig(p) && Ordered([h])
    ensures var r := PunchOne(h, p.offset, p.End() - 1, !p.more);
            Ordered(r) && forall k :: 0 <= k < |r| ==> h.first <= r[k].first && r[k].last <= h.last
  {
    assert IsHole(h) by { assert [h][0] == h; }
    assert p.offset > h.first ==> p.offset > h.last || IsHole(Hole(h.first, p.offset - 1));
    assert p.more && p.End() - 1 < h.last ==> IsHole(Hole(p.End(), h.last)) by { assert p.End() % 8 == 0 || !p.more; }
    hide IsHole, InRange, Malformed, TooBig;
  }

  lemma OrderedParts(holes: seq<Hole>)
    requires Ordered(holes) && holes != []
    ensures var n := |holes| - 1;
            && Ordered(holes[..n]) && Ordered([holes[n]])
            && (0 < n ==> holes[n - 1].last + 1 < holes[n].first)
  {
    assert [holes[|holes| - 1]][0] == holes[|holes| - 1];
  }

  /** Punching keeps the list ordered, and ends no later than the list it started from. */
  lemma {:induction false} PunchOrdered(holes: seq<Hole>, p: Packet)
    requires InRange(p) && !Malformed(p) && !TooBig(p) && Ordered(holes)
    ensures var r := Punch(holes, p.offset, p.End() - 1, !p.more);
            Ordered(r) && (r != [] ==> holes != [] && r[|r| - 1].last <= holes[|holes| - 1].last)
  {
    hide Ordered, PunchOne;
    if holes != [] {
      var n := |holes| - 1;
      OrderedParts(holes);
      PunchOrdered(holes[..n], p);
      PunchOneOrdered(holes[n], p);
      OrderedConcat(Punch(holes[..n], p.offset, p.End() - 1, !p.more),
                    PunchOne(holes[n], p.offset, p.End() - 1, !p.more));
      assert Ordered([holes[n]]);
      HoleIsNotEmpty(holes[n]);
    }
  }

  lemma HoleIsNotEmpty(h: Hole)
    requires Ordered([h])
    ensures h.first < h.last
  {
    assert [h][0] == h;
  }

  // ---------------------------------------------------------------- one fragment

  ghost predicate AllFragmentsOf(ps: seq<Packet>, id: FragmentId, ttl: nat, data: seq<byte>) {
    forall k :: 0 <= k < |ps| ==> FragmentOf(ps[k], id, ttl, data)
  }

  /** The whole datagram is in hand. */
  ghost predicate Whole(ps: seq<Packet>, data: seq<byte>) {
    forall i: nat :: i < |data| ==> Received(ps, i)
  }

  lemma ReceivedAppend(ps: seq<Packet>, p: Packet, i: nat)
    ensures Received(ps + [p], i) <==> Received(ps, i) || Covers(p, i)
  {
    var qs := ps + [p];
    if Received(ps, i) {
      var k :| 0 <= k < |ps| && Covers(ps[k], i);
      assert Covers(qs[k], i);
    }
    if Covers(p, i) { assert Covers(qs[|ps|], i); }
  }

  lemma SeenLastAppend(ps: seq<Packet>, p: Packet)
    ensures SeenLast(ps + [p]) <==> SeenLast(ps) || !p.more
  {
    var qs := ps + [p];
    if SeenLast(ps) {
      var k :| 0 <= k < |ps| && !ps[k].more;
      assert !qs[k].more;
    }
    if !p.more { assert !qs[|ps|].more; }
  }

  lemma ReceivedInside(ps: seq<Packet>, id: FragmentId, ttl: nat, data: seq<byte>, i: nat)
    requires AllFragmentsOf(ps, id, ttl, data) && Received(ps, i)
    ensures i < |data| && (i == |data| - 1 ==> SeenLast(ps))
  {
    var k :| 0 <= k < |ps| && Covers(ps[k], i);
    assert ps[k].End() <= |data|;
  }

  lemma GapBefore(holes: seq<Hole>, j: nat)
    requires Ordered(holes) && j < |holes| && 0 < holes[j].first
    ensures !Missing(holes, holes[j].first - 1)
  {
  }

  /** A last fragment leaves nothing behind it: every hole starts no later than the datagram's last byte. */
  lemma HolesStartInside(d: Desc, ps: seq<Packet>, id: FragmentId, ttl: nat, data: seq<byte>, h: Hole)
    requires data != [] && AllFragmentsOf(ps, id, ttl, data) && Describes(d, ps, ttl, data) && h in d.holes
    ensures h.first < |data|
  {
    var j :| 0 <= j < |d.holes| && d.holes[j] == h;
    if SeenLast(ps) {
      assert Missing(d.holes, h.first);
    } else if 0 < h.first {
      GapBefore(d.holes, j);
      ReceivedInside(ps, id, ttl, data, h.first - 1);
    }
  }

  lemma UpdatedHoles(d: Desc, ps: seq<Packet>, p: Packet, id: FragmentId, ttl: nat, data: seq<byte>, i: nat)
    requires AllFragmentsOf(ps, id, ttl, data) && FragmentOf(p, id, ttl, data)
    requires Describes(d, ps, ttl, data)
    ensures Missing(Updated(d, p).holes, i) <==> i < Limit(ps + [p], data) && !Received(ps + [p], i)
  {
    hide Ordered, Punch, Missing, Received, SeenLast;
    forall h <- d.holes ensures h.first < |data| { HolesStartInside(d, ps, id, ttl, data, h); }
    SeenLastAppend(ps, p);
    PunchMeaning(d.holes, p.offset, p.End() - 1, !p.more, i);
    ReceivedAppend(ps, p, i);
    assert Missing(d.holes, i) <==> i < Limit(ps, data) && !Received(ps, i);
  }

  /** One more fragment, overlapping or repeated or not: the descriptor describes one more fragment. */
  lemma UpdatedDescribes(d: Desc, ps: seq<Packet>, p: Packet, id: FragmentId, ttl: nat, data: seq<byte>)
    requires AllFragmentsOf(ps, id, ttl, data) && FragmentOf(p, id, ttl, data)
    requires Describes(d, ps, ttl, data) && !TooBig(p)
    ensures Describes(Updated(d, p), ps + [p], ttl, data)
  {
    hide Ordered, Punch, Missing, Received, SeenLast;
    var d' := Updated(d, p);
    PunchOrdered(d.holes, p);
    SeenLastAppend(ps, p);
    forall i: nat ensures Missing(d'.holes, i) <==> i < Limit(ps + [p], data) && !Received(ps + [p], i) {
      UpdatedHoles(d, ps, p, id, ttl, data, i);
    }
    forall i: nat ensures i in d'.got <==> Received(ps + [p], i) { ReceivedAppend(ps, p, i); }
    ReceivedAppend(ps, p, 0);
  }

  /** The hole list is empty exactly when the datagram is whole, and then header and bytes are the sender's. */
  lemma EmptyIffWhole(d: Desc, ps: seq<Packet>, id: FragmentId, ttl: nat, data: seq<byte>)
    requires data != [] && |data| + HEADER_SIZE <= MAX_PACKET_LENGTH
    requires AllFragmentsOf(ps, id, ttl, data) && Describes(d, ps, ttl, data)
    ensures d.holes == [] <==> Whole(ps, data)
    ensures d.holes == [] ==> Assembled(d) == data && d.ttl == Some(ttl)
  {
    assert !Received(ps, MAX_PACKET_LENGTH) by {
      if Received(ps, MAX_PACKET_LENGTH) { ReceivedInside(ps, id, ttl, data, MAX_PACKET_LENGTH); }
    }
    assert d.holes != [] ==> Missing(d.holes, d.holes[0].first);
    if Whole(ps, data) { ReceivedInside(ps, id, ttl, data, |data| - 1); }
    if d.holes == [] {
      assert !Missing(d.holes, MAX_PACKET_LENGTH);
      forall i: nat | i < |data| ensures Received(ps, i) { assert !Missing(d.holes, i); }
      assert Assembled(d) == data;
    }
  }

  // ---------------------------------------------------------------- whole runs

  /** Every fragment in the run that carries `id` belongs to the one datagram; the others are arbitrary. */
  ghost predicate RunOf(es: seq<Event>, id: FragmentId, ttl: nat, data: seq<byte>) {
    && AllInRange(es)
    && forall k :: 0 <= k < |es| && es[k].Arrive? && es[k].p.id == id ==> FragmentOf(es[k].p, id, ttl, data)
  }

  /** The fragments of `id` that arrived since it was last completed or thrown away: the reference the
      implementation is measured against, with no holes in it. */
  ghost function Pending(es: seq<Event>, id: FragmentId, data: seq<byte>): (r: seq<Packet>) {
    if es == [] then []
    else
      var before := Pending(es[..|es| - 1], id, data);
      match es[|es| - 1]
      case Expire(x) => if x == id then [] else before
      case Arrive(p) => if p.id != id then before
                        else if Whole(before + [p], data) then [] else before + [p]
  }

  lemma HandleFragment(d: Desc, ps: seq<Packet>, p: Packet, id: FragmentId, ttl: nat, data: seq<byte>)
    requires |data| + HEADER_SIZE <= MAX_PACKET_LENGTH
    requires AllFragmentsOf(ps, id, ttl, data) && FragmentOf(p, id, ttl, data) && Describes(d, ps, ttl, data)
    ensures Handle(d, p) == if Whole(ps + [p], data) then Complete(Delivery(id, Some(ttl), data))
        else Kept(Updated(d, p))
    ensures Describes(Updated(d, p), ps + [p], ttl, data)
  {
    UpdatedDescribes(d, ps, p, id, ttl, data);
    EmptyIffWhole(Updated(d, p), ps + [p], id, ttl, data);
  }

  lemma NewDescribesNothing(ttl: nat, data: seq<byte>)
    ensures Describes(NEW_DESC, [], ttl, data)
  {
    forall i: nat { MissingOne(Hole(0, MAX_PACKET_LENGTH), i); }
  }

  /** The store holds a descriptor of exactly the fragments `ps` of an incomplete datagram. */
  ghost predicate Tracks(store: Store, id: FragmentId, ps: seq<Packet>, ttl: nat, data: seq<byte>) {
    && AllFragmentsOf(ps, id, ttl, data) && !Whole(ps, data)
    && (id in store <==> ps != [])
    && Describes(Lookup(store, id), ps, ttl, data)
  }

  lemma TracksNothing(store: Store, id: FragmentId, ttl: nat, data: seq<byte>)
    requires data != [] && id !in store
    ensures Tracks(store, id, [], ttl, data)
  {
    NewDescribesNothing(ttl, data);
    assert !Received([], 0);
  }

  lemma StepTracks(store: Store, id: FragmentId, ps: seq<Packet>, p: Packet, ttl: nat, data: seq<byte>)
    requires data != [] && |data| + HEADER_SIZE <= MAX_PACKET_LENGTH
    requires Tracks(store, id, ps, ttl, data) && FragmentOf(p, id, ttl, data)
    ensures Tracks(Step(store, p).0, id, if Whole(ps + [p], data) then [] else ps + [p], ttl, data)
    ensures Step(store, p).1 == if Whole(ps + [p], data) then Some(Delivery(id, Some(ttl), data)) else None
  {
    hide Describes, Whole, Updated, Handle;
    assert p.id == id && InRange(p) by { assert FragmentOf(p, id, ttl, data); }
    HandleFragment(Lookup(store, id), ps, p, id, ttl, data);
    if Whole(ps + [p], data) { TracksNothing(Step(store, p).0, id, ttl, data); }
  }

  /** In every run the stored descriptor describes exactly the pending fragments. */
  lemma {:induction false} RunTracksPending(es: seq<Event>, id: FragmentId, ttl: nat, data: seq<byte>)
    requires data != [] && |data| + HEADER_SIZE <= MAX_PACKET_LENGTH && RunOf(es, id, ttl, data)
    ensures Tracks(Run(es), id, Pending(es, id, data), ttl, data)
  {
    if es == [] {
      TracksNothing(map[], id, ttl, data);
    } else {
      var before, e := es[..|es| - 1], es[|es| - 1];
      RunTracksPending(before, id, ttl, data);
      if e.Arrive? && e.p.id == id {
        StepTracks(Run(before), id, Pending(before, id, data), e.p, ttl, data);
      } else if e.Expire? && e.id == id {
        TracksNothing(Run(es), id, ttl, data);
      }
    }
  }

  /** The k-th arrival delivers the datagram, byte for byte, if and only if it makes the pending fragments
      whole: no sooner, no later, nothing else, whatever else is being reassembled in between. */
  lemma DeliversExactlyWhenWhole(es: seq<Event>, id: FragmentId, ttl: nat, data: seq<byte>, k: nat)
    requires data != [] && |data| + HEADER_SIZE <= MAX_PACKET_LENGTH && RunOf(es, id, ttl, data)
    requires k < |es| && es[k].Arrive? && es[k].p.id == id
    ensures Output(es, k) == if Whole(Pending(es[..k], id, data) + [es[k].p], data)
                             then Some(Delivery(id, Some(ttl), data)) else None
  {
    RunTracksPending(es[..k], id, ttl, data);
    StepTracks(Run(es[..k]), id, Pending(es[..k], id, data), es[k].p, ttl, data);
  }

  /** A datagram above the largest packet length keeps an open end in its descriptor for ever ... */
  lemma {:induction false} OversizeStaysOpen(es: seq<Event>, id: FragmentId, ttl: nat, data: seq<byte>)
    requires MAX_PACKET_LENGTH < |data| + HEADER_SIZE && RunOf(es, id, ttl, data)
    ensures Missing(Lookup(Run(es), id).holes, MAX_PACKET_LENGTH)
  {
    if es == [] {
      assert NEW_DESC.holes[0] == Hole(0, MAX_PACKET_LENGTH);
    } else {
      var before, e := es[..|es| - 1], es[|es| - 1];
      OversizeStaysOpen(before, id, ttl, data);
      assert Missing(NEW_DESC.holes, MAX_PACKET_LENGTH) by { assert NEW_DESC.holes[0] == Hole(0, MAX_PACKET_LENGTH); }
      if e.Arrive? && e.p.id == id {
        OversizeStep(Lookup(Run(before), id), e.p, id, ttl, data);
      }
    }
  }

  lemma OversizeStep(d: Desc, p: Packet, id: FragmentId, ttl: nat, data: seq<byte>)
    requires MAX_PACKET_LENGTH < |data| + HEADER_SIZE && FragmentOf(p, id, ttl, data)
    requires Missing(d.holes, MAX_PACKET_LENGTH)
    ensures !Handle(d, p).Complete?
    ensures Handle(d, p).Kept? ==> Missing(Handle(d, p).desc.holes, MAX_PACKET_LENGTH)
  {
    hide Punch, Assembled;
    if !TooBig(p) { PunchMeaning(d.holes, p.offset, p.End() - 1, false, MAX_PACKET_LENGTH); }
  }

  /** ... so it is never delivered, though the sender does cut it up and send it. */
  lemma OversizeNeverDelivered(es: seq<Event>, id: FragmentId, ttl: nat, data: seq<byte>, k: nat)
    requires MAX_PACKET_LENGTH < |data| + HEADER_SIZE && RunOf(es, id, ttl, data)
    requires k < |es| && es[k].Arrive? && es[k].p.id == id
    ensures Output(es, k) == None
  {
    OversizeStaysOpen(es[..k], id, ttl, data);
    OversizeStep(Lookup(Run(es[..k]), id), es[k].p, id, ttl, data);
  }

  // ---------------------------------------------------------------- round trip

  function Arrivals(ps: seq<Packet>): (r: seq<Event>)
    ensures |r| == |ps| && forall k :: 0 <= k < |ps| ==> r[k] == Arrive(ps[k])
  {
    seq(|ps|, i requires 0 <= i < |ps| => Arrive(ps[i]))
  }

  ghost predicate FromSender(id: FragmentId, ttl: nat, data: seq<byte>, mtu: nat, ps: seq<Packet>) {
    && 28 <= mtu && mtu < HEADER_SIZE + |data| && |data| <= MAX_PACKET_LENGTH
    && forall k :: 0 <= k < |ps| ==> ps[k] in Fragments(id, ttl, data, mtu)
  }

  /** Fragments from the sender's own list are whole exactly when all of them are there. */
  lemma WholeIffAll(id: FragmentId, ttl: nat, data: seq<byte>, mtu: nat, ps: seq<Packet>)
    requires FromSender(id, ttl, data, mtu, ps)
    ensures Whole(ps, data) <==> forall f <- Fragments(id, ttl, data, mtu) :: f in ps
  {
    if Whole(ps, data) {
      forall f <- Fragments(id, ttl, data, mtu) ensures f in ps { WholeHas(id, ttl, data, mtu, ps, f); }
    } else if forall f <- Fragments(id, ttl, data, mtu) :: f in ps {
      forall i: nat | i < |data| ensures Received(ps, i) {
        var f := PiecesCover(id, ttl, data, 0, DataMtu(mtu), i);
        var k :| 0 <= k < |ps| && ps[k] == f;
        assert Covers(ps[k], i);
      }
    }
  }

  lemma WholeHas(id: FragmentId, ttl: nat, data: seq<byte>, mtu: nat, ps: seq<Packet>, f: Packet)
    requires FromSender(id, ttl, data, mtu, ps) && Whole(ps, data) && f in Fragments(id, ttl, data, mtu)
    ensures f in ps
  {
    PiecesAreFragments(id, ttl, data, 0, DataMtu(mtu), f);
    assert Received(ps, f.offset);
    var k :| 0 <= k < |ps| && Covers(ps[k], f.offset);
    PiecesAreDisjoint(id, ttl, data, 0, DataMtu(mtu), f, ps[k], f.offset);
  }

  lemma {:induction false} PendingIsPrefix(ps: seq<Packet>, k: nat, id: FragmentId, data: seq<byte>)
    requires k <= |ps| && (forall j :: 0 <= j < |ps| ==> ps[j].id == id)
    requires forall j :: 0 <= j <= k ==> !Whole(ps[..j], data)
    ensures Pending(Arrivals(ps)[..k], id, data) == ps[..k]
  {
    if k > 0 {
      PendingIsPrefix(ps, k - 1, id, data);
      assert Arrivals(ps)[..k][..k - 1] == Arrivals(ps)[..k - 1];
      assert ps[..k] == ps[..k - 1] + [ps[k - 1]];
    }
  }

  lemma SenderArrivals(id: FragmentId, ttl: nat, data: seq<byte>, mtu: nat, ps: seq<Packet>)
    requires FromSender(id, ttl, data, mtu, ps)
    ensures RunOf(Arrivals(ps), id, ttl, data)
    ensures forall k :: 0 <= k < |ps| ==> ps[k].id == id
  {
    forall k | 0 <= k < |ps| ensures FragmentOf(ps[k], id, ttl, data) {
      PiecesAreFragments(id, ttl, data, 0, DataMtu(mtu), ps[k]);
    }
  }

  lemma OutputAt(id: FragmentId, ttl: nat, data: seq<byte>, ps: seq<Packet>, k: nat)
    requires data != [] && |data| + HEADER_SIZE <= MAX_PACKET_LENGTH
    requires RunOf(Arrivals(ps), id, ttl, data) && (forall j :: 0 <= j < |ps| ==> ps[j].id == id)
    requires k < |ps| && forall j :: 0 <= j <= k ==> !Whole(ps[..j], data)
    ensures Output(Arrivals(ps), k) == if Whole(ps[..k + 1], data) then Some(Delivery(id, Some(ttl), data)) else None
  {
    hide Whole, FragmentOf, InRange, Step;
    PendingIsPrefix(ps, k, id, data);
    DeliversExactlyWhenWhole(Arrivals(ps), id, ttl, data, k);
    assert ps[..k] + [ps[k]] == ps[..k + 1];
  }

  /** Fragment, shuffle, repeat, reassemble: when the sender's fragments of a datagram arrive in any order,
      with any repetitions, and the last arrival supplies the last one still missing, then that arrival
      delivers the datagram, no earlier one delivers anything, and nothing is left behind. This holds if
      and only if the datagram fits the largest IP packet; otherwise nothing is ever delivered. */
  lemma RoundTrip(id: FragmentId, ttl: nat, data: seq<byte>, mtu: nat, ps: seq<Packet>)
    requires FromSender(id, ttl, data, mtu, ps)
    requires ps != [] && forall f <- Fragments(id, ttl, data, mtu) :: f in ps
    requires exists f <- Fragments(id, ttl, data, mtu) :: f !in ps[..|ps| - 1]
    ensures RunOf(Arrivals(ps), id, ttl, data)
    ensures forall k :: 0 <= k < |ps| - 1 ==> Output(Arrivals(ps), k) == None
    ensures Output(Arrivals(ps), |ps| - 1) ==
            if |data| + HEADER_SIZE <= MAX_PACKET_LENGTH then Some(Delivery(id, Some(ttl), data)) else None
    ensures |data| + HEADER_SIZE <= MAX_PACKET_LENGTH ==> id !in Run(Arrivals(ps))
  {
    var es, n := Arrivals(ps), |ps| - 1;
    SenderArrivals(id, ttl, data, mtu, ps);
    if |data| + HEADER_SIZE <= MAX_PACKET_LENGTH {
      forall k | 0 <= k <= n ensures !Whole(ps[..k], data) { NotYetWhole(id, ttl, data, mtu, ps, k); }
      assert Whole(ps[..n + 1], data) by {
        assert ps[..n + 1] == ps;
        WholeIffAll(id, ttl, data, mtu, ps);
      }
      forall k | 0 <= k <= n
        ensures Output(es, k) == if k == n then Some(Delivery(id, Some(ttl), data)) else None
      {
        OutputAt(id, ttl, data, ps, k);
      }
      assert es[..n + 1] == es;
    } else {
      forall k | 0 <= k <= n ensures Output(es, k) == None { OversizeNeverDelivered(es, id, ttl, data, k); }
    }
  }

  lemma NotYetWhole(id: FragmentId, ttl: nat, data: seq<byte>, mtu: nat, ps: seq<Packet>, k: nat)
    requires FromSender(id, ttl, data, mtu, ps) && k < |ps|
    requires exists f <- Fragments(id, ttl, data, mtu) :: f !in ps[..|ps| - 1]
    ensures !Whole(ps[..k], data)
  {
    var f :| f in Fragments(id, ttl, data, mtu) && f !in ps[..|ps| - 1];
    assert f !in ps[..k] by { assert ps[..k] == ps[..|ps| - 1][..k]; }
    WholeIffAll(id, ttl, data, mtu, ps[..k]);
  }
}
