/** IPv4 fragments and the sender that produces them (kernel/net/ip.c).

    Headers are records; the payload of a packet is the bytes its length field covers. */
module IpFragments {
  import opened Common

  const HEADER_SIZE: nat := 20
  const MAX_PACKET_LENGTH: nat := 65535

  /** The key under which fragments of one datagram meet. */
  datatype FragmentId = FragmentId(source: nat, dest: nat, identification: nat, protocol: nat)

  /** `ttl` stands for the header fields that are carried over unchanged. */
  datatype Packet = Packet(id: FragmentId, ttl: nat, offset: nat, more: bool, payload: seq<byte>)
  {
    function End(): (r: nat) { offset + |payload| }
  }

  /** A fragment whose 16-bit position arithmetic does not wrap: it carries data, its last byte has a
      16-bit index, and its offset field is a multiple of 8 (13 bits, shifted). */
  predicate InRange(p: Packet) {
    && p.offset % 8 == 0
    && 0 < |p.payload|
    && p.End() <= 0x1_0000
    && (p.more || 0 < p.offset)
  }

  /** `p` is some fragment, cut by anybody, of the datagram `data`: sender, router or retransmission. */
  ghost predicate FragmentOf(p: Packet, id: FragmentId, ttl: nat, data: seq<byte>) {
    && p.id == id && p.ttl == ttl
    && InRange(p)
    && p.End() <= |data|
    && p.payload == data[p.offset..p.End()]
    && (p.more <==> p.End() < |data|)
    && (p.more ==> |p.payload| % 8 == 0)
  }

  predicate Covers(p: Packet, i: nat) { p.offset <= i < p.End() }

  // ---------------------------------------------------------------- the sender

  /** The data each fragment carries: the MTU without the header, rounded down to a multiple of 8. */
  function DataMtu(mtu: nat): (r: nat)
    requires HEADER_SIZE <= mtu
  {
    (mtu - HEADER_SIZE) / 8 * 8
  }

  /** The fragments of data[offset..] in units of `unit` bytes. */
  function Pieces(id: FragmentId, ttl: nat, data: seq<byte>, offset: nat, unit: nat): (r: seq<Packet>)
    requires offset <= |data| && 0 < unit
    decreases |data| - offset
  {
    if |data| - offset <= unit then
      [Packet(id, ttl, offset, false, data[offset..])]
    else
      [Packet(id, ttl, offset, true, data[offset..offset + unit])] + Pieces(id, ttl, data, offset + unit, unit)
  }

  function Fragments(id: FragmentId, ttl: nat, data: seq<byte>, mtu: nat): (r: seq<Packet>)
    requires 28 <= mtu
  {
    Pieces(id, ttl, data, 0, DataMtu(mtu))
  }

  /** The sending loop. `accepted` is the number of packets the interface takes before its first error;
      the loop stops at that error. */
  method SendFragmented(id: FragmentId, ttl: nat, data: seq<byte>, mtu: nat, accepted: nat)
    returns (sent: seq<Packet>, ok: bool)
    requires 28 <= mtu && mtu < HEADER_SIZE + |data|
    ensures var all := Fragments(id, ttl, data, mtu);
            ok == (|all| <= accepted) && sent == if ok then all else all[..accepted]
  {
    var totalLength := |data|;
    var offset := 0;
    var dataMtu := DataMtu(mtu);
    var rawHeader, headerLength := 0, |data|;
    ghost var all := Fragments(id, ttl, data, mtu);
    sent := [];
    while true
      invariant 0 <= offset < totalLength && rawHeader == offset && headerLength == totalLength - offset
      invariant |sent| <= accepted && all == sent + Pieces(id, ttl, data, offset, dataMtu)
      decreases totalLength - offset
    {
      var oldHeaderLength := headerLength;
      var dataAdvanced := headerLength;
      if headerLength > dataMtu {
        headerLength := dataMtu;
        dataAdvanced := dataMtu;
      }
      var more := dataAdvanced + offset < totalLength;
      var packet := Packet(id, ttl, offset, more, data[rawHeader..rawHeader + headerLength]);
      assert packet == Pieces(id, ttl, data, offset, dataMtu)[0];
      if |sent| == accepted {
        assert all[..accepted] == sent;
        return sent, false;
      }
      sent := sent + [packet];
      offset := offset + dataAdvanced;
      if offset >= totalLength {
        assert all == sent;
        return sent, true;
      }
      rawHeader := rawHeader + headerLength;
      headerLength := oldHeaderLength - headerLength;
    }
  }

  // ---------------------------------------------------------------- what the sender emits

  /** Every emitted packet is a proper fragment of the datagram, at or after `offset`. */
  lemma {:induction false} PiecesAreFragments(id: FragmentId, ttl: nat, data: seq<byte>, offset: nat, unit: nat,
          p: Packet)
    requires offset < |data| <= MAX_PACKET_LENGTH && 0 < unit && unit % 8 == 0 && offset % 8 == 0
    requires 0 < offset || unit < |data|
    requires p in Pieces(id, ttl, data, offset, unit)
    ensures FragmentOf(p, id, ttl, data) && offset <= p.offset
    decreases |data| - offset
  {
    if unit < |data| - offset && p != Pieces(id, ttl, data, offset, unit)[0] {
      PiecesAreFragments(id, ttl, data, offset + unit, unit, p);
    }
  }

  lemma {:induction false} PieceSize(id: FragmentId, ttl: nat, data: seq<byte>, offset: nat, unit: nat, p: Packet)
    requires offset <= |data| && 0 < unit && p in Pieces(id, ttl, data, offset, unit)
    ensures |p.payload| <= unit && (p.more ==> |p.payload| == unit)
    decreases |data| - offset
  {
    if unit < |data| - offset && p != Pieces(id, ttl, data, offset, unit)[0] {
      PieceSize(id, ttl, data, offset + unit, unit, p);
    }
  }

  /** Every emitted packet fits the interface, and each but the last is as full as it can be: eight bytes more
      would not fit. */
  lemma FragmentsFit(id: FragmentId, ttl: nat, data: seq<byte>, mtu: nat, p: Packet)
    requires 28 <= mtu && p in Fragments(id, ttl, data, mtu)
    ensures 20 + |p.payload| <= mtu
    ensures p.more ==> |p.payload| % 8 == 0 && mtu < 20 + |p.payload| + 8
  {
    PieceSize(id, ttl, data, 0, DataMtu(mtu), p);
  }

  /** Every byte from `offset` on lies in some emitted packet ... */
  lemma {:induction false} PiecesCover(id: FragmentId, ttl: nat, data: seq<byte>, offset: nat, unit: nat, i: nat)
    returns (p: Packet)
    requires offset <= i < |data| && 0 < unit
    ensures p in Pieces(id, ttl, data, offset, unit) && Covers(p, i)
    decreases |data| - offset
  {
    if |data| - offset <= unit || i < offset + unit {
      p := Pieces(id, ttl, data, offset, unit)[0];
    } else {
      p := PiecesCover(id, ttl, data, offset + unit, unit, i);
    }
  }

  /** ... and in only one: the pieces are disjoint. */
  lemma {:induction false} PiecesAreDisjoint(id: FragmentId, ttl: nat, data: seq<byte>, offset: nat, unit: nat,
                                            p: Packet, q: Packet, i: nat)
    requires offset < |data| <= MAX_PACKET_LENGTH && 0 < unit && unit % 8 == 0 && offset % 8 == 0
    requires 0 < offset || unit < |data|
    requires p in Pieces(id, ttl, data, offset, unit) && Covers(p, i)
    requires q in Pieces(id, ttl, data, offset, unit) && Covers(q, i)
    ensures p == q
    decreases |data| - offset
  {
    hide FragmentOf;
    var head := Pieces(id, ttl, data, offset, unit)[0];
    if unit < |data| - offset {
      if p != head { PiecesAreFragments(id, ttl, data, offset + unit, unit, p); }
      if q != head { PiecesAreFragments(id, ttl, data, offset + unit, unit, q); }
      if p != head && q != head { PiecesAreDisjoint(id, ttl, data, offset + unit, unit, p, q, i); }
    }
  }
}
