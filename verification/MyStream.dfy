/**
 Whole packets: what a response of complete packets does, read as a list, and that the byte-wise
 decoder does just that.
 */
module MyStream {
  import opened Bytes
  import opened Machine
  import opened MyFields
  import opened MyPackets
  import opened MyFeed
  import opened MyCodec

  /** A packet of one payload (MySQL Client/Server Protocol: Protocol::Packet). */
  datatype Packet = Packet(id: byte, payload: bytes)

  predicate PacketFits(p: Packet) {
    0 < |p.payload| < TWO_24
  }

  predicate PacketsFit(ps: seq<Packet>) {
    forall i :: 0 <= i < |ps| ==> PacketFits(ps[i])
  }

  function Wire(p: Packet): bytes {
    ToLe(|p.payload|, 3) + ([p.id] + p.payload)
  }

  function WireAll(ps: seq<Packet>): bytes {
    if ps == [] then [] else Wire(ps[0]) + WireAll(ps[1..])
  }

  /** The decoder between packets. */
  function At(g: Progress, id: nat): Query {
    Query(Length([]), id, g)
  }

  /** Where a list of packets leads. */
  datatype Verdict =
    | Waiting(g: Progress, id: nat)
    | Stopped(g: Progress, left: seq<Packet>)
    | Dropped(r: PacketResult, g: Progress)

  /** A whole payload in the hands of the parser chosen for it. */
  function Whole(g: Progress, payload: bytes): MyBody
    requires payload != []
  {
    PayloadBody(Payload(|payload|, |payload|, None), g, payload)
  }

  /** One packet: it must carry the expected number, and its payload is taken whole. */
  function TakePacket(g: Progress, id: nat, p: Packet): Verdict
    requires PacketFits(p)
  {
    if p.id != id then Dropped(PacketMalformed, g) else
    match Whole(Entered(g), p.payload)
    case Decoded(v, _) =>
      var g' := Absorb(Entered(g), v);
      if g'.phase == Finished then Stopped(g', []) else Waiting(g', (id + 1) % 256)
    case Trailing(v) => Dropped(PacketTrailingData, Absorb(Entered(g), v))
    case Bad(e) => Dropped(ResultOf(e), Entered(g))
    case _ => Dropped(PacketIncomplete, Entered(g))
  }

  function Follow(g: Progress, id: nat, ps: seq<Packet>): Verdict
    requires PacketsFit(ps)
    decreases |ps|
  {
    if ps == [] then Waiting(g, id) else
    match TakePacket(g, id, ps[0])
    case Waiting(g', id') => Follow(g', id', ps[1..])
    case Stopped(g', _) => Stopped(g', ps[1..])
    case Dropped(r, g') => Dropped(r, g')
  }

  /** What a verdict is for the decoder, when `tail` follows the packets. */
  function Fate(v: Verdict, tail: bytes): Fed {
    match v
    case Waiting(g, id) => Feed(At(g, id), tail)
    case Stopped(g, left) => Paused(g, WireAll(left) + tail)
    case Dropped(r, g) => Failed(r, g)
  }

  lemma LengthRoundTrip(n: nat)
    requires n < TWO_24
    ensures PayloadLength(ToLe(n, 3)) == n
  {
    Powers();
    LeRoundTrip(n, 3);
    FromLeBytes(ToLe(n, 3));
  }

  lemma FromLeBytes(b: bytes)
    requires |b| == 3
    ensures FromLe(b) == PayloadLength(b)
  {
    assert b[1..][1..] == b[2..] && b[2..][1..] == [];
    assert FromLe(b[2..]) == b[2];
    assert FromLe(b[1..]) == b[1] as int + 256 * FromLe(b[1..][1..]);
  }

  /** The header of a packet leads to its payload, as much of it as there is. */
  lemma FeedPart(g: Progress, id: nat, len: nat, number: byte, more: bytes)
    requires len < TWO_24
    ensures Feed(At(g, id), ToLe(len, 3) + ([number] + more)) ==
            if number != id then Failed(PacketMalformed, g)
            else Feed(Query(Payload(len, len, None), (id + 1) % 256, g), more)
  {
    FeedHeader(At(g, id), ToLe(len, 3), [number] + more);
    assert [] + ToLe(len, 3) == ToLe(len, 3);
    LengthRoundTrip(len);
    var q := Query(Sequence(len), id, g);
    assert ([number] + more)[0] == number && ([number] + more)[1..] == more;
    assert Feed(q, [number] + more) == if number == id then Feed(Sequenced(q), more) else Failed(PacketMalformed, g);
  }

  lemma FeedWire(g: Progress, id: nat, p: Packet, rest: bytes)
    requires PacketFits(p)
    ensures Feed(At(g, id), Wire(p) + rest) ==
            if p.id != id then Failed(PacketMalformed, g)
            else Feed(Query(Payload(|p.payload|, |p.payload|, None), (id + 1) % 256, g), p.payload + rest)
  {
    Assoc(ToLe(|p.payload|, 3), [p.id] + p.payload, rest);
    Assoc([p.id], p.payload, rest);
    FeedPart(g, id, |p.payload|, p.id, p.payload + rest);
  }

  /** A packet does to the decoder what is said of it as a whole. */
  lemma FeedPacket(g: Progress, id: nat, p: Packet, rest: bytes)
    requires PacketFits(p)
    ensures Feed(At(g, id), Wire(p) + rest) == Fate(TakePacket(g, id, p), rest)
  {
    FeedWire(g, id, p, rest);
    var f := Payload(|p.payload|, |p.payload|, None);
    CutBody(f, Entered(g), p.payload, rest);
    assert WireAll([]) + rest == rest;
  }

  /** The decoder refines the list of packets: this is what it does to any packets, whatever follows them. */
  lemma {:induction false} FeedFollows(g: Progress, id: nat, ps: seq<Packet>, tail: bytes)
    requires PacketsFit(ps)
    ensures Feed(At(g, id), WireAll(ps) + tail) == Fate(Follow(g, id, ps), tail)
    decreases |ps|
  {
    if ps == [] {
      assert WireAll(ps) + tail == tail;
    } else {
      var rest := WireAll(ps[1..]) + tail;
      assert WireAll(ps) + tail == Wire(ps[0]) + rest;
      FeedPacket(g, id, ps[0], rest);
      match TakePacket(g, id, ps[0])
      case Waiting(g', id') => FeedFollows(g', id', ps[1..], tail);
      case Stopped(g', _) => assert WireAll([]) + rest == rest;
      case Dropped(_, _) =>
    }
  }

  // ---- any bytes ----

  /** Bytes that do not hold a packet: too few, or the header of a payload of no bytes. */
  predicate Unfinished(tail: bytes) {
    |tail| < 4 || PayloadLength(tail[..3]) == 0 || |tail| < 4 + PayloadLength(tail[..3])
  }

  lemma LengthBytes(b: bytes)
    requires |b| == 3
    ensures ToLe(PayloadLength(b), 3) == b
  {
    FromLeBytes(b);
    LeInverse(b);
  }

  lemma HeadPacket(bs: bytes) returns (p: Packet, rest: bytes)
    requires !Unfinished(bs)
    ensures PacketFits(p) && bs == Wire(p) + rest
  {
    var len := PayloadLength(bs[..3]);
    LengthBytes(bs[..3]);
    p, rest := Packet(bs[3], bs[4..4 + len]), bs[4 + len..];
    assert bs == bs[..3] + ([bs[3]] + p.payload) + rest;
  }

  /** Every byte string is packets and a rest. */
  lemma {:induction false} Packets(bs: bytes) returns (ps: seq<Packet>, tail: bytes)
    ensures PacketsFit(ps) && Unfinished(tail) && bs == WireAll(ps) + tail
    decreases |bs|
  {
    if Unfinished(bs) {
      ps, tail := [], bs;
      assert WireAll([]) + bs == bs;
    } else {
      var p, rest := HeadPacket(bs);
      var more;
      more, tail := Packets(rest);
      ps := [p] + more;
      assert ps[1..] == more;
      assert Wire(p) + WireAll(more) + tail == Wire(p) + rest;
    }
  }

  /** A payload that is not all there is not decoded. */
  lemma PartOfPayload(q: Query, bs: bytes)
    requires q.framer.Payload? && q.framer.inside == None && (q.framer.remain == 0 || |bs| < q.framer.remain)
    ensures !Feed(q, bs).Paused?
  {
  }

  /** The rest does not complete a response. */
  lemma TailNeverPauses(g: Progress, id: nat, tail: bytes)
    requires Unfinished(tail)
    ensures !Feed(At(g, id), tail).Paused?
  {
    if |tail| < 3 {
      assert tail + [] == tail;
      FeedHeader(At(g, id), tail, []);
    } else {
      var header, more := tail[..3], tail[3..];
      assert tail == header + more && [] + header == header;
      FeedHeader(At(g, id), header, more);
      var len := PayloadLength(header);
      var q := Query(Sequence(len), id, g);
      if more != [] && more[0] == id {
        PartOfPayload(Sequenced(q), more[1..]);
      }
    }
  }

  /**
   For any bytes: they are packets and a rest, the decoder does to them what Follow says, and it
   pauses exactly when one of the packets ends the response.
   */
  lemma Refines(g: Progress, id: nat, bs: bytes) returns (ps: seq<Packet>, tail: bytes)
    ensures PacketsFit(ps) && Unfinished(tail) && bs == WireAll(ps) + tail
    ensures Feed(At(g, id), bs) == Fate(Follow(g, id, ps), tail)
    ensures Feed(At(g, id), bs).Paused? <==> Follow(g, id, ps).Stopped?
  {
    ps, tail := Packets(bs);
    FeedFollows(g, id, ps, tail);
    if Follow(g, id, ps).Waiting? {
      TailNeverPauses(Follow(g, id, ps).g, Follow(g, id, ps).id, tail);
    }
  }
}
