/**
 Everything a query can complete with: which bytes make it a success or an error of the server, and what the names and
 rows are when the response is malformed.
 */
module MyOutcomes {
  import opened Bytes
  import opened Machine
  import opened MyFields
  import opened MyPackets
  import opened MyFeed
  import opened MyCodec
  import opened MyStream
  import opened MyAccepted
  import opened MyResponses
  import opened MyReplies
  import Q = MyQuery

  // ---- whole replies ----

  /** The bytes begin with a reply to packet 0, as the protocol lays it out, and `rest` comes after it. */
  ghost predicate HoldsReply(bs: bytes, rest: bytes, ec: MyFeed.ErrorCode, def: seq<bytes>, result: seq<Row>) {
    exists ps, cs, last :: PacketsFit(ps) && bs == WireAll(ps) + rest
                        && IsReply(1, ps, cs, last, Progress(Finished, Columns(cs), def, result, ec))
  }

  lemma PausesOnReply(bs: bytes, rest: bytes, ec: MyFeed.ErrorCode, def: seq<bytes>, result: seq<Row>)
    ensures HoldsReply(bs, rest, ec, def, result) <==>
            exists g :: Feed(SENT, bs) == Paused(g, rest) && g.ec == ec && g.def == def && g.result == result
  {
    if HoldsReply(bs, rest, ec, def, result) {
      var ps, cs, last :| PacketsFit(ps) && bs == WireAll(ps) + rest
                       && IsReply(1, ps, cs, last, Progress(Finished, Columns(cs), def, result, ec));
      var g := Progress(Finished, Columns(cs), def, result, ec);
      PausesExactly(1, bs, g, rest);
      assert Feed(SENT, bs) == Paused(g, rest);
    }
    if g :| Feed(SENT, bs) == Paused(g, rest) && g.ec == ec && g.def == def && g.result == result {
      PausesExactly(1, bs, g, rest);
      var ps, cs, last :| PacketsFit(ps) && bs == WireAll(ps) + rest && IsReply(1, ps, cs, last, g);
      assert g == Progress(Finished, Columns(cs), def, result, ec);
    }
  }

  // ---- replies that break off ----

  /** A payload that may come after `cs`. */
  predicate Accepts(cs: seq<Content>, c: Content) {
    ContentOk(c) && (InPlace(c, |cs|, Columns(cs + [c])) || ClosedBy(cs, c))
  }

  /** The number of the packet after `cs`. */
  function NextId(cs: seq<Content>): byte {
    Nth(1, |cs|)
  }

  /** No such payload comes next. */
  ghost predicate NoNext(cs: seq<Content>, tail: bytes) {
    forall c, rest :: Accepts(cs, c) && 0 < |ContentBytes(c)| < TWO_24 ==>
      tail != Wire(Packet(NextId(cs), ContentBytes(c))) + rest
  }

  /** What the payload after `cs` begins with; the rows of no columns have no bytes. */
  predicate Begins(cs: seq<Content>, c: Content) {
    if cs == [] then c.CountContent? && ContentOk(c)
    else if |cs| <= Columns(cs) then c.DefinitionContent? && ContentOk(c)
    else c.RowContent? && |c.cells| == Columns(cs) && RowOk(c.cells)
  }

  /** By its first byte and its length, a payload is neither an error nor an end. */
  predicate Continues(cs: seq<Content>, first: byte, len: nat) {
    if cs == [] then first != 0xff && first != 0
    else if |cs| <= Columns(cs) then true
    else first != 0xff && (first == 0xfe ==> len >= 0xff_ffff)
  }

  /** The next packet has the right number, and its payload, as far as it has come, is `c` and more. */
  predicate TooLong(cs: seq<Content>, c: Content, len: nat, payload: bytes) {
    && |ContentBytes(c)| < len < TWO_24 && payload != [] && ContentBytes(c) <= payload
    && Begins(cs, c) && Continues(cs, payload[0], len)
  }

  ghost predicate Overlong(cs: seq<Content>, c: Content, tail: bytes) {
    exists len: nat, payload :: TooLong(cs, c, len, payload) && tail == ToLe(len, 3) + ([NextId(cs)] + payload)
  }

  /**
   The names and rows are those of the payloads before the one that is malformed; if that one is only too long,
   also what it begins with.
   */
  ghost predicate Kept(cs: seq<Content>, tail: bytes, def: seq<bytes>, result: seq<Row>) {
    if exists c :: Overlong(cs, c, tail)
    then exists c :: Overlong(cs, c, tail) && Reads(cs + [c], Columns(cs + [c]), def, result)
    else Reads(cs, Columns(cs), def, result)
  }

  /** The bytes begin with packets of a reply, all of them that can be, and something else follows. */
  ghost predicate BreaksOff(bs: bytes, def: seq<bytes>, result: seq<Row>) {
    exists ps, cs, tail :: PacketsFit(ps) && bs == WireAll(ps) + tail && Good(cs) && Carries(1, ps, cs)
                        && NoNext(cs, tail) && Kept(cs, tail, def, result)
  }

  // ---- a payload that is too long ----

  /** The parser of a content reads it, whatever follows. */
  lemma ContentRuns(cs: seq<Content>, c: Content, rest: bytes)
    requires Begins(cs, c) && ContentBytes(c) != []
    ensures RunNext(PAYLOAD, Go(ControlOf(c)), ContentBytes(c) + rest) == Yielded(ContentValue(c), rest)
  {
    match c
    case CountContent(e, n) =>
      IntAccepts(e, n, rest);
      LiftInt(NEW_INT, e + rest);
      Turn(Count, e, rest, IntP(IntRead(e)));
    case DefinitionContent(fs) => FieldsAccept(Catalog, BLANK_COLUMN, fs, rest);
    case RowContent(cells) =>
      RowAccepts(|cells|, [], cells, rest);
      assert [] + RowValue(cells) == RowValue(cells);
    case _ =>
  }

  lemma ContentFirst(c: Content)
    requires ContentOk(c) && (c.CountContent? || c.DefinitionContent? || c.RowContent?)
    ensures ContentBytes(c) != []
  {
    match c
    case DefinitionContent(fs) => assert FieldOk(Catalog, fs[0]) && FieldBytes(Catalog, fs[0]) != [];
    case RowContent(cells) => RowFirst(cells);
    case _ =>
  }

  /** The parser chosen for a payload that continues. */
  lemma EnterContinues(cs: seq<Content>, g: Progress, c: Content, first: byte, len: nat)
    requires Good(cs) && Going(cs, g) && Begins(cs, c) && Continues(cs, first, len)
    ensures Enter(Entered(g), len, first) == if ContentBytes(c) == [] then Yield(RowData([])) else Go(ControlOf(c))
    ensures ContentBytes(c) == [] ==> ContentValue(c) == RowData([])
  {
    if c != RowContent([]) {
      ContentFirst(c);
    }
  }

  /** So its value is kept, and what is left of it is trailing data. */
  lemma TooLongTrails(cs: seq<Content>, g: Progress, c: Content, len: nat, payload: bytes)
    requires Good(cs) && Going(cs, g) && TooLong(cs, c, len, payload)
    ensures EnterBody(PAYLOAD, len, Enter(Entered(g), len, payload[0]), payload) == Trailing(ContentValue(c))
  {
    var k, n := Min(len, |payload|), |ContentBytes(c)|;
    EnterContinues(cs, g, c, payload[0], len);
    var more := payload[..k][n..];
    assert payload[..k] == ContentBytes(c) + more;
    if n > 0 {
      ContentRuns(cs, c, more);
    } else {
      assert more == payload[..k];
    }
  }

  /** What it adds to the names and rows. */
  lemma AbsorbBegun(cs: seq<Content>, g: Progress, c: Content)
    requires Good(cs) && Going(cs, g) && Begins(cs, c)
    ensures var g' := Absorb(Entered(g), ContentValue(c));
            Reads(cs + [c], Columns(cs + [c]), g'.def, g'.result)
  {
    if cs != [] {
      assert (cs + [c])[0] == cs[0];
      if |cs| <= Columns(cs) {
        NameMore(cs, g.columnCount, g.def, c);
      } else {
        RowMore(cs, g.columnCount, g.def, g.result, c);
      }
    } else {
      assert [] + [c] == [c];
    }
  }

  lemma FeedTooLong(cs: seq<Content>, g: Progress, c: Content, len: nat, payload: bytes)
    requires Good(cs) && Going(cs, g) && TooLong(cs, c, len, payload)
    ensures Feed(At(g, NextId(cs)), ToLe(len, 3) + ([NextId(cs)] + payload)) ==
            Failed(PacketTrailingData, Absorb(Entered(g), ContentValue(c)))
  {
    FeedPart(g, NextId(cs), len, NextId(cs), payload);
    TooLongTrails(cs, g, c, len, payload);
  }

  lemma OverlongFails(cs: seq<Content>, g: Progress, c: Content, tail: bytes)
    requires Good(cs) && Going(cs, g) && Overlong(cs, c, tail)
    ensures var g' := Absorb(Entered(g), ContentValue(c));
            && Feed(At(g, NextId(cs)), tail) == Failed(PacketTrailingData, g')
            && Reads(cs + [c], Columns(cs + [c]), g'.def, g'.result)
  {
    var len: nat, payload :| TooLong(cs, c, len, payload) && tail == ToLe(len, 3) + ([NextId(cs)] + payload);
    FeedTooLong(cs, g, c, len, payload);
    AbsorbBegun(cs, g, c);
  }

  lemma TrailingTooLong(cs: seq<Content>, g: Progress, c: Content, len: nat, payload: bytes, rest: bytes)
    requires Good(cs) && Going(cs, g) && payload != [] && 0 < len < TWO_24 && Begins(cs, c) && ContentBytes(c) != []
    requires Enter(Entered(g), len, payload[0]) == Go(ControlOf(c))
    requires payload[..Min(len, |payload|)] == ContentBytes(c) + rest
    requires EnterBody(PAYLOAD, len, Go(ControlOf(c)), payload).Trailing?
    ensures TooLong(cs, c, len, payload)
  {
    ContentRuns(cs, c, rest);
    assert ContentBytes(c) <= payload[..Min(len, |payload|)] <= payload;
  }

  lemma RunYields(len: nat, c: Control, payload: bytes)
    requires EnterBody(PAYLOAD, len, Go(c), payload).Trailing?
    ensures RunFields(PAYLOAD, c, Start(c), payload[..Min(len, |payload|)]).Yielded?
  {
  }

  /** The content that a parser has read, of what the payload holds so far. */
  lemma ReadContent(cs: seq<Content>, g: Progress, len: nat, first: byte, control: Control, bs: bytes)
    returns (c: Content, rest: bytes)
    requires Good(cs) && Going(cs, g) && Enter(Entered(g), len, first) == Go(control)
    requires RunFields(PAYLOAD, control, Start(control), bs).Yielded?
    ensures Begins(cs, c) && ContentOk(c) && ControlOf(c) == control && bs == ContentBytes(c) + rest
  {
    match control
    case Count =>
      LiftInt(NEW_INT, bs);
      var e;
      e, rest := IntTaken(bs);
      c := CountContent(e, IntRead(e).result);
    case Column(_, _) =>
      var fs;
      fs, rest := FieldsTaken(Catalog, BLANK_COLUMN, bs);
      c := DefinitionContent(fs);
    case RowCells(n, _) =>
      var cells;
      cells, rest := MyAccepted.RowTaken(n, [], bs);
      c := RowContent(cells);
    case _ =>
      RunFamily(control, Start(control), bs);
      assert false;
  }

  /** Trailing data comes only so. */
  lemma TrailingBegins(cs: seq<Content>, g: Progress, len: nat, payload: bytes) returns (c: Content)
    requires Good(cs) && Going(cs, g) && payload != [] && 0 < len < TWO_24
    requires EnterBody(PAYLOAD, len, Enter(Entered(g), len, payload[0]), payload).Trailing?
    ensures TooLong(cs, c, len, payload)
  {
    var next := Enter(Entered(g), len, payload[0]);
    if next.Yield? {
      c := RowContent([]);
    } else {
      RunYields(len, next.c, payload);
      var rest;
      c, rest := ReadContent(cs, g, len, payload[0], next.c, payload[..Min(len, |payload|)]);
      ContentFirst(c);
      TrailingTooLong(cs, g, c, len, payload, rest);
    }
  }

  // ---- where a response breaks off ----

  lemma WireParts(p: Packet, rest: bytes)
    requires PacketFits(p)
    ensures var bs := Wire(p) + rest;
            && |bs| >= 4 + |p.payload| && bs[..3] == ToLe(|p.payload|, 3) && bs[3] == p.id
            && bs[4..4 + |p.payload|] == p.payload && bs[4 + |p.payload|..] == rest
    ensures PayloadLength((Wire(p) + rest)[..3]) == |p.payload|
  {
    var h, more := ToLe(|p.payload|, 3), [p.id] + p.payload;
    Assoc(h, more, rest);
    assert Wire(p) + rest == h + (more + rest);
    LengthRoundTrip(|p.payload|);
  }

  /** A packet is found in the bytes in one way. */
  lemma OneWire(p: Packet, rest: bytes, q: Packet, more: bytes)
    requires PacketFits(p) && PacketFits(q) && Wire(p) + rest == Wire(q) + more
    ensures p == q && rest == more
  {
    WireParts(p, rest);
    WireParts(q, more);
  }

  /** A packet that may come next is taken. */
  lemma AcceptedTaken(cs: seq<Content>, g: Progress, c: Content)
    requires Good(cs) && Going(cs, g) && Accepts(cs, c) && 0 < |ContentBytes(c)| < TWO_24
    ensures !TakePacket(g, NextId(cs), Packet(NextId(cs), ContentBytes(c))).Dropped?
  {
    if c.ErrContent? || c.OkContent? {
      ChosenEnd(cs, g, c);
    } else {
      ChosenInPlace(cs, g, c);
    }
    ChosenTaken(g, NextId(cs), c);
  }

  /** A packet that is taken may come next. */
  lemma TakenAccepted(cs: seq<Content>, g: Progress, p: Packet) returns (c: Content)
    requires Good(cs) && Going(cs, g) && PacketFits(p) && !TakePacket(g, NextId(cs), p).Dropped?
    ensures p == Packet(NextId(cs), ContentBytes(c)) && Accepts(cs, c) && Chosen(g, c)
  {
    c := TakenChosen(g, NextId(cs), p);
    if c.ErrContent? || c.OkContent? {
      ChosenEnd(cs, g, c);
    } else {
      ChosenInPlace(cs, g, c);
    }
  }

  /** Nothing comes next: there is no whole packet, or it is dropped. */
  lemma NothingNext(cs: seq<Content>, g: Progress, bs: bytes)
    requires Good(cs) && Going(cs, g)
    requires Unfinished(bs) || exists p, rest :: PacketFits(p) && bs == Wire(p) + rest
                                              && TakePacket(g, NextId(cs), p).Dropped?
    ensures NoNext(cs, bs)
  {
    forall c, rest | Accepts(cs, c) && 0 < |ContentBytes(c)| < TWO_24
      ensures bs != Wire(Packet(NextId(cs), ContentBytes(c))) + rest
    {
      var p := Packet(NextId(cs), ContentBytes(c));
      if bs == Wire(p) + rest {
        WireParts(p, rest);
        AcceptedTaken(cs, g, c);
        var q, more :| PacketFits(q) && bs == Wire(q) + more && TakePacket(g, NextId(cs), q).Dropped?;
        OneWire(p, rest, q, more);
        assert false;
      }
    }
  }

  lemma IdsGo(cs: seq<Content>, c: Content)
    ensures NextId(cs + [c]) as int == (NextId(cs) as int + 1) % 256
  {
  }

  lemma NoPackets(cs: seq<Content>, bs: bytes)
    ensures cs + [] == cs && WireAll([]) + bs == bs
  {
  }

  /** A response that is not over: the packets that are taken, what they hold, and what comes after them. */
  lemma {:induction false} TakenSoFar(cs: seq<Content>, g: Progress, bs: bytes)
    returns (ps: seq<Packet>, more: seq<Content>, h: Progress, tail: bytes)
    requires Good(cs) && Going(cs, g) && !Feed(At(g, NextId(cs)), bs).Paused?
    ensures PacketsFit(ps) && bs == WireAll(ps) + tail && Good(cs + more) && Carries(NextId(cs), ps, more)
    ensures Going(cs + more, h) && NoNext(cs + more, tail)
    ensures Feed(At(h, NextId(cs + more)), tail) == Feed(At(g, NextId(cs)), bs)
    ensures Feed(At(g, NextId(cs)), bs).More? ==> Unfinished(tail)
    decreases |bs|
  {
    ps, more, h, tail := [], [], g, bs;
    NoPackets(cs, bs);
    if Unfinished(bs) {
      NothingNext(cs, g, bs);
    } else {
      var p, rest := HeadPacket(bs);
      FeedPacket(g, NextId(cs), p, rest);
      match TakePacket(g, NextId(cs), p)
      case Dropped(_, _) => NothingNext(cs, g, bs);
      case Stopped(_, _) =>
      case Waiting(g1, id1) =>
        var c := OneGoes(cs, g, p);
        ps, more, h, tail := TakenSoFar(cs + [c], g1, rest);
        OneBefore(cs, c, p, ps, more, tail);
        ps, more := [p] + ps, [c] + more;
    }
  }

  lemma OneGoes(cs: seq<Content>, g: Progress, p: Packet) returns (c: Content)
    requires Good(cs) && Going(cs, g) && PacketFits(p) && TakePacket(g, NextId(cs), p).Waiting?
    ensures p == Packet(NextId(cs), ContentBytes(c)) && Good(cs + [c])
    ensures Going(cs + [c], TakePacket(g, NextId(cs), p).g) && TakePacket(g, NextId(cs), p).id == NextId(cs + [c])
  {
    c := TakenAccepted(cs, g, p);
    ChosenTaken(g, NextId(cs), c);
    IdsGo(cs, c);
    if !c.ErrContent? && !c.OkContent? {
      ChosenInPlace(cs, g, c);
      OneMore(cs, g, c);
    }
  }

  lemma OneBefore(cs: seq<Content>, c: Content, p: Packet, ps: seq<Packet>, more: seq<Content>, tail: bytes)
    requires p == Packet(NextId(cs), ContentBytes(c)) && PacketFits(p) && PacketsFit(ps)
    requires Carries(NextId(cs + [c]), ps, more)
    ensures PacketsFit([p] + ps) && Carries(NextId(cs), [p] + ps, [c] + more)
    ensures WireAll([p] + ps) + tail == Wire(p) + (WireAll(ps) + tail)
    ensures cs + [c] + more == cs + ([c] + more)
  {
    IdsGo(cs, c);
    CarriesCons(NextId(cs), NextId(cs + [c]), c, p, ps, more);
    WireCons(p, ps, tail);
    FitsCons(p, ps);
    ContentsAssoc(cs, c, more);
  }

  lemma FitsCons(p: Packet, ps: seq<Packet>)
    requires PacketFits(p) && PacketsFit(ps)
    ensures PacketsFit([p] + ps)
  {
  }

  lemma ContentsAssoc(cs: seq<Content>, c: Content, more: seq<Content>)
    ensures cs + [c] + more == cs + ([c] + more)
  {
  }

  lemma CarriesCons(id: nat, next: nat, c: Content, p: Packet, ps: seq<Packet>, more: seq<Content>)
    requires id < 256 && next == (id + 1) % 256 && p == Packet(id, ContentBytes(c)) && Carries(next, ps, more)
    ensures Carries(id, [p] + ps, [c] + more)
  {
    assert ([p] + ps)[1..] == ps && ([c] + more)[1..] == more;
    CarriesNext(id, [p] + ps, [c] + more);
  }

  lemma WireCons(p: Packet, ps: seq<Packet>, tail: bytes)
    ensures WireAll([p] + ps) + tail == Wire(p) + (WireAll(ps) + tail)
  {
    assert ([p] + ps)[1..] == ps;
    Assoc(Wire(p), WireAll(ps), tail);
  }

  // ---- what a failure keeps ----

  /** Fewer than four bytes decide nothing. */
  lemma ShortWaits(g: Progress, id: nat, tail: bytes)
    requires |tail| < 4
    ensures Feed(At(g, id), tail).More?
  {
    if |tail| < 3 {
      FeedHeader(At(g, id), tail, []);
      assert tail + [] == tail;
    } else {
      FeedHeader(At(g, id), tail, []);
      assert tail + [] == tail && [] + tail == tail;
    }
  }

  /** A payload that is decoded whole is that of a packet that may come next. */
  lemma DecodedAccepted(cs: seq<Content>, g: Progress, len: nat, payload: bytes)
    requires Good(cs) && Going(cs, g) && payload != [] && 0 < len < TWO_24
    requires EnterBody(PAYLOAD, len, Enter(Entered(g), len, payload[0]), payload).Decoded?
    ensures !NoNext(cs, ToLe(len, 3) + ([NextId(cs)] + payload))
  {
    var part, rest := payload[..len], payload[len..];
    var p := Packet(NextId(cs), part);
    assert payload == part + rest;
    CutBody(Payload(len, len, None), Entered(g), part, rest);
    var c := TakenAccepted(cs, g, p);
    Assoc(ToLe(len, 3), [p.id] + part, rest);
    Assoc([p.id], part, rest);
    assert ToLe(len, 3) + ([NextId(cs)] + payload) == Wire(Packet(NextId(cs), ContentBytes(c))) + rest;
  }

  /** A payload that fails, and is not merely too long, changes nothing. */
  lemma PayloadStays(cs: seq<Content>, g: Progress, len: nat, payload: bytes)
    requires Good(cs) && Going(cs, g) && payload != [] && 0 < len < TWO_24
    requires NoNext(cs, ToLe(len, 3) + ([NextId(cs)] + payload)) && forall c :: !TooLong(cs, c, len, payload)
    ensures var fed := Feed(Query(Payload(len, len, None), (NextId(cs) as int + 1) % 256, g), payload);
            fed.Failed? ==> fed.g == Entered(g)
  {
    match EnterBody(PAYLOAD, len, Enter(Entered(g), len, payload[0]), payload)
    case Trailing(_) => var c := TrailingBegins(cs, g, len, payload);
    case Decoded(_, _) => DecodedAccepted(cs, g, len, payload);
    case _ =>
  }

  lemma HeadStays(cs: seq<Content>, g: Progress, tail: bytes)
    requires Good(cs) && Going(cs, g) && NoNext(cs, tail) && forall c :: !Overlong(cs, c, tail)
    requires Feed(At(g, NextId(cs)), tail).Failed?
    ensures var h := Feed(At(g, NextId(cs)), tail).g; h.def == g.def && h.result == g.result
  {
    if |tail| < 4 {
      ShortWaits(g, NextId(cs), tail);
    } else {
      var len, payload := PayloadLength(tail[..3]), tail[4..];
      LengthBytes(tail[..3]);
      assert tail == ToLe(len, 3) + ([tail[3]] + payload);
      WholeHeadStays(cs, g, tail, len, tail[3], payload);
    }
  }

  lemma WholeHeadStays(cs: seq<Content>, g: Progress, tail: bytes, len: nat, number: byte, payload: bytes)
    requires Good(cs) && Going(cs, g) && NoNext(cs, tail) && forall c :: !Overlong(cs, c, tail)
    requires len < TWO_24 && tail == ToLe(len, 3) + ([number] + payload) && Feed(At(g, NextId(cs)), tail).Failed?
    ensures var h := Feed(At(g, NextId(cs)), tail).g; h.def == g.def && h.result == g.result
  {
    FeedPart(g, NextId(cs), len, number, payload);
    if number == NextId(cs) && len > 0 && payload != [] {
      forall c
        ensures !TooLong(cs, c, len, payload)
      {
        assert !Overlong(cs, c, tail);
      }
      PayloadStays(cs, g, len, payload);
    }
  }

  lemma HeadFails(cs: seq<Content>, g: Progress, tail: bytes)
    requires Good(cs) && Going(cs, g) && NoNext(cs, tail) && Feed(At(g, NextId(cs)), tail).Failed?
    ensures var h := Feed(At(g, NextId(cs)), tail).g; Kept(cs, tail, h.def, h.result)
  {
    if c :| Overlong(cs, c, tail) {
      OverlongFails(cs, g, c, tail);
    } else {
      HeadStays(cs, g, tail);
    }
  }

  /** Whatever the bytes of a failed response are, its names and rows are those of the packets taken before. */
  lemma FailureKeeps(bs: bytes)
    requires Feed(SENT, bs).Failed?
    ensures BreaksOff(bs, Feed(SENT, bs).g.def, Feed(SENT, bs).g.result)
  {
    assert NextId([]) == 1;
    var ps, cs, h, tail := TakenSoFar([], NOTHING, bs);
    assert [] + cs == cs;
    HeadFails(cs, h, tail);
  }

  // ---- the operation ----

  /** A reply comes first in the bytes. */
  ghost predicate Answered(bs: bytes) {
    exists rest, ec, def, result :: HoldsReply(bs, rest, ec, def, result)
  }

  lemma AnsweredPauses(bs: bytes)
    ensures Answered(bs) <==> Feed(SENT, bs).Paused?
  {
    if Feed(SENT, bs).Paused? {
      var g := Feed(SENT, bs).g;
      PausesOnReply(bs, Feed(SENT, bs).rest, g.ec, g.def, g.result);
    }
    if Answered(bs) {
      var rest, ec, def, result :| HoldsReply(bs, rest, ec, def, result);
      PausesOnReply(bs, rest, ec, def, result);
    }
  }

  /** The bytes are packets of a reply that is not over, and less than a packet. */
  ghost predicate Underway(bs: bytes) {
    exists ps, cs, tail :: PacketsFit(ps) && bs == WireAll(ps) + tail && Good(cs) && Carries(1, ps, cs)
                        && Unfinished(tail)
  }

  lemma WaitingUnderway(bs: bytes)
    requires Feed(SENT, bs).More?
    ensures Underway(bs)
  {
    assert NextId([]) == 1;
    var ps, cs, h, tail := TakenSoFar([], NOTHING, bs);
    assert [] + cs == cs;
  }

  /** Whatever comes after the bytes, they are not a reply. */
  ghost predicate Hopeless(bs: bytes) {
    forall more :: !Answered(bs + more)
  }

  lemma FailedHopeless(bs: bytes)
    requires Feed(SENT, bs).Failed?
    ensures Hopeless(bs)
  {
    forall more
      ensures !Answered(bs + more)
    {
      FeedSplit(SENT, bs, more);
      AnsweredPauses(bs + more);
    }
  }

  /** The bytes mean the outcome. */
  ghost predicate Means(bs: bytes, o: Q.Outcome) {
    match o.code
    case Success => HoldsReply(bs, [], MyFeed.NoError, o.def, o.result)
    case Server(code) => HoldsReply(bs, [], MyFeed.ServerError(code), o.def, o.result)
    case MalformedPacket =>
      || (exists rest, ec :: rest != [] && HoldsReply(bs, rest, ec, o.def, o.result))
      || (Hopeless(bs) && BreaksOff(bs, o.def, o.result))
  }

  lemma DeliveredMeans(bs: bytes, o: Q.Outcome)
    requires Q.Delivered(Feed(SENT, bs)) == Some(o)
    ensures Means(bs, o)
  {
    AnsweredPauses(bs);
    match Feed(SENT, bs)
    case Paused(g, rest) => PausesOnReply(bs, rest, g.ec, g.def, g.result);
    case Failed(_, _) =>
      FailureKeeps(bs);
      FailedHopeless(bs);
  }

  lemma ReplyDelivers(bs: bytes, rest: bytes, ec: MyFeed.ErrorCode, def: seq<bytes>, result: seq<Row>)
    requires HoldsReply(bs, rest, ec, def, result)
    ensures Q.Delivered(Feed(SENT, bs)) == Some(Q.Outcome(
              if rest != [] then Q.MalformedPacket else if ec == MyFeed.NoError then Q.Success else Q.Server(ec.code),
              def, result))
  {
    PausesOnReply(bs, rest, ec, def, result);
  }

  /**
   A query: it completes with success exactly if the bytes heard are a reply without an error, with the error of the
   server exactly if they are a reply with it, and as malformed if bytes follow the reply or it breaks off; then with
   the names and rows before that, and only if no bytes could make it a reply.  It reads on only while there is no reply
   yet, and the packets so far could begin one.
   */
  method Perform(chunks: seq<bytes>) returns (done: Option<Q.Outcome>, used: nat)
    ensures used <= |chunks|
    ensures forall def, result :: done == Some(Q.Outcome(Q.Success, def, result)) <==>
              HoldsReply(Joined(chunks[..used]), [], MyFeed.NoError, def, result)
    ensures forall code, def, result :: done == Some(Q.Outcome(Q.Server(code), def, result)) <==>
              HoldsReply(Joined(chunks[..used]), [], MyFeed.ServerError(code), def, result)
    ensures forall rest, ec, def, result :: rest != [] && HoldsReply(Joined(chunks[..used]), rest, ec, def, result) ==>
              done == Some(Q.Outcome(Q.MalformedPacket, def, result))
    ensures done.Some? ==> used > 0 && Means(Joined(chunks[..used]), done.value)
    ensures done.Some? ==> Underway(Joined(chunks[..used - 1])) && !Answered(Joined(chunks[..used - 1]))
    ensures done == None ==> used == |chunks| && Underway(Joined(chunks)) && !Answered(Joined(chunks))
  {
    var query := new Q.ComQuery();
    done, used := query.Operate(chunks);
    ghost var heard := Joined(chunks[..used]);
    assert chunks[..|chunks|] == chunks;
    forall rest, ec, def, result | HoldsReply(heard, rest, ec, def, result)
      ensures done == Some(Q.Outcome(
                if rest != [] then Q.MalformedPacket else if ec == MyFeed.NoError then Q.Success else Q.Server(ec.code),
                def, result))
    {
      ReplyDelivers(heard, rest, ec, def, result);
    }
    AnsweredPauses(heard);
    if done.Some? {
      DeliveredMeans(heard, done.value);
      AnsweredPauses(Joined(chunks[..used - 1]));
      WaitingUnderway(Joined(chunks[..used - 1]));
    } else {
      WaitingUnderway(heard);
    }
  }
}
