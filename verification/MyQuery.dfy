/**
 The query operation: `feed` of the packet framer (mysql/detail/basic_packet.hpp) and the stage machine
 behind it (mysql/detail/com_query2.ipp).  They are one object in the source, and one class here.
 */
module MyQuery {
  import opened Bytes
  import opened Machine
  import opened MyFields
  import opened MyPackets
  import opened MyFeed

  /** The stage of the framer. */
  datatype PacketStage = PacketLength | SequenceId | InPayload

  /** The stage of the query. */
  datatype Stage =
    | InitialGuess | S1Err | S1Ok | S2ColumnCount | S2ColumnDef
    | S2RowGuess | S2ResultSet | S2Err | S2OkEof | FinishedStage

  function PhaseOf(s: Stage): Phase {
    match s
    case InitialGuess => FirstPayload
    case S1Err => FirstPayload
    case S1Ok => FirstPayload
    case S2ColumnCount => FirstPayload
    case S2ColumnDef => Definitions
    case FinishedStage => Finished
    case _ => RowsOrEnd
  }

  /** The parser in the variant is the one of the stage. */
  predicate InStage(s: Stage, c: Control, columnCount: nat) {
    match s
    case S1Err => FamilyOf(c) == ErrPacket
    case S1Ok => FamilyOf(c) == OkOrEof
    case S2ColumnCount => FamilyOf(c) == CountPacket
    case S2ColumnDef => FamilyOf(c) == DefinitionPacket
    case S2ResultSet => FamilyOf(c) == RowPacket(columnCount)
    case S2Err => FamilyOf(c) == ErrPacket
    case S2OkEof => FamilyOf(c) == OkOrEof
    case _ => false
  }

  /** What the operation completes with: the error, or none, and the result set. */
  datatype Code = Success | Server(code: nat) | MalformedPacket

  datatype Outcome = Outcome(code: Code, def: seq<bytes>, result: seq<Row>)

  /** The outcome of a read handler, from what its bytes have led to; None if it reads on. */
  function Delivered(fed: Fed): Option<Outcome> {
    match fed
    case More(_) => None
    case Paused(g, rest) =>
      var code := if rest != [] then MalformedPacket else if g.ec == NoError then Success else Server(g.ec.code);
      Some(Outcome(code, g.def, g.result))
    case Failed(_, g) => Some(Outcome(MalformedPacket, g.def, g.result))
  }

  /** make_success and make_pause: a packet that ends before its payload has trailing data. */
  function MakeSuccess(atEnd: bool): PayloadResult {
    if atEnd then PayloadSuccess else PayloadTrailingData
  }

  function MakePause(atEnd: bool): PayloadResult {
    if atEnd then PayloadPause else PayloadTrailingData
  }

  /** The result on_payload_data must return for the bytes of one call, of which `left` more of the payload follow. */
  predicate Answers(body: MyBody, g: Progress, left: nat,
                    r: PayloadResult, after: Progress, c: Control, p: FieldParser)
  {
    match body
    case NeedBody(n, c', p') => r == PayloadNeedMore && n == left > 0 && after == g && c == c' && p == p'
    case Incomplete => r == PayloadNeedMore && left == 0 && after == g
    case Decoded(v, _) =>
      left == 0 && after == Absorb(g, v) && r == if after.phase == Finished then PayloadPause else PayloadSuccess
    case Trailing(v) =>
      && after == Absorb(g, v)
      && (r == PayloadTrailingData || (left > 0 && r in {PayloadPause, PayloadSuccess}))
    case Bad(e) => r == e && r in {PayloadMalformed, PayloadMalformedHeader} && after == g
  }

  /** A call gets all of the payload that is at hand: what its parser makes of it decides the body. */
  lemma WholeChunk(f: Framer, g: Progress, chunk: bytes, left: nat)
    requires chunk != [] && f.Payload? && f.remain == left + |chunk| && f.inside.Some?
    ensures chunk[0..] == chunk
    ensures PayloadBody(f, g, chunk) ==
            Judge(PAYLOAD, RunFields(PAYLOAD, f.inside.value.0, f.inside.value.1, chunk), f.remain, |chunk|, [])
  {
    assert chunk[..|chunk|] == chunk && chunk[|chunk|..] == [];
  }

  /** The parser chosen for a payload starts at its first byte. */
  lemma ChooseParser(f: Framer, g: Progress, chunk: bytes)
    requires chunk != [] && f.Payload? && f.remain > 0 && f.inside == None
    ensures match Enter(g, f.len, chunk[0])
            case Go(c) => PayloadBody(f, g, chunk) == PayloadBody(f.(inside := Some((c, Start(c)))), g, chunk)
            case Yield(v) => |chunk| <= f.remain ==> PayloadBody(f, g, chunk) == Trailing(v)
            case Reject(_) => false
  {
  }

  /** What feed does with the result of on_payload_data; None continues its loop. */
  function AfterPayload(r: PayloadResult, isFinal: bool): Option<PacketResult> {
    match r
    case PayloadSuccess => if isFinal then None else Some(PacketTrailingData)
    case PayloadPause => Some(if isFinal then PacketPaused else PacketTrailingData)
    case PayloadNeedMore => Some(if isFinal then PacketIncomplete else PacketNeedMore)
    case PayloadTrailingData => Some(PacketTrailingData)
    case PayloadMalformed => Some(PacketMalformed)
    case PayloadMalformedHeader => Some(PacketMalformed)
    case PayloadInternalError => Some(PacketInternalError)
  }

  /** What the bytes of a payload do, by what they are to its parser. */
  lemma FeedBody(q: Query, bs: bytes, body: MyBody)
    requires q.framer.Payload? && q.framer.remain > 0 && bs != []
    requires body == PayloadBody(q.framer, Entered(q.progress), bs)
    ensures var g := Entered(q.progress);
            Feed(q, bs) ==
            match body
            case NeedBody(n, c, p) => More(Query(Payload(q.framer.len, n, Some((c, p))), q.nextSequenceId, g))
            case Decoded(v, rest) =>
              if Absorb(g, v).phase == Finished then Paused(Absorb(g, v), rest)
              else Feed(Query(Length([]), q.nextSequenceId, Absorb(g, v)), rest)
            case Trailing(v) => Failed(PacketTrailingData, Absorb(g, v))
            case Incomplete => Failed(PacketIncomplete, g)
            case Bad(e) => Failed(ResultOf(e), g)
  {
  }

  /** One call of on_payload_data that answers for its bytes does to the packet what Feed says. */
  lemma PayloadTurn(q: Query, chunk: bytes, rest: bytes, r: PayloadResult, after: Progress, c: Control, p: FieldParser)
    requires q.framer.Payload? && chunk != []
    requires |chunk| == q.framer.remain || (|chunk| < q.framer.remain && rest == [])
    requires var g := Entered(q.progress);
             Answers(PayloadBody(q.framer, g, chunk), g, q.framer.remain - |chunk|, r, after, c, p)
    ensures var fed, left := Feed(q, chunk + rest), q.framer.remain - |chunk|;
            match AfterPayload(r, left == 0)
            case None => fed == Feed(Query(Length([]), q.nextSequenceId, after), rest)
            case Some(PacketNeedMore) =>
              && left > 0 && r == PayloadNeedMore
              && fed == More(Query(Payload(q.framer.len, left, Some((c, p))), q.nextSequenceId, after))
            case Some(PacketPaused) => fed == Paused(after, rest)
            case Some(e) => fed == Failed(e, after)
  {
    var g := Entered(q.progress);
    CutBody(q.framer, g, chunk, rest);
    FeedBody(q, chunk + rest, PayloadBody(q.framer, g, chunk + rest));
    match PayloadBody(q.framer, g, chunk)
    case NeedBody(_, _, _) =>
    case Decoded(_, _) =>
    case Trailing(_) =>
    case Incomplete =>
    case Bad(_) =>
  }

  /** The packet parser of a stage. */
  method ParsePacket(c: Control, p: FieldParser, chunk: bytes, isFinal: bool)
    returns (r: PayloadResult, c': Control, p': FieldParser, begin': nat, v: Value)
    requires Callable(c, p) && !c.RowCells?
    ensures Reports(RunFields(PAYLOAD, c, p, chunk[0..]), isFinal, chunk, r, c', p', begin', v)
  {
    match FamilyOf(c)
    case ErrPacket => r, c', p', begin', v := ParseErr(c, p, chunk, 0, isFinal);
    case OkOrEof => r, c', p', begin', v := ParseOk(c, p, chunk, 0, isFinal);
    case CountPacket =>
      r, c', p', begin', v := ParseCount(c, p, chunk, 0);
      RunFamily(c, p, chunk[0..]);
      EndFamily(c', p');
    case DefinitionPacket =>
      r, c', p', begin', v := ParseColumn(c, p, chunk, 0);
      RunFamily(c, p, chunk[0..]);
      EndFamily(c', p');
  }

  class ComQuery {
    const header: array<byte>
    var packetStage: PacketStage
    var stageRemain: nat
    var nextSequenceId: nat
    var stage: Stage
    var control: Control
    var parser: FieldParser
    var columnCount: nat
    var def: seq<bytes>
    var result: seq<Row>
    var ec: ErrorCode

    function PayloadLen(): nat
      reads this, header
      requires header.Length == 4
    {
      PayloadLength(header[..3])
    }

    ghost function Progressed(): Progress
      reads this
    {
      Progress(PhaseOf(stage), columnCount, def, result, ec)
    }

    /** A payload has been entered: its parser has seen bytes. */
    ghost predicate Inside()
      reads this, header
      requires header.Length == 4
    {
      stage !in {InitialGuess, S2RowGuess} && (stage == S2ColumnDef ==> stageRemain < PayloadLen())
    }

    ghost function FramerState(): Framer
      reads this, header
      requires header.Length == 4 && (packetStage == PacketLength ==> 0 < stageRemain <= 3)
    {
      match packetStage
      case PacketLength => Length(header[..3 - stageRemain])
      case SequenceId => Sequence(PayloadLen())
      case InPayload => Payload(PayloadLen(), stageRemain, if Inside() then Some((control, parser)) else None)
    }

    /** The parser at rest between definitions is a new one. */
    ghost predicate FreshColumn()
      reads this
    {
      control == Column(Catalog, BLANK_COLUMN) && parser == Start(control)
    }

    ghost predicate Valid()
      reads this, header
    {
      && header.Length == 4 && nextSequenceId < 256
      && (packetStage == PacketLength ==> 0 < stageRemain <= 3)
      && (packetStage == SequenceId ==> stageRemain == 1)
      && (packetStage != InPayload ==> stage in {InitialGuess, S2ColumnDef, S2RowGuess})
      && (packetStage == InPayload ==>
            if Inside() then
              && 0 < stageRemain <= PayloadLen() && Callable(control, parser) && InStage(stage, control, columnCount)
              && (stage == S2ColumnDef ==> |def| < columnCount)
            else stageRemain == PayloadLen())
      && (stage == S2ColumnDef && (packetStage == InPayload ==> !Inside()) ==> FreshColumn())
    }

    ghost function State(): Query
      reads this, header
      requires Valid()
    {
      Query(FramerState(), nextSequenceId, Progressed())
    }

    constructor ()
      ensures Valid() && State() == SENT && fresh(header)
    {
      header := new byte[4](_ => 0);
      packetStage, stageRemain := PacketLength, 3;
      nextSequenceId, stage := 1, InitialGuess;
      control, parser := ErrHeader, NewFixed(1);
      columnCount, def, result, ec := 0, [], [], NoError;
      new;
      assert header[..0] == [];
    }

    method Emplace(s: Stage, c: Control)
      modifies `stage, `control, `parser
      ensures stage == s && control == c && parser == Start(c)
    {
      stage, control, parser := s, c, Start(c);
    }

    /** The success branches of on_payload_data: the packet is stored, and must end where the bytes end. */
    method Store(v: Value, atEnd: bool) returns (r: PayloadResult)
      requires v.Definition? ==> stage == S2ColumnDef
      modifies `stage, `control, `parser, `columnCount, `def, `result, `ec
      ensures Progressed() == Absorb(old(Progressed()), v)
      ensures r == if !atEnd then PayloadTrailingData
                   else if Progressed().phase == Finished then PayloadPause else PayloadSuccess
      ensures v.ColumnCount? || v.Definition? ==> stage == S2ColumnDef && FreshColumn()
      ensures v.RowData? ==> stage == S2RowGuess
    {
      match v
      case Err(code, _, _) =>
        ec, stage := ServerError(code), FinishedStage;
        r := MakePause(atEnd);
      case Ok(_) =>
        ec, stage := NoError, FinishedStage;
        r := MakePause(atEnd);
      case ColumnCount(n) =>
        columnCount := n;
        Emplace(S2ColumnDef, Column(Catalog, BLANK_COLUMN));
        r := MakeSuccess(atEnd);
      case Definition(d) =>
        def := def + [d.name];
        Emplace(S2ColumnDef, Column(Catalog, BLANK_COLUMN));
        r := MakeSuccess(atEnd);
      case RowData(cells) =>
        result, stage := result + [cells], S2RowGuess;
        r := MakeSuccess(atEnd);
    }

    /** The result answers for the bytes of a call, from the progress `g` before it. */
    ghost predicate Answered(f: Framer, g: Progress, chunk: bytes, r: PayloadResult)
      reads this
      requires f.Payload? && (chunk != [] ==> f.remain > 0)
    {
      if chunk == [] then r == PayloadNeedMore && Progressed() == g
      else Answers(PayloadBody(f, g, chunk), g, stageRemain, r, Progressed(), control, parser)
    }

    /** The stages of on_payload_data in which a packet parser is in the variant. */
    method RunParser(chunk: bytes, ghost f: Framer) returns (r: PayloadResult)
      requires header.Length == 4 && Callable(control, parser) && InStage(stage, control, columnCount)
      requires chunk != [] && f.Payload? && f == Payload(f.len, stageRemain + |chunk|, Some((control, parser)))
      modifies `stage, `control, `parser, `columnCount, `def, `result, `ec
      ensures Answered(f, old(Progressed()), chunk, r)
      ensures r == PayloadNeedMore ==> stage == old(stage) && columnCount == old(columnCount) && def == old(def)
                                       && Callable(control, parser) && InStage(stage, control, columnCount)
      ensures r == PayloadSuccess ==> stage in {S2ColumnDef, S2RowGuess} && (stage == S2ColumnDef ==> FreshColumn())
    {
      RunFamily(control, parser, chunk);
      WholeChunk(f, Progressed(), chunk, stageRemain);
      var begin, v, c, p;
      var isFinal := stageRemain == 0;
      if stage == S2ResultSet {
        r, c, p, begin, v := ParseRow(control, parser, chunk, 0);
      } else {
        r, c, p, begin, v := ParsePacket(control, parser, chunk, isFinal);
      }
      EndFamily(c, p);
      if r == PayloadSuccess {
        r := Store(v, begin == |chunk|);
      } else {
        control, parser := c, p;
      }
    }

    /** Where on_payload_data finds the variant, for the bytes `chunk` of the payload `f`. */
    ghost predicate Placed(f: Framer, chunk: bytes)
      reads this, header
      requires header.Length == 4
    {
      && f.Payload? && f.len == PayloadLen() && f.remain == stageRemain + |chunk|
      && (chunk == [] ==> f.remain == 0)
      && match f.inside
         case None =>
           && f.remain == f.len && stage in {InitialGuess, S2ColumnDef, S2RowGuess}
           && (stage == S2ColumnDef ==> FreshColumn())
         case Some((c, p)) =>
           && chunk != [] && c == control && p == parser && Callable(c, p) && InStage(stage, c, columnCount)
           && (stage == S2ColumnDef ==> |def| < columnCount)
    }

    /** The variant after a result; it is described when more payloads, or more of this one, can follow. */
    ghost predicate Left(r: PayloadResult, chunk: bytes)
      reads this
    {
      && (r == PayloadSuccess ==> stage in {S2ColumnDef, S2RowGuess} && (stage == S2ColumnDef ==> FreshColumn()))
      && (r == PayloadNeedMore && chunk != [] ==>
            && Callable(control, parser) && InStage(stage, control, columnCount)
            && (stage == S2ColumnDef ==> |def| < columnCount))
    }

    /** case InitialGuess of on_payload_data. */
    method GuessFirst(chunk: bytes, ghost f: Framer) returns (r: PayloadResult)
      requires header.Length == 4 && Placed(f, chunk) && stage == InitialGuess && chunk != []
      modifies `stage, `control, `parser, `columnCount, `def, `result, `ec
      ensures Left(r, chunk)
      ensures Answered(f, old(Progressed()), chunk, r)
    {
      ChooseParser(f, Progressed(), chunk);
      var first := chunk[0];
      if first == 0xff {
        Emplace(S1Err, ErrHeader);
      } else if first == 0 {
        Emplace(S1Ok, OkHeader(0));
      } else {
        Emplace(S2ColumnCount, Count);
      }
      r := RunParser(chunk, f.(inside := Some((control, parser))));
    }

    /** The parser for the first byte of a row or the end of the rows. */
    method EmplaceRow(first: byte) returns (chosen: bool)
      requires header.Length == 4 && stage == S2RowGuess
      modifies `stage, `control, `parser
      ensures PhaseOf(stage) == RowsOrEnd && stage != S2ColumnDef
      ensures match EnterRow(columnCount, PayloadLen(), first)
              case Go(c) =>
                chosen && control == c && parser == Start(c) && Callable(c, parser) && InStage(stage, c, columnCount)
              case Yield(_) => !chosen && stage == S2RowGuess
              case Reject(_) => false
    {
      chosen := true;
      if first == 0xff {
        Emplace(S2Err, ErrHeader);
      } else if first == 0xfe && PayloadLen() < MAX_PAYLOAD {
        Emplace(S2OkEof, OkHeader(0xfe));
      } else if columnCount == 0 {
        chosen := false;
      } else {
        Emplace(S2ResultSet, RowCells(columnCount, []));
      }
    }

    /** case S2_ResultSetRowGuess of on_payload_data, after its tests. */
    method ChooseRow(chunk: bytes, ghost f: Framer) returns (r: PayloadResult)
      requires header.Length == 4 && Placed(f, chunk) && stage == S2RowGuess && chunk != []
      modifies `stage, `control, `parser, `columnCount, `def, `result, `ec
      ensures Left(r, chunk) && Answered(f, old(Progressed()), chunk, r)
    {
      ChooseParser(f, Progressed(), chunk);
      var chosen := EmplaceRow(chunk[0]);
      if chosen {
        r := RunParser(chunk, f.(inside := Some((control, parser))));
      } else {
        // the row parser is complete before its first byte
        result := result + [[]];
        r := MakeSuccess(|chunk| == 0);
      }
    }

    /** case S2_ResultSetRowGuess of on_payload_data: its length test never fails. */
    method GuessRow(chunk: bytes, ghost f: Framer) returns (r: PayloadResult)
      requires header.Length == 4 && Placed(f, chunk) && stage == S2RowGuess
      modifies `stage, `control, `parser, `columnCount, `def, `result, `ec
      ensures Left(r, chunk) && Answered(f, old(Progressed()), chunk, r)
    {
      if stageRemain + |chunk| != PayloadLen() {
        r := PayloadInternalError;
      } else if |chunk| == 0 {
        r := PayloadNeedMore;
      } else {
        r := ChooseRow(chunk, f);
      }
    }

    /** on_payload_data: `chunk` is what is at hand of a payload that `stageRemain` more bytes belong to. */
    method OnPayloadData(chunk: bytes, ghost f: Framer) returns (r: PayloadResult)
      requires header.Length == 4 && Placed(f, chunk)
      modifies `stage, `control, `parser, `columnCount, `def, `result, `ec
      ensures Left(r, chunk)
      ensures Answered(f, Entered(old(Progressed())), chunk, r)
    {
      if stage == S2ColumnDef && |def| >= columnCount {
        stage := S2RowGuess;
      }
      if stage == S2RowGuess {
        r := GuessRow(chunk, f);
      } else if |chunk| == 0 {
        r := PayloadNeedMore;
      } else if stage == InitialGuess {
        r := GuessFirst(chunk, f);
      } else {
        if f.inside == None {
          ChooseParser(f, Progressed(), chunk);
        }
        r := RunParser(chunk, f.(inside := Some((control, parser))));
      }
    }

    // ---- feed ----

    /** case PacketLength of feed. */
    method TakeLength(bs: bytes, begin: nat) returns (begin': nat)
      requires Valid() && packetStage == PacketLength && begin < |bs|
      modifies `packetStage, `stageRemain, header
      ensures Valid() && begin < begin' <= |bs|
      ensures Feed(old(State()), bs[begin..]) == Feed(State(), bs[begin'..])
    {
      ghost var q, a := State(), bs[begin..begin + Min(stageRemain, |bs| - begin)];
      var consumed := Min(stageRemain, |bs| - begin);
      var from := 3 - stageRemain;
      forall i | 0 <= i < consumed {
        header[from + i] := bs[begin + i];
      }
      stageRemain := stageRemain - consumed;
      begin' := begin + consumed;
      assert header[..from + consumed] == q.framer.seen + a;
      assert bs[begin..] == a + bs[begin'..];
      FeedHeader(q, a, bs[begin'..]);
      if stageRemain == 0 {
        packetStage, stageRemain := SequenceId, 1;
      }
    }

    /** case SequenceId of feed, with on_sequence_id_complete. */
    method TakeSequence(bs: bytes, begin: nat) returns (r: Option<PacketResult>, begin': nat)
      requires Valid() && packetStage == SequenceId && begin < |bs|
      modifies `packetStage, `stageRemain, `nextSequenceId, header
      ensures begin' == begin + 1
      ensures r == None ==> Valid() && Feed(old(State()), bs[begin..]) == Feed(State(), bs[begin'..])
      ensures r.Some? ==> Feed(old(State()), bs[begin..]) == Failed(r.value, Progressed())
    {
      ghost var q := State();
      Following(bs, begin);
      var sequenceId := bs[begin];
      header[3] := sequenceId;
      begin' := begin + 1;
      assert header[..3] == old(header[..3]);
      stageRemain, packetStage := PayloadLen(), InPayload;
      var expected := nextSequenceId;
      nextSequenceId := (nextSequenceId + 1) % 256;
      r := if expected == sequenceId then None else Some(PacketMalformed);
      assert State() == Sequenced(q);
    }

    /** reset(). */
    method Reset()
      requires header.Length == 4
      modifies `packetStage, `stageRemain, header
      ensures packetStage == PacketLength && stageRemain == 3 && FramerState() == Length([])
    {
      packetStage, stageRemain := PacketLength, 3;
      forall i | 0 <= i < 4 {
        header[i] := 0;
      }
      assert header[..0] == [];
    }

    /** The state feed is left in. */
    ghost predicate Reached(fed: Fed, r: PacketResult, rest: bytes)
      reads this, header
    {
      match fed
      case More(q) => r == PacketNeedMore && rest == [] && Valid() && State() == q
      case Paused(g, left) => r == PacketPaused && rest == left && Progressed() == g
      case Failed(e, g) => r == e && Progressed() == g
    }

    /** The part of the payload that is there, and the call of on_payload_data for it. */
    method CallPayload(bs: bytes, begin: nat) returns (r: PayloadResult, chunk: bytes, begin': nat)
      requires Valid() && packetStage == InPayload && stageRemain > 0 && begin < |bs|
      modifies `stageRemain, `stage, `control, `parser, `columnCount, `def, `result, `ec
      ensures begin < begin' <= |bs| && chunk != [] && bs[begin..] == chunk + bs[begin'..]
      ensures stageRemain == old(stageRemain) - |chunk| && (stageRemain > 0 ==> begin' == |bs|)
      ensures Left(r, chunk) && Answered(old(FramerState()), Entered(old(Progressed())), chunk, r)
    {
      ghost var f := FramerState();
      var consumed := Min(stageRemain, |bs| - begin);
      stageRemain := stageRemain - consumed;
      begin' := begin + consumed;
      chunk := bs[begin..begin'];
      r := OnPayloadData(chunk, f);
    }

    /** A payload that has been entered and not finished. */
    lemma Parked()
      requires header.Length == 4 && nextSequenceId < 256 && packetStage == InPayload && 0 < stageRemain < PayloadLen()
      requires Callable(control, parser) && InStage(stage, control, columnCount)
      requires (stage == S2ColumnDef ==> |def| < columnCount)
      ensures Valid()
      ensures var framer := Payload(PayloadLen(), stageRemain, Some((control, parser)));
              State() == Query(framer, nextSequenceId, Progressed())
    {
    }

    /** case Payload of feed, for a payload that is not empty, up to the reset. */
    method OfferPayload(bs: bytes, begin: nat) returns (r: Option<PacketResult>, begin': nat)
      requires Valid() && packetStage == InPayload && stageRemain > 0 && begin < |bs|
      modifies this
      ensures begin < begin' <= |bs| && stageRemain <= old(stageRemain)
      ensures var fed := Feed(old(State()), bs[begin..]);
              match r
              case None =>
                && stageRemain == 0 && Left(PayloadSuccess, []) && nextSequenceId < 256
                && fed == Feed(Query(Length([]), nextSequenceId, Progressed()), bs[begin'..])
              case Some(PacketNeedMore) => stageRemain > 0 && begin' == |bs| && Valid() && fed == More(State())
              case Some(PacketPaused) => fed == Paused(Progressed(), bs[begin'..])
              case Some(e) => fed == Failed(e, Progressed())
    {
      ghost var q := State();
      var payloadResult, chunk;
      payloadResult, chunk, begin' := CallPayload(bs, begin);
      r := AfterPayload(payloadResult, stageRemain == 0);
      PayloadTurn(q, chunk, bs[begin'..], payloadResult, Progressed(), control, parser);
      if r == Some(PacketNeedMore) {
        Parked();
      }
    }

    /** case Payload of feed. */
    method TakePayload(bs: bytes, begin: nat) returns (r: Option<PacketResult>, begin': nat)
      requires Valid() && packetStage == InPayload && begin < |bs|
      modifies this, header
      ensures begin <= begin' <= |bs|
      ensures r == None ==> begin < begin' && Valid() && Feed(old(State()), bs[begin..]) == Feed(State(), bs[begin'..])
      ensures r.Some? ==> Reached(Feed(old(State()), bs[begin..]), r.value, bs[begin'..])
    {
      if stageRemain == 0 {
        // a payload of no bytes takes none
        begin' := begin;
        var payloadResult := OnPayloadData([], FramerState());
        r := AfterPayload(payloadResult, true);
      } else {
        r, begin' := OfferPayload(bs, begin);
      }
      if stageRemain == 0 {
        Reset();
      }
    }

    /** feed: it stops where the packets say, or takes everything. */
    method FeedBytes(bs: bytes) returns (r: PacketResult, begin: nat)
      requires Valid()
      modifies this, header
      ensures begin <= |bs| && Reached(Feed(old(State()), bs), r, bs[begin..])
    {
      begin := 0;
      assert bs[0..] == bs;
      while begin < |bs|
        invariant begin <= |bs| && Valid() && Feed(old(State()), bs) == Feed(State(), bs[begin..])
        decreases |bs| - begin
      {
        var stop: Option<PacketResult> := None;
        if packetStage == PacketLength {
          begin := TakeLength(bs, begin);
        } else if packetStage == SequenceId {
          stop, begin := TakeSequence(bs, begin);
        } else {
          stop, begin := TakePayload(bs, begin);
        }
        if stop.Some? {
          r := stop.value;
          return;
        }
      }
      r := PacketNeedMore;
    }

    // ---- the operation ----

    /** The ev_read handler, for the bytes of one read; None is a request for another read. */
    method OnRead(bs: bytes) returns (done: Option<Outcome>)
      requires Valid()
      modifies this, header
      ensures done == Delivered(Feed(old(State()), bs))
      ensures done == None ==> Valid() && More(State()) == Feed(old(State()), bs)
    {
      var r, begin := FeedBytes(bs);
      assert bs[begin..] == [] <==> begin == |bs|;
      FeedFailures(old(State()), bs);
      match r
      case PacketPaused =>
        if begin == |bs| {
          done := Some(Outcome(if ec == NoError then Success else Server(ec.code), def, result));
        } else {
          done := Some(Outcome(MalformedPacket, def, result));
        }
      case PacketNeedMore => done := None;
      case PacketInternalError =>
        // FeedFailures: not a way a response can fail
        assert false;
      case _ => done := Some(Outcome(MalformedPacket, def, result));
    }

    /** The operation after the query is sent: reads until it completes or the reads run out. */
    method Operate(chunks: seq<bytes>) returns (done: Option<Outcome>, used: nat)
      requires Valid()
      modifies this, header
      ensures used <= |chunks| && done == Delivered(Feed(old(State()), Joined(chunks[..used])))
      ensures done == None ==> used == |chunks| && Valid() && More(State()) == Feed(old(State()), Joined(chunks))
      ensures done.Some? ==> used > 0 && Delivered(Feed(old(State()), Joined(chunks[..used - 1]))) == None
    {
      used, done := 0, None;
      ghost var q := State();
      while done == None && used < |chunks|
        invariant used <= |chunks| && done == Delivered(Feed(q, Heard([], chunks, used)))
        invariant done == None ==> Valid() && More(State()) == Feed(q, Heard([], chunks, used))
        invariant done.Some? ==> used > 0 && Delivered(Feed(q, Heard([], chunks, used - 1))) == None
      {
        FeedSplit(q, Heard([], chunks, used), chunks[used]);
        HeardNext([], chunks, used);
        done := OnRead(chunks[used]);
        used := used + 1;
      }
      assert Heard([], chunks, used) == Joined(chunks[..used]);
      assert used > 0 ==> Heard([], chunks, used - 1) == Joined(chunks[..used - 1]);
      assert chunks[..|chunks|] == chunks;
    }
  }
}
