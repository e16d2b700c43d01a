/**
 What the MySQL query decoder does with the bytes of a response: packets of three length bytes,
 a sequence number and a payload, and the payloads a query response consists of.
 */
module MyFeed {
  import opened Bytes
  import opened Machine
  import opened MyFields
  import opened MyPackets

  datatype PacketResult =
    | PacketPaused
    | PacketNeedMore
    | PacketIncomplete
    | PacketTrailingData
    | PacketMalformed
    | PacketInternalError

  /** What the next payload may be. */
  datatype Phase = FirstPayload | Definitions | RowsOrEnd | Finished

  /** The stages of the packet framer; a payload has been entered, or not yet. */
  type Short = s: bytes | |s| < 3

  datatype Framer =
    | Length(seen: Short)
    | Sequence(len: nat)
    | Payload(len: nat, remain: nat, inside: Option<(Control, FieldParser)>)

  datatype ErrorCode = NoError | ServerError(code: nat)

  /** What the payloads have brought so far. */
  datatype Progress = Progress(phase: Phase, columnCount: nat, def: seq<bytes>, result: seq<Row>, ec: ErrorCode)

  datatype Query = Query(framer: Framer, nextSequenceId: nat, progress: Progress)

  const NOTHING: Progress := Progress(FirstPayload, 0, [], [], NoError)

  /** The query has been sent as packet 0. */
  const SENT: Query := Query(Length([]), 1, NOTHING)

  const MAX_PAYLOAD: nat := 0xffffff

  /** payload_length(). */
  function PayloadLength(header: bytes): (n: nat)
    requires |header| == 3
    ensures n < TWO_24
  {
    header[0] as int + header[1] as int * 256 + header[2] as int * TWO_16
  }

  /** A row or the end of the rows, by its first byte and the length of its payload. */
  function EnterRow(columnCount: nat, len: nat, first: byte): MyNext {
    if first == 0xff then Go(ErrHeader)
    else if first == 0xfe && len < MAX_PAYLOAD then Go(OkHeader(0xfe))
    else if columnCount == 0 then Yield(RowData([]))
    else Go(RowCells(columnCount, []))
  }

  /** The parser chosen for a payload. */
  function Enter(g: Progress, len: nat, first: byte): MyNext {
    match g.phase
    case FirstPayload =>
      if first == 0xff then Go(ErrHeader) else if first == 0 then Go(OkHeader(0)) else Go(Count)
    case Definitions =>
      if |g.def| < g.columnCount then Go(Column(Catalog, BLANK_COLUMN)) else EnterRow(g.columnCount, len, first)
    case _ => EnterRow(g.columnCount, len, first)
  }

  /** Once all definitions are there, the next payload is a row or the end. */
  function Entered(g: Progress): Progress {
    if g.phase == Definitions && |g.def| >= g.columnCount then g.(phase := RowsOrEnd) else g
  }

  /** What a decoded payload changes. */
  function Absorb(g: Progress, v: Value): Progress {
    match v
    case Err(code, _, _) => g.(ec := ServerError(code), phase := Finished)
    case Ok(_) => g.(ec := NoError, phase := Finished)
    case ColumnCount(n) => g.(columnCount := n, phase := Definitions)
    case Definition(d) => g.(def := g.def + [d.name])
    case RowData(cells) => g.(result := g.result + [cells], phase := RowsOrEnd)
  }

  datatype Fed = More(q: Query) | Paused(g: Progress, rest: bytes) | Failed(r: PacketResult, g: Progress)

  type MyBody = Body<Control, FieldParser, Value, PayloadResult>

  /** The bytes at hand of a payload that is not empty. */
  function PayloadBody(f: Framer, g: Progress, bs: bytes): (body: MyBody)
    requires f.Payload? && f.remain > 0 && bs != []
    ensures body.Decoded? ==> |body.rest| < |bs|
  {
    match f.inside
    case None => EnterBody(PAYLOAD, f.remain, Enter(g, f.len, bs[0]), bs)
    case Some((c, p)) => RunBody(PAYLOAD, f.remain, c, p, bs)
  }

  /** The sequence number is checked and counted. */
  function Sequenced(q: Query): Query
    requires q.framer.Sequence?
  {
    Query(Payload(q.framer.len, q.framer.len, None), (q.nextSequenceId + 1) % 256, q.progress)
  }

  /** One more length byte. */
  function Lengthened(q: Query, b: byte): Query
    requires q.framer.Length?
  {
    var seen := q.framer.seen + [b];
    q.(framer := if |seen| == 3 then Sequence(PayloadLength(seen)) else Length(seen))
  }

  /** What the framer makes of the result of a payload that went wrong. */
  function ResultOf(e: PayloadResult): PacketResult {
    match e
    case PayloadMalformed => PacketMalformed
    case PayloadMalformedHeader => PacketMalformed
    case PayloadTrailingData => PacketTrailingData
    case _ => PacketInternalError
  }

  function Feed(q: Query, bs: bytes): Fed
    decreases |bs|
  {
    if bs == [] then More(q) else
    match q.framer
    case Length(_) => Feed(Lengthened(q, bs[0]), bs[1..])
    case Sequence(_) =>
      if bs[0] == q.nextSequenceId then Feed(Sequenced(q), bs[1..]) else Failed(PacketMalformed, q.progress)
    case Payload(len, remain, _) =>
      var g := Entered(q.progress);
      if remain == 0 then Failed(PacketIncomplete, g) else
      match PayloadBody(q.framer, g, bs)
      case NeedBody(n, c, p) => More(Query(Payload(len, n, Some((c, p))), q.nextSequenceId, g))
      case Decoded(v, rest) =>
        var g' := Absorb(g, v);
        if g'.phase == Finished then Paused(g', rest) else Feed(Query(Length([]), q.nextSequenceId, g'), rest)
      case Trailing(v) => Failed(PacketTrailingData, Absorb(g, v))
      case Incomplete => Failed(PacketIncomplete, g)
      case Bad(e) => Failed(ResultOf(e), g)
  }

  /** What the bytes `b` add after the bytes before. */
  function FeedMore(fed: Fed, b: bytes): Fed {
    match fed
    case More(q) => Feed(q, b)
    case Paused(g, rest) => Paused(g, rest + b)
    case Failed(r, g) => Failed(r, g)
  }

  lemma PayloadSplit(f: Framer, g: Progress, a: bytes, b: bytes)
    requires f.Payload? && f.remain > 0 && a != []
    ensures PayloadBody(f, g, a + b) == ResumeBody(PAYLOAD, PayloadBody(f, g, a), b)
  {
    match f.inside
    case None => EnterSplit(PAYLOAD, f.remain, Enter(g, f.len, a[0]), a, b);
    case Some((c, p)) => BodySplit(PAYLOAD, f.remain, c, p, a, b);
  }

  /** A payload that needs more still has bytes to come. */
  lemma PayloadNeeds(f: Framer, g: Progress, a: bytes, b: bytes)
    requires f.Payload? && f.remain > 0 && a != [] && PayloadBody(f, g, a).NeedBody?
    ensures var body := PayloadBody(f, g, a);
            && body.remain > 0
            && (b != [] ==> PayloadBody(Payload(f.len, body.remain, Some((body.c, body.p))), g, b) ==
                            RunBody(PAYLOAD, body.remain, body.c, body.p, b))
  {
  }

  /** The body is decided by the part of the bytes that belongs to the payload. */
  lemma CutBody(f: Framer, g: Progress, chunk: bytes, rest: bytes)
    requires f.Payload? && chunk != [] && (|chunk| == f.remain || (|chunk| < f.remain && rest == []))
    ensures PayloadBody(f, g, chunk + rest) ==
            match PayloadBody(f, g, chunk)
            case Decoded(v, _) => Decoded(v, rest)
            case out => out
  {
    var k := Min(f.remain, |chunk + rest|);
    assert (chunk + rest)[..k] == chunk == chunk[..|chunk|] && (chunk + rest)[k..] == rest;
  }

  /** Chunk invariance of the whole stack, on every byte string, malformed ones included. */
  lemma {:induction false} FeedSplit(q: Query, a: bytes, b: bytes)
    ensures Feed(q, a + b) == FeedMore(Feed(q, a), b)
    decreases |a|
  {
    if a == [] {
      assert a + b == b;
    } else {
      assert (a + b)[1..] == a[1..] + b && (a + b)[0] == a[0];
      match q.framer
      case Length(_) => FeedSplit(Lengthened(q, a[0]), a[1..], b);
      case Sequence(_) => FeedSplit(Sequenced(q), a[1..], b);
      case Payload(len, remain, _) =>
        if remain > 0 {
          var g := Entered(q.progress);
          PayloadSplit(q.framer, g, a, b);
          match PayloadBody(q.framer, g, a) {
            case NeedBody(n, c, p) =>
              PayloadNeeds(q.framer, g, a, b);
              if b == [] {
                assert a + b == a;
              }
            case Decoded(v, rest) => FeedSplit(Query(Length([]), q.nextSequenceId, Absorb(g, v)), rest, b);
            case _ =>
          }
        }
    }
  }

  /** The framer after length bytes `a`. */
  function AfterLength(seen: Short, a: bytes): Framer
    requires |seen| + |a| <= 3
  {
    if |seen| + |a| == 3 then Sequence(PayloadLength(seen + a)) else Length(seen + a)
  }

  /** Length bytes that are copied together. */
  lemma {:induction false} FeedHeader(q: Query, a: bytes, b: bytes)
    requires q.framer.Length? && |q.framer.seen| + |a| <= 3
    ensures Feed(q, a + b) == Feed(q.(framer := AfterLength(q.framer.seen, a)), b)
    decreases |a|
  {
    if a == [] {
      assert a + b == b && q.framer.seen + a == q.framer.seen;
    } else {
      assert (a + b)[1..] == a[1..] + b;
      var seen := q.framer.seen + [a[0]];
      assert seen + a[1..] == q.framer.seen + a;
      if |seen| == 3 {
        assert a[1..] + b == b && q.framer.seen + a == seen;
      } else {
        FeedHeader(q.(framer := Length(seen)), a[1..], b);
      }
    }
  }

  /** The parser of a payload that has been entered can be called. */
  predicate Entering(q: Query) {
    q.framer.Payload? && q.framer.inside.Some? ==> Callable(q.framer.inside.value.0, q.framer.inside.value.1)
  }

  lemma BodyFailures(q: Query, bs: bytes)
    requires Entering(q) && q.framer.Payload? && q.framer.remain > 0 && bs != []
    ensures match PayloadBody(q.framer, Entered(q.progress), bs)
            case NeedBody(_, c, p) => Callable(c, p)
            case Bad(e) => e in {PayloadMalformed, PayloadMalformedHeader}
            case _ => true
  {
    var k := Min(q.framer.remain, |bs|);
    match q.framer.inside
    case Some((c, p)) => RunFamily(c, p, bs[..k]);
    case None =>
      match Enter(Entered(q.progress), q.framer.len, bs[0])
      case Go(c) => RunFamily(c, Start(c), bs[..k]);
      case _ =>
  }

  /** The ways a response can fail: no parser ends in the internal error, on any bytes. */
  lemma {:induction false} FeedFailures(q: Query, bs: bytes)
    requires Entering(q)
    ensures match Feed(q, bs)
            case More(q') => Entering(q')
            case Failed(r, _) => r in {PacketIncomplete, PacketTrailingData, PacketMalformed}
            case Paused(_, _) => true
    decreases |bs|
  {
    if bs != [] {
      match q.framer
      case Length(_) => FeedFailures(Lengthened(q, bs[0]), bs[1..]);
      case Sequence(_) => FeedFailures(Sequenced(q), bs[1..]);
      case Payload(len, remain, _) =>
        if remain > 0 {
          var g := Entered(q.progress);
          BodyFailures(q, bs);
          match PayloadBody(q.framer, g, bs) {
            case Decoded(v, rest) => FeedFailures(Query(Length([]), q.nextSequenceId, Absorb(g, v)), rest);
            case _ =>
          }
        }
    }
  }
}
