/**
 Properties of query responses: the numbering of packets, the shape of every result, telling rows from
 the end of the rows, and that a response as the protocol lays it out is decoded to what it holds,
 however it is cut into reads.
 */
module MyResponses {
  import opened Bytes
  import opened Machine
  import opened MyFields
  import opened MyPackets
  import opened MyFeed
  import opened MyCodec
  import opened MyStream
  import opened MyQuery

  // ---- numbering ----

  lemma {:induction false} FollowSplit(g: Progress, id: nat, a: seq<Packet>, b: seq<Packet>)
    requires PacketsFit(a) && PacketsFit(b)
    ensures PacketsFit(a + b)
    ensures Follow(g, id, a + b) ==
            match Follow(g, id, a)
            case Waiting(g', id') => Follow(g', id', b)
            case Stopped(g', left) => Stopped(g', left + b)
            case Dropped(r, g') => Dropped(r, g')
    decreases |a|
  {
    if a == [] {
      assert a + b == b;
    } else {
      assert (a + b)[1..] == a[1..] + b && (a + b)[0] == a[0];
      match TakePacket(g, id, a[0])
      case Waiting(g', id') => FollowSplit(g', id', a[1..], b);
      case _ =>
    }
  }

  /** The sequence numbers from `id` on. */
  function Nth(id: nat, i: nat): nat {
    (id + i) % 256
  }

  lemma NthNext(id: nat, i: nat)
    requires id < 256
    ensures Nth((id + 1) % 256, i) == Nth(id, i + 1) && Nth(id, 0) == id
  {
  }

  /** Of the first `n` packets, each carries its number. */
  predicate Numbered(id: nat, ps: seq<Packet>, n: nat)
    requires n <= |ps|
  {
    forall i :: 0 <= i < n ==> ps[i].id == Nth(id, i)
  }

  lemma NumberedNext(id: nat, ps: seq<Packet>, n: nat)
    requires 0 < n <= |ps| && id < 256 && ps[0].id == id && Numbered((id + 1) % 256, ps[1..], n - 1)
    ensures Numbered(id, ps, n)
  {
    forall i | 0 <= i < n
      ensures ps[i].id == Nth(id, i)
    {
      if i > 0 {
        NthNext(id, i - 1);
        assert ps[i] == ps[1..][i - 1];
      }
    }
  }

  /** Packets that are accepted are numbered in sequence, and the next number follows theirs. */
  lemma {:induction false} AcceptedAreNumbered(g: Progress, id: nat, ps: seq<Packet>)
    requires PacketsFit(ps) && id < 256
    ensures match Follow(g, id, ps)
            case Waiting(_, next) => Numbered(id, ps, |ps|) && next == Nth(id, |ps|)
            case Stopped(_, left) => |left| < |ps| && Numbered(id, ps, |ps| - |left|)
            case Dropped(_, _) => true
    decreases |ps|
  {
    if ps != [] {
      var more := ps[1..];
      NthNext(id, |more|);
      assert |ps| == |more| + 1;
      match TakePacket(g, id, ps[0])
      case Waiting(g', id') =>
        AcceptedAreNumbered(g', id', more);
        match Follow(g', id', more) {
          case Waiting(_, _) => NumberedNext(id, ps, |ps|);
          case Stopped(_, left) => NumberedNext(id, ps, |ps| - |left|);
          case _ =>
        }
      case _ =>
    } else {
      NthNext(id, 0);
    }
  }

  /** The first packet out of sequence is rejected, unless the response ended or failed before it. */
  lemma OutOfSequence(g: Progress, id: nat, before: seq<Packet>, p: Packet, after: seq<Packet>)
    requires PacketsFit(before) && PacketFits(p) && PacketsFit(after) && id < 256
    requires p.id != Nth(id, |before|)
    ensures PacketsFit(before + ([p] + after))
    ensures Follow(g, id, before + ([p] + after)) ==
            match Follow(g, id, before)
            case Waiting(g', _) => Dropped(PacketMalformed, g')
            case Stopped(g', left) => Stopped(g', left + ([p] + after))
            case Dropped(r, g') => Dropped(r, g')
  {
    FollowSplit(g, id, before, [p] + after);
    AcceptedAreNumbered(g, id, before);
  }

  // ---- the shape of results ----

  /** Every row has as many cells as there are columns, and no row comes before all the definitions. */
  predicate Rectangular(g: Progress) {
    && (forall i :: 0 <= i < |g.result| ==> |g.result[i]| == g.columnCount)
    && (g.result != [] ==> |g.def| == g.columnCount)
  }

  predicate InPhase(g: Progress) {
    match g.phase
    case FirstPayload => g.def == [] && g.result == [] && g.columnCount == 0
    case Definitions => |g.def| <= g.columnCount && g.result == []
    case _ => |g.def| == g.columnCount
  }

  /** The packet being parsed is one that the phase allows. */
  predicate Allowed(g: Progress, f: Family) {
    match f
    case ErrPacket => g.phase != Definitions
    case OkOrEof => g.phase != Definitions
    case CountPacket => g.phase == FirstPayload
    case DefinitionPacket => g.phase == Definitions && |g.def| < g.columnCount
    case RowPacket(n) => g.phase in {RowsOrEnd, Finished} && n == g.columnCount
  }

  predicate Shaped(q: Query) {
    && Rectangular(q.progress) && InPhase(q.progress)
    && (q.framer.Payload? && q.framer.inside.Some? ==>
          var (c, p) := q.framer.inside.value;
          Callable(c, p) && Entered(q.progress) == q.progress && Allowed(q.progress, FamilyOf(c)))
  }

  /** Progress keeps its shape, and the column count once it is known. */
  predicate Grows(g: Progress, g': Progress) {
    && Rectangular(g') && InPhase(g')
    && (g.phase != FirstPayload ==> g'.phase != FirstPayload && g'.columnCount == g.columnCount)
  }

  predicate ShapedBody(g: Progress, body: MyBody) {
    match body
    case NeedBody(_, c, p) => Callable(c, p) && Allowed(g, FamilyOf(c))
    case Decoded(v, _) => Grows(g, Absorb(g, v))
    case Trailing(v) => Grows(g, Absorb(g, v))
    case _ => true
  }

  lemma AbsorbShaped(g: Progress, f: Family, v: Value)
    requires Rectangular(g) && InPhase(g) && Allowed(g, f) && Yields(f, v)
    ensures Grows(g, Absorb(g, v))
  {
  }

  lemma EnterAllowed(g: Progress, len: nat, first: byte)
    requires Rectangular(g) && InPhase(g) && Entered(g) == g
    ensures match Enter(g, len, first)
            case Go(c) => Callable(c, Start(c)) && Allowed(g, FamilyOf(c))
            case Yield(v) => Grows(g, Absorb(g, v))
            case Reject(_) => false
  {
  }

  lemma JudgeShaped(g: Progress, c: Control, p: FieldParser, bs: bytes, remain: nat, rest: bytes)
    requires Rectangular(g) && InPhase(g) && Callable(c, p) && Allowed(g, FamilyOf(c)) && |bs| <= remain
    ensures ShapedBody(g, Judge(PAYLOAD, RunFields(PAYLOAD, c, p, bs), remain, |bs|, rest))
  {
    RunFamily(c, p, bs);
    match RunFields(PAYLOAD, c, p, bs)
    case Yielded(v, _) => AbsorbShaped(g, FamilyOf(c), v);
    case Pending(c', p') =>
      EndFamily(c', p');
      if AtEnd(c', p').Some? {
        AbsorbShaped(g, FamilyOf(c), AtEnd(c', p').value);
      }
    case _ =>
  }

  lemma BodyShaped(q: Query, bs: bytes)
    requires Shaped(q) && q.framer.Payload? && q.framer.remain > 0 && bs != []
    ensures ShapedBody(Entered(q.progress), PayloadBody(q.framer, Entered(q.progress), bs))
  {
    var g, k := Entered(q.progress), Min(q.framer.remain, |bs|);
    match q.framer.inside
    case Some((c, p)) => JudgeShaped(g, c, p, bs[..k], q.framer.remain, bs[k..]);
    case None =>
      EnterAllowed(g, q.framer.len, bs[0]);
      match Enter(g, q.framer.len, bs[0])
      case Go(c) => JudgeShaped(g, c, Start(c), bs[..k], q.framer.remain, bs[k..]);
      case _ =>
  }

  /** Where a run has got to. */
  function Reached(fed: Fed): Progress {
    match fed
    case More(q) => q.progress
    case Paused(g, _) => g
    case Failed(_, g) => g
  }

  /**
   On every run, whatever the bytes and however it ends, results are rectangular; the column count does not change
   once it is known.
   */
  lemma {:induction false} AlwaysRectangular(q: Query, bs: bytes)
    requires Shaped(q)
    ensures Grows(q.progress, Reached(Feed(q, bs)))
    ensures Feed(q, bs).Paused? ==> Feed(q, bs).g.phase == Finished
    ensures Feed(q, bs).More? ==> Shaped(Feed(q, bs).q)
    decreases |bs|
  {
    if bs != [] {
      match q.framer
      case Length(_) => AlwaysRectangular(Lengthened(q, bs[0]), bs[1..]);
      case Sequence(_) => AlwaysRectangular(Sequenced(q), bs[1..]);
      case Payload(len, remain, _) =>
        var g := Entered(q.progress);
        if remain > 0 {
          BodyShaped(q, bs);
          match PayloadBody(q.framer, g, bs) {
            case Decoded(v, rest) => AlwaysRectangular(Query(Length([]), q.nextSequenceId, Absorb(g, v)), rest);
            case _ =>
          }
        }
    }
  }

  /** Whatever the operation completes with, on any bytes: every row has one cell for each column name. */
  lemma OutcomesRectangular(bs: bytes)
    ensures match Delivered(Feed(SENT, bs))
            case Some(o) => forall row :: row in o.result ==> |row| == |o.def|
            case None => true
  {
    AlwaysRectangular(SENT, bs);
  }

  // ---- rows and the end of the rows ----

  /**
   The first byte of a row is 0xff never, and 0xfe exactly when its first column is a string of 2^24
   bytes or more: in a packet, a row is taken for a row.
   */
  lemma RowsAreRows(row: Row)
    requires row != []
    ensures var payload := EncodeCells(row);
            && payload != [] && payload[0] != 0xff
            && (payload[0] == 0xfe <==> row[0].Some? && |row[0].value| >= TWO_24)
            && (|payload| < TWO_24 ==> EnterRow(|row|, |payload|, payload[0]) == Go(RowCells(|row|, [])))
  {
    FirstOfCell(row[0], EncodeCells(row[1..]));
  }

  lemma FirstOfCell(cell: Cell, more: bytes)
    ensures var bs := EncodeCell(cell) + more;
            && bs != [] && bs[0] != 0xff
            && (bs[0] == 0xfe <==> cell.Some? && |cell.value| >= TWO_24)
            && (cell.Some? ==> |bs| >= |cell.value|)
  {
    if cell.Some? {
      FirstOfInt(|cell.value|, cell.value + more);
      Assoc(LenencInt(|cell.value|), cell.value, more);
    }
  }

  lemma {:induction false} CellsBounded(cells: Row)
    ensures forall i :: 0 <= i < |cells| && cells[i].Some? ==> |cells[i].value| <= |EncodeCells(cells)|
  {
    if cells != [] {
      CellsBounded(cells[1..]);
      forall i | 0 <= i < |cells| && cells[i].Some?
        ensures |cells[i].value| <= |EncodeCells(cells)|
      {
        assert i > 0 ==> cells[i] == cells[1..][i - 1];
      }
    }
  }

  /** In a packet, no string is too long for its length to be read right. */
  lemma CellsShort(cells: Row)
    requires |EncodeCells(cells)| < TWO_24
    ensures CellsFit(cells)
  {
    CellsBounded(cells);
  }

  lemma {:induction false} ColumnBounded(from: ColumnStage, stage: ColumnStage, f: FullColumn)
    requires Place(stage) <= Place(from)
    ensures |ColumnField(stage, f)| <= |EncodeColumn(from, f)|
    decreases Place(from)
  {
    if Place(stage) < Place(from) {
      ColumnBounded(StageAfter(from).value, stage, f);
    }
  }

  predicate NumbersFit(f: FullColumn) {
    && f.def.characterSet < TWO_16 && f.def.columnLength < TWO_32 && f.def.kind < 256
    && f.def.flags < TWO_16 && f.def.decimals < 256 && f.filler < TWO_16
  }

  lemma NamesShort(f: FullColumn)
    requires |EncodeColumn(Catalog, f)| < TWO_24 && NumbersFit(f)
    ensures ColumnFits(f)
  {
    ColumnBounded(Catalog, Schema, f);
    ColumnBounded(Catalog, Table, f);
    ColumnBounded(Catalog, OrgTable, f);
    ColumnBounded(Catalog, Name, f);
    ColumnBounded(Catalog, OrgName, f);
  }

  // ---- responses ----

  /** How a response ends. */
  datatype End =
    | Completed(affectedRows: nat, lastInsertId: nat, statusFlags: nat, warnings: nat, info: bytes)
    | Error(code: nat, state: bytes, message: bytes)

  /** A response to a query: an end alone, or columns, rows and an end. */
  datatype Reply = Plain(end: End) | Resultset(columns: seq<FullColumn>, rows: seq<Row>, end: End)

  function EndPayload(header: byte, end: End): bytes {
    match end
    case Completed(a, l, s, w, info) => EncodeOk(header, a, l, s, w, info)
    case Error(code, state, message) => EncodeErr(code, state, message)
  }

  function RowPayloads(rows: seq<Row>, last: bytes): seq<bytes> {
    if rows == [] then [last] else [EncodeCells(rows[0])] + RowPayloads(rows[1..], last)
  }

  function ColumnPayloads(columns: seq<FullColumn>, more: seq<bytes>): seq<bytes> {
    if columns == [] then more else [EncodeColumn(Catalog, columns[0])] + ColumnPayloads(columns[1..], more)
  }

  function Payloads(reply: Reply): seq<bytes> {
    match reply
    case Plain(end) => [EndPayload(0, end)]
    case Resultset(columns, rows, end) =>
      [LenencInt(|columns|)] + ColumnPayloads(columns, RowPayloads(rows, EndPayload(0xfe, end)))
  }

  /** One packet for each payload, numbered from `id` on. */
  function Stamp(id: nat, payloads: seq<bytes>): (ps: seq<Packet>)
    decreases |payloads|
  {
    if payloads == [] then [] else [Packet(id % 256, payloads[0])] + Stamp((id + 1) % 256, payloads[1..])
  }

  predicate EndFits(end: End) {
    match end
    case Completed(_, _, statusFlags, warnings, _) => statusFlags < TWO_16 && warnings < TWO_16
    case Error(code, state, _) => code < TWO_16 && |state| == 5
  }

  /** The payloads fit in packets: 24 bits hold their length. */
  predicate PayloadsFit(payloads: seq<bytes>) {
    forall i :: 0 <= i < |payloads| ==> 0 < |payloads[i]| < TWO_24
  }

  /**
   A server's response: numbers fit in their fields and payloads in packets, rows match the columns, and
   the end of the rows is short enough not to be taken for a row.  The column count is a 64-bit size.
   */
  predicate ReplyFits(reply: Reply) {
    && EndFits(reply.end) && PayloadsFit(Payloads(reply))
    && (reply.Resultset? ==>
          && 0 < |reply.columns| < TWO_64
          && |EndPayload(0xfe, reply.end)| < 0xff_ffff
          && ColumnsFit(reply.columns) && RowsFit(reply.rows, |reply.columns|))
  }

  /** The column count is one that the integer parser reads right. */
  predicate CountReadable(reply: Reply) {
    reply.Resultset? ==> |reply.columns| < TWO_31
  }

  function Names(columns: seq<FullColumn>): (names: seq<bytes>)
    ensures |names| == |columns|
  {
    if columns == [] then [] else [columns[0].def.name] + Names(columns[1..])
  }

  function EndCode(end: End): ErrorCode {
    if end.Completed? then NoError else ServerError(end.code)
  }

  /** What a response leaves behind. */
  function Meaning(reply: Reply): Progress {
    match reply
    case Plain(end) => Progress(Finished, 0, [], [], EndCode(end))
    case Resultset(columns, rows, end) => Progress(Finished, |columns|, Names(columns), rows, EndCode(end))
  }

  // ---- what each payload does ----

  /** A whole payload is one run of the parser chosen for it. */
  lemma WholeRun(g: Progress, payload: bytes)
    requires payload != []
    ensures Whole(g, payload) ==
            Judge(PAYLOAD, RunNext(PAYLOAD, Enter(g, |payload|, payload[0]), payload), |payload|, |payload|, [])
  {
    assert payload[..|payload|] == payload && payload[|payload|..] == [];
  }

  lemma CountTaken(n: nat, id: nat)
    requires n > 0 && id < 256
    ensures PacketFits(Packet(id, LenencInt(n)))
    ensures TakePacket(NOTHING, id, Packet(id, LenencInt(n))) ==
            Waiting(Progress(Definitions, ReadInt(n).result, [], [], NoError), (id + 1) % 256)
  {
    var payload := LenencInt(n);
    assert payload + [] == payload;
    FirstOfInt(n, []);
    IntField(n, []);
    Turn(Count, payload, [], IntP(ReadInt(n)));
    WholeRun(NOTHING, payload);
  }

  lemma DefinitionTaken(g: Progress, id: nat, f: FullColumn)
    requires g.phase == Definitions && |g.def| < g.columnCount && id < 256 && NumbersFit(f)
    requires PacketFits(Packet(id, EncodeColumn(Catalog, f)))
    ensures TakePacket(g, id, Packet(id, EncodeColumn(Catalog, f))) ==
            Waiting(g.(def := g.def + [f.def.name]), (id + 1) % 256)
  {
    var payload := EncodeColumn(Catalog, f);
    assert payload + [] == payload;
    NamesShort(f);
    ColumnDecodes(Catalog, BLANK_COLUMN, f, []);
    WholeRun(g, payload);
  }

  lemma RowWhole(g: Progress, row: Row)
    requires g.phase == RowsOrEnd && row != [] && |row| == g.columnCount && 0 < |EncodeCells(row)| < TWO_24
    ensures Whole(g, EncodeCells(row)) == Decoded(RowData(row), [])
  {
    var payload := EncodeCells(row);
    RowsAreRows(row);
    CellsShort(row);
    assert RunNext(PAYLOAD, Go(RowCells(|row|, [])), payload) == Yielded(RowData(row), []) by {
      assert payload + [] == payload && [] + row == row;
      RowDecodes(|row|, [], row, []);
    }
    WholeRun(g, payload);
  }

  /** A payload that is decoded, and does not end the response. */
  lemma TakenAs(g: Progress, id: nat, payload: bytes, v: Value)
    requires id < 256 && PacketFits(Packet(id, payload)) && Whole(Entered(g), payload) == Decoded(v, [])
    requires Absorb(Entered(g), v).phase != Finished
    ensures TakePacket(g, id, Packet(id, payload)) == Waiting(Absorb(Entered(g), v), (id + 1) % 256)
  {
  }

  /** The progress with one row more. */
  function WithRow(g: Progress, row: Row): Progress {
    Progress(RowsOrEnd, g.columnCount, g.def, g.result + [row], g.ec)
  }

  lemma RowTaken(g: Progress, id: nat, row: Row)
    requires Entered(g).phase == RowsOrEnd && row != [] && |row| == g.columnCount && id < 256
    requires PacketFits(Packet(id, EncodeCells(row)))
    ensures TakePacket(g, id, Packet(id, EncodeCells(row))) == Waiting(WithRow(g, row), (id + 1) % 256)
  {
    var g1, payload := Entered(g), EncodeCells(row);
    assert Absorb(g1, RowData(row)) == WithRow(g, row);
    assert Whole(g1, payload) == Decoded(RowData(row), []) by {
      RowWhole(g1, row);
    }
    TakenAs(g, id, payload, RowData(row));
  }

  lemma EndTaken(g: Progress, id: nat, header: byte, end: End)
    requires EndFits(end) && id < 256 && PacketFits(Packet(id, EndPayload(header, end)))
    requires if header == 0 then g.phase == FirstPayload
             else header == 0xfe && Entered(g).phase == RowsOrEnd && |EndPayload(header, end)| < 0xff_ffff
    ensures TakePacket(g, id, Packet(id, EndPayload(header, end))) ==
            Stopped(Entered(g).(ec := EndCode(end), phase := Finished), [])
  {
    if end.Completed? {
      OkDecodes(header, end.affectedRows, end.lastInsertId, end.statusFlags, end.warnings, end.info);
    } else {
      ErrDecodes(end.code, end.state, end.message);
      assert EncodeErr(end.code, end.state, end.message)[0] == 0xff;
    }
    WholeRun(Entered(g), EndPayload(header, end));
  }

  // ---- whole responses ----

  /** Packets numbered from `id` on, with these payloads, end a response in `g'`, with the last of them. */
  predicate Leads(g: Progress, id: nat, payloads: seq<bytes>, g': Progress) {
    && PacketsFit(Stamp(id, payloads))
    && Follow(g, id, Stamp(id, payloads)) == Stopped(g', [])
  }

  lemma LeadsLast(g: Progress, id: nat, payload: bytes, g': Progress)
    requires id < 256 && PacketFits(Packet(id, payload))
    requires TakePacket(g, id, Packet(id, payload)) == Stopped(g', [])
    ensures Leads(g, id, [payload], g')
  {
    assert [payload][1..] == [];
    assert Stamp(id, [payload]) == [Packet(id, payload)] && [Packet(id, payload)][1..] == [];
  }

  lemma LeadsNext(g: Progress, id: nat, payload: bytes, more: seq<bytes>, g1: Progress, g': Progress)
    requires id < 256 && PacketFits(Packet(id, payload))
    requires TakePacket(g, id, Packet(id, payload)) == Waiting(g1, (id + 1) % 256)
    requires Leads(g1, (id + 1) % 256, more, g')
    ensures Leads(g, id, [payload] + more, g')
  {
    var ps, rest := Stamp(id, [payload] + more), Stamp((id + 1) % 256, more);
    assert ([payload] + more)[1..] == more;
    assert ps == [Packet(id, payload)] + rest && ps[1..] == rest;
  }

  lemma PayloadsTail(payload: bytes, more: seq<bytes>)
    requires PayloadsFit([payload] + more)
    ensures 0 < |payload| < TWO_24 && PayloadsFit(more)
  {
    assert ([payload] + more)[0] == payload && ([payload] + more)[1..] == more;
  }

  /** An end of the rows, in its packet. */
  predicate LastFits(last: bytes, end: End) {
    last == EndPayload(0xfe, end) && EndFits(end) && |last| < 0xff_ffff
  }

  predicate RowsFit(rows: seq<Row>, n: nat) {
    forall i :: 0 <= i < |rows| ==> |rows[i]| == n
  }

  predicate ColumnsFit(columns: seq<FullColumn>) {
    forall i :: 0 <= i < |columns| ==> NumbersFit(columns[i])
  }

  /** The progress when the end of the rows has come. */
  function Ended(g: Progress, rows: seq<Row>, end: End): Progress {
    Progress(Finished, g.columnCount, g.def, g.result + rows, EndCode(end))
  }

  lemma RowsTail(rows: seq<Row>, n: nat, before: seq<Row>)
    requires rows != [] && RowsFit(rows, n)
    ensures |rows[0]| == n && RowsFit(rows[1..], n)
    ensures before + [rows[0]] + rows[1..] == before + rows
  {
  }

  lemma ColumnsTail(columns: seq<FullColumn>, before: seq<bytes>)
    requires columns != [] && ColumnsFit(columns)
    ensures NumbersFit(columns[0]) && ColumnsFit(columns[1..])
    ensures before + [columns[0].def.name] + Names(columns[1..]) == before + Names(columns)
  {
  }

  lemma RowNext(g: Progress, id: nat, row: Row, more: seq<bytes>, g': Progress)
    requires Entered(g).phase == RowsOrEnd && row != [] && |row| == g.columnCount && id < 256
    requires PacketFits(Packet(id, EncodeCells(row)))
    requires Leads(WithRow(g, row), (id + 1) % 256, more, g')
    ensures Leads(g, id, [EncodeCells(row)] + more, g')
  {
    RowTaken(g, id, row);
    LeadsNext(g, id, EncodeCells(row), more, WithRow(g, row), g');
  }

  lemma ColumnNext(g: Progress, id: nat, f: FullColumn, more: seq<bytes>, g': Progress)
    requires g.phase == Definitions && |g.def| < g.columnCount && id < 256 && NumbersFit(f)
    requires PacketFits(Packet(id, EncodeColumn(Catalog, f)))
    requires Leads(g.(def := g.def + [f.def.name]), (id + 1) % 256, more, g')
    ensures Leads(g, id, [EncodeColumn(Catalog, f)] + more, g')
  {
    DefinitionTaken(g, id, f);
    LeadsNext(g, id, EncodeColumn(Catalog, f), more, g.(def := g.def + [f.def.name]), g');
  }

  lemma {:induction false} RowsFollow(g: Progress, id: nat, rows: seq<Row>, last: bytes, end: End)
    requires Entered(g).phase == RowsOrEnd && g.columnCount > 0 && id < 256
    requires LastFits(last, end) && RowsFit(rows, g.columnCount) && PayloadsFit(RowPayloads(rows, last))
    ensures Leads(g, id, RowPayloads(rows, last), Ended(g, rows, end))
    decreases |rows|
  {
    if rows == [] {
      assert [last] + [] == [last] && g.result + rows == g.result;
      PayloadsTail(last, []);
      EndTaken(g, id, 0xfe, end);
      LeadsLast(g, id, last, Ended(g, rows, end));
    } else {
      var payload, more, g' := EncodeCells(rows[0]), RowPayloads(rows[1..], last), WithRow(g, rows[0]);
      PayloadsTail(payload, more);
      RowsTail(rows, g.columnCount, g.result);
      RowsFollow(g', (id + 1) % 256, rows[1..], last, end);
      RowNext(g, id, rows[0], more, Ended(g, rows, end));
    }
  }

  lemma {:induction false} ColumnsFollow(g: Progress, id: nat, columns: seq<FullColumn>, rows: seq<Row>,
        last: bytes, end: End)
    requires g.phase == Definitions && |g.def| + |columns| == g.columnCount > 0 && id < 256
    requires LastFits(last, end) && RowsFit(rows, g.columnCount) && ColumnsFit(columns)
    requires PayloadsFit(ColumnPayloads(columns, RowPayloads(rows, last)))
    ensures var ended := Ended(g.(def := g.def + Names(columns)), rows, end);
            Leads(g, id, ColumnPayloads(columns, RowPayloads(rows, last)), ended)
    decreases |columns|
  {
    if columns == [] {
      assert g.def + Names(columns) == g.def;
      RowsFollow(g, id, rows, last, end);
    } else {
      var payload, more := EncodeColumn(Catalog, columns[0]), ColumnPayloads(columns[1..], RowPayloads(rows, last));
      var g' := g.(def := g.def + [columns[0].def.name]);
      PayloadsTail(payload, more);
      ColumnsTail(columns, g.def);
      ColumnsFollow(g', (id + 1) % 256, columns[1..], rows, last, end);
      ColumnNext(g, id, columns[0], more, Ended(g.(def := g.def + Names(columns)), rows, end));
    }
  }

  lemma ReadableFollows(reply: Reply, id: nat)
    requires ReplyFits(reply) && CountReadable(reply) && id < 256
    ensures Leads(NOTHING, id, Payloads(reply), Meaning(reply))
  {
    match reply
    case Plain(end) =>
      var last := EndPayload(0, end);
      assert [last] + [] == [last];
      PayloadsTail(last, []);
      EndTaken(NOTHING, id, 0, end);
      LeadsLast(NOTHING, id, last, Meaning(reply));
    case Resultset(columns, rows, end) =>
      var n, last := |columns|, EndPayload(0xfe, end);
      var more := ColumnPayloads(columns, RowPayloads(rows, last));
      var g := Progress(Definitions, n, [], [], NoError);
      PayloadsTail(LenencInt(n), more);
      CountTaken(n, id);
      IntRoundTrip(n);
      ColumnsFollow(g, (id + 1) % 256, columns, rows, last, end);
      assert [] + Names(columns) == Names(columns) && [] + rows == rows;
      LeadsNext(NOTHING, id, LenencInt(n), more, g, Meaning(reply));
  }

  /** The bytes of a response, to a query that was packet `id - 1`. */
  function Encode(reply: Reply, id: nat): bytes {
    WireAll(Stamp(id, Payloads(reply)))
  }

  /** Whatever follows `wire`, the decoder pauses at its end. */
  ghost predicate Finishes(q: Query, wire: bytes, g: Progress) {
    forall extra: bytes :: Feed(q, wire + extra) == Paused(g, extra)
  }

  lemma ReadableDecodes(reply: Reply, id: nat)
    requires ReplyFits(reply) && CountReadable(reply) && id < 256
    ensures Finishes(At(NOTHING, id), Encode(reply, id), Meaning(reply))
  {
    ReadableFollows(reply, id);
    forall extra: bytes
      ensures Feed(At(NOTHING, id), Encode(reply, id) + extra) == Paused(Meaning(reply), extra)
    {
      FeedFollows(NOTHING, id, Stamp(id, Payloads(reply)), extra);
      assert WireAll([]) + extra == extra;
    }
  }

  /** A column count that is read wrong stays wrong. */
  lemma CountMisread(reply: Reply, id: nat, extra: bytes)
    requires ReplyFits(reply) && !CountReadable(reply) && id < 256
    ensures var g := Reached(Feed(At(NOTHING, id), Encode(reply, id) + extra));
            g.columnCount != |reply.columns| && InPhase(g)
  {
    var n := |reply.columns|;
    var more := ColumnPayloads(reply.columns, RowPayloads(reply.rows, EndPayload(0xfe, reply.end)));
    var p := Packet(id, LenencInt(n));
    var g := Progress(Definitions, ReadInt(n).result, [], [], NoError);
    CountTaken(n, id);
    IntRoundTrip(n);
    var rest := WireAll(Stamp((id + 1) % 256, more)) + extra;
    StampWire(id, LenencInt(n), more, extra);
    FeedPacket(NOTHING, id, p, rest);
    AlwaysRectangular(At(g, (id + 1) % 256), rest);
  }

  lemma StampWire(id: nat, payload: bytes, more: seq<bytes>, extra: bytes)
    requires id < 256
    ensures WireAll(Stamp(id, [payload] + more)) + extra ==
            Wire(Packet(id, payload)) + (WireAll(Stamp((id + 1) % 256, more)) + extra)
  {
    var p, rest := Packet(id, payload), Stamp((id + 1) % 256, more);
    StampCons(id, payload, more);
    assert ([p] + rest)[1..] == rest;
    Assoc(Wire(p), WireAll(rest), extra);
  }

  lemma StampCons(id: nat, payload: bytes, more: seq<bytes>)
    requires id < 256
    ensures Stamp(id, [payload] + more) == [Packet(id, payload)] + Stamp((id + 1) % 256, more)
  {
    var all := [payload] + more;
    assert all[0] == payload && all[1..] == more && id % 256 == id;
  }

  /**
   The packets of a response mean what it holds, and it ends with the last of them, whatever number the first one
   has, exactly when the column count is one that the integer parser reads right.
   */
  lemma ReplyFollows(reply: Reply, id: nat)
    requires ReplyFits(reply) && id < 256
    ensures CountReadable(reply) <==> Leads(NOTHING, id, Payloads(reply), Meaning(reply))
  {
    if CountReadable(reply) {
      ReadableFollows(reply, id);
    } else if Leads(NOTHING, id, Payloads(reply), Meaning(reply)) {
      FeedFollows(NOTHING, id, Stamp(id, Payloads(reply)), []);
      CountMisread(reply, id, []);
      assert false;
    }
  }

  /**
   Round trip: the decoder pauses with the response's meaning, and at its last byte, exactly when the column count is
   one that the integer parser reads right.
   */
  lemma ReplyDecodes(reply: Reply, id: nat)
    requires ReplyFits(reply) && id < 256
    ensures CountReadable(reply) <==> Finishes(At(NOTHING, id), Encode(reply, id), Meaning(reply))
  {
    if CountReadable(reply) {
      ReadableDecodes(reply, id);
    } else {
      CountMisread(reply, id, []);
      assert Feed(At(NOTHING, id), Encode(reply, id) + []) != Paused(Meaning(reply), []);
    }
  }

  /** Before its last byte, a response is not over. */
  lemma PartOfReply(q: Query, wire: bytes, g: Progress, a: bytes, b: bytes)
    requires Finishes(q, wire, g) && wire == a + b && b != []
    ensures Feed(q, a).More?
  {
    assert wire + [] == a + b;
    FeedSplit(q, a, b);
  }

  /** What the operation completes with, when a response ends where a read ends, or does not. */
  function Answer(g: Progress, atEnd: bool): Outcome {
    Outcome(if !atEnd then MalformedPacket else if g.ec == NoError then Success else Server(g.ec.code), g.def, g.result)
  }

  /** How much of a response has been read decides the outcome. */
  lemma Heeded(q: Query, wire: bytes, g: Progress, all: bytes, extra: bytes, heard: bytes)
    requires Finishes(q, wire, g) && all == wire + extra && heard <= all
    ensures Delivered(Feed(q, heard)) == if |heard| < |wire| then None else Some(Answer(g, |heard| == |wire|))
  {
    if |heard| < |wire| {
      var b := wire[|heard|..];
      assert wire == heard + b;
      PartOfReply(q, wire, g, heard, b);
    } else {
      var more := heard[|wire|..];
      assert heard == wire + more;
    }
  }

  lemma {:induction false} JoinedPrefix(chunks: seq<bytes>, n: nat)
    requires n <= |chunks|
    ensures Joined(chunks[..n]) <= Joined(chunks)
  {
    if n > 0 {
      JoinedPrefix(chunks[1..], n - 1);
      assert chunks[..n][1..] == chunks[1..][..n - 1];
    }
  }

  /** Otherwise the operation never completes with what the response holds. */
  lemma NeverAnswered(reply: Reply, heard: bytes, all: bytes, extra: bytes)
    requires ReplyFits(reply) && !CountReadable(reply) && all == Encode(reply, 1) + extra && heard <= all
    ensures Delivered(Feed(SENT, heard)) != Some(Answer(Meaning(reply), true))
  {
    var more := all[|heard|..];
    assert all == heard + more;
    CountMisread(reply, 1, extra);
    FeedSplit(SENT, heard, more);
    AlwaysRectangular(SENT, heard);
    match Feed(SENT, heard)
    case Paused(g, rest) => assert |g.def| != |reply.columns|;
    case _ =>
  }

  /**
   The operation on any response of the server, however it is cut into reads.  With a column count that the integer
   parser reads right, it reads up to the end of the response and completes with what the response holds; bytes after
   the response are an error when they come with its last byte, and are not looked at otherwise.  With any other
   column count, it never completes with what the response holds.
   */
  method Receive(reply: Reply, chunks: seq<bytes>, extra: bytes) returns (done: Option<Outcome>, used: nat)
    requires ReplyFits(reply) && Joined(chunks) == Encode(reply, 1) + extra
    ensures used <= |chunks|
    ensures CountReadable(reply) ==>
              && used > 0 && |Joined(chunks[..used - 1])| < |Encode(reply, 1)| <= |Joined(chunks[..used])|
              && done == Some(Answer(Meaning(reply), |Joined(chunks[..used])| == |Encode(reply, 1)|))
    ensures !CountReadable(reply) ==> done != Some(Answer(Meaning(reply), true))
  {
    var query := new ComQuery();
    done, used := query.Operate(chunks);
    if CountReadable(reply) {
      ReadableDecodes(reply, 1);
      Received(chunks, Encode(reply, 1), Meaning(reply), extra, done, used);
    } else {
      JoinedPrefix(chunks, used);
      NeverAnswered(reply, Joined(chunks[..used]), Joined(chunks), extra);
    }
  }

  lemma Received(chunks: seq<bytes>, wire: bytes, g: Progress, extra: bytes, done: Option<Outcome>, used: nat)
    requires Finishes(SENT, wire, g) && Joined(chunks) == wire + extra && used <= |chunks|
    requires done == Delivered(Feed(SENT, Joined(chunks[..used]))) && (done == None ==> used == |chunks|)
    requires done.Some? ==> used > 0 && Delivered(Feed(SENT, Joined(chunks[..used - 1]))) == None
    ensures used > 0 && |Joined(chunks[..used - 1])| < |wire| <= |Joined(chunks[..used])|
    ensures done == Some(Answer(g, |Joined(chunks[..used])| == |wire|))
  {
    JoinedPrefix(chunks, used);
    Heeded(SENT, wire, g, Joined(chunks), extra, Joined(chunks[..used]));
    assert chunks[..|chunks|] == chunks;
    if used > 0 {
      JoinedPrefix(chunks, used - 1);
      Heeded(SENT, wire, g, Joined(chunks), extra, Joined(chunks[..used - 1]));
    }
  }
}
