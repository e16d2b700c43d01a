/**
 The packet payloads of a query response (mysql/detail/packets/): ERR, OK (also in its EOF form),
 column count, column definition and row.
 */
module MyPackets {
  import opened Bytes
  import opened Machine
  import opened MyFields

  datatype OkPacket = OkPacket(affectedRows: nat, lastInsertId: nat, statusFlags: nat, warnings: nat, info: bytes)

  datatype ColumnDef = ColumnDef(
    name: bytes, characterSet: nat, columnLength: nat, kind: nat, flags: nat, decimals: nat)

  type Cell = Option<bytes>

  type Row = seq<Cell>

  datatype OkStage = AffectedRows | LastInsertId | StatusFlags | Warnings

  datatype ColumnStage =
    | Catalog | Schema | Table | OrgTable | Name | OrgName | LengthOfFixedLengthFields
    | CharacterSet | ColumnLength | Type | Flags | Decimals | Unused

  /** Which field of which packet is being read, with what is decoded so far. */
  datatype Control =
    | ErrHeader
    | ErrorCode
    | SqlStateMarker(code: nat)
    | SqlState(code: nat)
    | ErrorMessage(code: nat, state: bytes)
    | OkHeader(header: byte)
    | OkField(stage: OkStage, ok: OkPacket)
    | OkInfo(ok: OkPacket)
    | Count
    | Column(column: ColumnStage, def: ColumnDef)
    | RowCells(n: nat, cells: Row)

  datatype Value =
    | Err(code: nat, state: bytes, message: bytes)
    | Ok(ok: OkPacket)
    | ColumnCount(n: nat)
    | Definition(def: ColumnDef)
    | RowData(cells: Row)

  type MyNext = Next<Control, Value, PayloadResult>

  function NewFixed(size: nat): FieldParser {
    FixedP(size, 0, 0)
  }

  function Start(c: Control): FieldParser {
    match c
    case ErrHeader => NewFixed(1)
    case ErrorCode => NewFixed(2)
    case SqlStateMarker(_) => ByteP(0)
    case SqlState(_) => TextP(5, [])
    case ErrorMessage(_, _) => RestP([])
    case OkHeader(_) => ByteP(0)
    case OkField(stage, _) => if stage.AffectedRows? || stage.LastInsertId? then IntP(NEW_INT) else NewFixed(2)
    case OkInfo(_) => RestP([])
    case Count => IntP(NEW_INT)
    case Column(stage, _) =>
      (match stage
       case Catalog => StringP(NEW_STRING)
       case Schema => StringP(NEW_SKIP)
       case Table => StringP(NEW_SKIP)
       case OrgTable => StringP(NEW_SKIP)
       case Name => StringP(NEW_STRING)
       case OrgName => StringP(NEW_SKIP)
       case LengthOfFixedLengthFields => NewFixed(1)
       case CharacterSet => NewFixed(2)
       case ColumnLength => NewFixed(4)
       case Type => NewFixed(1)
       case Flags => NewFixed(2)
       case Decimals => NewFixed(1)
       case Unused => NewFixed(2))
    case RowCells(_, _) => CellP(false, NEW_STRING)
  }

  /** value() of an integer parser. */
  function IntValue(p: FieldParser): nat {
    if p.FixedP? then p.result else if p.IntP? then p.i.result else 0
  }

  /** value() of a string parser. */
  function Text(p: FieldParser): bytes {
    if p.TextP? then p.text
    else if (p.StringP? || p.CellP?) && p.s.c.Kept? then p.s.c.content
    else []
  }

  const BLANK_OK: OkPacket := OkPacket(0, 0, 0, 0, [])
  const BLANK_COLUMN: ColumnDef := ColumnDef([], 0, 0, 0, 0, 0)
  const DEF: bytes := ['d' as int, 'e' as int, 'f' as int]

  function StoreColumn(stage: ColumnStage, d: ColumnDef, p: FieldParser): MyNext {
    match stage
    case Catalog => if Text(p) == DEF then Go(Column(Schema, d)) else Reject(PayloadMalformed)
    case Schema => Go(Column(Table, d))
    case Table => Go(Column(OrgTable, d))
    case OrgTable => Go(Column(Name, d))
    case Name => Go(Column(OrgName, d.(name := Text(p))))
    case OrgName => Go(Column(LengthOfFixedLengthFields, d))
    case LengthOfFixedLengthFields =>
      if IntValue(p) == 0x0c then Go(Column(CharacterSet, d)) else Reject(PayloadMalformed)
    case CharacterSet => Go(Column(ColumnLength, d.(characterSet := IntValue(p) % TWO_16)))
    case ColumnLength => Go(Column(Type, d.(columnLength := IntValue(p) % TWO_32)))
    case Type => Go(Column(Flags, d.(kind := IntValue(p) % 256)))
    case Flags => Go(Column(Decimals, d.(flags := IntValue(p) % TWO_16)))
    case Decimals => Go(Column(Unused, d.(decimals := IntValue(p) % 256)))
    case Unused => Yield(Definition(d))
  }

  function StoreOk(stage: OkStage, ok: OkPacket, p: FieldParser): MyNext {
    match stage
    case AffectedRows => Go(OkField(LastInsertId, ok.(affectedRows := IntValue(p))))
    case LastInsertId => Go(OkField(StatusFlags, ok.(lastInsertId := IntValue(p))))
    case StatusFlags => Go(OkField(Warnings, ok.(statusFlags := IntValue(p) % TWO_16)))
    case Warnings => Go(OkInfo(ok.(warnings := IntValue(p) % TWO_16)))
  }

  /** A row ends with its last column. */
  function StoreCell(n: nat, cells: Row, cell: Cell): MyNext {
    if |cells| + 1 == n then Yield(RowData(cells + [cell])) else Go(RowCells(n, cells + [cell]))
  }

  function Advance(c: Control, p: FieldParser): MyNext {
    match c
    case ErrHeader => if IntValue(p) == 0xff then Go(ErrorCode) else Reject(PayloadMalformedHeader)
    case ErrorCode => Go(SqlStateMarker(IntValue(p) % TWO_16))
    case SqlStateMarker(code) => if p == ByteP('#' as int) then Go(SqlState(code)) else Reject(PayloadMalformed)
    case SqlState(code) => Go(ErrorMessage(code, Text(p)))
    case ErrorMessage(_, _) => Reject(PayloadInternalError)
    case OkHeader(header) =>
      if p == ByteP(header) then Go(OkField(AffectedRows, BLANK_OK)) else Reject(PayloadMalformedHeader)
    case OkField(stage, ok) => StoreOk(stage, ok, p)
    case OkInfo(_) => Reject(PayloadInternalError)
    case Count => Yield(ColumnCount(IntValue(p)))
    case Column(stage, d) => StoreColumn(stage, d, p)
    case RowCells(n, cells) => StoreCell(n, cells, if p.NullP? then None else Some(Text(p)))
  }

  /** The message of an error and the information of an OK packet end where the packet ends. */
  function AtEnd(c: Control, p: FieldParser): Option<Value> {
    match c
    case ErrorMessage(code, state) => Some(Err(code, state, if p.RestP? then p.content else []))
    case OkInfo(ok) => Some(Ok(ok.(info := if p.RestP? then p.content else [])))
    case _ => None
  }

  const PAYLOAD: Machine<Control, FieldParser, Value, PayloadResult> :=
    Machine(FieldStep, Start, Advance, PayloadMalformed, AtEnd)

  type MyRun = Run<Control, FieldParser, Value, PayloadResult>

  /** The states a packet parser can be called in. */
  predicate Callable(c: Control, p: FieldParser) {
    Resumes(p, Start(c)) && (c.RowCells? ==> |c.cells| < c.n)
  }

  /** What a packet parser returns and leaves behind, for a run over the bytes it was given. */
  predicate Reports(run: MyRun, isFinal: bool, bs: bytes,
                    r: PayloadResult, c: Control, p: FieldParser, begin: nat, v: Value)
  {
    && begin <= |bs|
    && match run
       case Pending(c', p') =>
         if isFinal && AtEnd(c', p').Some? then r == PayloadSuccess && AtEnd(c', p') == Some(v) && begin == |bs|
         else r == PayloadNeedMore && c == c' && p == p' && begin == |bs| && Callable(c, p)
       case Yielded(v', rest) => r == PayloadSuccess && v == v' && rest == bs[begin..]
       case Rejected(e) => r == e && r in {PayloadMalformed, PayloadMalformedHeader}
  }

  lemma FieldTurn(c: Control, p: FieldParser, bs: bytes, begin: nat, r: PayloadResult, p': FieldParser, begin': nat)
    requires begin <= |bs| && Callable(c, p) && Scanned(p, bs, begin, r, p', begin')
    ensures r == PayloadNeedMore ==> RunFields(PAYLOAD, c, p, bs[begin..]) == Pending(c, p') && Callable(c, p')
    ensures r == PayloadSuccess ==>
              RunFields(PAYLOAD, c, p, bs[begin..]) == RunNext(PAYLOAD, Advance(c, p'), bs[begin'..])
    ensures r == PayloadMalformed ==> RunFields(PAYLOAD, c, p, bs[begin..]) == Rejected(PayloadMalformed)
  {
  }

  // ---- which packet ----

  datatype Family = ErrPacket | OkOrEof | CountPacket | DefinitionPacket | RowPacket(n: nat)

  function FamilyOf(c: Control): Family {
    match c
    case ErrHeader => ErrPacket
    case ErrorCode => ErrPacket
    case SqlStateMarker(_) => ErrPacket
    case SqlState(_) => ErrPacket
    case ErrorMessage(_, _) => ErrPacket
    case OkHeader(_) => OkOrEof
    case OkField(_, _) => OkOrEof
    case OkInfo(_) => OkOrEof
    case Count => CountPacket
    case Column(_, _) => DefinitionPacket
    case RowCells(n, _) => RowPacket(n)
  }

  predicate Yields(f: Family, v: Value) {
    match v
    case Err(_, _, _) => f == ErrPacket
    case Ok(_) => f == OkOrEof
    case ColumnCount(_) => f == CountPacket
    case Definition(_) => f == DefinitionPacket
    case RowData(cells) => f == RowPacket(|cells|)
  }

  // ---- the parsers ----

  /** The next field starts in such a state, and a rejection is a malformed packet. */
  lemma AdvanceReady(c: Control, p: FieldParser)
    requires (c.RowCells? ==> |c.cells| < c.n) && !c.ErrorMessage? && !c.OkInfo?
    ensures match Advance(c, p)
            case Go(c') => Callable(c', Start(c')) && FamilyOf(c') == FamilyOf(c)
            case Yield(v) => Yields(FamilyOf(c), v) && !v.Err? && !v.Ok?
            case Reject(e) => e in {PayloadMalformed, PayloadMalformedHeader}
  {
  }

  /** One field, parsed by the parser the stage keeps in the variant: the run goes on with what it leads to. */
  method TakeField(c: Control, p: FieldParser, bs: bytes, begin: nat)
    returns (r: PayloadResult, p': FieldParser, begin': nat)
    requires begin <= |bs| && Callable(c, p) && !c.RowCells?
    ensures begin <= begin' <= |bs|
    ensures r == PayloadSuccess ==>
              && begin < begin' && !c.ErrorMessage? && !c.OkInfo?
              && RunFields(PAYLOAD, c, p, bs[begin..]) == RunNext(PAYLOAD, Advance(c, p'), bs[begin'..])
    ensures r == PayloadNeedMore ==>
              begin' == |bs| && Callable(c, p') && RunFields(PAYLOAD, c, p, bs[begin..]) == Pending(c, p')
    ensures r == PayloadMalformed ==> RunFields(PAYLOAD, c, p, bs[begin..]) == Rejected(PayloadMalformed)
    ensures r in {PayloadSuccess, PayloadNeedMore, PayloadMalformed}
  {
    r, p', begin' := ParseField(p, bs, begin);
    FieldTurn(c, p, bs, begin, r, p', begin');
    if p.RestP? {
      ScanRest(p.content, bs[begin..]);
    }
  }

  /**
   After one of the cases of a fall-through switch: it has returned, or the next case goes on where the run is.
   */
  predicate FallsThrough(run: MyRun, bs: bytes, r: PayloadResult, c: Control, p: FieldParser, begin: nat) {
    && begin <= |bs|
    && if r == PayloadSuccess then Callable(c, p) && run == RunFields(PAYLOAD, c, p, bs[begin..])
       else Stopped(run, r, bs, c, p, begin)
  }

  /** What a case that returns leaves behind; a message that ends with the packet does not return so. */
  predicate Stopped(run: MyRun, r: PayloadResult, bs: bytes, c: Control, p: FieldParser, begin: nat) {
    match run
    case Pending(c', p') =>
      r == PayloadNeedMore && c == c' && p == p' && begin == |bs| && Callable(c, p) && AtEnd(c, p) == None
    case Rejected(e) => r == e && r in {PayloadMalformed, PayloadMalformedHeader}
    case Yielded(_, _) => false
  }

  // ---- ERR_Packet ----

  /** Cases Header and ErrorCode. */
  method ParseErrCode(c: Control, p: FieldParser, bs: bytes, begin: nat)
    returns (r: PayloadResult, c': Control, p': FieldParser, begin': nat)
    requires begin <= |bs| && Callable(c, p) && (c.ErrHeader? || c.ErrorCode?)
    ensures FallsThrough(RunFields(PAYLOAD, c, p, bs[begin..]), bs, r, c', p', begin')
    ensures r == PayloadSuccess ==> c'.SqlStateMarker?
  {
    c', p', begin' := c, p, begin;
    if c'.ErrHeader? {
      r, p', begin' := TakeField(c', p', bs, begin');
      if r != PayloadSuccess {
        return;
      }
      if IntValue(p') != 0xff {
        r := PayloadMalformedHeader;
        return;
      }
      c', p' := ErrorCode, NewFixed(2);
    }
    r, p', begin' := TakeField(c', p', bs, begin');
    if r == PayloadSuccess {
      c', p' := SqlStateMarker(IntValue(p') % TWO_16), ByteP(0);
    }
  }

  /** Cases SqlStateMarker and SqlState. */
  method ParseErrState(c: Control, p: FieldParser, bs: bytes, begin: nat)
    returns (r: PayloadResult, c': Control, p': FieldParser, begin': nat)
    requires begin <= |bs| && Callable(c, p) && (c.SqlStateMarker? || c.SqlState?)
    ensures FallsThrough(RunFields(PAYLOAD, c, p, bs[begin..]), bs, r, c', p', begin')
    ensures r == PayloadSuccess ==> c'.ErrorMessage?
  {
    c', p', begin' := c, p, begin;
    if c'.SqlStateMarker? {
      r, p', begin' := TakeField(c', p', bs, begin');
      if r != PayloadSuccess {
        return;
      }
      if p' != ByteP('#' as int) {
        r := PayloadMalformed;
        return;
      }
      c', p' := SqlState(c'.code), TextP(5, []);
    }
    r, p', begin' := TakeField(c', p', bs, begin');
    if r == PayloadSuccess {
      c', p' := ErrorMessage(c'.code, Text(p')), RestP([]);
    }
  }

  /** ERR_Packet::parser. */
  method ParseErr(c: Control, p: FieldParser, bs: bytes, begin: nat, isFinal: bool)
    returns (r: PayloadResult, c': Control, p': FieldParser, begin': nat, v: Value)
    requires begin <= |bs| && Callable(c, p) && FamilyOf(c) == ErrPacket
    ensures Reports(RunFields(PAYLOAD, c, p, bs[begin..]), isFinal, bs, r, c', p', begin', v)
  {
    c', p', begin', v := c, p, begin, ColumnCount(0);
    if c'.ErrHeader? || c'.ErrorCode? {
      r, c', p', begin' := ParseErrCode(c', p', bs, begin');
      if r != PayloadSuccess {
        return;
      }
    }
    if c'.SqlStateMarker? || c'.SqlState? {
      r, c', p', begin' := ParseErrState(c', p', bs, begin');
      if r != PayloadSuccess {
        return;
      }
    }
    // case ErrorMessage
    ScanRest(p'.content, bs[begin'..]);
    p', begin' := RestP(p'.content + bs[begin'..]), |bs|;
    v := Err(c'.code, c'.state, p'.content);
    r := if isFinal then PayloadSuccess else PayloadNeedMore;
  }

  // ---- OK_Packet ----

  /** Cases Header, AffectedRows and LastInsertId. */
  method ParseOkCounts(c: Control, p: FieldParser, bs: bytes, begin: nat)
    returns (r: PayloadResult, c': Control, p': FieldParser, begin': nat)
    requires begin <= |bs| && Callable(c, p)
    requires c.OkHeader? || (c.OkField? && (c.stage.AffectedRows? || c.stage.LastInsertId?))
    ensures FallsThrough(RunFields(PAYLOAD, c, p, bs[begin..]), bs, r, c', p', begin')
    ensures r == PayloadSuccess ==> c'.OkField? && c'.stage.StatusFlags?
  {
    c', p', begin' := c, p, begin;
    if c'.OkHeader? {
      r, p', begin' := TakeField(c', p', bs, begin');
      if r != PayloadSuccess {
        return;
      }
      if p' != ByteP(c'.header) {
        r := PayloadMalformedHeader;
        return;
      }
      c', p' := OkField(AffectedRows, BLANK_OK), IntP(NEW_INT);
    }
    if c'.stage.AffectedRows? {
      r, p', begin' := TakeField(c', p', bs, begin');
      if r != PayloadSuccess {
        return;
      }
      c', p' := OkField(LastInsertId, c'.ok.(affectedRows := IntValue(p'))), IntP(NEW_INT);
    }
    r, p', begin' := TakeField(c', p', bs, begin');
    if r == PayloadSuccess {
      c', p' := OkField(StatusFlags, c'.ok.(lastInsertId := IntValue(p'))), NewFixed(2);
    }
  }

  /** Cases StatusFlags and Warnings; the client does not track the session. */
  method ParseOkFlags(c: Control, p: FieldParser, bs: bytes, begin: nat)
    returns (r: PayloadResult, c': Control, p': FieldParser, begin': nat)
    requires begin <= |bs| && Callable(c, p) && c.OkField? && (c.stage.StatusFlags? || c.stage.Warnings?)
    ensures FallsThrough(RunFields(PAYLOAD, c, p, bs[begin..]), bs, r, c', p', begin')
    ensures r == PayloadSuccess ==> c'.OkInfo?
  {
    c', p', begin' := c, p, begin;
    if c'.stage.StatusFlags? {
      r, p', begin' := TakeField(c', p', bs, begin');
      if r != PayloadSuccess {
        return;
      }
      c', p' := OkField(Warnings, c'.ok.(statusFlags := IntValue(p') % TWO_16)), NewFixed(2);
    }
    r, p', begin' := TakeField(c', p', bs, begin');
    if r == PayloadSuccess {
      c', p' := OkInfo(c'.ok.(warnings := IntValue(p') % TWO_16)), RestP([]);
    }
  }

  /** OK_Packet::parser, for either header. */
  method ParseOk(c: Control, p: FieldParser, bs: bytes, begin: nat, isFinal: bool)
    returns (r: PayloadResult, c': Control, p': FieldParser, begin': nat, v: Value)
    requires begin <= |bs| && Callable(c, p) && FamilyOf(c) == OkOrEof
    ensures Reports(RunFields(PAYLOAD, c, p, bs[begin..]), isFinal, bs, r, c', p', begin', v)
  {
    c', p', begin', v := c, p, begin, ColumnCount(0);
    if c'.OkHeader? || (c'.OkField? && (c'.stage.AffectedRows? || c'.stage.LastInsertId?)) {
      r, c', p', begin' := ParseOkCounts(c', p', bs, begin');
      if r != PayloadSuccess {
        return;
      }
    }
    if c'.OkField? {
      r, c', p', begin' := ParseOkFlags(c', p', bs, begin');
      if r != PayloadSuccess {
        return;
      }
    }
    // case Info
    ScanRest(p'.content, bs[begin'..]);
    p', begin' := RestP(p'.content + bs[begin'..]), |bs|;
    v := Ok(c'.ok.(info := p'.content));
    r := if isFinal then PayloadSuccess else PayloadNeedMore;
  }

  // ---- ColumnCount_Packet ----

  /** ColumnCount_Packet::parser. */
  method ParseCount(c: Control, p: FieldParser, bs: bytes, begin: nat)
    returns (r: PayloadResult, c': Control, p': FieldParser, begin': nat, v: Value)
    requires begin <= |bs| && Callable(c, p) && c == Count
    ensures Reports(RunFields(PAYLOAD, c, p, bs[begin..]), false, bs, r, c', p', begin', v)
  {
    c' := c;
    r, p', begin' := TakeField(c, p, bs, begin);
    v := ColumnCount(IntValue(p'));
  }

  // ---- ColumnDefinition41_Packet ----

  /** The run of a definition goes on with a field. */
  ghost predicate ColumnAt(run: MyRun, stage: ColumnStage, d: ColumnDef, p: FieldParser, bs: bytes, begin: nat) {
    begin <= |bs| && Callable(Column(stage, d), p) && run == RunFields(PAYLOAD, Column(stage, d), p, bs[begin..])
  }

  /** The call of the parser in a case of the switch; what the case stores and where it goes is up to the case. */
  method TakeColumnField(stage: ColumnStage, d: ColumnDef, p: FieldParser, bs: bytes, begin: nat, ghost run: MyRun)
    returns (r: PayloadResult, p': FieldParser, begin': nat)
    requires ColumnAt(run, stage, d, p, bs, begin)
    ensures begin <= begin' <= |bs|
    ensures if r == PayloadSuccess
            then begin < begin' && run == RunNext(PAYLOAD, StoreColumn(stage, d, p'), bs[begin'..])
            else Stopped(run, r, bs, Column(stage, d), p', begin')
  {
    r, p', begin' := TakeField(Column(stage, d), p, bs, begin);
  }

  /** A case of the switch that has stored its field leads to the next one. */
  lemma NextColumnField(stage: ColumnStage, d: ColumnDef, p: FieldParser, bs: bytes, begin: nat, run: MyRun)
    requires begin <= |bs| && run == RunNext(PAYLOAD, StoreColumn(stage, d, p), bs[begin..])
    ensures match StoreColumn(stage, d, p)
            case Go(c) => c.Column? && ColumnAt(run, c.column, c.def, Start(c), bs, begin)
            case Yield(v) => stage == Unused && v == Definition(d) && run == Yielded(v, bs[begin..])
            case Reject(e) => e == PayloadMalformed && run == Rejected(e)
  {
  }

  /** The names, from Catalog to OrgName: a case stores what its field was, and falls through to the next case. */
  method NameCase(stage: ColumnStage, def: ColumnDef, p: FieldParser)
    returns (ok: bool, stage': ColumnStage, d: ColumnDef, p': FieldParser)
    requires stage in {Catalog, Schema, Table, OrgTable, Name, OrgName}
    ensures StoreColumn(stage, def, p) == if ok then Go(Column(stage', d)) else Reject(PayloadMalformed)
    ensures ok ==> p' == Start(Column(stage', d))
  {
    ok, stage', d, p' := true, stage, def, p;
    match stage
    case Catalog =>
      if Text(p) == DEF {
        stage', p' := Schema, StringP(NEW_SKIP);
      } else {
        ok := false;
      }
    case Schema => stage', p' := Table, StringP(NEW_SKIP);
    case Table => stage', p' := OrgTable, StringP(NEW_SKIP);
    case OrgTable => stage', p' := Name, StringP(NEW_STRING);
    case Name => stage', d, p' := OrgName, d.(name := Text(p)), StringP(NEW_SKIP);
    case OrgName => stage', p' := LengthOfFixedLengthFields, NewFixed(1);
  }

  /** The numbers, from LengthOfFixedLengthFields to Decimals. */
  method NumberCase(stage: ColumnStage, def: ColumnDef, p: FieldParser)
    returns (ok: bool, stage': ColumnStage, d: ColumnDef, p': FieldParser)
    requires stage in {LengthOfFixedLengthFields, CharacterSet, ColumnLength, Type, Flags, Decimals}
    ensures StoreColumn(stage, def, p) == if ok then Go(Column(stage', d)) else Reject(PayloadMalformed)
    ensures ok ==> p' == Start(Column(stage', d))
  {
    ok, stage', d, p' := true, stage, def, p;
    match stage
    case LengthOfFixedLengthFields =>
      if IntValue(p) == 0x0c {
        stage', p' := CharacterSet, NewFixed(2);
      } else {
        ok := false;
      }
    case CharacterSet => stage', d, p' := ColumnLength, d.(characterSet := IntValue(p) % TWO_16), NewFixed(4);
    case ColumnLength => stage', d, p' := Type, d.(columnLength := IntValue(p) % TWO_32), NewFixed(1);
    case Type => stage', d, p' := Flags, d.(kind := IntValue(p) % 256), NewFixed(2);
    case Flags => stage', d, p' := Decimals, d.(flags := IntValue(p) % TWO_16), NewFixed(1);
    case Decimals => stage', d, p' := Unused, d.(decimals := IntValue(p) % 256), NewFixed(2);
  }

  /** One case of the switch, with the call of its parser. */
  method ColumnCase(stage: ColumnStage, def: ColumnDef, p: FieldParser, bs: bytes, begin: nat, ghost run: MyRun)
    returns (r: PayloadResult, stage': ColumnStage, d: ColumnDef, p': FieldParser, begin': nat)
    requires stage != Unused && ColumnAt(run, stage, def, p, bs, begin)
    ensures begin' <= |bs|
    ensures if r == PayloadSuccess then begin < begin' && ColumnAt(run, stage', d, p', bs, begin')
            else Stopped(run, r, bs, Column(stage', d), p', begin')
  {
    stage', d := stage, def;
    r, p', begin' := TakeColumnField(stage, def, p, bs, begin, run);
    if r != PayloadSuccess {
      return;
    }
    NextColumnField(stage, def, p', bs, begin', run);
    var ok;
    if stage in {Catalog, Schema, Table, OrgTable, Name, OrgName} {
      ok, stage', d, p' := NameCase(stage, def, p');
    } else {
      ok, stage', d, p' := NumberCase(stage, def, p');
    }
    r := if ok then PayloadSuccess else PayloadMalformed;
  }

  /** ColumnDefinition41_Packet::parser: the cases of its switch from a stage on. */
  method ParseColumn(c: Control, p: FieldParser, bs: bytes, begin: nat)
    returns (r: PayloadResult, c': Control, p': FieldParser, begin': nat, v: Value)
    requires begin <= |bs| && Callable(c, p) && c.Column?
    ensures Reports(RunFields(PAYLOAD, c, p, bs[begin..]), false, bs, r, c', p', begin', v)
  {
    ghost var run := RunFields(PAYLOAD, c, p, bs[begin..]);
    var stage, d := c.column, c.def;
    c', p', begin', v := c, p, begin, ColumnCount(0);
    while stage != Unused
      invariant ColumnAt(run, stage, d, p', bs, begin')
      decreases |bs| - begin'
    {
      r, stage, d, p', begin' := ColumnCase(stage, d, p', bs, begin', run);
      if r != PayloadSuccess {
        c' := Column(stage, d);
        return;
      }
    }
    r, p', begin' := TakeColumnField(stage, d, p', bs, begin', run);
    c', v := Column(stage, d), Definition(d);
    if r == PayloadSuccess {
      NextColumnField(stage, d, p', bs, begin', run);
    }
  }

  /** Resultset_Packet::parser: one column, NULL or a string, and the operator calls itself. */
  method ParseRow(c: Control, p: FieldParser, bs: bytes, begin: nat)
    returns (r: PayloadResult, c': Control, p': FieldParser, begin': nat, v: Value)
    requires begin <= |bs| && Callable(c, p) && c.RowCells?
    ensures Reports(RunFields(PAYLOAD, c, p, bs[begin..]), false, bs, r, c', p', begin', v)
    decreases |bs| - begin
  {
    c', p', begin', v := c, p, begin, RowData(c.cells);
    if !p.guessed && begin == |bs| {
      r := PayloadNeedMore;
      return;
    }
    if !p.guessed && bs[begin] == 0xfb {
      Following(bs, begin);
      r, p', begin' := PayloadSuccess, NullP, begin + 1;
    } else {
      var s;
      r, s, begin' := ParseStr(p.s, bs, begin);
      p' := CellP(true, s);
      GuessString(p, bs[begin..]);
    }
    FieldTurn(c, p, bs, begin, r, p', begin');
    if r == PayloadSuccess {
      AdvanceReady(c, p');
      var next := StoreCell(c.n, c.cells, if p'.NullP? then None else Some(Text(p')));
      match next
      case Go(control) => r, c', p', begin', v := ParseRow(control, Start(control), bs, begin');
      case Yield(value) => v := value;
    }
  }

  /** A column that is not NULL is a string. */
  lemma GuessString(p: FieldParser, bs: bytes)
    requires p.CellP? && (p.guessed || (bs != [] && bs[0] != 0xfb))
    ensures ScanField(FieldStep, p, bs) ==
            match ScanField(StrStep, p.s, bs)
            case Partial(q) => Partial(CellP(true, q))
            case Field(q, rest) => Field(CellP(true, q), rest)
            case Fault => Fault
  {
    LiftCell(p.s, bs);
    assert !p.guessed ==> ScanField(FieldStep, p, bs) == ScanField(FieldStep, CellP(true, p.s), bs);
  }

  lemma {:induction false} ScanResumes(p: FieldParser, q: FieldParser, bs: bytes)
    requires Resumes(p, q)
    ensures ScanField(FieldStep, p, bs).Partial? ==> Resumes(ScanField(FieldStep, p, bs).p, q)
    ensures p.RestP? ==> ScanField(FieldStep, p, bs).Partial?
    decreases |bs|
  {
    if bs != [] && FieldStep(p, bs[0]).Open? {
      ScanResumes(FieldStep(p, bs[0]).p, q, bs[1..]);
    }
  }

  /** A run stays within its packet, and yields a value of it; only ERR and OK packets end by the end of the payload. */
  lemma {:induction false} RunFamily(c: Control, p: FieldParser, bs: bytes)
    requires Callable(c, p)
    ensures match RunFields(PAYLOAD, c, p, bs)
            case Pending(c', p') => Callable(c', p') && FamilyOf(c') == FamilyOf(c)
            case Yielded(v, _) => Yields(FamilyOf(c), v) && !v.Err? && !v.Ok?
            case Rejected(e) => e in {PayloadMalformed, PayloadMalformedHeader}
    decreases |bs|
  {
    ScanResumes(p, Start(c), bs);
    assert c.ErrorMessage? || c.OkInfo? ==> p.RestP?;
    match ScanField(FieldStep, p, bs)
    case Field(q, rest) =>
      AdvanceReady(c, q);
      if Advance(c, q).Go? {
        RunFamily(Advance(c, q).c, Start(Advance(c, q).c), rest);
      }
    case _ =>
  }

  lemma EndFamily(c: Control, p: FieldParser)
    ensures match AtEnd(c, p)
            case Some(v) => Yields(FamilyOf(c), v) && (v.Err? || v.Ok?)
            case None => true
  {
  }
}
