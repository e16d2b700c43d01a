/**
 The bodies of PostgreSQL backend messages (postgresql/detail/msg/).

 `BODY` says field by field what a body is; the `...OnBody` methods are the
 source's on_body functions, and each is proved to stop where the machine stops, in
 the machine's state.
 */
module PgMessages {
  import opened Bytes
  import opened Machine
  import opened PgFields

  datatype RowDesc = RowDesc(
    fieldName: bytes, tableId: nat, attribute: nat, typeId: nat,
    typeSize: int, modifier: nat, format: nat)

  type Cell = Option<bytes>

  type Row = seq<Cell>

  datatype DescStage = Name | Table | Attribute | Type | Size | Modifier | Format

  /** Which field of which message is being read, with what is decoded so far. */
  datatype Control =
    | DescCount
    | DescField(desc: seq<RowDesc>, idx: nat, stage: DescStage)
    | RowCount(data: Row)
    | CellLength(data: Row, idx: nat)
    | CellBytes(data: Row, idx: nat, len: nat)
    | ErrType(ec: Option<bytes>)
    | ErrCode(ec: Option<bytes>)
    | ErrText(ec: Option<bytes>)
    | NoticeType
    | NoticeText
    | CommandTag
    | ReadyStatus
    | ParamName
    | ParamValue
    | KeyProcess
    | KeySecret(processId: nat)
    | AuthMethod
    | AuthSalt
    | AuthMechanism
    | NoFields

  /** What an authentication message asks for; the salt is kept as it came. */
  datatype AuthRequest = Method(code: nat) | Md5(salt: bytes) | Sasl(mechanism: bytes)

  datatype Value =
    | Description(desc: seq<RowDesc>)
    | DataRow(row: Row)
    | Error(ec: Option<bytes>)
    | Notice
    | Completed(tag: bytes)
    | Ready(status: byte)
    | Parameter
    | KeyData(processId: nat, secretKey: nat)
    | Asked(request: AuthRequest)
    | Empty

  /** The conversion of a uint16 to the int16 member data_type_size. */
  function ToInt16(n: nat): int
    requires n < TWO_16
  {
    if n < 0x8000 then n else n - TWO_16
  }

  function Start(c: Control): FieldParser {
    match c
    case DescCount => NewInteger(2)
    case DescField(_, _, stage) =>
      (match stage
       case Name => StringP([])
       case Table => NewInteger(4)
       case Attribute => NewInteger(2)
       case Type => NewInteger(4)
       case Size => NewInteger(2)
       case Modifier => NewInteger(4)
       case Format => NewInteger(2))
    case RowCount(_) => NewInteger(2)
    case CellLength(_, _) => NewInteger(4)
    case CellBytes(_, _, len) => BytesP(len, [])
    case ErrType(_) => ByteP(0)
    case ErrCode(_) => ArrayP(6, [])
    case ErrText(_) => SkipP(0)
    case NoticeType => ByteP(0)
    case NoticeText => SkipP(0)
    case CommandTag => StringP([])
    case ReadyStatus => ByteP(0)
    case ParamName => SkipP(0)
    case ParamValue => SkipP(0)
    case KeyProcess => NewInteger(4)
    case KeySecret(_) => NewInteger(4)
    case AuthMethod => NewInteger(4)
    case AuthSalt => NewInteger(4)
    case AuthMechanism => StringP([])
    case NoFields => NothingP
  }

  function U16(p: FieldParser): (n: nat)
    ensures n < TWO_16
  {
    if p.IntegerP? && |p.mem| == 2 then FromBe16(p.mem) else 0
  }

  function U32(p: FieldParser): (n: nat)
    ensures n < TWO_32
  {
    if p.IntegerP? && |p.mem| == 4 then FromBe32(p.mem) else 0
  }

  type PgNext = Next<Control, Value, ParseResult>

  /** A description field is stored and the next one starts, in the order of the switch of row_description. */
  function StoreDesc(desc: seq<RowDesc>, idx: nat, stage: DescStage, p: FieldParser): PgNext
    requires idx < |desc|
  {
    var d := desc[idx];
    match stage
    case Name =>
      Go(DescField(desc[idx := d.(fieldName := if p.StringP? then p.result else [])], idx, Table))
    case Table => Go(DescField(desc[idx := d.(tableId := U32(p))], idx, Attribute))
    case Attribute => Go(DescField(desc[idx := d.(attribute := U16(p))], idx, Type))
    case Type => Go(DescField(desc[idx := d.(typeId := U32(p))], idx, Size))
    case Size => Go(DescField(desc[idx := d.(typeSize := ToInt16(U16(p)))], idx, Modifier))
    case Modifier => Go(DescField(desc[idx := d.(modifier := U32(p))], idx, Format))
    case Format =>
      var desc' := desc[idx := d.(format := U16(p))];
      if idx + 1 < |desc| then Go(DescField(desc', idx + 1, Name)) else Yield(Description(desc'))
  }

  /** A cell is stored; the row ends after its last cell. */
  function StoreCell(data: Row, idx: nat, cell: Cell): PgNext
    requires idx < |data|
  {
    var data' := data[idx := cell];
    if idx + 1 < |data| then Go(CellLength(data', idx + 1)) else Yield(DataRow(data'))
  }

  const BLANK: RowDesc := RowDesc([], 0, 0, 0, 0, 0, 0)

  const NULL_LENGTH: nat := TWO_32 - 1

  const MD5_PASSWORD: nat := 5
  const SASL: nat := 10

  /** The authentication methods without further fields: none, Kerberos V5, cleartext, GSS and SSPI. */
  predicate PlainMethod(code: nat) {
    code in {0, 2, 3, 7, 9}
  }

  function StoreMethod(code: nat): PgNext {
    if PlainMethod(code) then Yield(Asked(Method(code)))
    else if code == MD5_PASSWORD then Go(AuthSalt)
    else if code == SASL then Go(AuthMechanism)
    else Reject(ParseMalformed)
  }

  /** In a transaction, in a failed one, or idle. */
  predicate StatusOk(status: byte) {
    status == 'T' as int || status == 'E' as int || status == 'I' as int
  }

  function Advance(c: Control, p: FieldParser): PgNext {
    match c
    case DescCount =>
      var n := U16(p);
      if n == 0 then Yield(Description([])) else Go(DescField(seq(n, _ => BLANK), 0, Name))
    case DescField(desc, idx, stage) =>
      if idx < |desc| then StoreDesc(desc, idx, stage, p) else Reject(ParseInternalError)
    case RowCount(data) =>
      if U16(p) != |data| then Reject(ParseMalformed)
      else if data == [] then Yield(DataRow(data))
      else Go(CellLength(data, 0))
    case CellLength(data, idx) =>
      if idx >= |data| then Reject(ParseInternalError)
      else if U32(p) == NULL_LENGTH then StoreCell(data, idx, None)
      else if U32(p) == 0 then StoreCell(data, idx, Some([]))
      else Go(CellBytes(data, idx, U32(p)))
    case CellBytes(data, idx, _) =>
      if idx >= |data| then Reject(ParseInternalError)
      else StoreCell(data, idx, Some(if p.BytesP? then p.content else []))
    case ErrType(ec) =>
      if p == ByteP('C' as int) then Go(ErrCode(ec)) else if p != ByteP(0) then Go(ErrText(ec)) else Yield(Error(ec))
    case ErrCode(ec) =>
      Go(ErrType(if p.ArrayP? && |p.chars| > 0 then Some(p.chars[..|p.chars| - 1]) else ec))
    case ErrText(ec) => Go(ErrType(ec))
    case NoticeType => if p == ByteP(0) then Yield(Notice) else Go(NoticeText)
    case NoticeText => Go(NoticeType)
    case CommandTag => Yield(Completed(if p.StringP? then p.result else []))
    case ReadyStatus =>
      if p.ByteP? && StatusOk(p.value) then Yield(Ready(p.value)) else Reject(ParseMalformed)
    case ParamName => Go(ParamValue)
    case ParamValue => Yield(Parameter)
    case KeyProcess => Go(KeySecret(U32(p)))
    case KeySecret(processId) => Yield(KeyData(processId, U32(p)))
    case AuthMethod => StoreMethod(U32(p))
    case AuthSalt => Yield(Asked(Md5(if p.IntegerP? then p.mem else [])))
    case AuthMechanism => Yield(Asked(Sasl(if p.StringP? then p.result else [])))
    case NoFields => Reject(ParseInternalError)
  }

  function AtEnd(c: Control, p: FieldParser): Option<Value> {
    if c.NoFields? then Some(Empty) else None
  }

  const BODY: Machine<Control, FieldParser, Value, ParseResult> :=
    Machine(FieldStep, Start, Advance, ParseMalformedTrailingData, AtEnd)

  /** The states on_body can be called in: the variant holds the parser of the current field, and it wants bytes. */
  predicate Callable(c: Control, p: FieldParser) {
    && SameKind(Start(c), p)
    && (c.NoFields? || Unfilled(p))
    && (c.DescField? ==> c.idx < |c.desc| < TWO_16)
    && (c.RowCount? ==> |c.data| < TWO_16)
    && (c.CellLength? || c.CellBytes? ==> c.idx < |c.data| < TWO_16)
    && (c.CellBytes? ==> 0 < c.len)
  }

  /** The next field starts in such a state. */
  lemma AdvanceReady(c: Control, p: FieldParser, q: FieldParser)
    requires Callable(c, p) && Advance(c, q).Go?
    ensures Callable(Advance(c, q).c, Start(Advance(c, q).c))
    ensures c.DescField? ==> Advance(c, q).c.DescField?
    ensures c.CellLength? || c.CellBytes? ==> Advance(c, q).c.CellLength? || Advance(c, q).c.CellBytes?
  {
  }

  type PgRun = Run<Control, FieldParser, Value, ParseResult>

  /** make_success: a message that is complete before its bytes are used up has trailing data. */
  function MakeSuccess(begin: nat, end: nat): ParseResult {
    if begin == end then ParseSuccess else ParseMalformedTrailingData
  }

  /** What on_body returns, and leaves behind, for a run over the bytes it was given. */
  predicate Reports(run: PgRun, r: ParseResult, c: Control, p: FieldParser, v: Value) {
    match run
    case Pending(c', p') =>
      if c'.NoFields? then r == ParseSuccess && v == Empty
      else r == ParseNeedMore && c == c' && p == p' && Callable(c, p)
    case Yielded(v', rest) => r == MakeSuccess(0, |rest|) && (rest == [] ==> v == v')
    case Rejected(e) => r == e && r != ParseSuccess && r != ParseNeedMore
  }

  /** One description field, parsed by the parser its stage keeps in the variant. */
  method ParseDescField(stage: DescStage, p: FieldParser, bs: bytes, begin: nat)
    returns (r: ParseResult, p': FieldParser, begin': nat)
    requires begin <= |bs| && Unfilled(p) && SameKind(Start(DescField([], 0, stage)), p)
    ensures Scanned(p, bs, begin, r, p', begin')
  {
    match stage
    case Name => r, p', begin' := ParseString(p, bs, begin);
    case _ => r, p', begin' := ParseInteger(p, bs, begin);
  }

  /** One call of a field parser unfolds the run by one field. */
  lemma FieldTurn(c: Control, p: FieldParser, bs: bytes, begin: nat, r: ParseResult, p': FieldParser, begin': nat)
    requires begin <= |bs| && Callable(c, p) && Scanned(p, bs, begin, r, p', begin')
    ensures r == ParseSuccess || r == ParseNeedMore
    ensures r == ParseNeedMore ==> RunFields(BODY, c, p, bs[begin..]) == Pending(c, p') && Callable(c, p')
    ensures r == ParseSuccess ==>
              RunFields(BODY, c, p, bs[begin..]) == RunNext(BODY, Advance(c, p'), bs[begin'..])
  {
  }

  /** row_description::on_body, cases 1 to 7: the fields of one column after another. */
  method DescFields(c: Control, p: FieldParser, bs: bytes, start: nat)
    returns (r: ParseResult, c': Control, p': FieldParser, v: Value)
    requires start <= |bs| && c.DescField? && Callable(c, p)
    ensures Reports(RunFields(BODY, c, p, bs[start..]), r, c', p', v)
  {
    var begin := start;
    c', p', v := c, p, Empty;
    while true
      invariant begin <= |bs| && c'.DescField? && Callable(c', p')
      invariant RunFields(BODY, c, p, bs[start..]) == RunFields(BODY, c', p', bs[begin..])
      decreases |bs| - begin
    {
      ghost var begin0, p0 := begin, p';
      r, p', begin := ParseDescField(c'.stage, p', bs, begin);
      FieldTurn(c', p0, bs, begin0, r, p', begin);
      if r != ParseSuccess {
        return;
      }
      var next := StoreDesc(c'.desc, c'.idx, c'.stage, p');
      if next.Go? {
        AdvanceReady(c', p0, p');
      }
      match next
      case Go(control) => c', p' := control, Start(control);
      case Yield(value) =>
        r, v := MakeSuccess(begin, |bs|), value;
        return;
    }
  }

  /** row_description::on_body. */
  method RowDescriptionOnBody(c: Control, p: FieldParser, bs: bytes)
    returns (r: ParseResult, c': Control, p': FieldParser, v: Value)
    requires (c.DescCount? || c.DescField?) && Callable(c, p)
    ensures Reports(RunFields(BODY, c, p, bs), r, c', p', v)
  {
    var begin: nat := 0;
    c', p', v := c, p, Empty;
    assert bs[0..] == bs;
    if c.DescCount? {
      r, p', begin := ParseInteger(p, bs, 0);
      FieldTurn(c, p, bs, 0, r, p', begin);
      if r != ParseSuccess {
        return;
      }
      var sz := U16(p');
      if sz == 0 {
        r, v := MakeSuccess(begin, |bs|), Description([]);
        return;
      }
      c' := DescField(seq(sz, _ => BLANK), 0, Name);
      p' := Start(c');
    }
    r, c', p', v := DescFields(c', p', bs, begin);
  }

  /** data_row::on_body, cases 1 and 2; the two ifs are the fall-through cases of its switch. */
  method RowCells(c: Control, p: FieldParser, bs: bytes, start: nat)
    returns (r: ParseResult, c': Control, p': FieldParser, v: Value)
    requires start <= |bs| && (c.CellLength? || c.CellBytes?) && Callable(c, p)
    ensures Reports(RunFields(BODY, c, p, bs[start..]), r, c', p', v)
  {
    var begin := start;
    c', p', v := c, p, Empty;
    while true
      invariant begin <= |bs| && (c'.CellLength? || c'.CellBytes?) && Callable(c', p')
      invariant RunFields(BODY, c, p, bs[start..]) == RunFields(BODY, c', p', bs[begin..])
      decreases |bs| - begin
    {
      ghost var begin0, p0 := begin, p';
      ghost var q: FieldParser;
      var next: PgNext;
      if c'.CellLength? {
        r, p', begin := ParseInteger(p', bs, begin);
        FieldTurn(c', p0, bs, begin0, r, p', begin);
        q := p';
        if r != ParseSuccess {
          return;
        }
        var len := U32(p');
        next := if len != NULL_LENGTH then Go(CellBytes(c'.data, c'.idx, len)) else StoreCell(c'.data, c'.idx, None);
        if len == 0 {
          // an empty cell falls through with a parser that is full already
          r, p', begin := ParseBytes(BytesP(0, []), bs, begin);
          next := StoreCell(c'.data, c'.idx, Some(p'.content));
        }
      } else {
        r, p', begin := ParseBytes(p', bs, begin);
        FieldTurn(c', p0, bs, begin0, r, p', begin);
        q := p';
        if r != ParseSuccess {
          return;
        }
        next := StoreCell(c'.data, c'.idx, Some(p'.content));
      }
      if next.Go? {
        AdvanceReady(c', p0, q);
      }
      match next
      case Go(control) => c', p' := control, Start(control);
      case Yield(value) =>
        r, v := MakeSuccess(begin, |bs|), value;
        return;
    }
  }

  /** data_row::on_body. */
  method DataRowOnBody(c: Control, p: FieldParser, bs: bytes)
    returns (r: ParseResult, c': Control, p': FieldParser, v: Value)
    requires (c.RowCount? || c.CellLength? || c.CellBytes?) && Callable(c, p)
    ensures Reports(RunFields(BODY, c, p, bs), r, c', p', v)
  {
    var begin: nat := 0;
    c', p', v := c, p, Empty;
    assert bs[0..] == bs;
    if c.RowCount? {
      r, p', begin := ParseInteger(p, bs, 0);
      FieldTurn(c, p, bs, 0, r, p', begin);
      if r != ParseSuccess {
        return;
      }
      if U16(p') != |c.data| {
        r := ParseMalformed;
        return;
      }
      if c.data == [] {
        r, v := MakeSuccess(begin, |bs|), DataRow(c.data);
        return;
      }
      c' := CellLength(c.data, 0);
      p' := NewInteger(4);
    }
    r, c', p', v := RowCells(c', p', bs, begin);
  }

  /** error_response::on_body: reads a field type, then the field, and calls itself again. */
  method ErrorOnBody(c: Control, p: FieldParser, bs: bytes, begin: nat)
    returns (r: ParseResult, c': Control, p': FieldParser, v: Value)
    requires begin <= |bs| && (c.ErrType? || c.ErrCode? || c.ErrText?) && Callable(c, p)
    ensures Reports(RunFields(BODY, c, p, bs[begin..]), r, c', p', v)
    decreases |bs| - begin
  {
    var begin': nat;
    c', v := c, Empty;
    if c.ErrType? {
      r, p', begin' := ParseByte(p, bs, begin);
    } else if c.ErrCode? {
      r, p', begin' := ParseArray(p, bs, begin);
    } else {
      r, p', begin' := ParseString(p, bs, begin);
    }
    FieldTurn(c, p, bs, begin, r, p', begin');
    if r != ParseSuccess {
      return;
    }
    if c.ErrCode? {
      c' := ErrType(Some(p'.chars[..|p'.chars| - 1]));
    } else if c.ErrText? {
      c' := ErrType(c.ec);
    } else if p'.value == 'C' as int {
      c' := ErrCode(c.ec);
    } else if p'.value != 0 {
      c' := ErrText(c.ec);
    } else {
      r, v := MakeSuccess(begin', |bs|), Error(c.ec);
      return;
    }
    r, c', p', v := ErrorOnBody(c', Start(c'), bs, begin');
  }

  /** notice_response::on_body. */
  method NoticeOnBody(c: Control, p: FieldParser, bs: bytes, begin: nat)
    returns (r: ParseResult, c': Control, p': FieldParser, v: Value)
    requires begin <= |bs| && (c.NoticeType? || c.NoticeText?) && Callable(c, p)
    ensures Reports(RunFields(BODY, c, p, bs[begin..]), r, c', p', v)
    decreases |bs| - begin
  {
    var begin' := begin;
    c', p', v := c, p, Empty;
    if c.NoticeType? {
      r, p', begin' := ParseByte(p, bs, begin);
      FieldTurn(c, p, bs, begin, r, p', begin');
      if r != ParseSuccess {
        return;
      }
      if p'.value == 0 {
        r, v := MakeSuccess(begin', |bs|), Notice;
        return;
      }
      c', p' := NoticeText, SkipP(0);
    }
    ghost var p1, begin1 := p', begin';
    r, p', begin' := ParseString(p', bs, begin');
    FieldTurn(c', p1, bs, begin1, r, p', begin');
    if r == ParseSuccess {
      r, c', p', v := NoticeOnBody(NoticeType, ByteP(0), bs, begin');
    }
  }

  /** command_complete::on_body, ready_for_query::on_body and parameter_status::on_body. */
  method SmallOnBody(c: Control, p: FieldParser, bs: bytes, begin: nat)
    returns (r: ParseResult, c': Control, p': FieldParser, v: Value)
    requires begin <= |bs| && (c.CommandTag? || c.ReadyStatus? || c.ParamName? || c.ParamValue?) && Callable(c, p)
    ensures Reports(RunFields(BODY, c, p, bs[begin..]), r, c', p', v)
    decreases |bs| - begin
  {
    var begin': nat;
    c', v := c, Empty;
    if c.ReadyStatus? {
      r, p', begin' := ParseByte(p, bs, begin);
    } else {
      r, p', begin' := ParseString(p, bs, begin);
    }
    FieldTurn(c, p, bs, begin, r, p', begin');
    if r != ParseSuccess {
      return;
    }
    match c
    case CommandTag => r, v := MakeSuccess(begin', |bs|), Completed(p'.result);
    case ReadyStatus =>
      var status := p'.value;
      if status == 'T' as int || status == 'E' as int || status == 'I' as int {
        r, v := MakeSuccess(begin', |bs|), Ready(status);
      } else {
        r := ParseMalformed;
      }
    case ParamName => r, c', p', v := SmallOnBody(ParamValue, SkipP(0), bs, begin');
    case ParamValue => r, v := MakeSuccess(begin', |bs|), Parameter;
  }

  /** backend_key_data::on_body: reads an integer, and calls itself for the second one. */
  method KeyOnBody(c: Control, p: FieldParser, bs: bytes, begin: nat)
    returns (r: ParseResult, c': Control, p': FieldParser, v: Value)
    requires begin <= |bs| && (c.KeyProcess? || c.KeySecret?) && Callable(c, p)
    ensures Reports(RunFields(BODY, c, p, bs[begin..]), r, c', p', v)
    decreases |bs| - begin
  {
    var begin': nat;
    c', v := c, Empty;
    r, p', begin' := ParseInteger(p, bs, begin);
    FieldTurn(c, p, bs, begin, r, p', begin');
    if r == ParseSuccess {
      if c.KeyProcess? {
        r, c', p', v := KeyOnBody(KeySecret(U32(p')), NewInteger(4), bs, begin');
      } else {
        r, v := MakeSuccess(begin', |bs|), KeyData(c.processId, U32(p'));
      }
    }
  }

  /** The second field of authentication::on_body: a salt or the name of a mechanism. */
  method AuthDetailOnBody(c: Control, p: FieldParser, bs: bytes, begin: nat)
    returns (r: ParseResult, c': Control, p': FieldParser, v: Value)
    requires begin <= |bs| && (c.AuthSalt? || c.AuthMechanism?) && Callable(c, p)
    ensures Reports(RunFields(BODY, c, p, bs[begin..]), r, c', p', v)
  {
    var begin': nat;
    c', v := c, Empty;
    if c.AuthSalt? {
      r, p', begin' := ParseInteger(p, bs, begin);
      FieldTurn(c, p, bs, begin, r, p', begin');
      if r == ParseSuccess {
        r, v := MakeSuccess(begin', |bs|), Asked(Md5(p'.mem));
      }
    } else {
      r, p', begin' := ParseString(p, bs, begin);
      FieldTurn(c, p, bs, begin, r, p', begin');
      if r == ParseSuccess {
        r, v := MakeSuccess(begin', |bs|), Asked(Sasl(p'.result));
      }
    }
  }

  /** authentication::on_body, once the method is known. */
  method AuthMethodOnBody(p: FieldParser, bs: bytes, begin: nat)
    returns (r: ParseResult, c': Control, p': FieldParser, v: Value)
    requires begin <= |bs|
    ensures Reports(RunNext(BODY, Advance(AuthMethod, p), bs[begin..]), r, c', p', v)
  {
    c', p', v := AuthMethod, p, Empty;
    var code := U32(p);
    if code == MD5_PASSWORD {
      r, c', p', v := AuthDetailOnBody(AuthSalt, NewInteger(4), bs, begin);
    } else if code == SASL {
      r, c', p', v := AuthDetailOnBody(AuthMechanism, StringP([]), bs, begin);
    } else if PlainMethod(code) {
      r, v := MakeSuccess(begin, |bs|), Asked(Method(code));
    } else {
      r := ParseMalformed;
    }
  }

  /** authentication::on_body. */
  method AuthOnBody(c: Control, p: FieldParser, bs: bytes, begin: nat)
    returns (r: ParseResult, c': Control, p': FieldParser, v: Value)
    requires begin <= |bs| && c.AuthMethod? && Callable(c, p)
    ensures Reports(RunFields(BODY, c, p, bs[begin..]), r, c', p', v)
  {
    var begin': nat;
    c', v := c, Empty;
    r, p', begin' := ParseInteger(p, bs, begin);
    FieldTurn(c, p, bs, begin, r, p', begin');
    if r == ParseSuccess {
      r, c', p', v := AuthMethodOnBody(p', bs, begin');
    }
  }

  /** The on_body of the message whose body parser is in the variant. */
  method OnBody(c: Control, p: FieldParser, bs: bytes)
    returns (r: ParseResult, c': Control, p': FieldParser, v: Value)
    requires Callable(c, p)
    ensures Reports(RunFields(BODY, c, p, bs), r, c', p', v)
  {
    assert bs[0..] == bs;
    if c.DescCount? || c.DescField? {
      r, c', p', v := RowDescriptionOnBody(c, p, bs);
    } else if c.RowCount? || c.CellLength? || c.CellBytes? {
      r, c', p', v := DataRowOnBody(c, p, bs);
    } else if c.ErrType? || c.ErrCode? || c.ErrText? {
      r, c', p', v := ErrorOnBody(c, p, bs, 0);
    } else if c.NoticeType? || c.NoticeText? {
      r, c', p', v := NoticeOnBody(c, p, bs, 0);
    } else if c.NoFields? {
      r, c', p', v := MakeSuccess(0, |bs|), c, p, Empty;
    } else if c.KeyProcess? || c.KeySecret? {
      r, c', p', v := KeyOnBody(c, p, bs, 0);
    } else if c.AuthMethod? {
      r, c', p', v := AuthOnBody(c, p, bs, 0);
    } else if c.AuthSalt? || c.AuthMechanism? {
      r, c', p', v := AuthDetailOnBody(c, p, bs, 0);
    } else {
      r, c', p', v := SmallOnBody(c, p, bs, 0);
    }
  }
}
