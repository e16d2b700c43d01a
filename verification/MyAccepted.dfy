/**
 Exactly which payloads the packet parsers accept, and as what: integers and lengths may have any width, and everything
 else is as the protocol lays it out.
 */
module MyAccepted {
  import opened Bytes
  import opened Machine
  import opened MyFields
  import opened MyPackets
  import opened MyCodec

  // ---- integers ----

  /** The bytes that follow a first byte. */
  function Width(first: byte): nat {
    if first == 0xfc then 2 else if first == 0xfd then 3 else if first == 0xfe then 8 else 0
  }

  /** A length-encoded integer of any width, and what the parser makes of it. */
  predicate IntBytes(e: bytes, n: nat) {
    && e != []
    && if e[0] < 251 then |e| == 1 && n == e[0]
       else Width(e[0]) > 0 && |e| == 1 + Width(e[0]) && n == Gathered(0, e[1..], 0)
  }

  /** The parser once it has read the integer. */
  function IntRead(e: bytes): LenInt
    requires e != []
  {
    if e[0] < 251 then LenInt(0, 0, e[0]) else LenInt(Width(e[0]), Width(e[0]), Gathered(0, e[1..], 0))
  }

  lemma IntAccepts(e: bytes, n: nat, rest: bytes)
    requires IntBytes(e, n)
    ensures ScanField(IntStep, NEW_INT, e + rest) == Field(IntRead(e), rest) && IntRead(e).result == n
  {
    assert e == [e[0]] + e[1..];
    if e[0] < 251 {
      assert (e + rest)[1..] == rest;
    } else {
      TaggedDecodes(e[0], e[1..], rest);
    }
  }

  lemma {:induction false} IntWants(i: LenInt, bs: bytes)
    requires i.target > 0 && i.digits < i.target && |bs| < i.target - i.digits
    ensures ScanField(IntStep, i, bs).Partial?
    decreases |bs|
  {
    if bs != [] {
      IntWants(LenInt(i.digits + 1, i.target, AddShifted(i.result, bs[0], i.digits)), bs[1..]);
    }
  }

  lemma IntTaken(bs: bytes) returns (e: bytes, rest: bytes)
    requires ScanField(IntStep, NEW_INT, bs).Field?
    ensures bs == e + rest && IntBytes(e, ScanField(IntStep, NEW_INT, bs).p.result)
    ensures ScanField(IntStep, NEW_INT, bs) == Field(IntRead(e), rest)
  {
    var k := if bs[0] < 251 then 1 else 1 + Width(bs[0]);
    if bs[0] >= 251 {
      var i := LenInt(0, Width(bs[0]), 0);
      assert Width(bs[0]) > 0 && ScanField(IntStep, NEW_INT, bs) == ScanField(IntStep, i, bs[1..]);
      if |bs| < k {
        IntWants(i, bs[1..]);
        assert false;
      }
    }
    e, rest := bs[..k], bs[k..];
    assert bs == e + rest;
    IntAccepts(e, if e[0] < 251 then e[0] else Gathered(0, e[1..], 0), rest);
  }

  // ---- strings ----

  lemma StrAccepts(s: LenStr, len: bytes, text: bytes, rest: bytes)
    requires s == NEW_STRING || s == NEW_SKIP
    requires IntBytes(len, |text|)
    ensures ScanField(StrStep, s, len + (text + rest)) ==
            Field(LenStr(IntRead(len), Some(|text|), Insert(s.c, text)), rest)
  {
    IntAccepts(len, |text|, text + rest);
    ScanLength(s, len + (text + rest));
    if text == [] {
      assert text + rest == rest;
    } else {
      ScanContent(s.(len := IntRead(len), target := Some(|text|)), text + rest);
      assert (text + rest)[..|text|] == text && (text + rest)[|text|..] == rest;
    }
  }

  lemma StrTaken(s: LenStr, bs: bytes) returns (len: bytes, text: bytes, rest: bytes)
    requires s == NEW_STRING || s == NEW_SKIP
    requires ScanField(StrStep, s, bs).Field?
    ensures bs == len + (text + rest) && IntBytes(len, |text|)
  {
    ScanLength(s, bs);
    var more;
    len, more := IntTaken(bs);
    var n := IntRead(len).result;
    if n > 0 {
      ScanContent(s.(len := IntRead(len), target := Some(n)), more);
    }
    text, rest := more[..n], more[n..];
    assert more == text + rest;
  }

  // ---- fixed integers ----

  lemma {:induction false} FixedWants(p: FieldParser, bs: bytes)
    requires p.FixedP? && p.digits < p.size && |bs| < p.size - p.digits
    ensures ScanField(FieldStep, p, bs).Partial?
    decreases |bs|
  {
    if bs != [] {
      FixedWants(FixedP(p.size, p.digits + 1, AddShifted(p.result, bs[0], p.digits)), bs[1..]);
    }
  }

  lemma FixedTaken(size: nat, bs: bytes) returns (n: nat, rest: bytes)
    requires size == 1 || size == 2 || size == 4
    requires ScanField(FieldStep, NewFixed(size), bs).Field?
    ensures n < Power(size) && bs == ToLe(n, size) + rest
    ensures ScanField(FieldStep, NewFixed(size), bs).rest == rest
    ensures var q := ScanField(FieldStep, NewFixed(size), bs).p;
            && IntValue(q) % TWO_32 == n && (size == 2 ==> IntValue(q) % TWO_16 == n)
            && (size == 1 ==> IntValue(q) % 256 == n && IntValue(q) == n)
  {
    if |bs| < size {
      FixedWants(NewFixed(size), bs);
      assert false;
    }
    var b := bs[..size];
    n, rest := FromLe(b), bs[size..];
    assert bs == b + rest;
    FromLeBound(b);
    LeInverse(b);
    Powers();
    var q := NumberField(n, size, rest);
  }

  // ---- rows ----

  /** A column of a row, its length in any width. */
  datatype AnyCell = AnyNull | AnyText(len: bytes, text: bytes)

  predicate CellOk(cell: AnyCell) {
    cell.AnyText? ==> IntBytes(cell.len, |cell.text|)
  }

  function CellBytes(cell: AnyCell): bytes {
    match cell
    case AnyNull => [0xfb]
    case AnyText(len, text) => len + text
  }

  function CellValue(cell: AnyCell): Cell {
    if cell.AnyNull? then None else Some(cell.text)
  }

  predicate RowOk(cells: seq<AnyCell>) {
    forall i :: 0 <= i < |cells| ==> CellOk(cells[i])
  }

  function RowBytes(cells: seq<AnyCell>): bytes {
    if cells == [] then [] else CellBytes(cells[0]) + RowBytes(cells[1..])
  }

  function RowValue(cells: seq<AnyCell>): (row: Row)
    ensures |row| == |cells|
  {
    if cells == [] then [] else [CellValue(cells[0])] + RowValue(cells[1..])
  }

  lemma CellAccepts(n: nat, done: Row, cell: AnyCell, rest: bytes)
    requires CellOk(cell)
    ensures RunFields(PAYLOAD, RowCells(n, done), CellP(false, NEW_STRING), CellBytes(cell) + rest) ==
            RunNext(PAYLOAD, StoreCell(n, done, CellValue(cell)), rest)
  {
    var bs := CellBytes(cell) + rest;
    match cell
    case AnyNull => assert bs[0] == 0xfb && bs[1..] == rest;
    case AnyText(len, text) =>
      Assoc(len, text, rest);
      assert bs[0] == len[0] != 0xfb;
      StrAccepts(NEW_STRING, len, text, rest);
      GuessString(CellP(false, NEW_STRING), bs);
      assert [] + text == text;
  }

  lemma CellTaken(n: nat, done: Row, bs: bytes) returns (cell: AnyCell, rest: bytes)
    requires RunFields(PAYLOAD, RowCells(n, done), CellP(false, NEW_STRING), bs).Yielded?
    ensures CellOk(cell) && bs == CellBytes(cell) + rest
  {
    if bs[0] == 0xfb {
      cell, rest := AnyNull, bs[1..];
      assert bs == [0xfb] + rest;
    } else {
      GuessString(CellP(false, NEW_STRING), bs);
      var len, text;
      len, text, rest := StrTaken(NEW_STRING, bs);
      cell := AnyText(len, text);
      Assoc(len, text, rest);
    }
  }

  lemma RowLayout(cells: seq<AnyCell>, rest: bytes)
    requires cells != []
    ensures RowBytes(cells) + rest == CellBytes(cells[0]) + (RowBytes(cells[1..]) + rest)
  {
    Assoc(CellBytes(cells[0]), RowBytes(cells[1..]), rest);
  }

  lemma NoCells(rest: bytes)
    ensures RowBytes([]) + rest == rest
  {
  }

  lemma {:induction false} RowAccepts(n: nat, done: Row, cells: seq<AnyCell>, rest: bytes)
    requires cells != [] && |done| + |cells| == n && RowOk(cells)
    ensures RunFields(PAYLOAD, RowCells(n, done), CellP(false, NEW_STRING), RowBytes(cells) + rest) ==
            Yielded(RowData(done + RowValue(cells)), rest)
    decreases |cells|
  {
    var value := CellValue(cells[0]);
    RowLayout(cells, rest);
    CellAccepts(n, done, cells[0], RowBytes(cells[1..]) + rest);
    assert done + RowValue(cells) == done + [value] + RowValue(cells[1..]);
    if |cells| > 1 {
      RowAccepts(n, done + [value], cells[1..], rest);
    } else {
      NoCells(rest);
      assert done + [value] + [] == done + [value];
    }
  }

  /** Whatever the row parser accepts is a row, of lengths of any width. */
  lemma {:induction false} RowTaken(n: nat, done: Row, bs: bytes) returns (cells: seq<AnyCell>, rest: bytes)
    requires |done| < n && RunFields(PAYLOAD, RowCells(n, done), CellP(false, NEW_STRING), bs).Yielded?
    ensures |done| + |cells| == n && RowOk(cells) && bs == RowBytes(cells) + rest
    decreases n - |done|
  {
    var cell, more := CellTaken(n, done, bs);
    CellAccepts(n, done, cell, more);
    var cells1: seq<AnyCell> := [];
    rest := more;
    if |done| + 1 < n {
      cells1, rest := RowTaken(n, done + [CellValue(cell)], more);
    } else {
      NoCells(rest);
    }
    cells := [cell] + cells1;
    assert cells[1..] == cells1;
    RowLayout(cells, rest);
  }

  // ---- column definitions ----

  /** A field of a definition: a name, its length in any width, or a number. */
  datatype AnyField = AnyName(len: bytes, text: bytes) | AnyNumber(n: nat)

  function SizeOf(stage: ColumnStage): nat {
    match stage
    case CharacterSet => 2
    case ColumnLength => 4
    case Flags => 2
    case Unused => 2
    case _ => 1
  }

  predicate FieldOk(stage: ColumnStage, f: AnyField) {
    if Named(stage) then
      f.AnyName? && IntBytes(f.len, |f.text|) && (stage == Catalog ==> f.text == ['d' as int, 'e' as int, 'f' as int])
    else f.AnyNumber? && f.n < Power(SizeOf(stage)) && (stage == LengthOfFixedLengthFields ==> f.n == 0x0c)
  }

  function FieldBytes(stage: ColumnStage, f: AnyField): bytes {
    match f
    case AnyName(len, text) => len + text
    case AnyNumber(n) => ToLe(n, SizeOf(stage))
  }

  /** What is kept of a field. */
  function Keeping(stage: ColumnStage, d: ColumnDef, f: AnyField): ColumnDef {
    match f
    case AnyName(_, text) => if stage == Name then d.(name := text) else d
    case AnyNumber(n) =>
      match stage
      case CharacterSet => d.(characterSet := n)
      case ColumnLength => d.(columnLength := n)
      case Type => d.(kind := n)
      case Flags => d.(flags := n)
      case Decimals => d.(decimals := n)
      case _ => d
  }

  function NextStage(stage: ColumnStage, d: ColumnDef): MyNext {
    match StageAfter(stage)
    case Some(next) => Go(Column(next, d))
    case None => Yield(Definition(d))
  }

  /** A parser that has read the name stores it. */
  lemma NameAccepts(stage: ColumnStage, d: ColumnDef, f: AnyField, rest: bytes)
    requires Named(stage) && FieldOk(stage, f)
    ensures RunFields(PAYLOAD, Column(stage, d), Start(Column(stage, d)), FieldBytes(stage, f) + rest) ==
            RunNext(PAYLOAD, NextStage(stage, Keeping(stage, d, f)), rest)
  {
    var q := NameScanned(stage == Catalog || stage == Name, f.len, f.text, rest);
    NameStores(stage, d, f, q);
    Turn(Column(stage, d), FieldBytes(stage, f), rest, q);
  }

  lemma NameScanned(kept: bool, len: bytes, text: bytes, rest: bytes) returns (q: FieldParser)
    requires IntBytes(len, |text|)
    ensures ScanField(FieldStep, StringP(if kept then NEW_STRING else NEW_SKIP), len + text + rest) == Field(q, rest)
    ensures q.StringP? && (kept ==> Text(q) == text)
  {
    var s := if kept then NEW_STRING else NEW_SKIP;
    Assoc(len, text, rest);
    StrAccepts(s, len, text, rest);
    LiftStr(s, len + text + rest);
    assert [] + text == text;
    q := StringP(LenStr(IntRead(len), Some(|text|), Insert(s.c, text)));
  }

  lemma NameStores(stage: ColumnStage, d: ColumnDef, f: AnyField, q: FieldParser)
    requires Named(stage) && FieldOk(stage, f) && q.StringP?
    requires stage == Catalog || stage == Name ==> Text(q) == f.text
    ensures StoreColumn(stage, d, q) == NextStage(stage, Keeping(stage, d, f))
  {
  }

  lemma NumberAccepts(stage: ColumnStage, d: ColumnDef, f: AnyField, rest: bytes)
    requires !Named(stage) && FieldOk(stage, f)
    ensures RunFields(PAYLOAD, Column(stage, d), Start(Column(stage, d)), FieldBytes(stage, f) + rest) ==
            RunNext(PAYLOAD, NextStage(stage, Keeping(stage, d, f)), rest)
  {
    Powers();
    var q := NumberField(f.n, SizeOf(stage), rest);
    NumberStores(stage, d, f, q);
    Turn(Column(stage, d), FieldBytes(stage, f), rest, q);
  }

  lemma NumberStores(stage: ColumnStage, d: ColumnDef, f: AnyField, q: FieldParser)
    requires !Named(stage) && FieldOk(stage, f) && IntValue(q) % TWO_32 == f.n
    requires SizeOf(stage) == 2 ==> IntValue(q) % TWO_16 == f.n
    requires SizeOf(stage) == 1 ==> IntValue(q) % 256 == f.n && IntValue(q) == f.n
    ensures StoreColumn(stage, d, q) == NextStage(stage, Keeping(stage, d, f))
  {
  }

  lemma FieldAccepts(stage: ColumnStage, d: ColumnDef, f: AnyField, rest: bytes)
    requires FieldOk(stage, f)
    ensures RunFields(PAYLOAD, Column(stage, d), Start(Column(stage, d)), FieldBytes(stage, f) + rest) ==
            RunNext(PAYLOAD, NextStage(stage, Keeping(stage, d, f)), rest)
  {
    if Named(stage) {
      NameAccepts(stage, d, f, rest);
    } else {
      NumberAccepts(stage, d, f, rest);
    }
  }

  lemma NameTaken(stage: ColumnStage, d: ColumnDef, bs: bytes) returns (f: AnyField, rest: bytes)
    requires Named(stage) && RunFields(PAYLOAD, Column(stage, d), Start(Column(stage, d)), bs).Yielded?
    ensures FieldOk(stage, f) && bs == FieldBytes(stage, f) + rest
  {
    var s := if stage == Catalog || stage == Name then NEW_STRING else NEW_SKIP;
    assert Start(Column(stage, d)) == StringP(s);
    LiftStr(s, bs);
    var len, text;
    len, text, rest := StrTaken(s, bs);
    f := AnyName(len, text);
    Assoc(len, text, rest);
    StrAccepts(s, len, text, rest);
    assert [] + text == text;
  }

  lemma NumberTaken(stage: ColumnStage, d: ColumnDef, bs: bytes) returns (f: AnyField, rest: bytes)
    requires !Named(stage) && RunFields(PAYLOAD, Column(stage, d), Start(Column(stage, d)), bs).Yielded?
    ensures FieldOk(stage, f) && bs == FieldBytes(stage, f) + rest
  {
    assert Start(Column(stage, d)) == NewFixed(SizeOf(stage));
    var n;
    n, rest := FixedTaken(SizeOf(stage), bs);
    f := AnyNumber(n);
  }

  lemma FieldTaken(stage: ColumnStage, d: ColumnDef, bs: bytes) returns (f: AnyField, rest: bytes)
    requires RunFields(PAYLOAD, Column(stage, d), Start(Column(stage, d)), bs).Yielded?
    ensures FieldOk(stage, f) && bs == FieldBytes(stage, f) + rest
  {
    if Named(stage) {
      f, rest := NameTaken(stage, d, bs);
    } else {
      f, rest := NumberTaken(stage, d, bs);
    }
  }

  /** The fields of a definition from a stage on. */
  predicate FieldsOk(stage: ColumnStage, fs: seq<AnyField>)
    decreases Place(stage), fs
  {
    && |fs| == Place(stage) + 1 && FieldOk(stage, fs[0])
    && (StageAfter(stage).Some? ==> FieldsOk(StageAfter(stage).value, fs[1..]))
  }

  function FieldsBytes(stage: ColumnStage, fs: seq<AnyField>): bytes
    requires |fs| == Place(stage) + 1
    decreases Place(stage), fs
  {
    if StageAfter(stage).None? then FieldBytes(stage, fs[0])
    else FieldBytes(stage, fs[0]) + FieldsBytes(StageAfter(stage).value, fs[1..])
  }

  function FieldsValue(stage: ColumnStage, d: ColumnDef, fs: seq<AnyField>): ColumnDef
    requires |fs| == Place(stage) + 1
    decreases Place(stage), fs
  {
    var d' := Keeping(stage, d, fs[0]);
    if StageAfter(stage).None? then d' else FieldsValue(StageAfter(stage).value, d', fs[1..])
  }

  lemma {:induction false} FieldsAccept(stage: ColumnStage, d: ColumnDef, fs: seq<AnyField>, rest: bytes)
    requires FieldsOk(stage, fs)
    ensures RunFields(PAYLOAD, Column(stage, d), Start(Column(stage, d)), FieldsBytes(stage, fs) + rest) ==
            Yielded(Definition(FieldsValue(stage, d, fs)), rest)
    decreases Place(stage)
  {
    var f, d' := fs[0], Keeping(stage, d, fs[0]);
    match StageAfter(stage)
    case None => FieldAccepts(stage, d, f, rest);
    case Some(next) =>
      var more := FieldsBytes(next, fs[1..]);
      Assoc(FieldBytes(stage, f), more, rest);
      FieldAccepts(stage, d, f, more + rest);
      FieldsAccept(next, d', fs[1..], rest);
  }

  /** Whatever the definition parser accepts is a definition, of lengths of any width. */
  lemma {:induction false} FieldsTaken(stage: ColumnStage, d: ColumnDef, bs: bytes)
    returns (fs: seq<AnyField>, rest: bytes)
    requires RunFields(PAYLOAD, Column(stage, d), Start(Column(stage, d)), bs).Yielded?
    ensures FieldsOk(stage, fs) && bs == FieldsBytes(stage, fs) + rest
    decreases Place(stage)
  {
    var f, more := FirstFieldTaken(stage, d, bs);
    match StageAfter(stage)
    case None => fs, rest := [f], more;
    case Some(next) =>
      var fs1;
      fs1, rest := FieldsTaken(next, Keeping(stage, d, f), more);
      fs := [f] + fs1;
      FieldsCons(stage, f, next, fs1, rest);
  }

  lemma FirstFieldTaken(stage: ColumnStage, d: ColumnDef, bs: bytes) returns (f: AnyField, rest: bytes)
    requires RunFields(PAYLOAD, Column(stage, d), Start(Column(stage, d)), bs).Yielded?
    ensures FieldOk(stage, f) && bs == FieldBytes(stage, f) + rest
    ensures StageAfter(stage).Some? ==>
              var c := Column(StageAfter(stage).value, Keeping(stage, d, f));
              RunFields(PAYLOAD, c, Start(c), rest).Yielded?
  {
    f, rest := FieldTaken(stage, d, bs);
    FieldAccepts(stage, d, f, rest);
  }

  lemma FieldsCons(stage: ColumnStage, f: AnyField, next: ColumnStage, fs: seq<AnyField>, rest: bytes)
    requires StageAfter(stage) == Some(next) && FieldOk(stage, f) && FieldsOk(next, fs)
    ensures FieldsOk(stage, [f] + fs)
    ensures FieldsBytes(stage, [f] + fs) + rest == FieldBytes(stage, f) + (FieldsBytes(next, fs) + rest)
  {
    assert ([f] + fs)[1..] == fs;
    Assoc(FieldBytes(stage, f), FieldsBytes(next, fs), rest);
  }

  /** The fields behind the first one. */
  lemma FieldsBehind(stage: ColumnStage, d: ColumnDef, fs: seq<AnyField>, next: ColumnStage)
    requires FieldsOk(stage, fs) && StageAfter(stage) == Some(next)
    ensures FieldsOk(next, fs[1..]) && FieldsValue(stage, d, fs) == FieldsValue(next, Keeping(stage, d, fs[0]), fs[1..])
    ensures stage != Name && Named(stage) ==> Keeping(stage, d, fs[0]) == d
  {
  }

  /** The name that is kept is the fifth field. */
  lemma NameIsFifth(fs: seq<AnyField>)
    requires FieldsOk(Catalog, fs)
    ensures |fs| == 13 && fs[4].AnyName? && FieldsValue(Catalog, BLANK_COLUMN, fs).name == fs[4].text
  {
    var d := BLANK_COLUMN;
    FieldsBehind(Catalog, d, fs, Schema);
    FieldsBehind(Schema, d, fs[1..], Table);
    FieldsBehind(Table, d, fs[1..][1..], OrgTable);
    FieldsBehind(OrgTable, d, fs[1..][1..][1..], Name);
    var named := fs[1..][1..][1..][1..];
    assert named[0] == fs[4] && FieldOk(Name, named[0]);
    FieldsBehind(Name, d, named, OrgName);
    NameKept(OrgName, Keeping(Name, d, named[0]), named[1..]);
  }

  lemma {:induction false} NameKept(stage: ColumnStage, d: ColumnDef, fs: seq<AnyField>)
    requires FieldsOk(stage, fs) && Place(stage) < 8
    ensures FieldsValue(stage, d, fs).name == d.name
    decreases Place(stage)
  {
    match StageAfter(stage)
    case None =>
    case Some(next) => NameKept(next, Keeping(stage, d, fs[0]), fs[1..]);
  }

  // ---- ERR and OK packets ----

  /** Whatever the ERR parser has read up to its message is an encoded error. */
  lemma ErrTaken(bs: bytes, code: nat, state: bytes, message: bytes)
    requires RunNext(PAYLOAD, Go(ErrHeader), bs) == Pending(ErrorMessage(code, state), RestP(message))
    ensures code < TWO_16 && |state| == 5 && bs == EncodeErr(code, state, message)
  {
    var h, r1 := FixedTaken(1, bs);
    assert RunFields(PAYLOAD, ErrHeader, NewFixed(1), bs) == RunFields(PAYLOAD, ErrorCode, NewFixed(2), r1);
    var n, r2 := FixedTaken(2, r1);
    Powers();
    assert RunFields(PAYLOAD, ErrorCode, NewFixed(2), r1) == RunFields(PAYLOAD, SqlStateMarker(n), ByteP(0), r2);
    StateTaken(r2, n, code, state, message);
    assert h == 0xff;
  }

  lemma StateTaken(bs: bytes, n: nat, code: nat, state: bytes, message: bytes)
    requires RunFields(PAYLOAD, SqlStateMarker(n), ByteP(0), bs) == Pending(ErrorMessage(code, state), RestP(message))
    ensures n == code && |state| == 5 && bs == ['#' as int] + (state + message)
  {
    var r3 := bs[1..];
    assert bs == [bs[0]] + r3;
    assert RunFields(PAYLOAD, SqlStateMarker(n), ByteP(0), bs) == RunFields(PAYLOAD, SqlState(n), TextP(5, []), r3);
    TextTaken(n, r3, code, state, message);
  }

  lemma TextTaken(n: nat, bs: bytes, code: nat, state: bytes, message: bytes)
    requires RunFields(PAYLOAD, SqlState(n), TextP(5, []), bs) == Pending(ErrorMessage(code, state), RestP(message))
    ensures n == code && |state| == 5 && bs == state + message
  {
    ScanText(5, [], bs);
    if |bs| < 5 {
      assert false;
    }
    var text, rest := bs[..5], bs[5..];
    assert [] + text == text && bs == text + rest && [] + rest == rest;
    ScanRest([], rest);
    assert RunFields(PAYLOAD, SqlState(n), TextP(5, []), bs) ==
           RunFields(PAYLOAD, ErrorMessage(n, text), RestP([]), rest);
  }

  /** An OK packet whose counts have any width. */
  predicate OkBytes(bs: bytes, header: byte, a: bytes, l: bytes, ok: OkPacket) {
    && IntBytes(a, ok.affectedRows) && IntBytes(l, ok.lastInsertId) && ok.statusFlags < TWO_16 && ok.warnings < TWO_16
    && bs == [header] + (a + (l + (ToLe(ok.statusFlags, 2) + (ToLe(ok.warnings, 2) + ok.info))))
  }

  lemma CountsAccept(header: byte, a: bytes, l: bytes, ok: OkPacket, rest: bytes)
    requires IntBytes(a, ok.affectedRows) && IntBytes(l, ok.lastInsertId)
    requires ok == BLANK_OK.(affectedRows := ok.affectedRows, lastInsertId := ok.lastInsertId)
    ensures RunNext(PAYLOAD, Go(OkHeader(header)), [header] + (a + (l + rest))) ==
            RunNext(PAYLOAD, Go(OkField(StatusFlags, ok)), rest)
  {
    var more := l + rest;
    var all := a + more;
    assert ([header] + all)[0] == header && ([header] + all)[1..] == all;
    Turn(OkHeader(header), [header], all, ByteP(header));
    IntAccepts(a, ok.affectedRows, more);
    LiftInt(NEW_INT, all);
    Turn(OkField(AffectedRows, BLANK_OK), a, more, IntP(IntRead(a)));
    IntAccepts(l, ok.lastInsertId, rest);
    LiftInt(NEW_INT, more);
    Turn(OkField(LastInsertId, BLANK_OK.(affectedRows := ok.affectedRows)), l, rest, IntP(IntRead(l)));
  }

  lemma OkAccepts(bs: bytes, header: byte, a: bytes, l: bytes, ok: OkPacket)
    requires OkBytes(bs, header, a, l, ok)
    ensures RunNext(PAYLOAD, Go(OkHeader(header)), bs) == Pending(OkInfo(ok.(info := [])), RestP(ok.info))
  {
    var counts := BLANK_OK.(affectedRows := ok.affectedRows, lastInsertId := ok.lastInsertId);
    CountsAccept(header, a, l, counts, ToLe(ok.statusFlags, 2) + (ToLe(ok.warnings, 2) + ok.info));
    FlagsDecode(counts, ok.statusFlags, ok.warnings, ok.info);
    ScanRest([], ok.info);
    assert [] + ok.info == ok.info;
  }

  /** Whatever the OK parser has read up to its information is an OK packet. */
  lemma OkTaken(bs: bytes, header: byte, ok: OkPacket, info: bytes) returns (a: bytes, l: bytes)
    requires RunNext(PAYLOAD, Go(OkHeader(header)), bs) == Pending(OkInfo(ok), RestP(info))
    ensures OkBytes(bs, header, a, l, ok.(info := info))
  {
    var r1 := bs[1..];
    assert RunNext(PAYLOAD, Go(OkHeader(header)), bs) ==
           RunFields(PAYLOAD, OkField(AffectedRows, BLANK_OK), IntP(NEW_INT), r1);
    assert bs == [header] + r1;
    LiftInt(NEW_INT, r1);
    var r2, r3;
    a, r2 := IntTaken(r1);
    LiftInt(NEW_INT, r2);
    var ok1 := BLANK_OK.(affectedRows := IntRead(a).result);
    assert RunFields(PAYLOAD, OkField(AffectedRows, BLANK_OK), IntP(NEW_INT), r1) ==
           RunFields(PAYLOAD, OkField(LastInsertId, ok1), IntP(NEW_INT), r2);
    l, r3 := IntTaken(r2);
    var ok2 := ok1.(lastInsertId := IntRead(l).result);
    assert RunFields(PAYLOAD, OkField(LastInsertId, ok1), IntP(NEW_INT), r2) ==
           RunFields(PAYLOAD, OkField(StatusFlags, ok2), NewFixed(2), r3);
    FlagsTaken(r3, ok2, ok, info);
  }

  lemma FlagsTaken(bs: bytes, before: OkPacket, ok: OkPacket, info: bytes)
    requires RunFields(PAYLOAD, OkField(StatusFlags, before), NewFixed(2), bs) == Pending(OkInfo(ok), RestP(info))
    ensures ok.statusFlags < TWO_16 && ok.warnings < TWO_16
    ensures ok == before.(statusFlags := ok.statusFlags, warnings := ok.warnings)
    ensures bs == ToLe(ok.statusFlags, 2) + (ToLe(ok.warnings, 2) + info)
  {
    Powers();
    var s, r1 := FixedTaken(2, bs);
    var ok1 := before.(statusFlags := s);
    assert RunFields(PAYLOAD, OkField(StatusFlags, before), NewFixed(2), bs) ==
           RunFields(PAYLOAD, OkField(Warnings, ok1), NewFixed(2), r1);
    var w, r2 := FixedTaken(2, r1);
    assert RunFields(PAYLOAD, OkField(Warnings, ok1), NewFixed(2), r1) ==
           RunFields(PAYLOAD, OkInfo(ok1.(warnings := w)), RestP([]), r2);
    ScanRest([], r2);
    assert [] + r2 == r2;
  }

  // ---- payloads ----

  /** What a payload can hold. */
  datatype Content =
    | ErrContent(code: nat, state: bytes, message: bytes)
    | OkContent(header: byte, a: bytes, l: bytes, ok: OkPacket)
    | CountContent(e: bytes, n: nat)
    | DefinitionContent(fs: seq<AnyField>)
    | RowContent(cells: seq<AnyCell>)

  predicate ContentOk(c: Content) {
    match c
    case ErrContent(code, state, _) => code < TWO_16 && |state| == 5
    case OkContent(header, a, l, ok) => OkBytes(ContentBytes(c), header, a, l, ok)
    case CountContent(e, n) => IntBytes(e, n)
    case DefinitionContent(fs) => FieldsOk(Catalog, fs)
    case RowContent(cells) => cells != [] && RowOk(cells)
  }

  function ContentBytes(c: Content): bytes {
    match c
    case ErrContent(code, state, message) => EncodeErr(code, state, message)
    case OkContent(header, a, l, ok) =>
      [header] + (a + (l + (ToLe(ok.statusFlags, 2) + (ToLe(ok.warnings, 2) + ok.info))))
    case CountContent(e, _) => e
    case DefinitionContent(fs) => if |fs| == 13 then FieldsBytes(Catalog, fs) else []
    case RowContent(cells) => RowBytes(cells)
  }

  function ContentValue(c: Content): Value {
    match c
    case ErrContent(code, state, message) => Err(code, state, message)
    case OkContent(_, _, _, ok) => Ok(ok)
    case CountContent(_, n) => ColumnCount(n)
    case DefinitionContent(fs) =>
      Definition(if |fs| == 13 then FieldsValue(Catalog, BLANK_COLUMN, fs) else BLANK_COLUMN)
    case RowContent(cells) => RowData(RowValue(cells))
  }

  /** The parser for it. */
  function ControlOf(c: Content): Control {
    match c
    case ErrContent(_, _, _) => ErrHeader
    case OkContent(header, _, _, _) => OkHeader(header)
    case CountContent(_, _) => Count
    case DefinitionContent(_) => Column(Catalog, BLANK_COLUMN)
    case RowContent(cells) => RowCells(|cells|, [])
  }

  /** A whole payload in the hands of a parser. */
  function Parsed(c: Control, payload: bytes): Body<Control, FieldParser, Value, PayloadResult> {
    Judge(PAYLOAD, RunNext(PAYLOAD, Go(c), payload), |payload|, |payload|, [])
  }

  lemma ContentAccepts(c: Content)
    requires ContentOk(c)
    ensures Parsed(ControlOf(c), ContentBytes(c)) == Decoded(ContentValue(c), [])
  {
    var bs := ContentBytes(c);
    match c
    case ErrContent(code, state, message) => ErrDecodes(code, state, message);
    case OkContent(header, a, l, ok) => OkAccepts(bs, header, a, l, ok);
    case CountContent(e, n) =>
      assert e + [] == e;
      IntAccepts(e, n, []);
      LiftInt(NEW_INT, e);
      Turn(Count, e, [], IntP(IntRead(e)));
    case DefinitionContent(fs) =>
      assert bs + [] == bs;
      FieldsAccept(Catalog, BLANK_COLUMN, fs, []);
    case RowContent(cells) =>
      assert bs + [] == bs && [] + RowValue(cells) == RowValue(cells);
      RowAccepts(|cells|, [], cells, []);
  }

  lemma CountTaken(payload: bytes, v: Value) returns (c: Content)
    requires Parsed(Count, payload) == Decoded(v, [])
    ensures ContentOk(c) && ContentBytes(c) == payload && ControlOf(c) == Count
  {
    LiftInt(NEW_INT, payload);
    var e, rest := IntTaken(payload);
    assert RunNext(PAYLOAD, Go(Count), payload) == Yielded(ColumnCount(IntRead(e).result), rest);
    assert rest == [] && e + rest == e;
    c := CountContent(e, IntRead(e).result);
  }

  lemma DefinitionTaken(payload: bytes, v: Value) returns (c: Content)
    requires Parsed(Column(Catalog, BLANK_COLUMN), payload) == Decoded(v, [])
    ensures ContentOk(c) && ContentBytes(c) == payload && ControlOf(c) == Column(Catalog, BLANK_COLUMN)
  {
    RunFamily(Column(Catalog, BLANK_COLUMN), Start(Column(Catalog, BLANK_COLUMN)), payload);
    EndsEarly(Column(Catalog, BLANK_COLUMN), payload);
    var fs, rest := FieldsTaken(Catalog, BLANK_COLUMN, payload);
    FieldsAccept(Catalog, BLANK_COLUMN, fs, rest);
    assert rest == [] && FieldsBytes(Catalog, fs) + rest == FieldsBytes(Catalog, fs);
    c := DefinitionContent(fs);
  }

  /** Only ERR and OK packets are decoded by their end. */
  lemma EndsEarly(c: Control, payload: bytes)
    requires c == Column(Catalog, BLANK_COLUMN) || (c.RowCells? && c.cells == [] && c.n > 0)
    requires Parsed(c, payload).Decoded?
    ensures RunFields(PAYLOAD, c, Start(c), payload).Yielded?
  {
    RunFamily(c, Start(c), payload);
    match RunFields(PAYLOAD, c, Start(c), payload)
    case Pending(c', p') => EndFamily(c', p');
    case _ =>
  }

  lemma RowTakenWhole(n: nat, payload: bytes, v: Value) returns (c: Content)
    requires n > 0 && Parsed(RowCells(n, []), payload) == Decoded(v, [])
    ensures ContentOk(c) && ContentBytes(c) == payload && ControlOf(c) == RowCells(n, [])
  {
    EndsEarly(RowCells(n, []), payload);
    var cells, rest := RowTaken(n, [], payload);
    RowAccepts(n, [], cells, rest);
    assert rest == [] && RowBytes(cells) + rest == RowBytes(cells);
    c := RowContent(cells);
  }

  lemma ErrTakenWhole(payload: bytes, v: Value) returns (c: Content)
    requires Parsed(ErrHeader, payload) == Decoded(v, [])
    ensures ContentOk(c) && ContentBytes(c) == payload && ControlOf(c) == ErrHeader
  {
    RunFamily(ErrHeader, NewFixed(1), payload);
    var run := RunFields(PAYLOAD, ErrHeader, NewFixed(1), payload);
    assert run.Pending? && run.c.ErrorMessage? && run.p.RestP?;
    ErrTaken(payload, run.c.code, run.c.state, run.p.content);
    c := ErrContent(run.c.code, run.c.state, run.p.content);
  }

  lemma OkTakenWhole(header: byte, payload: bytes, v: Value) returns (c: Content)
    requires Parsed(OkHeader(header), payload) == Decoded(v, [])
    ensures ContentOk(c) && ContentBytes(c) == payload && ControlOf(c) == OkHeader(header)
  {
    RunFamily(OkHeader(header), ByteP(0), payload);
    var run := RunFields(PAYLOAD, OkHeader(header), ByteP(0), payload);
    assert run.Pending? && run.c.OkInfo? && run.p.RestP?;
    var a, l := OkTaken(payload, header, run.c.ok, run.p.content);
    c := OkContent(header, a, l, run.c.ok.(info := run.p.content));
  }

  /** Whatever a packet parser decodes a whole payload to, the payload is the content that means it. */
  lemma ContentTaken(control: Control, payload: bytes, v: Value) returns (c: Content)
    requires control == ErrHeader || control.OkHeader? || control == Count || control == Column(Catalog, BLANK_COLUMN)
          || (control.RowCells? && control.cells == [] && control.n > 0)
    requires Parsed(control, payload) == Decoded(v, [])
    ensures ContentOk(c) && ContentBytes(c) == payload && ContentValue(c) == v && ControlOf(c) == control
  {
    match control {
      case ErrHeader => c := ErrTakenWhole(payload, v);
      case OkHeader(header) => c := OkTakenWhole(header, payload, v);
      case Count => c := CountTaken(payload, v);
      case Column(_, _) => c := DefinitionTaken(payload, v);
      case RowCells(n, _) => c := RowTakenWhole(n, payload, v);
    }
    ContentAccepts(c);
  }
}
