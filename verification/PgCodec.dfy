/**
 The message bodies as the protocol lays them out (sections 55.2.2, 55.7 and 55.8 of
 the PostgreSQL 16 documentation), written as encoders, and the proof that the body
 parsers accept exactly these layouts and decode them to the values laid out.
 */
module PgCodec {
  import opened Bytes
  import opened Machine
  import opened PgFields
  import opened PgMessages

  predicate NoNul(text: bytes) {
    0 !in text
  }

  function Terminated(text: bytes): bytes {
    text + [0]
  }

  // ---- single fields ----

  lemma IntField(size: nat, enc: bytes, rest: bytes)
    requires |enc| == size > 0
    ensures ScanField(FieldStep, NewInteger(size), enc + rest) == Field(IntegerP(enc, size), rest)
  {
    ScanInteger(NewInteger(size), enc + rest);
    assert (enc + rest)[..size] == enc && (enc + rest)[size..] == rest;
    assert Zeros(size)[..0] + enc + Zeros(size)[size..] == enc;
  }

  lemma IntTaken(size: nat, bs: bytes) returns (enc: bytes, rest: bytes)
    requires size > 0 && ScanField(FieldStep, NewInteger(size), bs).Field?
    ensures |enc| == size && bs == enc + rest
    ensures ScanField(FieldStep, NewInteger(size), bs) == Field(IntegerP(enc, size), rest)
  {
    if |bs| < size {
      ScanInteger(NewInteger(size), bs);
      assert false;
    }
    enc, rest := bs[..size], bs[size..];
    assert bs == enc + rest;
    IntField(size, enc, rest);
  }

  lemma {:induction false} StrnlenText(text: bytes, rest: bytes)
    requires NoNul(text)
    ensures Strnlen(text + [0] + rest) == |text|
  {
    if text != [] {
      assert (text + [0] + rest)[1..] == text[1..] + [0] + rest;
      StrnlenText(text[1..], rest);
    }
  }

  lemma TextField(text: bytes, rest: bytes)
    requires NoNul(text)
    ensures ScanField(FieldStep, StringP([]), Terminated(text) + rest) == Field(StringP(text), rest)
    ensures ScanField(FieldStep, SkipP(0), Terminated(text) + rest) == Field(SkipP(|text|), rest)
  {
    var bs := text + [0] + rest;
    StrnlenText(text, rest);
    ScanString([], bs);
    ScanSkip(0, bs);
    assert [] + bs[..|text|] == text && bs[|text| + 1..] == rest;
  }

  lemma {:induction false} StrnlenNoNul(bs: bytes)
    ensures NoNul(bs[..Strnlen(bs)])
    ensures Strnlen(bs) < |bs| ==> bs[Strnlen(bs)] == 0
  {
    if bs != [] && bs[0] != 0 {
      StrnlenNoNul(bs[1..]);
      assert bs[..Strnlen(bs)] == [bs[0]] + bs[1..][..Strnlen(bs[1..])];
    }
  }

  /** A full string field is a text without zero bytes and its terminator. */
  lemma TextTaken(bs: bytes) returns (text: bytes, rest: bytes)
    requires ScanField(FieldStep, StringP([]), bs).Field? || ScanField(FieldStep, SkipP(0), bs).Field?
    ensures NoNul(text) && bs == Terminated(text) + rest
    ensures ScanField(FieldStep, StringP([]), bs) == Field(StringP(text), rest)
    ensures ScanField(FieldStep, SkipP(0), bs) == Field(SkipP(|text|), rest)
  {
    var n := Strnlen(bs);
    ScanString([], bs);
    ScanSkip(0, bs);
    StrnlenNoNul(bs);
    text, rest := bs[..n], bs[n + 1..];
    assert bs == text + [0] + rest;
    TextField(text, rest);
  }

  // ---- data_row ----

  function EncodeCell(cell: Cell): bytes
    requires CellOk(cell)
  {
    match cell
    case None => [0xff, 0xff, 0xff, 0xff]
    case Some(content) => ToBe32(|content|) + content
  }

  /** A cell's length must be distinguishable from the length that means NULL. */
  predicate CellOk(cell: Cell) {
    cell.Some? ==> |cell.value| < 0xffff_ffff
  }

  predicate CellsOk(cells: Row) {
    forall cell :: cell in cells ==> CellOk(cell)
  }

  function EncodeCells(cells: Row): bytes
    requires CellsOk(cells)
  {
    if cells == [] then [] else EncodeCell(cells[0]) + EncodeCells(cells[1..])
  }

  predicate RowOk(row: Row) {
    |row| < TWO_16 && CellsOk(row)
  }

  function EncodeRow(row: Row): bytes
    requires RowOk(row)
  {
    ToBe16(|row|) + EncodeCells(row)
  }

  lemma CellDecodes(data: Row, idx: nat, cell: Cell, rest: bytes)
    requires idx < |data| && CellOk(cell)
    ensures RunFields(BODY, CellLength(data, idx), NewInteger(4), EncodeCell(cell) + rest) ==
            RunNext(BODY, StoreCell(data, idx, cell), rest)
  {
    var n := if cell.None? then NULL_LENGTH else |cell.value|;
    var more := if cell.None? then rest else cell.value + rest;
    Be32RoundTrip(n, ToBe32(n));
    CellLayout(cell, rest);
    IntField(4, ToBe32(n), more);
    if cell.Some? && cell.value != [] {
      ContentField(cell.value, rest);
    }
  }

  lemma ContentField(content: bytes, rest: bytes)
    requires content != []
    ensures ScanField(FieldStep, BytesP(|content|, []), content + rest) == Field(BytesP(|content|, content), rest)
  {
    ScanBytes(BytesP(|content|, []), content + rest);
    assert (content + rest)[..|content|] == content && (content + rest)[|content|..] == rest && [] + content == content;
  }

  lemma CellsTailOk(cells: Row)
    requires cells != []
    ensures CellsOk(cells) <==> CellOk(cells[0]) && CellsOk(cells[1..])
  {
    assert cells == [cells[0]] + cells[1..];
  }

  lemma CellsLayout(cells: Row, rest: bytes)
    requires cells != [] && CellsOk(cells) && CellOk(cells[0]) && CellsOk(cells[1..])
    ensures EncodeCells(cells) + rest == EncodeCell(cells[0]) + (EncodeCells(cells[1..]) + rest)
    ensures |cells| == 1 ==> EncodeCells(cells[1..]) + rest == rest
  {
    Assoc(EncodeCell(cells[0]), EncodeCells(cells[1..]), rest);
    assert [] + rest == rest;
  }

  lemma {:induction false} CellsDecode(data: Row, idx: nat, cells: Row, rest: bytes)
    requires idx < |data| && |cells| == |data| - idx && CellsOk(cells)
    ensures RunFields(BODY, CellLength(data, idx), NewInteger(4), EncodeCells(cells) + rest) ==
            Yielded(DataRow(data[..idx] + cells), rest)
    decreases |cells|
  {
    var data' := data[idx := cells[0]];
    CellsTailOk(cells);
    CellsLayout(cells, rest);
    CellDecodes(data, idx, cells[0], EncodeCells(cells[1..]) + rest);
    if |cells| == 1 {
      assert data' == data[..idx] + cells;
    } else {
      CellsDecode(data', idx + 1, cells[1..], rest);
      assert data'[..idx + 1] + cells[1..] == data[..idx] + cells;
    }
  }

  lemma CellTaken(data: Row, idx: nat, bs: bytes) returns (cell: Cell, rest: bytes)
    requires idx < |data| && RunFields(BODY, CellLength(data, idx), NewInteger(4), bs).Yielded?
    ensures CellOk(cell) && bs == EncodeCell(cell) + rest
  {
    var enc, more := IntTaken(4, bs);
    var n := FromBe32(enc);
    Be32RoundTrip(n, enc);
    cell, rest := if n == NULL_LENGTH then None else Some([]), more;
    if 0 < n < NULL_LENGTH {
      assert RunFields(BODY, CellLength(data, idx), NewInteger(4), bs) ==
             RunFields(BODY, CellBytes(data, idx, n), BytesP(n, []), more);
      var content;
      content, rest := ContentTaken(data, idx, n, more);
      cell := Some(content);
    }
    CellLayout(cell, rest);
  }

  lemma CellLayout(cell: Cell, rest: bytes)
    requires CellOk(cell)
    ensures EncodeCell(cell) + rest ==
            if cell.None? then ToBe32(NULL_LENGTH) + rest else ToBe32(|cell.value|) + (cell.value + rest)
    ensures cell == Some([]) ==> cell.value + rest == rest
  {
    assert ToBe32(NULL_LENGTH) == [0xff, 0xff, 0xff, 0xff];
  }

  lemma ContentTaken(data: Row, idx: nat, n: nat, bs: bytes) returns (content: bytes, rest: bytes)
    requires idx < |data| && n > 0 && RunFields(BODY, CellBytes(data, idx, n), BytesP(n, []), bs).Yielded?
    ensures |content| == n && bs == content + rest
  {
    ScanBytes(BytesP(n, []), bs);
    content, rest := bs[..n], bs[n..];
  }

  lemma {:induction false} CellsTaken(data: Row, idx: nat, bs: bytes) returns (cells: Row, rest: bytes)
    requires idx < |data| && RunFields(BODY, CellLength(data, idx), NewInteger(4), bs).Yielded?
    ensures |cells| == |data| - idx && CellsOk(cells) && bs == EncodeCells(cells) + rest
    decreases |data| - idx
  {
    var cell, rest0 := CellTaken(data, idx, bs);
    CellDecodes(data, idx, cell, rest0);
    var cells1: Row := [];
    rest := rest0;
    if idx + 1 < |data| {
      cells1, rest := CellsTaken(data[idx := cell], idx + 1, rest0);
    } else {
      assert EncodeCells(cells1) + rest == rest;
    }
    cells := [cell] + cells1;
    assert cells[1..] == cells1;
    CellsTailOk(cells);
    CellsLayout(cells, rest);
  }

  lemma RowLayout(row: Row, rest: bytes)
    requires RowOk(row)
    ensures EncodeRow(row) + rest == ToBe16(|row|) + (EncodeCells(row) + rest)
  {
  }

  lemma RowBegins(row: Row, start: Row, rest: bytes)
    requires RowOk(row) && |start| == |row|
    ensures RunFields(BODY, RowCount(start), NewInteger(2), EncodeRow(row) + rest) ==
            if row == [] then Yielded(DataRow(start), EncodeCells(row) + rest)
            else RunFields(BODY, CellLength(start, 0), NewInteger(4), EncodeCells(row) + rest)
  {
    Be16RoundTrip(|row|, ToBe16(|row|));
    RowLayout(row, rest);
    IntField(2, ToBe16(|row|), EncodeCells(row) + rest);
  }

  /** data_row::on_body decodes an encoded row of its width to its cells. */
  lemma RowDecodes(row: Row, rest: bytes)
    requires RowOk(row)
    ensures RunFields(BODY, RowCount(seq(|row|, _ => None)), NewInteger(2), EncodeRow(row) + rest) ==
            Yielded(DataRow(row), rest)
  {
    var start := seq(|row|, _ => None);
    RowBegins(row, start, rest);
    if row == [] {
      assert start == row && EncodeCells(row) + rest == rest;
    } else {
      CellsDecode(start, 0, row, rest);
      assert start[..0] + row == row;
    }
  }

  /** Whatever data_row::on_body accepts is an encoded row of its width. */
  lemma RowTaken(n: nat, bs: bytes) returns (row: Row, rest: bytes)
    requires n < TWO_16
    requires RunFields(BODY, RowCount(seq(n, _ => None)), NewInteger(2), bs).Yielded?
    ensures RowOk(row) && |row| == n && bs == EncodeRow(row) + rest
  {
    var enc, more := IntTaken(2, bs);
    Be16RoundTrip(n, enc);
    row, rest := [], more;
    if n > 0 {
      row, rest := CellsTaken(seq(n, _ => None), 0, more);
    } else {
      assert EncodeCells([]) + more == more;
    }
    RowLayout(row, rest);
  }

  // ---- row_description ----

  predicate DescOk(d: RowDesc) {
    && NoNul(d.fieldName)
    && d.tableId < TWO_32 && d.attribute < TWO_16 && d.typeId < TWO_32
    && -0x8000 <= d.typeSize < 0x8000 && d.modifier < TWO_32 && d.format < TWO_16
  }

  /** The uint16 that converts to a given int16. */
  function FromInt16(i: int): (n: nat)
    requires -0x8000 <= i < 0x8000
    ensures n < TWO_16 && ToInt16(n) == i
  {
    if i < 0 then i + TWO_16 else i
  }

  function EncodeStage(d: RowDesc, stage: DescStage): bytes
    requires DescOk(d)
  {
    match stage
    case Name => Terminated(d.fieldName)
    case Table => ToBe32(d.tableId)
    case Attribute => ToBe16(d.attribute)
    case Type => ToBe32(d.typeId)
    case Size => ToBe16(FromInt16(d.typeSize))
    case Modifier => ToBe32(d.modifier)
    case Format => ToBe16(d.format)
  }

  function StagesLeft(stage: DescStage): nat {
    match stage
    case Name => 6 case Table => 5 case Attribute => 4 case Type => 3 case Size => 2 case Modifier => 1 case Format => 0
  }

  function Following(stage: DescStage): (s: DescStage)
    requires !stage.Format?
    ensures StagesLeft(s) + 1 == StagesLeft(stage)
  {
    match stage
    case Name => Table case Table => Attribute case Attribute => Type
    case Type => Size case Size => Modifier case Modifier => Format
  }

  /**
   The wire form of a column description from one of its fields on: name, table, column, type, size, modifier,
   format.
   */
  function EncodeFrom(d: RowDesc, stage: DescStage): bytes
    requires DescOk(d)
    decreases StagesLeft(stage), d
  {
    EncodeStage(d, stage) + if stage.Format? then [] else EncodeFrom(d, Following(stage))
  }

  /** `old` with the one field of `stage` taken from `d`. */
  function WithStage(d0: RowDesc, stage: DescStage, d: RowDesc): RowDesc {
    match stage
    case Name => d0.(fieldName := d.fieldName)
    case Table => d0.(tableId := d.tableId)
    case Attribute => d0.(attribute := d.attribute)
    case Type => d0.(typeId := d.typeId)
    case Size => d0.(typeSize := d.typeSize)
    case Modifier => d0.(modifier := d.modifier)
    case Format => d0.(format := d.format)
  }

  /** `d0` with the fields from `stage` on taken from `d`. */
  function WithFrom(d0: RowDesc, stage: DescStage, d: RowDesc): RowDesc
    decreases StagesLeft(stage)
  {
    if stage.Format? then WithStage(d0, stage, d) else WithFrom(WithStage(d0, stage, d), Following(stage), d)
  }

  /** A column is complete: the next one starts with its name, or the description ends. */
  function NextColumn(desc: seq<RowDesc>, idx: nat): PgNext {
    if idx + 1 < |desc| then Go(DescField(desc, idx + 1, Name)) else Yield(Description(desc))
  }

  function AfterStage(desc: seq<RowDesc>, idx: nat, stage: DescStage, d: RowDesc): PgNext
    requires idx < |desc|
  {
    var desc' := desc[idx := WithStage(desc[idx], stage, d)];
    if stage.Format? then NextColumn(desc', idx) else Go(DescField(desc', idx, Following(stage)))
  }

  /** Each description field is decoded into its own member, and the next one follows. */
  lemma StageDecodes(desc: seq<RowDesc>, idx: nat, stage: DescStage, d: RowDesc, rest: bytes)
    requires idx < |desc| && DescOk(d)
    ensures var c := DescField(desc, idx, stage);
            RunFields(BODY, c, Start(c), EncodeStage(d, stage) + rest) ==
            RunNext(BODY, AfterStage(desc, idx, stage, d), rest)
  {
    var enc := EncodeStage(d, stage);
    if stage.Name? {
      TextField(d.fieldName, rest);
    } else {
      IntField(|enc|, enc, rest);
      if |enc| == 2 {
        var n := if stage.Attribute? then d.attribute else if stage.Size? then FromInt16(d.typeSize) else d.format;
        Be16RoundTrip(n, enc);
      } else {
        Be32RoundTrip(if stage.Table? then d.tableId else if stage.Type? then d.typeId else d.modifier, enc);
      }
    }
  }

  lemma StageLayout(d: RowDesc, stage: DescStage, rest: bytes)
    requires DescOk(d)
    ensures EncodeFrom(d, stage) + rest ==
            EncodeStage(d, stage) + if stage.Format? then rest else EncodeFrom(d, Following(stage)) + rest
  {
  }

  lemma {:induction false} ColumnDecodes(desc: seq<RowDesc>, idx: nat, stage: DescStage, d: RowDesc, rest: bytes)
    requires idx < |desc| && DescOk(d)
    ensures var c := DescField(desc, idx, stage);
            RunFields(BODY, c, Start(c), EncodeFrom(d, stage) + rest) ==
            RunNext(BODY, NextColumn(desc[idx := WithFrom(desc[idx], stage, d)], idx), rest)
    decreases StagesLeft(stage)
  {
    StageLayout(d, stage, rest);
    if stage.Format? {
      StageDecodes(desc, idx, stage, d, rest);
    } else {
      var more := EncodeFrom(d, Following(stage)) + rest;
      var desc' := desc[idx := WithStage(desc[idx], stage, d)];
      assert desc'[idx := WithFrom(desc'[idx], Following(stage), d)] == desc[idx := WithFrom(desc[idx], stage, d)];
      ColumnDecodes(desc', idx, Following(stage), d, rest);
      StageDecodes(desc, idx, stage, d, more);
    }
  }

  /** A description field that was full was the wire form of some value of it. */
  lemma StageTaken(desc: seq<RowDesc>, idx: nat, stage: DescStage, bs: bytes) returns (d: RowDesc, rest: bytes)
    requires idx < |desc|
    requires RunFields(BODY, DescField(desc, idx, stage), Start(DescField(desc, idx, stage)), bs).Yielded?
    ensures DescOk(d) && bs == EncodeStage(d, stage) + rest
  {
    var c := DescField(desc, idx, stage);
    d := BLANK;
    if stage.Name? {
      var name;
      name, rest := TextTaken(bs);
      d := d.(fieldName := name);
    } else {
      var size := |Start(c).mem|;
      var enc;
      enc, rest := IntTaken(size, bs);
      if size == 2 {
        var n := FromBe16(enc);
        Be16RoundTrip(n, enc);
        d := if stage.Attribute? then d.(attribute := n)
             else if stage.Size? then d.(typeSize := ToInt16(n)) else d.(format := n);
      } else {
        var n := FromBe32(enc);
        Be32RoundTrip(n, enc);
        d := if stage.Table? then d.(tableId := n) else if stage.Type? then d.(typeId := n) else d.(modifier := n);
      }
    }
  }

  /** The wire form from a stage on does not depend on the members of earlier stages. */
  lemma {:induction false} EncodeFromLocal(d: RowDesc, e: RowDesc, stage: DescStage)
    requires DescOk(d) && DescOk(e) && WithFrom(d, stage, e) == d
    ensures EncodeFrom(d, stage) == EncodeFrom(e, stage)
    decreases StagesLeft(stage)
  {
    if !stage.Format? {
      EncodeFromLocal(d, e, Following(stage));
    }
  }

  lemma StagesLocal(d: RowDesc, stage: DescStage, d0: RowDesc)
    requires DescOk(d) && DescOk(d0) && !stage.Format?
    ensures DescOk(WithStage(d, stage, d0))
    ensures EncodeStage(WithStage(d, stage, d0), stage) == EncodeStage(d0, stage)
    ensures EncodeFrom(WithStage(d, stage, d0), Following(stage)) == EncodeFrom(d, Following(stage))
  {
    EncodeFromLocal(WithStage(d, stage, d0), d, Following(stage));
  }

  lemma {:induction false} ColumnTaken(desc: seq<RowDesc>, idx: nat, stage: DescStage, bs: bytes)
    returns (d: RowDesc, rest: bytes)
    requires idx < |desc|
    requires RunFields(BODY, DescField(desc, idx, stage), Start(DescField(desc, idx, stage)), bs).Yielded?
    ensures DescOk(d) && bs == EncodeFrom(d, stage) + rest
    decreases StagesLeft(stage)
  {
    var d0, rest0 := StageTaken(desc, idx, stage, bs);
    StageDecodes(desc, idx, stage, d0, rest0);
    if stage.Format? {
      d, rest := d0, rest0;
    } else {
      var d1;
      d1, rest := ColumnTaken(desc[idx := WithStage(desc[idx], stage, d0)], idx, Following(stage), rest0);
      d := WithStage(d1, stage, d0);
      StagesLocal(d1, stage, d0);
    }
    StageLayout(d, stage, rest);
  }

  predicate ColumnsOk(desc: seq<RowDesc>) {
    forall d :: d in desc ==> DescOk(d)
  }

  function EncodeColumns(desc: seq<RowDesc>): bytes
    requires ColumnsOk(desc)
  {
    if desc == [] then [] else EncodeColumn(desc[0]) + EncodeColumns(desc[1..])
  }

  predicate DescriptionOk(desc: seq<RowDesc>) {
    |desc| < TWO_16 && ColumnsOk(desc)
  }

  function EncodeDescription(desc: seq<RowDesc>): bytes
    requires DescriptionOk(desc)
  {
    ToBe16(|desc|) + EncodeColumns(desc)
  }

  lemma WholeColumn(d0: RowDesc, d: RowDesc)
    ensures WithFrom(d0, Name, d) == d
  {
    var d3 := WithStage(WithStage(WithStage(d0, Name, d), Table, d), Attribute, d);
    assert WithFrom(d0, Name, d) == WithFrom(d3, Type, d);
  }

  /** The wire form of one column. */
  function EncodeColumn(d: RowDesc): bytes
    requires DescOk(d)
  {
    EncodeFrom(d, Name)
  }

  /** One whole column. */
  lemma ColumnRead(desc: seq<RowDesc>, idx: nat, d: RowDesc, rest: bytes)
    requires idx < |desc| && DescOk(d)
    ensures RunFields(BODY, DescField(desc, idx, Name), StringP([]), EncodeColumn(d) + rest) ==
            RunNext(BODY, NextColumn(desc[idx := d], idx), rest)
  {
    ColumnDecodes(desc, idx, Name, d, rest);
    WholeColumn(desc[idx], d);
  }

  /** A column in its place is the last one, or leaves the others to be put behind it. */
  lemma ColumnPlaced(desc: seq<RowDesc>, idx: nat, cols: seq<RowDesc>)
    requires idx < |desc| && |cols| == |desc| - idx
    ensures |cols| == 1 ==> NextColumn(desc[idx := cols[0]], idx) == Yield(Description(desc[..idx] + cols))
    ensures |cols| > 1 ==> NextColumn(desc[idx := cols[0]], idx) == Go(DescField(desc[idx := cols[0]], idx + 1, Name))
    ensures |cols| > 1 ==> desc[idx := cols[0]][..idx + 1] + cols[1..] == desc[..idx] + cols
  {
    var desc' := desc[idx := cols[0]];
    if |cols| == 1 {
      assert desc' == desc[..idx] + cols;
    } else {
      assert desc'[..idx + 1] + cols[1..] == desc[..idx] + cols;
    }
  }

  lemma {:induction false} ColumnsDecode(desc: seq<RowDesc>, idx: nat, cols: seq<RowDesc>, rest: bytes)
    requires idx < |desc| && |cols| == |desc| - idx && ColumnsOk(cols)
    ensures RunFields(BODY, DescField(desc, idx, Name), StringP([]), EncodeColumns(cols) + rest) ==
            Yielded(Description(desc[..idx] + cols), rest)
    decreases |cols|
  {
    ColumnsTailOk(cols);
    ColumnsLayout(cols, rest);
    ColumnPlaced(desc, idx, cols);
    if |cols| == 1 {
      NoColumns(rest);
    } else {
      ColumnsDecode(desc[idx := cols[0]], idx + 1, cols[1..], rest);
    }
    ColumnRead(desc, idx, cols[0], EncodeColumns(cols[1..]) + rest);
  }

  lemma OneColumnTaken(desc: seq<RowDesc>, idx: nat, bs: bytes) returns (d: RowDesc, rest: bytes)
    requires idx < |desc| && RunFields(BODY, DescField(desc, idx, Name), StringP([]), bs).Yielded?
    ensures DescOk(d) && bs == EncodeColumn(d) + rest
  {
    d, rest := ColumnTaken(desc, idx, Name, bs);
  }

  lemma {:induction false} ColumnsTaken(desc: seq<RowDesc>, idx: nat, bs: bytes)
    returns (cols: seq<RowDesc>, rest: bytes)
    requires idx < |desc| && RunFields(BODY, DescField(desc, idx, Name), StringP([]), bs).Yielded?
    ensures |cols| == |desc| - idx && ColumnsOk(cols) && bs == EncodeColumns(cols) + rest
    decreases |desc| - idx
  {
    var d, rest0 := OneColumnTaken(desc, idx, bs);
    ColumnRead(desc, idx, d, rest0);
    var cols1: seq<RowDesc> := [];
    rest := rest0;
    if idx + 1 < |desc| {
      cols1, rest := ColumnsTaken(desc[idx := d], idx + 1, rest0);
    }
    cols := [d] + cols1;
    assert cols[1..] == cols1;
    NoColumns(rest);
    ColumnsTailOk(cols);
    ColumnsLayout(cols, rest);
  }

  lemma DescriptionLayout(desc: seq<RowDesc>, rest: bytes)
    requires DescriptionOk(desc)
    ensures EncodeDescription(desc) + rest == ToBe16(|desc|) + (EncodeColumns(desc) + rest)
  {
  }

  lemma ColumnsTailOk(desc: seq<RowDesc>)
    requires desc != []
    ensures ColumnsOk(desc) <==> DescOk(desc[0]) && ColumnsOk(desc[1..])
  {
    assert desc == [desc[0]] + desc[1..];
  }

  lemma ColumnsLayout(desc: seq<RowDesc>, rest: bytes)
    requires desc != [] && ColumnsOk(desc) && DescOk(desc[0]) && ColumnsOk(desc[1..])
    ensures EncodeColumns(desc) + rest == EncodeColumn(desc[0]) + (EncodeColumns(desc[1..]) + rest)
  {
    Assoc(EncodeColumn(desc[0]), EncodeColumns(desc[1..]), rest);
  }

  lemma NoColumns(rest: bytes)
    ensures EncodeColumns([]) + rest == rest
  {
  }

  /** row_description::on_body decodes an encoded description to its columns. */
  lemma DescriptionDecodes(desc: seq<RowDesc>, rest: bytes)
    requires DescriptionOk(desc)
    ensures RunFields(BODY, DescCount, NewInteger(2), EncodeDescription(desc) + rest) ==
            Yielded(Description(desc), rest)
  {
    var more := EncodeColumns(desc) + rest;
    Be16RoundTrip(|desc|, ToBe16(|desc|));
    DescriptionLayout(desc, rest);
    IntField(2, ToBe16(|desc|), more);
    if desc == [] {
      assert more == rest;
    } else {
      var start := seq(|desc|, _ => BLANK);
      ColumnsDecode(start, 0, desc, rest);
      assert start[..0] + desc == desc;
    }
  }

  /** Whatever row_description::on_body accepts is an encoded description. */
  lemma DescriptionTaken(bs: bytes) returns (desc: seq<RowDesc>, rest: bytes)
    requires RunFields(BODY, DescCount, NewInteger(2), bs).Yielded?
    ensures DescriptionOk(desc) && bs == EncodeDescription(desc) + rest
  {
    var enc, more := IntTaken(2, bs);
    var n := FromBe16(enc);
    Be16RoundTrip(n, enc);
    desc, rest := [], more;
    if n > 0 {
      desc, rest := ColumnsTaken(seq(n, _ => BLANK), 0, more);
    } else {
      NoColumns(more);
    }
    DescriptionLayout(desc, rest);
  }

  // ---- error_response and notice_response ----

  /** A field of an ErrorResponse; the 'C' field is read as six bytes, its last one unchecked. */
  datatype ErrField = Code(chars: bytes) | Text(kind: byte, text: bytes)

  predicate ErrFieldOk(f: ErrField) {
    match f
    case Code(chars) => |chars| == 6
    case Text(kind, text) => kind != 0 && kind != 'C' as int && NoNul(text)
  }

  function EncodeErrField(f: ErrField): bytes {
    match f
    case Code(chars) => ['C' as int] + chars
    case Text(kind, text) => [kind] + Terminated(text)
  }

  function EncodeErrFields(fs: seq<ErrField>): bytes {
    if fs == [] then [0] else EncodeErrField(fs[0]) + EncodeErrFields(fs[1..])
  }

  predicate ErrFieldsOk(fs: seq<ErrField>) {
    forall f :: f in fs ==> ErrFieldOk(f)
  }

  /** The SQLSTATE an error ends up with: the first five bytes of its last 'C' field. */
  function SqlState(fs: seq<ErrField>, ec: Option<bytes>): Option<bytes> {
    if fs == [] then ec
    else SqlState(fs[1..], if fs[0].Code? && |fs[0].chars| == 6 then Some(fs[0].chars[..5]) else ec)
  }

  lemma TypeField(kind: byte, rest: bytes)
    ensures ScanField(FieldStep, ByteP(0), [kind] + rest) == Field(ByteP(kind), rest)
  {
    assert ([kind] + rest)[1..] == rest;
  }

  lemma {:induction false} CharsScan(chars: bytes, bs: bytes)
    requires |chars| < 6
    ensures var k := Min(6 - |chars|, |bs|);
            ScanField(FieldStep, ArrayP(6, chars), bs) ==
            if |chars| + k < 6 then Partial(ArrayP(6, chars + bs)) else Field(ArrayP(6, chars + bs[..k]), bs[k..])
    decreases |bs|
  {
    if bs == [] {
      assert chars + bs == chars;
    } else if |chars| == 5 {
      assert bs[..1] == [bs[0]];
    } else {
      var k := Min(6 - |chars|, |bs|);
      CharsScan(chars + [bs[0]], bs[1..]);
      assert chars + [bs[0]] + bs[1..] == chars + bs;
      assert chars + [bs[0]] + bs[1..][..k - 1] == chars + bs[..k];
    }
  }

  lemma ErrCodeDecodes(ec: Option<bytes>, chars: bytes, rest: bytes)
    requires |chars| == 6
    ensures RunFields(BODY, ErrCode(ec), ArrayP(6, []), chars + rest) ==
            RunFields(BODY, ErrType(Some(chars[..5])), ByteP(0), rest)
  {
    CharsScan([], chars + rest);
    assert [] + (chars + rest)[..6] == chars && (chars + rest)[6..] == rest;
  }

  lemma ErrFieldDecodes(ec: Option<bytes>, f: ErrField, rest: bytes)
    requires ErrFieldOk(f)
    ensures RunFields(BODY, ErrType(ec), ByteP(0), EncodeErrField(f) + rest) ==
            RunFields(BODY, ErrType(if f.Code? then Some(f.chars[..5]) else ec), ByteP(0), rest)
  {
    if f.Code? {
      Assoc(['C' as int], f.chars, rest);
      TypeField('C' as int, f.chars + rest);
      ErrCodeDecodes(ec, f.chars, rest);
    } else {
      Assoc([f.kind], Terminated(f.text), rest);
      TypeField(f.kind, Terminated(f.text) + rest);
      TextField(f.text, rest);
    }
  }

  /** error_response::on_body decodes an encoded field list to its SQLSTATE. */
  lemma {:induction false} ErrorDecodes(ec: Option<bytes>, fs: seq<ErrField>, rest: bytes)
    requires ErrFieldsOk(fs)
    ensures RunFields(BODY, ErrType(ec), ByteP(0), EncodeErrFields(fs) + rest) == Yielded(Error(SqlState(fs, ec)), rest)
    decreases |fs|
  {
    if fs == [] {
      TypeField(0, rest);
    } else {
      var more := EncodeErrFields(fs[1..]) + rest;
      assert EncodeErrFields(fs) + rest == EncodeErrField(fs[0]) + more;
      ErrFieldDecodes(ec, fs[0], more);
      ErrorDecodes(if fs[0].Code? then Some(fs[0].chars[..5]) else ec, fs[1..], rest);
    }
  }

  lemma CodeTaken(ec: Option<bytes>, bs: bytes) returns (chars: bytes, rest: bytes)
    requires RunFields(BODY, ErrCode(ec), ArrayP(6, []), bs).Yielded?
    ensures |chars| == 6 && bs == chars + rest
  {
    CharsScan([], bs);
    chars, rest := bs[..6], bs[6..];
  }

  lemma KindRead(ec: Option<bytes>, kind: byte, more: bytes)
    requires kind != 0
    ensures RunFields(BODY, ErrType(ec), ByteP(0), [kind] + more) ==
            RunNext(BODY, Go(if kind == 'C' as int then ErrCode(ec) else ErrText(ec)), more)
  {
    TypeField(kind, more);
  }

  lemma ErrFieldTaken(ec: Option<bytes>, bs: bytes) returns (f: ErrField, rest: bytes)
    requires bs != [] && bs[0] != 0 && RunFields(BODY, ErrType(ec), ByteP(0), bs).Yielded?
    ensures ErrFieldOk(f) && bs == EncodeErrField(f) + rest
  {
    var kind, more := bs[0], bs[1..];
    assert bs == [kind] + more;
    KindRead(ec, kind, more);
    var part;
    if kind == 'C' as int {
      part, rest := CodeTaken(ec, more);
      f := Code(part);
      Assoc([kind], part, rest);
    } else {
      part, rest := TextTaken(more);
      f := Text(kind, part);
      Assoc([kind], Terminated(part), rest);
    }
  }

  /** Whatever error_response::on_body accepts is an encoded field list. */
  lemma {:induction false} ErrorTaken(ec: Option<bytes>, bs: bytes) returns (fs: seq<ErrField>, rest: bytes)
    requires RunFields(BODY, ErrType(ec), ByteP(0), bs).Yielded?
    ensures ErrFieldsOk(fs) && bs == EncodeErrFields(fs) + rest
    decreases |bs|
  {
    if bs[0] == 0 {
      fs, rest := [], bs[1..];
      assert bs == [0] + rest;
    } else {
      var f, rest0 := ErrFieldTaken(ec, bs);
      ErrFieldDecodes(ec, f, rest0);
      var fs1;
      fs1, rest := ErrorTaken(if f.Code? then Some(f.chars[..5]) else ec, rest0);
      fs := [f] + fs1;
      assert fs[1..] == fs1;
      assert bs == EncodeErrFields(fs) + rest;
    }
  }

  predicate NoteFieldOk(f: ErrField) {
    f.Text? && f.kind != 0 && NoNul(f.text)
  }

  predicate NoteFieldsOk(fs: seq<ErrField>) {
    forall f :: f in fs ==> NoteFieldOk(f)
  }

  lemma NoteFieldDecodes(f: ErrField, rest: bytes)
    requires NoteFieldOk(f)
    ensures RunFields(BODY, NoticeType, ByteP(0), EncodeErrField(f) + rest) ==
            RunFields(BODY, NoticeType, ByteP(0), rest)
  {
    Assoc([f.kind], Terminated(f.text), rest);
    TypeField(f.kind, Terminated(f.text) + rest);
    TextField(f.text, rest);
  }

  /** notice_response::on_body skips an encoded field list. */
  lemma {:induction false} NoticeDecodes(fs: seq<ErrField>, rest: bytes)
    requires NoteFieldsOk(fs)
    ensures RunFields(BODY, NoticeType, ByteP(0), EncodeErrFields(fs) + rest) == Yielded(Notice, rest)
    decreases |fs|
  {
    if fs == [] {
      TypeField(0, rest);
    } else {
      var more := EncodeErrFields(fs[1..]) + rest;
      assert EncodeErrFields(fs) + rest == EncodeErrField(fs[0]) + more;
      NoteFieldDecodes(fs[0], more);
      NoticeDecodes(fs[1..], rest);
    }
  }

  /** Whatever notice_response::on_body accepts is an encoded field list; 'C' is no special field here. */
  lemma {:induction false} NoticeTaken(bs: bytes) returns (fs: seq<ErrField>, rest: bytes)
    requires RunFields(BODY, NoticeType, ByteP(0), bs).Yielded?
    ensures NoteFieldsOk(fs) && bs == EncodeErrFields(fs) + rest
    decreases |bs|
  {
    if bs[0] == 0 {
      fs, rest := [], bs[1..];
      assert bs == [0] + rest;
    } else {
      var text, rest0 := TextTaken(bs[1..]);
      var f := Text(bs[0], text);
      assert bs == EncodeErrField(f) + rest0;
      NoteFieldDecodes(f, rest0);
      var fs1;
      fs1, rest := NoticeTaken(rest0);
      fs := [f] + fs1;
      assert fs[1..] == fs1;
      assert bs == EncodeErrFields(fs) + rest;
    }
  }

  // ---- backend_key_data and authentication ----

  lemma KeyDecodes(processId: nat, secretKey: nat, rest: bytes)
    requires processId < TWO_32 && secretKey < TWO_32
    ensures RunFields(BODY, KeyProcess, NewInteger(4), ToBe32(processId) + ToBe32(secretKey) + rest) ==
            Yielded(KeyData(processId, secretKey), rest)
  {
    Be32RoundTrip(processId, ToBe32(processId));
    Be32RoundTrip(secretKey, ToBe32(secretKey));
    Assoc(ToBe32(processId), ToBe32(secretKey), rest);
    IntField(4, ToBe32(secretKey), rest);
    IntField(4, ToBe32(processId), ToBe32(secretKey) + rest);
  }

  lemma KeyTaken(bs: bytes) returns (processId: nat, secretKey: nat, rest: bytes)
    requires RunFields(BODY, KeyProcess, NewInteger(4), bs).Yielded?
    ensures processId < TWO_32 && secretKey < TWO_32 && bs == ToBe32(processId) + ToBe32(secretKey) + rest
  {
    var enc, more := IntTaken(4, bs);
    processId := FromBe32(enc);
    Be32RoundTrip(processId, enc);
    assert RunFields(BODY, KeyProcess, NewInteger(4), bs) == RunFields(BODY, KeySecret(processId), NewInteger(4), more);
    var enc2;
    enc2, rest := IntTaken(4, more);
    secretKey := FromBe32(enc2);
    Be32RoundTrip(secretKey, enc2);
    Assoc(enc, enc2, rest);
  }

  predicate RequestOk(request: AuthRequest) {
    match request
    case Method(code) => code in {0, 2, 3, 7, 9}
    case Md5(salt) => |salt| == 4
    case Sasl(mechanism) => NoNul(mechanism)
  }

  function CodeOf(request: AuthRequest): (code: nat)
    requires RequestOk(request)
    ensures code < TWO_16
  {
    match request
    case Method(code) => code
    case Md5(_) => 5
    case Sasl(_) => 10
  }

  function EncodeRequest(request: AuthRequest): bytes
    requires RequestOk(request)
  {
    ToBe32(CodeOf(request)) + Detail(request)
  }

  function Detail(request: AuthRequest): bytes {
    match request
    case Method(_) => []
    case Md5(salt) => salt
    case Sasl(mechanism) => Terminated(mechanism)
  }

  /** authentication::on_body decodes an encoded request. */
  lemma RequestDecodes(request: AuthRequest, rest: bytes)
    requires RequestOk(request)
    ensures RunFields(BODY, AuthMethod, NewInteger(4), EncodeRequest(request) + rest) == Yielded(Asked(request), rest)
  {
    var code := CodeOf(request);
    Be32RoundTrip(code, ToBe32(code));
    Assoc(ToBe32(code), Detail(request), rest);
    IntField(4, ToBe32(code), Detail(request) + rest);
    DetailDecodes(request, rest);
  }

  /** Whatever authentication::on_body accepts is an encoded request. */
  lemma RequestTaken(bs: bytes) returns (request: AuthRequest, rest: bytes)
    requires RunFields(BODY, AuthMethod, NewInteger(4), bs).Yielded?
    ensures RequestOk(request) && bs == EncodeRequest(request) + rest
  {
    var enc, more := IntTaken(4, bs);
    var code := FromBe32(enc);
    Be32RoundTrip(code, enc);
    assert RunFields(BODY, AuthMethod, NewInteger(4), bs) == RunNext(BODY, StoreMethod(code), more);
    request, rest := DetailTaken(code, more);
    Assoc(enc, Detail(request), rest);
  }

  lemma DetailTaken(code: nat, bs: bytes) returns (request: AuthRequest, rest: bytes)
    requires RunNext(BODY, StoreMethod(code), bs).Yielded?
    ensures RequestOk(request) && CodeOf(request) == code && bs == Detail(request) + rest
  {
    if code == MD5_PASSWORD {
      var salt;
      salt, rest := IntTaken(4, bs);
      request := Md5(salt);
    } else if code == SASL {
      var mechanism;
      mechanism, rest := TextTaken(bs);
      request := Sasl(mechanism);
    } else {
      request, rest := Method(code), bs;
      assert [] + rest == rest;
    }
  }

  lemma DetailDecodes(request: AuthRequest, rest: bytes)
    requires RequestOk(request)
    ensures RunNext(BODY, StoreMethod(CodeOf(request)), Detail(request) + rest) == Yielded(Asked(request), rest)
  {
    match request
    case Method(_) => assert [] + rest == rest;
    case Md5(salt) => IntField(4, salt, rest);
    case Sasl(mechanism) => TextField(mechanism, rest);
  }
}
