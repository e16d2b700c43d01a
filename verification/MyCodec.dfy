/**
 The packet payloads as the protocol lays them out (MySQL Client/Server Protocol: LengthEncodedInteger,
 LengthEncodedString, ColumnDefinition41, Text Resultset Row, OK_Packet, ERR_Packet), written as encoders,
 and the proof that the packet parsers decode them to what was encoded.
 */
module MyCodec {
  import opened Bytes
  import opened Buffers
  import opened Machine
  import opened MyFields
  import opened MyPackets

  // ---- integers ----

  /** The low `size` bytes of a number, lowest first: what memcpy takes from an integer. */
  function ToLe(n: nat, size: nat): (b: bytes)
    ensures |b| == size
  {
    if size == 0 then [] else [n % 256] + ToLe(n / 256, size - 1)
  }

  /** The numbers of `size` bytes. */
  function Power(size: nat): (n: nat) {
    if size == 0 then 1 else 256 * Power(size - 1)
  }

  lemma {:induction false} LeRoundTrip(n: nat, size: nat)
    requires n < Power(size)
    ensures FromLe(ToLe(n, size)) == n
  {
    if size > 0 {
      assert ToLe(n, size)[1..] == ToLe(n / 256, size - 1);
      LeRoundTrip(n / 256, size - 1);
    }
  }

  lemma {:induction false} LeInverse(b: bytes)
    ensures ToLe(FromLe(b), |b|) == b
  {
    if b != [] {
      LeInverse(b[1..]);
      Lowest(b[0], FromLe(b[1..]));
      assert b == [b[0]] + b[1..];
    }
  }

  lemma Lowest(b: byte, more: nat)
    ensures (b + 256 * more) % 256 == b && (b + 256 * more) / 256 == more
  {
  }

  lemma {:induction false} FromLeBound(b: bytes)
    ensures FromLe(b) < Power(|b|)
  {
    if b != [] {
      FromLeBound(b[1..]);
    }
  }

  lemma {:induction false} FromLeSplit(a: bytes, b: bytes)
    ensures FromLe(a + b) == FromLe(a) + Power(|a|) * FromLe(b)
  {
    if a == [] {
      assert a + b == b;
    } else {
      assert (a + b)[1..] == a[1..] + b;
      FromLeSplit(a[1..], b);
    }
  }

  lemma Powers()
    ensures Power(1) == 256 && Power(2) == TWO_16 && Power(3) == TWO_24 && Power(4) == TWO_32 && Power(8) == TWO_64
  {
    assert Power(5) == 256 * TWO_32 && Power(6) == TWO_16 * TWO_32;
  }

  /** lenenc_integer. */
  function LenencInt(n: nat): bytes {
    if n < 251 then [n]
    else if n < TWO_16 then [0xfc] + ToLe(n, 2)
    else if n < TWO_24 then [0xfd] + ToLe(n, 3)
    else [0xfe] + ToLe(n, 8)
  }

  /** lenenc_int_bound. */
  function LenencIntBound(n: nat): nat {
    if n < 251 then 1 else if n < TWO_16 then 3 else if n < TWO_24 then 4 else 9
  }

  /** A tag and the bytes of a wider integer. */
  method PutTagged(tag: byte, low: bytes, dest: array<byte>, ptr: nat, ghost w: bytes) returns (ptr': nat)
    requires Written(dest, w) && ptr == |w| && |w| + 1 + |low| <= dest.Length
    modifies dest
    ensures Written(dest, w + ([tag] + low)) && ptr' == ptr + 1 + |low|
  {
    ptr' := PutByte(dest, ptr, tag, w);
    ptr' := PutBytes(dest, ptr', low, w + [tag]);
    assert w + [tag] + low == w + ([tag] + low);
  }

  /** lenenc_integer writes exactly lenenc_int_bound bytes through dest. */
  method LenencInteger(n: nat, dest: array<byte>, ptr: nat, ghost w: bytes) returns (ptr': nat)
    requires Written(dest, w) && ptr == |w| && |w| + LenencIntBound(n) <= dest.Length
    modifies dest
    ensures Written(dest, w + LenencInt(n)) && ptr' == ptr + LenencIntBound(n)
  {
    if n < 251 {
      ptr' := PutByte(dest, ptr, n, w);
    } else if n < TWO_16 {
      ptr' := PutTagged(0xfc, ToLe(n, 2), dest, ptr, w);
    } else if n < TWO_24 {
      ptr' := PutTagged(0xfd, ToLe(n, 3), dest, ptr, w);
    } else {
      ptr' := PutTagged(0xfe, ToLe(n, 8), dest, ptr, w);
    }
  }

  /** lenenc_str. */
  function LenencStr(s: bytes): bytes {
    LenencInt(|s|) + s
  }

  /** lenenc_str writes exactly lenenc_str_bound bytes through dest. */
  method LenencString(s: bytes, dest: array<byte>, ptr: nat, ghost w: bytes) returns (ptr': nat)
    requires Written(dest, w) && ptr == |w| && |w| + LenencIntBound(|s|) + |s| <= dest.Length
    modifies dest
    ensures Written(dest, w + LenencStr(s)) && ptr' == ptr + LenencIntBound(|s|) + |s|
  {
    ptr' := LenencInteger(|s|, dest, ptr, w);
    ptr' := PutBytes(dest, ptr', s, w + LenencInt(|s|));
    assert w + LenencInt(|s|) + s == w + LenencStr(s);
  }

  /** What the parser's shifts make of the bytes from `digit` on. */
  function Gathered(result: nat, b: bytes, digit: nat): (n: nat)
    decreases |b|
  {
    if b == [] then result else Gathered(AddShifted(result, b[0], digit), b[1..], digit + 1)
  }

  /** An integer whose width is known gathers its bytes. */
  lemma {:induction false} IntGathers(i: LenInt, b: bytes, rest: bytes)
    requires i.target > 0 && b != [] && i.digits + |b| == i.target
    ensures ScanField(IntStep, i, b + rest) == Field(LenInt(i.target, i.target, Gathered(i.result, b, i.digits)), rest)
    decreases |b|
  {
    assert (b + rest)[1..] == b[1..] + rest;
    var i' := LenInt(i.digits + 1, i.target, AddShifted(i.result, b[0], i.digits));
    if |b| == 1 {
      assert b[1..] + rest == rest;
    } else {
      IntGathers(i', b[1..], rest);
    }
  }

  lemma {:induction false} FixedGathers(p: FieldParser, b: bytes, rest: bytes)
    requires p.FixedP? && b != [] && p.digits + |b| == p.size
    ensures ScanField(FieldStep, p, b + rest) == Field(FixedP(p.size, p.size, Gathered(p.result, b, p.digits)), rest)
    decreases |b|
  {
    assert (b + rest)[1..] == b[1..] + rest;
    var p' := FixedP(p.size, p.digits + 1, AddShifted(p.result, b[0], p.digits));
    if |b| == 1 {
      assert b[1..] + rest == rest;
    } else {
      FixedGathers(p', b[1..], rest);
    }
  }

  lemma {:induction false} GatheredSplit(result: nat, a: bytes, b: bytes, digit: nat)
    ensures Gathered(result, a + b, digit) == Gathered(Gathered(result, a, digit), b, digit + |a|)
    decreases |a|
  {
    if a == [] {
      assert a + b == b;
    } else {
      assert (a + b)[1..] == a[1..] + b;
      GatheredSplit(AddShifted(result, a[0], digit), a[1..], b, digit + 1);
    }
  }

  /** A 32-bit register as a 64-bit one. */
  function SignExtended(n: nat): nat {
    if n >= TWO_31 then n + INT_SIGN else n
  }

  lemma Wrapped(a: nat, b: nat)
    ensures (a % TWO_64 + b) % TWO_64 == (a + b) % TWO_64
  {
  }

  /** One byte's share of a word. */
  lemma Share(b: byte, more: nat, size: nat, digit: nat)
    requires 0 < size && digit % 4 + size <= 4 && more < Power(size - 1)
    ensures size == 1 ==> more == 0
    ensures size > 1 ==>
              && b * Weight(digit) < TWO_31
              && b * Weight(digit) + SignExtended(more * Weight(digit + 1)) ==
                 SignExtended((b + 256 * more) * Weight(digit))
  {
    match digit % 4
    case 0 => assert Weight(digit) == 1 && (size > 1 ==> Weight(digit + 1) == 256);
    case 1 => assert Weight(digit) == 256 && (size > 1 ==> Weight(digit + 1) == TWO_16);
    case 2 => assert Weight(digit) == TWO_16 && (size > 1 ==> Weight(digit + 1) == TWO_24);
    case _ => assert size == 1;
  }

  lemma ShiftedByte(result: nat, b: byte, digit: nat)
    requires result < TWO_64
    ensures AddShifted(result, b, digit) == (result + SignExtended(b * Weight(digit))) % TWO_64
  {
    assert b * Weight(digit) < TWO_32 by {
      match digit % 4
      case 0 => assert Weight(digit) == 1;
      case 1 => assert Weight(digit) == 256;
      case 2 => assert Weight(digit) == TWO_16;
      case _ => assert Weight(digit) == TWO_24;
    }
  }

  /** Within a word, the bytes are gathered into a register whose sign is extended. */
  lemma {:induction false} GatherWord(result: nat, b: bytes, digit: nat)
    requires b != [] && digit % 4 + |b| <= 4 && result < TWO_64
    ensures Gathered(result, b, digit) == (result + SignExtended(FromLe(b) * Weight(digit))) % TWO_64
    decreases |b|
  {
    var shifted, more := b[0] * Weight(digit), FromLe(b[1..]);
    FromLeBound(b[1..]);
    Share(b[0], more, |b|, digit);
    ShiftedByte(result, b[0], digit);
    if |b| > 1 {
      GatherWord(AddShifted(result, b[0], digit), b[1..], digit + 1);
      Wrapped(result + shifted, SignExtended(more * Weight(digit + 1)));
    }
  }

  lemma WordBound(b: bytes)
    requires |b| <= 4
    ensures FromLe(b) < TWO_32 && (|b| < 4 ==> FromLe(b) < TWO_24)
  {
    FromLeBound(b);
    Powers();
    assert Power(0) == 1;
  }

  lemma WordValue(n: nat)
    requires n < TWO_32
    ensures n < TWO_24 ==> SignExtended(n) % TWO_64 == n
    ensures SignExtended(n) % TWO_64 == SignExtended(n)
    ensures SignExtended(n) % TWO_32 == n
  {
  }

  /** Up to three bytes, the shifts are exact; of four, the lowest 32 bits are. */
  lemma GatherSmall(b: bytes)
    requires 0 < |b| <= 4
    ensures |b| < 4 ==> Gathered(0, b, 0) == FromLe(b)
    ensures Gathered(0, b, 0) % TWO_32 == FromLe(b)
  {
    WordBound(b);
    WordValue(FromLe(b));
    GatherWord(0, b, 0);
  }

  lemma LongValue(low: nat, high: nat)
    requires low < TWO_32 && high < TWO_32
    ensures (SignExtended(low) + SignExtended(high)) % TWO_64 == low + TWO_32 * high <==> low + TWO_32 * high < TWO_31
  {
  }

  lemma GatherHalves(low: bytes, high: bytes)
    requires |low| == |high| == 4
    ensures Gathered(0, low + high, 0) == (SignExtended(FromLe(low)) + SignExtended(FromLe(high))) % TWO_64
  {
    var r := Gathered(0, low, 0);
    assert r == SignExtended(FromLe(low)) by {
      WordBound(low);
      WordValue(FromLe(low));
      GatherWord(0, low, 0);
    }
    GatheredSplit(0, low, high, 0);
    WordBound(low);
    GatherWord(r, high, 4);
  }

  lemma FromLeHalves(low: bytes, high: bytes)
    requires |low| == |high| == 4
    ensures FromLe(low + high) == FromLe(low) + TWO_32 * FromLe(high)
  {
    FromLeSplit(low, high);
    Powers();
  }

  /** Eight bytes: the upper four are shifted over the lower four, so only the first 31 bits are right. */
  lemma GatherLong(b: bytes)
    requires |b| == 8
    ensures Gathered(0, b, 0) == FromLe(b) <==> FromLe(b) < TWO_31
  {
    var low, high := b[..4], b[4..];
    assert b == low + high;
    WordBound(low);
    WordBound(high);
    GatherHalves(low, high);
    FromLeHalves(low, high);
    LongValue(FromLe(low), FromLe(high));
  }

  // ---- fields ----

  /** The parser when it has read the encoding of n. */
  function ReadInt(n: nat): LenInt {
    if n < 251 then LenInt(0, 0, n)
    else if n < TWO_16 then LenInt(2, 2, Gathered(0, ToLe(n, 2), 0))
    else if n < TWO_24 then LenInt(3, 3, Gathered(0, ToLe(n, 3), 0))
    else LenInt(8, 8, Gathered(0, ToLe(n, 8), 0))
  }

  lemma TaggedDecodes(tag: byte, low: bytes, rest: bytes)
    requires (tag == 0xfc && |low| == 2) || (tag == 0xfd && |low| == 3) || (tag == 0xfe && |low| == 8)
    ensures ScanField(IntStep, NEW_INT, [tag] + low + rest) == Field(LenInt(|low|, |low|, Gathered(0, low, 0)), rest)
  {
    var bs := [tag] + low + rest;
    assert bs[0] == tag && bs[1..] == low + rest;
    IntGathers(LenInt(0, |low|, 0), low, rest);
    assert ScanField(IntStep, NEW_INT, bs) == ScanField(IntStep, LenInt(0, |low|, 0), bs[1..]);
  }

  /** The integer parser takes exactly the bytes of the encoding. */
  lemma IntTakesEncoding(n: nat, rest: bytes)
    ensures ScanField(IntStep, NEW_INT, LenencInt(n) + rest) == Field(ReadInt(n), rest)
  {
    if n < 251 {
      var bs := [n] + rest;
      assert bs[0] == n && bs[1..] == rest;
    } else if n < TWO_16 {
      TaggedDecodes(0xfc, ToLe(n, 2), rest);
    } else if n < TWO_24 {
      TaggedDecodes(0xfd, ToLe(n, 3), rest);
    } else {
      TaggedDecodes(0xfe, ToLe(n, 8), rest);
    }
  }

  /** It returns the encoded number exactly when the number fits in 31 bits. */
  lemma IntRoundTrip(n: nat)
    requires n < TWO_64
    ensures ReadInt(n).result == n <==> n < TWO_31
  {
    Powers();
    if n < 251 {
    } else if n < TWO_16 {
      LeRoundTrip(n, 2);
      GatherSmall(ToLe(n, 2));
    } else if n < TWO_24 {
      LeRoundTrip(n, 3);
      GatherSmall(ToLe(n, 3));
    } else {
      LeRoundTrip(n, 8);
      GatherLong(ToLe(n, 8));
    }
  }

  /** A string whose length is read right is read right. */
  lemma StrTakesEncoding(s: LenStr, text: bytes, rest: bytes)
    requires s == NEW_STRING || s == NEW_SKIP
    requires |text| < TWO_31
    ensures ScanField(StrStep, s, LenencStr(text) + rest) ==
            Field(LenStr(ReadInt(|text|), Some(|text|), Insert(s.c, text)), rest)
  {
    var len := ReadInt(|text|);
    IntTakesEncoding(|text|, text + rest);
    IntRoundTrip(|text|);
    var bs := LenencStr(text) + rest;
    assert bs == LenencInt(|text|) + (text + rest);
    ScanLength(s, bs);
    var s' := s.(len := len, target := Some(|text|));
    if text == [] {
      assert text + rest == rest;
    } else {
      ScanContent(s', text + rest);
      assert (text + rest)[..|text|] == text && (text + rest)[|text|..] == rest;
    }
  }

  /** The string parser returns the encoded string exactly when its length fits in 31 bits. */
  lemma StrRoundTrip(text: bytes, rest: bytes)
    requires |text| < TWO_64
    ensures var scan := ScanField(StrStep, NEW_STRING, LenencStr(text) + rest);
            scan.Field? && scan.p.c == Kept(text) <==> |text| < TWO_31
  {
    IntRoundTrip(|text|);
    if |text| < TWO_31 {
      StrTakesEncoding(NEW_STRING, text, rest);
    } else {
      var len := ReadInt(|text|);
      IntTakesEncoding(|text|, text + rest);
      assert LenencStr(text) + rest == LenencInt(|text|) + (text + rest);
      ScanLength(NEW_STRING, LenencStr(text) + rest);
      if len.result > 0 {
        ScanContent(NEW_STRING.(len := len, target := Some(len.result)), text + rest);
      }
    }
  }

  /** fixed_length_integer, cut to its width. */
  lemma FixedTakesEncoding(n: nat, size: nat, rest: bytes)
    requires 0 < size <= 4 && n < Power(size)
    ensures var scan := ScanField(FieldStep, NewFixed(size), ToLe(n, size) + rest);
            && scan.Field? && scan.rest == rest && scan.p.FixedP?
            && (size < 4 ==> scan.p.result == n) && scan.p.result % TWO_32 == n
  {
    FixedGathers(NewFixed(size), ToLe(n, size), rest);
    LeRoundTrip(n, size);
    GatherSmall(ToLe(n, size));
  }

  // ---- rows ----

  /** A column of a row: 0xfb for NULL. */
  function EncodeCell(cell: Cell): bytes {
    match cell
    case None => [0xfb]
    case Some(text) => LenencStr(text)
  }

  function EncodeCells(cells: Row): bytes {
    if cells == [] then [] else EncodeCell(cells[0]) + EncodeCells(cells[1..])
  }

  predicate CellsFit(cells: Row) {
    forall i :: 0 <= i < |cells| && cells[i].Some? ==> |cells[i].value| < TWO_31
  }

  lemma FirstOfInt(n: nat, rest: bytes)
    ensures var b := (LenencInt(n) + rest)[0];
            b != 0xfb && b != 0xff && (b == 0xfe <==> n >= TWO_24) && (b == 0 <==> n == 0)
  {
  }

  lemma CellDecodes(n: nat, done: Row, cell: Cell, rest: bytes)
    requires cell.Some? ==> |cell.value| < TWO_31
    ensures RunFields(PAYLOAD, RowCells(n, done), CellP(false, NEW_STRING), EncodeCell(cell) + rest) ==
            RunNext(PAYLOAD, StoreCell(n, done, cell), rest)
  {
    var bs := EncodeCell(cell) + rest;
    match cell
    case None =>
      assert bs[0] == 0xfb && bs[1..] == rest;
    case Some(text) =>
      var q := CellScan(text, rest);
  }

  /** A string in a row is not taken for NULL. */
  lemma CellScan(text: bytes, rest: bytes) returns (q: FieldParser)
    requires |text| < TWO_31
    ensures ScanField(FieldStep, CellP(false, NEW_STRING), LenencStr(text) + rest) == Field(q, rest)
    ensures !q.NullP? && Text(q) == text
  {
    FirstOfInt(|text|, text + rest);
    Assoc(LenencInt(|text|), text, rest);
    StrTakesEncoding(NEW_STRING, text, rest);
    GuessString(CellP(false, NEW_STRING), LenencStr(text) + rest);
    q := CellP(true, LenStr(ReadInt(|text|), Some(|text|), Insert(Kept([]), text)));
    assert [] + text == text;
  }

  lemma CellsLayout(cells: Row, rest: bytes)
    requires cells != []
    ensures EncodeCells(cells) + rest == EncodeCell(cells[0]) + (EncodeCells(cells[1..]) + rest)
    ensures |cells| == 1 ==> EncodeCells(cells[1..]) + rest == rest
  {
    Assoc(EncodeCell(cells[0]), EncodeCells(cells[1..]), rest);
    assert [] + rest == rest;
  }

  lemma CellsDone(done: Row, cells: Row)
    requires cells != []
    ensures done + cells == done + [cells[0]] + cells[1..]
    ensures |cells| == 1 ==> done + cells == done + [cells[0]]
  {
  }

  /** A row that starts with `done` decodes to its cells. */
  lemma {:induction false} RowDecodes(n: nat, done: Row, cells: Row, rest: bytes)
    requires cells != [] && |done| + |cells| == n && CellsFit(cells)
    ensures RunFields(PAYLOAD, RowCells(n, done), CellP(false, NEW_STRING), EncodeCells(cells) + rest) ==
            Yielded(RowData(done + cells), rest)
    decreases |cells|
  {
    var cell, more := cells[0], EncodeCells(cells[1..]) + rest;
    CellsLayout(cells, rest);
    CellsDone(done, cells);
    CellDecodes(n, done, cell, more);
    var bs := EncodeCell(cell) + more;
    assert RunFields(PAYLOAD, RowCells(n, done), CellP(false, NEW_STRING), bs) ==
           RunNext(PAYLOAD, StoreCell(n, done, cell), more);
    if |cells| > 1 {
      RowDecodes(n, done + [cell], cells[1..], rest);
    }
  }

  // ---- column definitions ----

  /** A whole column definition, with the names the parser skips. */
  datatype FullColumn = FullColumn(
    schema: bytes, table: bytes, orgTable: bytes, orgName: bytes, filler: nat, def: ColumnDef)

  predicate ColumnFits(f: FullColumn) {
    && |f.schema| < TWO_31 && |f.table| < TWO_31 && |f.orgTable| < TWO_31
    && |f.def.name| < TWO_31 && |f.orgName| < TWO_31
    && f.def.characterSet < TWO_16 && f.def.columnLength < TWO_32 && f.def.kind < 256
    && f.def.flags < TWO_16 && f.def.decimals < 256 && f.filler < TWO_16
  }

  /** One field of a definition. */
  function ColumnField(stage: ColumnStage, f: FullColumn): bytes {
    match stage
    case Catalog => LenencStr(['d' as int, 'e' as int, 'f' as int])
    case Schema => LenencStr(f.schema)
    case Table => LenencStr(f.table)
    case OrgTable => LenencStr(f.orgTable)
    case Name => LenencStr(f.def.name)
    case OrgName => LenencStr(f.orgName)
    case LengthOfFixedLengthFields => ToLe(0x0c, 1)
    case CharacterSet => ToLe(f.def.characterSet, 2)
    case ColumnLength => ToLe(f.def.columnLength, 4)
    case Type => ToLe(f.def.kind, 1)
    case Flags => ToLe(f.def.flags, 2)
    case Decimals => ToLe(f.def.decimals, 1)
    case Unused => ToLe(f.filler, 2)
  }

  /** What the parser keeps of a field. */
  function Filled(stage: ColumnStage, d: ColumnDef, f: FullColumn): ColumnDef {
    match stage
    case Name => d.(name := f.def.name)
    case CharacterSet => d.(characterSet := f.def.characterSet)
    case ColumnLength => d.(columnLength := f.def.columnLength)
    case Type => d.(kind := f.def.kind)
    case Flags => d.(flags := f.def.flags)
    case Decimals => d.(decimals := f.def.decimals)
    case _ => d
  }

  function StageAfter(stage: ColumnStage): Option<ColumnStage> {
    match stage
    case Catalog => Some(Schema)
    case Schema => Some(Table)
    case Table => Some(OrgTable)
    case OrgTable => Some(Name)
    case Name => Some(OrgName)
    case OrgName => Some(LengthOfFixedLengthFields)
    case LengthOfFixedLengthFields => Some(CharacterSet)
    case CharacterSet => Some(ColumnLength)
    case ColumnLength => Some(Type)
    case Type => Some(Flags)
    case Flags => Some(Decimals)
    case Decimals => Some(Unused)
    case Unused => None
  }

  function Place(stage: ColumnStage): nat {
    match stage
    case Catalog => 12
    case Schema => 11
    case Table => 10
    case OrgTable => 9
    case Name => 8
    case OrgName => 7
    case LengthOfFixedLengthFields => 6
    case CharacterSet => 5
    case ColumnLength => 4
    case Type => 3
    case Flags => 2
    case Decimals => 1
    case Unused => 0
  }

  /** A definition from a field on. */
  function EncodeColumn(stage: ColumnStage, f: FullColumn): bytes
    decreases Place(stage), f
  {
    match StageAfter(stage)
    case Some(next) => ColumnField(stage, f) + EncodeColumn(next, f)
    case None => ColumnField(stage, f)
  }

  lemma StrField(skip: bool, text: bytes, rest: bytes) returns (q: FieldParser)
    requires |text| < TWO_31
    ensures ScanField(FieldStep, StringP(if skip then NEW_SKIP else NEW_STRING), LenencStr(text) + rest) ==
            Field(q, rest)
    ensures !skip ==> Text(q) == text
  {
    var s := if skip then NEW_SKIP else NEW_STRING;
    StrTakesEncoding(s, text, rest);
    LiftStr(s, LenencStr(text) + rest);
    q := StringP(LenStr(ReadInt(|text|), Some(|text|), Insert(s.c, text)));
    assert [] + text == text;
  }

  lemma NumberField(n: nat, size: nat, rest: bytes) returns (q: FieldParser)
    requires (size == 1 && n < 256) || (size == 2 && n < TWO_16) || (size == 4 && n < TWO_32)
    ensures ScanField(FieldStep, NewFixed(size), ToLe(n, size) + rest) == Field(q, rest)
    ensures IntValue(q) % TWO_32 == n && (size == 2 ==> IntValue(q) % TWO_16 == n)
    ensures (size == 1 ==> IntValue(q) % 256 == n)
    ensures size == 1 ==> IntValue(q) == n
  {
    Powers();
    FixedTakesEncoding(n, size, rest);
    q := ScanField(FieldStep, NewFixed(size), ToLe(n, size) + rest).p;
  }

  predicate Named(stage: ColumnStage) {
    Place(stage) > 6
  }

  lemma NameScan(stage: ColumnStage, d: ColumnDef, f: FullColumn, rest: bytes) returns (q: FieldParser)
    requires ColumnFits(f) && Named(stage)
    ensures ScanField(FieldStep, Start(Column(stage, d)), ColumnField(stage, f) + rest) == Field(q, rest)
    ensures Advance(Column(stage, d), q) == Stored(stage, d, f)
  {
    match stage
    case Catalog => q := StrField(false, DEF, rest);
    case Schema => q := StrField(true, f.schema, rest);
    case Table => q := StrField(true, f.table, rest);
    case OrgTable => q := StrField(true, f.orgTable, rest);
    case Name => q := StrField(false, f.def.name, rest);
    case OrgName => q := StrField(true, f.orgName, rest);
  }

  /** The number of a stage, and its width. */
  function ColumnNumber(stage: ColumnStage, f: FullColumn): (nat, nat) {
    match stage
    case LengthOfFixedLengthFields => (0x0c, 1)
    case CharacterSet => (f.def.characterSet, 2)
    case ColumnLength => (f.def.columnLength, 4)
    case Type => (f.def.kind, 1)
    case Flags => (f.def.flags, 2)
    case Decimals => (f.def.decimals, 1)
    case _ => (f.filler, 2)
  }

  lemma NumberScan(stage: ColumnStage, d: ColumnDef, f: FullColumn, rest: bytes) returns (q: FieldParser)
    requires ColumnFits(f) && !Named(stage)
    ensures ScanField(FieldStep, Start(Column(stage, d)), ColumnField(stage, f) + rest) == Field(q, rest)
    ensures Advance(Column(stage, d), q) == Stored(stage, d, f)
  {
    var (n, size) := ColumnNumber(stage, f);
    q := NumberField(n, size, rest);
    assert Start(Column(stage, d)) == NewFixed(size) && ColumnField(stage, f) == ToLe(n, size);
  }

  /** What the field of a stage leads to. */
  function Stored(stage: ColumnStage, d: ColumnDef, f: FullColumn): MyNext {
    match StageAfter(stage)
    case Some(next) => Go(Column(next, Filled(stage, d, f)))
    case None => Yield(Definition(d))
  }

  lemma ColumnTurn(stage: ColumnStage, d: ColumnDef, f: FullColumn, rest: bytes)
    requires ColumnFits(f)
    ensures RunFields(PAYLOAD, Column(stage, d), Start(Column(stage, d)), ColumnField(stage, f) + rest) ==
            RunNext(PAYLOAD, Stored(stage, d, f), rest)
  {
    var q;
    if Named(stage) {
      q := NameScan(stage, d, f, rest);
    } else {
      q := NumberScan(stage, d, f, rest);
    }
    Turn(Column(stage, d), ColumnField(stage, f), rest, q);
  }

  lemma FilledNext(stage: ColumnStage, d: ColumnDef, f: FullColumn)
    requires FilledBefore(stage, d, f)
    ensures StageAfter(stage).Some? ==>
              && FilledBefore(StageAfter(stage).value, Filled(stage, d, f), f)
              && Place(StageAfter(stage).value) < Place(stage)
    ensures StageAfter(stage).None? ==> d == f.def
  {
  }

  /** The fields before the stage are those of the definition. */
  predicate FilledBefore(stage: ColumnStage, d: ColumnDef, f: FullColumn) {
    var place := Place(stage);
    && (place < 8 ==> d.name == f.def.name) && (place < 5 ==> d.characterSet == f.def.characterSet)
    && (place < 4 ==> d.columnLength == f.def.columnLength) && (place < 3 ==> d.kind == f.def.kind)
    && (place < 2 ==> d.flags == f.def.flags) && (place < 1 ==> d.decimals == f.def.decimals)
  }

  lemma ColumnLayout(stage: ColumnStage, f: FullColumn, rest: bytes)
    ensures EncodeColumn(stage, f) + rest ==
            if StageAfter(stage).None? then ColumnField(stage, f) + rest
            else ColumnField(stage, f) + (EncodeColumn(StageAfter(stage).value, f) + rest)
  {
  }

  /** A definition, from a field on, decodes to what is kept of it. */
  lemma {:induction false} ColumnDecodes(stage: ColumnStage, d: ColumnDef, f: FullColumn, rest: bytes)
    requires ColumnFits(f) && FilledBefore(stage, d, f)
    ensures RunFields(PAYLOAD, Column(stage, d), Start(Column(stage, d)), EncodeColumn(stage, f) + rest) ==
            Yielded(Definition(f.def), rest)
    decreases Place(stage)
  {
    FilledNext(stage, d, f);
    ColumnLayout(stage, f, rest);
    match StageAfter(stage)
    case Some(next) =>
      var more, d' := EncodeColumn(next, f) + rest, Filled(stage, d, f);
      ColumnTurn(stage, d, f, more);
      ColumnDecodes(next, d', f, rest);
    case None =>
      ColumnTurn(stage, d, f, rest);
  }

  /** A whole definition, field after field. */
  lemma DefinitionLayout(f: FullColumn)
    ensures EncodeColumn(Catalog, f) ==
            LenencStr(['d' as int, 'e' as int, 'f' as int]) + (LenencStr(f.schema) + (LenencStr(f.table) +
            (LenencStr(f.orgTable) + (LenencStr(f.def.name) + (LenencStr(f.orgName) + EncodeNumbers(f))))))
  {
    NumbersLayout(f);
    assert EncodeColumn(Name, f) == LenencStr(f.def.name) + (LenencStr(f.orgName) + EncodeNumbers(f));
    assert EncodeColumn(Table, f) == LenencStr(f.table) + (LenencStr(f.orgTable) + EncodeColumn(Name, f));
  }

  function EncodeNumbers(f: FullColumn): bytes {
    ToLe(0x0c, 1) + (ToLe(f.def.characterSet, 2) + (ToLe(f.def.columnLength, 4) + (ToLe(f.def.kind, 1) +
    (ToLe(f.def.flags, 2) + (ToLe(f.def.decimals, 1) + ToLe(f.filler, 2))))))
  }

  lemma NumbersLayout(f: FullColumn)
    ensures EncodeColumn(LengthOfFixedLengthFields, f) == EncodeNumbers(f)
  {
    assert EncodeColumn(Decimals, f) == ToLe(f.def.decimals, 1) + ToLe(f.filler, 2);
    assert EncodeColumn(Flags, f) == ToLe(f.def.flags, 2) + EncodeColumn(Decimals, f);
    assert EncodeColumn(Type, f) == ToLe(f.def.kind, 1) + EncodeColumn(Flags, f);
    assert EncodeColumn(ColumnLength, f) == ToLe(f.def.columnLength, 4) + EncodeColumn(Type, f);
    assert EncodeColumn(CharacterSet, f) == ToLe(f.def.characterSet, 2) + EncodeColumn(ColumnLength, f);
  }

  // ---- ERR and OK packets ----

  function EncodeErr(code: nat, state: bytes, message: bytes): bytes {
    ToLe(0xff, 1) + (ToLe(code, 2) + (['#' as int] + (state + message)))
  }

  lemma TextField(text: bytes, rest: bytes)
    requires text != []
    ensures ScanField(FieldStep, TextP(|text|, []), text + rest) == Field(TextP(|text|, text), rest)
  {
    ScanText(|text|, [], text + rest);
    assert (text + rest)[..|text|] == text && (text + rest)[|text|..] == rest && [] + text == text;
  }

  lemma Turn(c: Control, enc: bytes, rest: bytes, q: FieldParser)
    requires ScanField(FieldStep, Start(c), enc + rest) == Field(q, rest)
    ensures RunFields(PAYLOAD, c, Start(c), enc + rest) == RunNext(PAYLOAD, Advance(c, q), rest)
  {
  }

  lemma CodeDecodes(code: nat, rest: bytes)
    requires code < TWO_16
    ensures RunNext(PAYLOAD, Go(ErrHeader), ToLe(0xff, 1) + (ToLe(code, 2) + rest)) ==
            RunNext(PAYLOAD, Go(SqlStateMarker(code)), rest)
  {
    var more := ToLe(code, 2) + rest;
    var q := NumberField(0xff, 1, more);
    Turn(ErrHeader, ToLe(0xff, 1), more, q);
    q := NumberField(code, 2, rest);
    Turn(ErrorCode, ToLe(code, 2), rest, q);
  }

  /** An error packet is its code, state and message, up to where the packet ends. */
  lemma ErrDecodes(code: nat, state: bytes, message: bytes)
    requires code < TWO_16 && |state| == 5
    ensures RunNext(PAYLOAD, Go(ErrHeader), EncodeErr(code, state, message)) ==
            Pending(ErrorMessage(code, state), RestP(message))
  {
    var more := ['#' as int] + (state + message);
    CodeDecodes(code, more);
    assert more[0] == '#' as int && more[1..] == state + message;
    Turn(SqlStateMarker(code), ['#' as int], state + message, ByteP('#' as int));
    TextField(state, message);
    Turn(SqlState(code), state, message, TextP(5, state));
    ScanRest([], message);
    assert [] + message == message;
  }

  function EncodeOk(header: byte, affectedRows: nat, lastInsertId: nat, statusFlags: nat, warnings: nat,
        info: bytes): bytes
  {
    var flags := ToLe(statusFlags, 2) + (ToLe(warnings, 2) + info);
    [header] + (LenencInt(affectedRows) + (LenencInt(lastInsertId) + flags))
  }

  lemma IntField(n: nat, rest: bytes)
    ensures ScanField(FieldStep, IntP(NEW_INT), LenencInt(n) + rest) == Field(IntP(ReadInt(n)), rest)
  {
    IntTakesEncoding(n, rest);
    LiftInt(NEW_INT, LenencInt(n) + rest);
  }

  lemma CountsDecode(header: byte, affectedRows: nat, lastInsertId: nat, ok: OkPacket, rest: bytes)
    requires ok == BLANK_OK.(affectedRows := ReadInt(affectedRows).result, lastInsertId := ReadInt(lastInsertId).result)
    ensures var bs := [header] + (LenencInt(affectedRows) + (LenencInt(lastInsertId) + rest));
            RunNext(PAYLOAD, Go(OkHeader(header)), bs) == RunNext(PAYLOAD, Go(OkField(StatusFlags, ok)), rest)
  {
    var more := LenencInt(lastInsertId) + rest;
    var all := LenencInt(affectedRows) + more;
    assert ([header] + all)[0] == header && ([header] + all)[1..] == all;
    Turn(OkHeader(header), [header], all, ByteP(header));
    IntField(affectedRows, more);
    Turn(OkField(AffectedRows, BLANK_OK), LenencInt(affectedRows), more, IntP(ReadInt(affectedRows)));
    IntField(lastInsertId, rest);
    var ok1 := BLANK_OK.(affectedRows := ReadInt(affectedRows).result);
    Turn(OkField(LastInsertId, ok1), LenencInt(lastInsertId), rest, IntP(ReadInt(lastInsertId)));
  }

  lemma FlagsDecode(ok: OkPacket, statusFlags: nat, warnings: nat, rest: bytes)
    requires statusFlags < TWO_16 && warnings < TWO_16
    ensures RunNext(PAYLOAD, Go(OkField(StatusFlags, ok)), ToLe(statusFlags, 2) + (ToLe(warnings, 2) + rest)) ==
            RunNext(PAYLOAD, Go(OkInfo(ok.(statusFlags := statusFlags, warnings := warnings))), rest)
  {
    var more := ToLe(warnings, 2) + rest;
    var q := NumberField(statusFlags, 2, more);
    Turn(OkField(StatusFlags, ok), ToLe(statusFlags, 2), more, q);
    var ok1 := ok.(statusFlags := statusFlags);
    q := NumberField(warnings, 2, rest);
    Turn(OkField(Warnings, ok1), ToLe(warnings, 2), rest, q);
  }

  /** An OK packet is its numbers and its information, up to where the packet ends. */
  lemma OkDecodes(header: byte, affectedRows: nat, lastInsertId: nat, statusFlags: nat, warnings: nat, info: bytes)
    requires statusFlags < TWO_16 && warnings < TWO_16
    ensures var bs := EncodeOk(header, affectedRows, lastInsertId, statusFlags, warnings, info);
            var ok := OkPacket(ReadInt(affectedRows).result, ReadInt(lastInsertId).result, statusFlags, warnings, []);
            RunNext(PAYLOAD, Go(OkHeader(header)), bs) == Pending(OkInfo(ok), RestP(info))
  {
    var ok := BLANK_OK.(affectedRows := ReadInt(affectedRows).result, lastInsertId := ReadInt(lastInsertId).result);
    CountsDecode(header, affectedRows, lastInsertId, ok, ToLe(statusFlags, 2) + (ToLe(warnings, 2) + info));
    FlagsDecode(ok, statusFlags, warnings, info);
    ScanRest([], info);
    assert [] + info == info;
  }
}
