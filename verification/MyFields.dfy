/** The resumable field parsers of MySQL packets (mysql/detail/packets/basic_types.hpp). */
module MyFields {
  import opened Bytes
  import opened Machine

  datatype PayloadResult =
    | PayloadSuccess
    | PayloadPause
    | PayloadNeedMore
    | PayloadMalformed
    | PayloadMalformedHeader
    | PayloadTrailingData
    | PayloadInternalError

  // ---- integers ----

  const INT_SIGN: int := 0xFFFF_FFFF_0000_0000

  /**
   The weight of a byte after a shift by eight times `digit` in a 32-bit register, which takes the count modulo 32.
   */
  function Weight(digit: nat): (w: nat) {
    match digit % 4
    case 0 => 1
    case 1 => 0x100
    case 2 => 0x1_0000
    case _ => 0x100_0000
  }

  /**
   `result += b << (8 * digit)`: the byte is promoted to a 32-bit int and shifted as one,
   and the int is sign-extended to the 64 bits of result.
   */
  function AddShifted(result: nat, b: byte, digit: nat): (n: nat)
    ensures n < TWO_64
  {
    var shifted := b * Weight(digit) % TWO_32;
    (result + shifted + if shifted >= TWO_31 then INT_SIGN else 0) % TWO_64
  }

  /** length_encoded_integer; `target` is zero until the first byte is seen. */
  datatype LenInt = LenInt(digits: nat, target: nat, result: nat)

  const NEW_INT: LenInt := LenInt(0, 0, 0)

  function IntStep(i: LenInt, b: byte): Step<LenInt> {
    if i.target == 0 then
      if b < 251 then Full(i.(result := b))
      else if b == 0xfc then Open(i.(target := 2))
      else if b == 0xfd then Open(i.(target := 3))
      else if b == 0xfe then Open(i.(target := 8))
      else Broken(i)
    else
      var i' := LenInt(i.digits + 1, i.target, AddShifted(i.result, b, i.digits));
      if i'.digits < i.target then Open(i') else Full(i')
  }

  /** An integer parser that still wants bytes. */
  predicate IntOpen(i: LenInt) {
    i == NEW_INT || (i.target in {2, 3, 8} && i.digits < i.target)
  }

  // ---- strings ----

  /** std::string keeps what is inserted, nop_container counts it. */
  datatype Container = Kept(content: bytes) | Counted(sz: nat)

  function Size(c: Container): nat {
    if c.Kept? then |c.content| else c.sz
  }

  function Insert(c: Container, bs: bytes): (c': Container)
    ensures Size(c') == Size(c) + |bs| && (c.Kept? <==> c'.Kept?)
  {
    match c
    case Kept(content) => Kept(content + bs)
    case Counted(sz) => Counted(sz + |bs|)
  }

  /** length_encoded_string; `target` is engaged, with the container, once the length is known. */
  datatype LenStr = LenStr(len: LenInt, target: Option<nat>, c: Container)

  const NEW_STRING: LenStr := LenStr(NEW_INT, None, Kept([]))
  const NEW_SKIP: LenStr := LenStr(NEW_INT, None, Counted(0))

  function StrStep(s: LenStr, b: byte): Step<LenStr> {
    match s.target
    case None =>
      (match IntStep(s.len, b)
       case Open(i) => Open(s.(len := i))
       case Broken(i) => Broken(s)
       case Full(i) =>
         var s' := s.(len := i, target := Some(i.result));
         if Size(s.c) < i.result then Open(s') else Full(s'))
    case Some(n) =>
      var s' := s.(c := Insert(s.c, [b]));
      if Size(s'.c) < n then Open(s') else Full(s')
  }

  predicate StrOpen(s: LenStr) {
    if s.target.None? then IntOpen(s.len) && Size(s.c) == 0 else Size(s.c) < s.target.value
  }

  // ---- all field parsers ----

  /**
   `FixedP` is fixed_length_integer, `TextP` fixed_length_string, `StringP` length_encoded_string.
   `CellP` is the part of the row parser that reads one column: it has guessed, or not yet, whether
   the column is NULL, and leaves `NullP` if it is.  `RestP` takes everything up to the end of the packet.
   */
  datatype FieldParser =
    | FixedP(size: nat, digits: nat, result: nat)
    | IntP(i: LenInt)
    | TextP(size: nat, text: bytes)
    | StringP(s: LenStr)
    | CellP(guessed: bool, s: LenStr)
    | NullP
    | ByteP(value: byte)
    | RestP(content: bytes)

  function MapStr(st: Step<LenStr>, wrap: LenStr -> FieldParser): Step<FieldParser> {
    match st
    case Open(s) => Open(wrap(s))
    case Full(s) => Full(wrap(s))
    case Broken(s) => Broken(wrap(s))
  }

  function FieldStep(p: FieldParser, b: byte): Step<FieldParser> {
    match p
    case FixedP(size, digits, result) =>
      var p' := FixedP(size, digits + 1, AddShifted(result, b, digits));
      if digits + 1 < size then Open(p') else Full(p')
    case IntP(i) =>
      (match IntStep(i, b)
       case Open(i') => Open(IntP(i'))
       case Full(i') => Full(IntP(i'))
       case Broken(i') => Broken(p))
    case TextP(size, text) => if |text| + 1 < size then Open(TextP(size, text + [b])) else Full(TextP(size, text + [b]))
    case StringP(s) => MapStr(StrStep(s, b), s' => StringP(s'))
    case CellP(guessed, s) =>
      if !guessed && b == 0xfb then Full(NullP) else MapStr(StrStep(s, b), s' => CellP(true, s'))
    case NullP => Broken(p)
    case ByteP(_) => Full(ByteP(b))
    case RestP(content) => Open(RestP(content + [b]))
  }

  /** A field parser that still wants bytes, of the kind of `q`. */
  predicate Resumes(p: FieldParser, q: FieldParser) {
    match p
    case FixedP(size, digits, _) => q.FixedP? && size == q.size && digits < size
    case IntP(i) => q.IntP? && IntOpen(i)
    case TextP(size, text) => q.TextP? && size == q.size && |text| < size
    case StringP(s) => q.StringP? && StrOpen(s) && (s.c.Kept? <==> q.s.c.Kept?)
    case CellP(guessed, s) => q.CellP? && StrOpen(s) && s.c.Kept? && (!guessed ==> s == NEW_STRING)
    case NullP => false
    case ByteP(_) => q.ByteP?
    case RestP(_) => q.RestP?
  }

  /** What a field parser called on `bs` from `begin` must do: stop where the byte-wise scan stops, in its state. */
  predicate Scanned(p: FieldParser, bs: bytes, begin: nat, r: PayloadResult, p': FieldParser, begin': nat)
    requires begin <= |bs|
  {
    && begin <= begin' <= |bs|
    && match ScanField(FieldStep, p, bs[begin..])
       case Partial(q) => r == PayloadNeedMore && p' == q && begin' == |bs| && Resumes(q, p)
       case Field(q, rest) => r == PayloadSuccess && p' == q && rest == bs[begin'..] && begin < begin'
       case Fault => r == PayloadMalformed
  }

  lemma Following(bs: bytes, begin: nat)
    requires begin < |bs|
    ensures bs[begin..][0] == bs[begin] && bs[begin..][1..] == bs[begin + 1..]
  {
  }

  /** fixed_length_integer::operator(). */
  method ParseFixed(p: FieldParser, bs: bytes, begin: nat) returns (r: PayloadResult, p': FieldParser, begin': nat)
    requires p.FixedP? && Resumes(p, p) && begin <= |bs|
    ensures Scanned(p, bs, begin, r, p', begin')
  {
    var consumed := Min(|bs| - begin, p.size - p.digits);
    var result, digits := p.result, p.digits;
    begin' := begin;
    for i := 0 to consumed
      invariant begin' == begin + i && digits == p.digits + i
      invariant if digits < p.size
                then ScanField(FieldStep, p, bs[begin..]) ==
                     ScanField(FieldStep, FixedP(p.size, digits, result), bs[begin'..])
                else i > 0 && ScanField(FieldStep, p, bs[begin..]) ==
                              Field(FixedP(p.size, digits, result), bs[begin'..])
    {
      Following(bs, begin');
      result := AddShifted(result, bs[begin'], digits);
      begin', digits := begin' + 1, digits + 1;
    }
    p' := FixedP(p.size, digits, result);
    r := if digits == p.size then PayloadSuccess else PayloadNeedMore;
  }

  /** What an integer parser called on `bs` from `begin` must do. */
  predicate IntScanned(i: LenInt, bs: bytes, begin: nat, r: PayloadResult, i': LenInt, begin': nat)
    requires begin <= |bs|
  {
    && begin <= begin' <= |bs|
    && match ScanField(IntStep, i, bs[begin..])
       case Partial(q) => r == PayloadNeedMore && i' == q && begin' == |bs| && IntOpen(q)
       case Field(q, rest) => r == PayloadSuccess && i' == q && rest == bs[begin'..] && begin < begin'
       case Fault => r == PayloadMalformed
  }

  /** `i'` is what the integer `i` has become when it is read up to `begin'`. */
  predicate DigitsRead(i: LenInt, bs: bytes, begin: nat, i': LenInt, begin': nat)
    requires begin <= |bs|
  {
    && begin <= begin' <= |bs| && i'.digits == i.digits + (begin' - begin) && i'.target == i.target
    && if i'.digits < i.target
       then ScanField(IntStep, i, bs[begin..]) == ScanField(IntStep, i', bs[begin'..])
       else begin < begin' && ScanField(IntStep, i, bs[begin..]) == Field(i', bs[begin'..])
  }

  lemma DigitMore(i: LenInt, bs: bytes, begin: nat, i': LenInt, begin': nat)
    requires begin <= |bs| && DigitsRead(i, bs, begin, i', begin')
    requires begin' < |bs| && i.target != 0 && i'.digits < i.target
    ensures DigitsRead(i, bs, begin, LenInt(i'.digits + 1, i'.target, AddShifted(i'.result, bs[begin'], i'.digits)),
                       begin' + 1)
  {
    Following(bs, begin');
  }

  /** The branch of length_encoded_integer::operator() for an integer whose width is known. */
  method ParseDigits(i: LenInt, bs: bytes, begin: nat) returns (r: PayloadResult, i': LenInt, begin': nat)
    requires IntOpen(i) && i.target != 0 && begin <= |bs|
    ensures IntScanned(i, bs, begin, r, i', begin')
  {
    i', begin' := i, begin;
    var consumed := Min(i.target - i.digits, |bs| - begin);
    for n := 0 to consumed
      invariant begin' == begin + n && DigitsRead(i, bs, begin, i', begin')
    {
      DigitMore(i, bs, begin, i', begin');
      i' := LenInt(i'.digits + 1, i'.target, AddShifted(i'.result, bs[begin'], i'.digits));
      begin' := begin' + 1;
    }
    r := if i'.digits == i'.target then PayloadSuccess else PayloadNeedMore;
  }

  /** length_encoded_integer::operator(): the first byte chooses the width, and the operator calls itself. */
  method ParseInt(i: LenInt, bs: bytes, begin: nat) returns (r: PayloadResult, i': LenInt, begin': nat)
    requires IntOpen(i) && begin <= |bs|
    ensures IntScanned(i, bs, begin, r, i', begin')
    decreases i.target == 0
  {
    i', begin' := i, begin;
    if i.target == 0 {
      if begin == |bs| {
        return PayloadNeedMore, i', begin';
      }
      Following(bs, begin);
      var first := bs[begin];
      begin' := begin + 1;
      if first < 251 {
        return PayloadSuccess, i.(result := first), begin';
      } else if first == 0xfc {
        r, i', begin' := ParseInt(i.(target := 2), bs, begin');
      } else if first == 0xfd {
        r, i', begin' := ParseInt(i.(target := 3), bs, begin');
      } else if first == 0xfe {
        r, i', begin' := ParseInt(i.(target := 8), bs, begin');
      } else {
        return PayloadMalformed, i', begin';
      }
    } else {
      r, i', begin' := ParseDigits(i, bs, begin);
    }
  }

  /** What a string parser called on `bs` from `begin` must do. */
  predicate StrScanned(s: LenStr, bs: bytes, begin: nat, r: PayloadResult, s': LenStr, begin': nat)
    requires begin <= |bs|
  {
    && begin <= begin' <= |bs|
    && match ScanField(StrStep, s, bs[begin..])
       case Partial(q) => r == PayloadNeedMore && s' == q && begin' == |bs| && StrOpen(q) && (q.c.Kept? <==> s.c.Kept?)
       case Field(q, rest) => r == PayloadSuccess && s' == q && rest == bs[begin'..] && begin < begin'
       case Fault => r == PayloadMalformed
  }

  lemma InsertMore(c: Container, bs: bytes)
    requires bs != []
    ensures Insert(Insert(c, bs[..1]), bs[1..]) == Insert(c, bs)
  {
    if c.Kept? {
      assert c.content + bs[..1] + bs[1..] == c.content + bs;
    }
  }

  lemma {:induction false} ScanContent(s: LenStr, bs: bytes)
    requires s.target.Some? && StrOpen(s)
    ensures var k := Min(s.target.value - Size(s.c), |bs|);
            var s' := s.(c := Insert(s.c, bs[..k]));
            ScanField(StrStep, s, bs) == if Size(s'.c) == s.target.value then Field(s', bs[k..]) else Partial(s')
    decreases |bs|
  {
    var k := Min(s.target.value - Size(s.c), |bs|);
    if bs == [] {
      assert s.c.Kept? ==> s.c.content + bs[..0] == s.c.content;
    } else {
      var s1 := s.(c := Insert(s.c, [bs[0]]));
      assert bs[..1] == [bs[0]] && bs[..k][..1] == [bs[0]] && bs[..k][1..] == bs[1..][..k - 1];
      InsertMore(s.c, bs[..k]);
      if Size(s1.c) < s.target.value {
        ScanContent(s1, bs[1..]);
        assert bs[1..][k - 1..] == bs[k..];
      }
    }
  }

  /** variable_length_string::operator(), inside its length_encoded_string. */
  method ParseContent(s: LenStr, bs: bytes, begin: nat) returns (r: PayloadResult, s': LenStr, begin': nat)
    requires s.target.Some? && Size(s.c) <= s.target.value && begin <= |bs|
    ensures StrOpen(s) ==> StrScanned(s, bs, begin, r, s', begin')
    ensures !StrOpen(s) ==> r == PayloadSuccess && s' == s && begin' == begin
  {
    var consumed := Min(|bs| - begin, s.target.value - Size(s.c));
    begin' := begin + consumed;
    s' := s.(c := Insert(s.c, bs[begin..begin']));
    r := if Size(s'.c) == s.target.value then PayloadSuccess else PayloadNeedMore;
    if StrOpen(s) {
      ScanContent(s, bs[begin..]);
      assert bs[begin..][..consumed] == bs[begin..begin'] && bs[begin..][consumed..] == bs[begin'..];
    } else {
      assert s.c.Kept? ==> s.c.content + [] == s.c.content;
    }
  }

  lemma {:induction false} ScanLength(s: LenStr, bs: bytes)
    requires s.target.None? && Size(s.c) == 0
    ensures ScanField(StrStep, s, bs) ==
            match ScanField(IntStep, s.len, bs)
            case Partial(i) => Partial(s.(len := i))
            case Fault => Fault
            case Field(i, rest) =>
              var s' := s.(len := i, target := Some(i.result));
              if i.result == 0 then Field(s', rest) else ScanField(StrStep, s', rest)
    decreases |bs|
  {
    if bs != [] && IntStep(s.len, bs[0]).Open? {
      ScanLength(s.(len := IntStep(s.len, bs[0]).p), bs[1..]);
    }
  }

  /** length_encoded_string::operator(). */
  method ParseStr(s: LenStr, bs: bytes, begin: nat) returns (r: PayloadResult, s': LenStr, begin': nat)
    requires StrOpen(s) && begin <= |bs|
    ensures StrScanned(s, bs, begin, r, s', begin')
  {
    if s.target.None? {
      var len;
      r, len, begin' := ParseInt(s.len, bs, begin);
      s' := s.(len := len);
      ScanLength(s, bs[begin..]);
      if r == PayloadSuccess {
        r, s', begin' := ParseContent(s'.(target := Some(len.result)), bs, begin');
      }
    } else {
      r, s', begin' := ParseContent(s, bs, begin);
    }
  }

  // ---- the parsers as fields ----

  lemma {:induction false} LiftInt(i: LenInt, bs: bytes)
    ensures ScanField(FieldStep, IntP(i), bs) ==
            match ScanField(IntStep, i, bs)
            case Partial(q) => Partial(IntP(q))
            case Field(q, rest) => Field(IntP(q), rest)
            case Fault => Fault
    decreases |bs|
  {
    if bs != [] && IntStep(i, bs[0]).Open? {
      LiftInt(IntStep(i, bs[0]).p, bs[1..]);
    }
  }

  lemma {:induction false} LiftStr(s: LenStr, bs: bytes)
    ensures ScanField(FieldStep, StringP(s), bs) ==
            match ScanField(StrStep, s, bs)
            case Partial(q) => Partial(StringP(q))
            case Field(q, rest) => Field(StringP(q), rest)
            case Fault => Fault
    decreases |bs|
  {
    if bs != [] && StrStep(s, bs[0]).Open? {
      LiftStr(StrStep(s, bs[0]).p, bs[1..]);
    }
  }

  lemma {:induction false} LiftCell(s: LenStr, bs: bytes)
    ensures ScanField(FieldStep, CellP(true, s), bs) ==
            match ScanField(StrStep, s, bs)
            case Partial(q) => Partial(CellP(true, q))
            case Field(q, rest) => Field(CellP(true, q), rest)
            case Fault => Fault
    decreases |bs|
  {
    if bs != [] && StrStep(s, bs[0]).Open? {
      LiftCell(StrStep(s, bs[0]).p, bs[1..]);
    }
  }

  lemma {:induction false} ScanText(size: nat, text: bytes, bs: bytes)
    requires |text| < size
    ensures var k := Min(|bs|, size - |text|);
            ScanField(FieldStep, TextP(size, text), bs) ==
            if |text| + k == size then Field(TextP(size, text + bs[..k]), bs[k..]) else Partial(TextP(size, text + bs))
    decreases |bs|
  {
    var k := Min(|bs|, size - |text|);
    if bs == [] {
      assert text + bs == text;
    } else if |text| + 1 < size {
      ScanText(size, text + [bs[0]], bs[1..]);
      assert text + [bs[0]] + bs[1..] == text + bs;
      assert text + [bs[0]] + bs[1..][..k - 1] == text + bs[..k];
      assert bs[1..][k - 1..] == bs[k..];
    } else {
      assert bs[..1] == [bs[0]];
    }
  }

  lemma {:induction false} ScanRest(content: bytes, bs: bytes)
    ensures ScanField(FieldStep, RestP(content), bs) == Partial(RestP(content + bs))
    decreases |bs|
  {
    if bs == [] {
      assert content + bs == content;
    } else {
      ScanRest(content + [bs[0]], bs[1..]);
      assert content + [bs[0]] + bs[1..] == content + bs;
    }
  }

  /** Any field parser but that of a row's column. */
  method ParseField(p: FieldParser, bs: bytes, begin: nat) returns (r: PayloadResult, p': FieldParser, begin': nat)
    requires begin <= |bs| && Resumes(p, p) && !p.CellP?
    ensures Scanned(p, bs, begin, r, p', begin')
  {
    match p
    case FixedP(_, _, _) => r, p', begin' := ParseFixed(p, bs, begin);
    case IntP(i) =>
      var i';
      r, i', begin' := ParseInt(i, bs, begin);
      p' := IntP(i');
      LiftInt(i, bs[begin..]);
    case StringP(s) =>
      var s';
      r, s', begin' := ParseStr(s, bs, begin);
      p' := StringP(s');
      LiftStr(s, bs[begin..]);
    case TextP(size, text) =>
      // fixed_length_string::operator()
      var consumed := Min(|bs| - begin, size - |text|);
      begin' := begin + consumed;
      p' := TextP(size, text + bs[begin..begin']);
      r := if |p'.text| == size then PayloadSuccess else PayloadNeedMore;
      ScanText(size, text, bs[begin..]);
      assert bs[begin..][..consumed] == bs[begin..begin'] && bs[begin..][consumed..] == bs[begin'..];
    case ByteP(_) =>
      if begin == |bs| {
        r, p', begin' := PayloadNeedMore, p, begin;
      } else {
        Following(bs, begin);
        r, p', begin' := PayloadSuccess, ByteP(bs[begin]), begin + 1;
      }
    case RestP(content) =>
      // append(begin, end)
      ScanRest(content, bs[begin..]);
      r, p', begin' := PayloadNeedMore, RestP(content + bs[begin..]), |bs|;
  }
}
