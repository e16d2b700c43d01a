/** The resumable field parsers of PostgreSQL messages (postgresql/detail/basic_type.hpp). */
module PgFields {
  import opened Bytes
  import opened Machine

  datatype ParseResult =
    | ParseSuccess
    | ParseNeedMore
    | ParseMalformed
    | ParseMalformedIncomplete
    | ParseMalformedTrailingData
    | ParseInternalError

  /**
   One alternative per parser the message bodies keep in their variants.
   `IntegerP` is integer<T>: the memory of the result, filled from the front.
   `SkipP` is string<nop_container>, which only counts.  `ByteP` is a byte read
   in place, and `NothingP` stands for a body without any field.
   */
  datatype FieldParser =
    | IntegerP(mem: bytes, digits: nat)
    | ArrayP(target: nat, chars: bytes)
    | StringP(result: bytes)
    | SkipP(sz: nat)
    | BytesP(target: nat, content: bytes)
    | ByteP(value: byte)
    | NothingP

  function NewInteger(size: nat): FieldParser {
    IntegerP(Zeros(size), 0)
  }

  function FieldStep(p: FieldParser, b: byte): Step<FieldParser> {
    match p
    case IntegerP(mem, digits) =>
      if digits >= |mem| then Broken(p) else
      var p' := IntegerP(mem[digits := b], digits + 1);
      if digits + 1 == |mem| then Full(p') else Open(p')
    case ArrayP(target, chars) =>
      var p' := ArrayP(target, chars + [b]);
      if |chars| + 1 < target then Open(p') else Full(p')
    case StringP(result) => if b == 0 then Full(p) else Open(StringP(result + [b]))
    case SkipP(sz) => if b == 0 then Full(p) else Open(SkipP(sz + 1))
    case BytesP(target, content) =>
      var p' := BytesP(target, content + [b]);
      if |content| + 1 < target then Open(p') else Full(p')
    case ByteP(_) => Full(ByteP(b))
    case NothingP => Broken(p)
  }

  /** A field parser that still wants bytes. */
  predicate Unfilled(p: FieldParser) {
    match p
    case IntegerP(mem, digits) => digits < |mem|
    case ArrayP(target, chars) => |chars| < target
    case BytesP(target, content) => |content| < target
    case NothingP => false
    case _ => true
  }

  /** Same parser object at an earlier moment: kind and target do not change. */
  predicate SameKind(p: FieldParser, q: FieldParser) {
    match p
    case IntegerP(mem, _) => q.IntegerP? && |q.mem| == |mem|
    case ArrayP(target, _) => q.ArrayP? && q.target == target
    case StringP(_) => q.StringP?
    case SkipP(_) => q.SkipP?
    case BytesP(target, _) => q.BytesP? && q.target == target
    case ByteP(_) => q.ByteP?
    case NothingP => q.NothingP?
  }

  /** What a field parser called on `bs` from `begin` must do: stop where the byte-wise scan stops, in its state. */
  predicate Scanned(p: FieldParser, bs: bytes, begin: nat, r: ParseResult, p': FieldParser, begin': nat)
    requires begin <= |bs|
  {
    && begin <= begin' <= |bs|
    && SameKind(p, p')
    && match ScanField(FieldStep, p, bs[begin..])
       case Partial(q) => r == ParseNeedMore && p' == q && begin' == |bs| && Unfilled(q)
       case Field(q, rest) => r == ParseSuccess && p' == q && rest == bs[begin'..] && begin < begin'
       case Fault => false
  }

  lemma {:induction false} ScanInteger(p: FieldParser, bs: bytes)
    requires p.IntegerP? && Unfilled(p)
    ensures var k := Min(|bs|, |p.mem| - p.digits);
            var q := IntegerP(p.mem[..p.digits] + bs[..k] + p.mem[p.digits + k..], p.digits + k);
            ScanField(FieldStep, p, bs) == if q.digits == |p.mem| then Field(q, bs[k..]) else Partial(q)
    decreases |bs|
  {
    if bs == [] {
      assert p.mem[..p.digits] + bs[..0] + p.mem[p.digits..] == p.mem;
    } else {
      var p1 := IntegerP(p.mem[p.digits := bs[0]], p.digits + 1);
      if p1.digits < |p.mem| {
        ScanInteger(p1, bs[1..]);
        var k := Min(|bs|, |p.mem| - p.digits);
        assert bs[..k] == [bs[0]] + bs[1..][..k - 1];
        assert p1.mem[..p1.digits] == p.mem[..p.digits] + [bs[0]];
        assert p1.mem[p1.digits + (k - 1)..] == p.mem[p.digits + k..];
        assert p1.mem[..p1.digits] + bs[1..][..k - 1] + p1.mem[p1.digits + (k - 1)..]
            == p.mem[..p.digits] + bs[..k] + p.mem[p.digits + k..];
        assert bs[1..][k - 1..] == bs[k..];
      } else {
        assert p.mem[..p.digits] + bs[..1] + p.mem[p.digits + 1..] == p1.mem;
      }
    }
  }

  /** integer<T>::operator(): copies what is there, at most what is missing. */
  method ParseInteger(p: FieldParser, bs: bytes, begin: nat)
    returns (r: ParseResult, p': FieldParser, begin': nat)
    requires p.IntegerP? && Unfilled(p) && begin <= |bs|
    ensures Scanned(p, bs, begin, r, p', begin')
  {
    var consumed := Min(|bs| - begin, |p.mem| - p.digits);
    p' := IntegerP(p.mem[..p.digits] + bs[begin..begin + consumed] + p.mem[p.digits + consumed..],
                   p.digits + consumed);
    begin' := begin + consumed;
    r := if p'.digits == |p.mem| then ParseSuccess else ParseNeedMore;
    assert bs[begin..][..consumed] == bs[begin..begin'] && bs[begin..][consumed..] == bs[begin'..];
    ScanInteger(p, bs[begin..]);
  }

  /** integer_array<char>::operator(): one element at a time. */
  method ParseArray(p: FieldParser, bs: bytes, begin: nat)
    returns (r: ParseResult, p': FieldParser, begin': nat)
    requires p.ArrayP? && Unfilled(p) && begin <= |bs|
    ensures Scanned(p, bs, begin, r, p', begin')
    ensures r == ParseSuccess ==> |p'.chars| == p'.target
  {
    p', begin' := p, begin;
    while |p'.chars| < p'.target
      invariant begin <= begin' <= |bs| && SameKind(p, p')
      invariant |p'.chars| <= p'.target
      invariant if Unfilled(p') then ScanField(FieldStep, p, bs[begin..]) == ScanField(FieldStep, p', bs[begin'..])
                else begin < begin' && ScanField(FieldStep, p, bs[begin..]) == Field(p', bs[begin'..])
      decreases p'.target - |p'.chars|
    {
      if begin' == |bs| {
        return ParseNeedMore, p', begin';
      }
      assert bs[begin'..][0] == bs[begin'] && bs[begin'..][1..] == bs[begin' + 1..];
      p' := p'.(chars := p'.chars + [bs[begin']]);
      begin' := begin' + 1;
    }
    r := ParseSuccess;
  }

  /** strnlen: the number of bytes before the first zero. */
  function Strnlen(bs: bytes): (n: nat)
    ensures n <= |bs|
  {
    if bs == [] || bs[0] == 0 then 0 else 1 + Strnlen(bs[1..])
  }

  lemma {:induction false} ScanString(result: bytes, bs: bytes)
    ensures var n := Strnlen(bs);
            ScanField(FieldStep, StringP(result), bs) ==
            if n == |bs| then Partial(StringP(result + bs)) else Field(StringP(result + bs[..n]), bs[n + 1..])
    decreases |bs|
  {
    if bs == [] {
      assert result + bs == result;
    } else if bs[0] == 0 {
      assert result + bs[..0] == result;
    } else {
      ScanString(result + [bs[0]], bs[1..]);
      var n := Strnlen(bs);
      assert (result + [bs[0]]) + bs[1..] == result + bs;
      assert (result + [bs[0]]) + bs[1..][..n - 1] == result + bs[..n];
    }
  }

  lemma {:induction false} ScanSkip(sz: nat, bs: bytes)
    ensures var n := Strnlen(bs);
            ScanField(FieldStep, SkipP(sz), bs) ==
            if n == |bs| then Partial(SkipP(sz + n)) else Field(SkipP(sz + n), bs[n + 1..])
    decreases |bs|
  {
    if bs != [] && bs[0] != 0 {
      ScanSkip(sz + 1, bs[1..]);
    }
  }

  /** string<Container>::operator(), for both containers. */
  method ParseString(p: FieldParser, bs: bytes, begin: nat)
    returns (r: ParseResult, p': FieldParser, begin': nat)
    requires (p.StringP? || p.SkipP?) && begin <= |bs|
    ensures Scanned(p, bs, begin, r, p', begin')
  {
    var len := |bs| - begin;
    ghost var tail := bs[begin..];
    var consumed := Strnlen(bs[begin..]);
    begin' := begin + consumed;
    assert tail[..consumed] == bs[begin..begin'];
    assert consumed < |tail| ==> tail[consumed + 1..] == bs[begin' + 1..];
    assert consumed == |tail| ==> tail[..consumed] == tail;
    if p.StringP? {
      p' := StringP(p.result + bs[begin..begin']);
      ScanString(p.result, tail);
    } else {
      p' := SkipP(p.sz + consumed);
      ScanSkip(p.sz, tail);
    }
    if consumed != len {
      begin' := begin' + 1;
      r := ParseSuccess;
    } else {
      r := ParseNeedMore;
    }
  }

  lemma {:induction false} ScanBytes(p: FieldParser, bs: bytes)
    requires p.BytesP? && Unfilled(p)
    ensures var k := Min(|bs|, p.target - |p.content|);
            var q := BytesP(p.target, p.content + bs[..k]);
            ScanField(FieldStep, p, bs) == if |q.content| == p.target then Field(q, bs[k..]) else Partial(q)
    decreases |bs|
  {
    if bs == [] {
      assert p.content + bs[..0] == p.content;
    } else {
      var p1 := BytesP(p.target, p.content + [bs[0]]);
      var k := Min(|bs|, p.target - |p.content|);
      assert p1.content + bs[1..][..k - 1] == p.content + bs[..k];
      if Unfilled(p1) {
        ScanBytes(p1, bs[1..]);
        assert bs[1..][k - 1..] == bs[k..];
      } else {
        assert bs[..1] == [bs[0]];
      }
    }
  }

  /**
   byte<>::operator().  A target of zero is full at once and takes nothing, which
   no byte-wise scan describes, hence the separate clause.
   */
  method ParseBytes(p: FieldParser, bs: bytes, begin: nat)
    returns (r: ParseResult, p': FieldParser, begin': nat)
    requires p.BytesP? && begin <= |bs| && (Unfilled(p) || p == BytesP(0, []))
    ensures p.target > 0 ==> Scanned(p, bs, begin, r, p', begin')
    ensures p.target == 0 ==> r == ParseSuccess && p' == p && begin' == begin
  {
    var consumed := Min(|bs| - begin, p.target - |p.content|);
    p' := BytesP(p.target, p.content + bs[begin..begin + consumed]);
    begin' := begin + consumed;
    r := if |p'.content| == p.target then ParseSuccess else ParseNeedMore;
    if p.target > 0 {
      ScanBytes(p, bs[begin..]);
      assert bs[begin..][..consumed] == bs[begin..begin'];
      assert bs[begin..][consumed..] == bs[begin'..];
    }
  }

  /** A byte read in place: `if (begin == end) return ParseNeedMore; ... *(begin++)`. */
  method ParseByte(p: FieldParser, bs: bytes, begin: nat)
    returns (r: ParseResult, p': FieldParser, begin': nat)
    requires p.ByteP? && begin <= |bs|
    ensures Scanned(p, bs, begin, r, p', begin')
  {
    if begin == |bs| {
      r, p', begin' := ParseNeedMore, p, begin;
    } else {
      r, p', begin' := ParseSuccess, ByteP(bs[begin]), begin + 1;
    }
  }
}
