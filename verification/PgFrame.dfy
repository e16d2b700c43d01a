/** Framing of one backend message: basic_parser<Message> (postgresql/detail/basic_parser.hpp). */
module PgFrame {
  import opened Bytes
  import opened Machine
  import opened PgFields
  import opened PgMessages

  /** The Message argument of basic_parser; data_row is constructed with its column count. */
  datatype Kind =
    | ErrorResponse | NoticeResponse | ParseComplete | BindComplete | RowDescription | DataRowOf(columns: nat)
    | NoData | ReadyForQuery | CommandComplete | EmptyQueryResponse | ParameterStatus
    | Authentication | BackendKeyData

  /** message_type of each message. */
  function TagOf(k: Kind): byte {
    match k
    case ErrorResponse => 'E' as int
    case NoticeResponse => 'N' as int
    case ParseComplete => '1' as int
    case BindComplete => '2' as int
    case RowDescription => 'T' as int
    case DataRowOf(_) => 'D' as int
    case NoData => 'n' as int
    case ReadyForQuery => 'Z' as int
    case CommandComplete => 'C' as int
    case EmptyQueryResponse => 'I' as int
    case ParameterStatus => 'S' as int
    case Authentication => 'R' as int
    case BackendKeyData => 'K' as int
  }

  /** on_message_length. */
  predicate LengthOk(k: Kind, len: nat) {
    match k
    case ParseComplete => len == 4
    case BindComplete => len == 4
    case NoData => len == 4
    case EmptyQueryResponse => len == 4
    case ReadyForQuery => len == 5
    case BackendKeyData => len == 12
    case _ => true
  }

  /** The initial state of the message's body parser. */
  function BodyOf(k: Kind): Control {
    match k
    case ErrorResponse => ErrType(None)
    case NoticeResponse => NoticeType
    case RowDescription => DescCount
    case DataRowOf(n) => RowCount(seq(n, _ => None))
    case CommandComplete => CommandTag
    case ReadyForQuery => ReadyStatus
    case ParameterStatus => ParamName
    case Authentication => AuthMethod
    case BackendKeyData => KeyProcess
    case _ => NoFields
  }

  /** The three alternatives of __M_parser, with body_remain. */
  datatype Frame =
    | AtTag(k: Kind)
    | AtLength(k: Kind, len: FieldParser)
    | AtBody(k: Kind, remain: nat, c: Control, p: FieldParser)

  /** The body parser state belongs to the message; a data row keeps the width it was constructed with. */
  predicate Belongs(k: Kind, c: Control) {
    match c
    case DescCount => k.RowDescription?
    case DescField(_, _, _) => k.RowDescription?
    case RowCount(data) => k == DataRowOf(|data|)
    case CellLength(data, _) => k == DataRowOf(|data|)
    case CellBytes(data, _, _) => k == DataRowOf(|data|)
    case ErrType(_) => k.ErrorResponse?
    case ErrCode(_) => k.ErrorResponse?
    case ErrText(_) => k.ErrorResponse?
    case NoticeType => k.NoticeResponse?
    case NoticeText => k.NoticeResponse?
    case CommandTag => k.CommandComplete?
    case ReadyStatus => k.ReadyForQuery?
    case ParamName => k.ParameterStatus?
    case ParamValue => k.ParameterStatus?
    case KeyProcess => k.BackendKeyData?
    case KeySecret(_) => k.BackendKeyData?
    case AuthMethod => k.Authentication?
    case AuthSalt => k.Authentication?
    case AuthMechanism => k.Authentication?
    case NoFields => k.ParseComplete? || k.BindComplete? || k.NoData? || k.EmptyQueryResponse?
  }

  /** What a message of this kind can decode to. */
  predicate Yields(k: Kind, v: Value) {
    match v
    case Description(desc) => k.RowDescription? && |desc| < TWO_16
    case DataRow(row) => k == DataRowOf(|row|)
    case Error(_) => k.ErrorResponse?
    case Notice => k.NoticeResponse?
    case Completed(_) => k.CommandComplete?
    case Ready(status) => k.ReadyForQuery? && StatusOk(status)
    case Parameter => k.ParameterStatus?
    case KeyData(_, _) => k.BackendKeyData?
    case Asked(_) => k.Authentication?
    case Empty => k.ParseComplete? || k.BindComplete? || k.NoData? || k.EmptyQueryResponse?
  }

  lemma {:induction false} ScanKeeps(p: FieldParser, bs: bytes)
    requires Unfilled(p)
    ensures match ScanField(FieldStep, p, bs)
            case Partial(q) => SameKind(p, q) && Unfilled(q)
            case Field(q, _) => SameKind(p, q)
            case Fault => false
    decreases |bs|
  {
    if bs != [] && FieldStep(p, bs[0]).Open? {
      ScanKeeps(FieldStep(p, bs[0]).p, bs[1..]);
    }
  }

  lemma AdvanceKeeps(k: Kind, c: Control, q: FieldParser)
    requires Belongs(k, c) && (c.DescField? ==> |c.desc| < TWO_16)
    ensures match Advance(c, q)
            case Go(c') => Belongs(k, c') && !c'.NoFields?
            case Yield(v) => Yields(k, v)
            case Reject(_) => true
  {
  }

  /** A run stays within its message, and what it yields is of that message. */
  lemma {:induction false} RunKeeps(k: Kind, c: Control, p: FieldParser, bs: bytes)
    requires Callable(c, p) && Belongs(k, c) && !c.NoFields?
    ensures match RunFields(BODY, c, p, bs)
            case Pending(c', p') => Callable(c', p') && Belongs(k, c') && !c'.NoFields?
            case Yielded(v, _) => Yields(k, v)
            case Rejected(_) => true
    decreases |bs|
  {
    ScanKeeps(p, bs);
    match ScanField(FieldStep, p, bs)
    case Field(q, rest) =>
      AdvanceKeeps(k, c, q);
      if Advance(c, q).Go? {
        AdvanceReady(c, p, q);
        RunKeeps(k, Advance(c, q).c, Start(Advance(c, q).c), rest);
      }
    case _ =>
  }

  predicate KindOk(k: Kind) {
    k.DataRowOf? ==> k.columns < TWO_16
  }

  /** The states in which the parser can be called (again). */
  predicate Resumable(f: Frame) {
    && KindOk(f.k)
    && (f.AtLength? ==> f.len.IntegerP? && |f.len.mem| == 4 && Unfilled(f.len))
    && (f.AtBody? ==> Callable(f.c, f.p) && Belongs(f.k, f.c) && f.remain > 0 && !f.c.NoFields?)
  }

  datatype FrameOut = NeedFrame(f: Frame) | Message(v: Value, rest: bytes) | BadFrame(e: ParseResult)

  function FromBody(k: Kind, b: Body<Control, FieldParser, Value, ParseResult>): FrameOut {
    match b
    case NeedBody(n, c, p) => NeedFrame(AtBody(k, n, c, p))
    case Decoded(v, rest) => Message(v, rest)
    case Incomplete => BadFrame(ParseMalformedIncomplete)
    case Trailing(_) => BadFrame(ParseMalformedTrailingData)
    case Bad(e) => BadFrame(e)
  }

  /** The length is complete: it is checked, and whatever follows it is offered to the body. */
  function AfterLength(k: Kind, len: nat, bs: bytes): FrameOut {
    if len < 4 then BadFrame(ParseMalformedIncomplete)
    else if !LengthOk(k, len) then BadFrame(ParseMalformed)
    else FromBody(k, RunBody(BODY, len - 4, BodyOf(k), Start(BodyOf(k)), bs))
  }

  function RunFrame(f: Frame, bs: bytes): FrameOut
    decreases f.AtTag?
  {
    match f
    case AtTag(k) =>
      if bs == [] then NeedFrame(f)
      else if bs[0] != TagOf(k) then BadFrame(ParseMalformed)
      else RunFrame(AtLength(k, NewInteger(4)), bs[1..])
    case AtLength(k, p) =>
      (match ScanField(FieldStep, p, bs)
       case Partial(q) => NeedFrame(AtLength(k, q))
       case Field(q, rest) => AfterLength(k, U32(q), rest)
       case Fault => BadFrame(ParseInternalError))
    case AtBody(k, remain, c, p) => FromBody(k, RunBody(BODY, remain, c, p, bs))
  }

  /** The outcome of offering `b` after an outcome reached on the bytes before. */
  function ResumeFrame(out: FrameOut, b: bytes): FrameOut {
    match out
    case NeedFrame(f) => RunFrame(f, b)
    case Message(v, rest) => Message(v, rest + b)
    case BadFrame(e) => BadFrame(e)
  }

  /** Chunk invariance: where the bytes of a frame are cut does not change its outcome. */
  lemma FrameSplit(f: Frame, a: bytes, b: bytes)
    ensures RunFrame(f, a + b) == ResumeFrame(RunFrame(f, a), b)
    decreases f.AtTag?
  {
    match f
    case AtTag(k) =>
      if a == [] {
        assert a + b == b;
      } else {
        assert (a + b)[1..] == a[1..] + b;
        FrameSplit(AtLength(k, NewInteger(4)), a[1..], b);
      }
    case AtLength(k, p) =>
      ScanSplit(FieldStep, p, a, b);
      match ScanField(FieldStep, p, a) {
        case Field(q, rest) => LengthSplit(k, U32(q), rest, b);
        case _ =>
      }
    case AtBody(k, remain, c, p) => PartSplit(k, remain, c, p, a, b);
  }

  lemma LengthSplit(k: Kind, len: nat, a: bytes, b: bytes)
    ensures AfterLength(k, len, a + b) == ResumeFrame(AfterLength(k, len, a), b)
  {
    if len >= 4 {
      var c, p := BodyOf(k), Start(BodyOf(k));
      PartSplit(k, len - 4, c, p, a, b);
    }
  }

  lemma PartSplit(k: Kind, remain: nat, c: Control, p: FieldParser, a: bytes, b: bytes)
    ensures FromBody(k, RunBody(BODY, remain, c, p, a + b)) ==
            ResumeFrame(FromBody(k, RunBody(BODY, remain, c, p, a)), b)
  {
    BodySplit(BODY, remain, c, p, a, b);
  }

  /** A frame that needs more can be resumed; a message is of its kind and takes at least one byte. */
  predicate FrameKept(k: Kind, out: FrameOut, n: nat) {
    match out
    case NeedFrame(g) => Resumable(g) && g.k == k
    case Message(v, rest) => Yields(k, v) && |rest| < n
    case BadFrame(_) => true
  }

  lemma BodyKept(k: Kind, remain: nat, c: Control, p: FieldParser, bs: bytes)
    requires KindOk(k) && Callable(c, p) && Belongs(k, c) && (c.NoFields? ==> remain == 0)
    ensures FrameKept(k, FromBody(k, RunBody(BODY, remain, c, p, bs)), if remain > 0 then |bs| else |bs| + 1)
  {
    if !c.NoFields? {
      RunKeeps(k, c, p, bs[..Min(remain, |bs|)]);
    }
  }

  lemma FrameKeeps(f: Frame, bs: bytes)
    requires Resumable(f)
    ensures FrameKept(f.k, RunFrame(f, bs), |bs|)
    decreases f.AtTag?
  {
    match f
    case AtTag(k) =>
      if bs != [] && bs[0] == TagOf(k) {
        FrameKeeps(AtLength(k, NewInteger(4)), bs[1..]);
      }
    case AtLength(k, p) =>
      ScanKeeps(p, bs);
      match ScanField(FieldStep, p, bs) {
        case Field(q, rest) =>
          if U32(q) >= 4 && LengthOk(k, U32(q)) {
            BodyKept(k, U32(q) - 4, BodyOf(k), Start(BodyOf(k)), rest);
          }
        case _ =>
      }
    case AtBody(k, remain, c, p) => BodyKept(k, remain, c, p, bs);
  }

  /** What basic_parser returns for the outcome of its frame. */
  predicate FrameReports(out: FrameOut, bs: bytes, r: ParseResult, f: Frame, begin: nat, v: Value) {
    && begin <= |bs|
    && match out
       case NeedFrame(g) => r == ParseNeedMore && f == g && begin == |bs|
       case Message(value, rest) => r == ParseSuccess && v == value && rest == bs[begin..]
       case BadFrame(e) => r == e && r != ParseSuccess && r != ParseNeedMore
  }

  /** case 2 of basic_parser::operator(): the part of the body that is there. */
  method ParseBody(f: Frame, bs: bytes, begin: nat)
    returns (r: ParseResult, f': Frame, begin': nat, v: Value)
    requires begin <= |bs| && f.AtBody? && Belongs(f.k, f.c) && Callable(f.c, f.p) && (f.c.NoFields? ==> f.remain == 0)
    ensures FrameReports(RunFrame(f, bs[begin..]), bs, r, f', begin', v) && begin <= begin'
  {
    var consumed := Min(f.remain, |bs| - begin);
    begin' := begin + consumed;
    assert bs[begin..][..consumed] == bs[begin..begin'] && bs[begin..][consumed..] == bs[begin'..];
    if !f.c.NoFields? {
      RunKeeps(f.k, f.c, f.p, bs[begin..begin']);
    }
    var c, p;
    r, c, p, v := OnBody(f.c, f.p, bs[begin..begin']);
    f' := AtBody(f.k, f.remain - consumed, c, p);
    if r == ParseSuccess {
      if f'.remain > 0 {
        r := ParseMalformedTrailingData;
      }
    } else if r == ParseNeedMore {
      if f'.remain == 0 {
        r := ParseMalformedIncomplete;
      }
    }
  }

  /** Cases 1 and 2 of basic_parser::operator(), after the tag. */
  method ParseAfterTag(f: Frame, bs: bytes, begin: nat)
    returns (r: ParseResult, f': Frame, begin': nat, v: Value)
    requires begin <= |bs| && Resumable(f) && !f.AtTag?
    ensures FrameReports(RunFrame(f, bs[begin..]), bs, r, f', begin', v) && begin <= begin'
  {
    f', begin', v := f, begin, Empty;
    if f'.AtLength? {
      var len;
      r, len, begin' := ParseInteger(f'.len, bs, begin');
      f' := AtLength(f.k, len);
      if r == ParseNeedMore {
        return;
      }
      var bodyRemain := U32(len);
      if bodyRemain < 4 {
        r := ParseMalformedIncomplete;
        return;
      }
      if !LengthOk(f.k, bodyRemain) {
        r := ParseMalformed;
        return;
      }
      f' := AtBody(f.k, bodyRemain - 4, BodyOf(f.k), Start(BodyOf(f.k)));
    }
    r, f', begin', v := ParseBody(f', bs, begin');
  }

  /** basic_parser<Message>::operator(). */
  method BasicParse(f: Frame, bs: bytes, begin: nat)
    returns (r: ParseResult, f': Frame, begin': nat, v: Value)
    requires begin <= |bs| && Resumable(f)
    ensures FrameReports(RunFrame(f, bs[begin..]), bs, r, f', begin', v) && begin <= begin'
  {
    f', begin', v := f, begin, Empty;
    if f'.AtTag? {
      if begin' == |bs| {
        r := ParseNeedMore;
        return;
      }
      var type_ := bs[begin'];
      begin' := begin' + 1;
      if type_ != TagOf(f.k) {
        r := ParseMalformed;
        return;
      }
      f' := AtLength(f.k, NewInteger(4));
      assert bs[begin..][1..] == bs[begin'..];
    }
    r, f', begin', v := ParseAfterTag(f', bs, begin');
  }
}
