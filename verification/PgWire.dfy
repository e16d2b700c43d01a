/**
 The backend messages in the protocol's own characters and numbers (section 55.7 of the PostgreSQL 16 documentation),
 and what the parsers of messages accept, said in them.
 */
module PgWire {
  import opened Bytes
  import opened PgFields
  import opened PgMessages
  import opened PgFrame
  import opened PgCodec
  import opened PgStream
  import opened PgDispatch

  // ---- layout ----

  /** Int16: two bytes, most significant first. */
  function Int16(n: nat): bytes
    requires n < 0x1_0000
  {
    [n / 0x100, n % 0x100]
  }

  /** Int32: four bytes, most significant first. */
  function Int32(n: nat): bytes
    requires n < 0x1_0000_0000
  {
    [n / 0x100_0000, n / 0x1_0000 % 0x100, n / 0x100 % 0x100, n % 0x100]
  }

  lemma Digits(n: nat)
    ensures n / 0x1_0000 / 0x100 == n / 0x100_0000
    ensures n % 0x1_0000 / 0x100 == n / 0x100 % 0x100
    ensures n % 0x1_0000 % 0x100 == n % 0x100
  {
    var low, mid := n % 0x100, n / 0x100;
    var q, r := mid / 0x100, mid % 0x100;
    assert n == q * 0x1_0000 + (r * 0x100 + low);
    assert n / 0x1_0000 == q && n % 0x1_0000 == r * 0x100 + low;
    var top := q / 0x100;
    assert n == top * 0x100_0000 + (q % 0x100 * 0x1_0000 + r * 0x100 + low);
  }

  lemma NetworkOrder(n: nat)
    ensures n < 0x1_0000 ==> ToBe16(n) == Int16(n)
    ensures n < 0x1_0000_0000 ==> ToBe32(n) == Int32(n)
  {
    Digits(n);
  }

  /** The first byte of each message. */
  function WireTag(m: Msg): char {
    match m
    case Bare(k) =>
      if k.ParseComplete? then '1' else if k.BindComplete? then '2' else if k.NoData? then 'n' else 'I'
    case DescMsg(_) => 'T'
    case RowMsg(_) => 'D'
    case ErrorMsg(_) => 'E'
    case NoticeMsg(_) => 'N'
    case CompleteMsg(_) => 'C'
    case ReadyMsg(_) => 'Z'
    case ParameterMsg(_, _) => 'S'
    case KeyMsg(_, _) => 'K'
    case AuthMsg(_) => 'R'
  }

  /** A message is its character, the length of all that follows the character, and its content. */
  lemma MessageLayout(m: Msg)
    requires MsgOk(m)
    ensures EncodeMsg(m) == [WireTag(m) as int] + Int32(4 + |EncodeContent(m)|) + EncodeContent(m)
  {
    NetworkOrder(4 + |EncodeContent(m)|);
  }

  /** A column of a RowDescription. */
  lemma ColumnLayout(d: RowDesc)
    requires DescOk(d)
    ensures EncodeColumn(d) ==
            d.fieldName + ([0] + (Int32(d.tableId) + (Int16(d.attribute) + (Int32(d.typeId) +
            (Int16(if d.typeSize < 0 then d.typeSize + 0x1_0000 else d.typeSize) +
            (Int32(d.modifier) + Int16(d.format)))))))
  {
    NetworkOrder(d.tableId);
    NetworkOrder(d.attribute);
    NetworkOrder(d.typeId);
    NetworkOrder(if d.typeSize < 0 then d.typeSize + 0x1_0000 else d.typeSize);
    NetworkOrder(d.modifier);
    NetworkOrder(d.format);
    ColumnParts(d);
    Assoc(d.fieldName, [0], EncodeFrom(d, Table));
  }

  lemma ColumnParts(d: RowDesc)
    requires DescOk(d)
    ensures EncodeColumn(d) == Terminated(d.fieldName) + EncodeFrom(d, Table)
    ensures EncodeFrom(d, Table) ==
            ToBe32(d.tableId) + (ToBe16(d.attribute) + (ToBe32(d.typeId) +
            (ToBe16(FromInt16(d.typeSize)) + (ToBe32(d.modifier) + ToBe16(d.format)))))
  {
    assert EncodeFrom(d, Format) == ToBe16(d.format) + [] == ToBe16(d.format);
    assert EncodeFrom(d, Size) == ToBe16(FromInt16(d.typeSize)) + EncodeFrom(d, Modifier);
    assert EncodeFrom(d, Attribute) == ToBe16(d.attribute) + EncodeFrom(d, Type);
  }

  // ---- single messages ----

  predicate Status(status: byte) {
    status in {'I' as int, 'T' as int, 'E' as int}
  }

  lemma ReadyLayout(status: byte)
    ensures Status(status) <==> MsgOk(ReadyMsg(status))
    ensures Status(status) ==> EncodeMsg(ReadyMsg(status)) == ['Z' as int, 0, 0, 0, 5, status]
  {
    if Status(status) {
      MessageLayout(ReadyMsg(status));
    }
  }

  lemma ReadyIs(m: Msg)
    requires ContentOk(m)
    ensures KindOf(m) == ReadyForQuery <==> m.ReadyMsg?
  {
  }

  /** ReadyForQuery is accepted with the status 'I', 'T' or 'E', and with no other. */
  lemma ReadyForQueryExactly(bs: bytes, v: Value, rest: bytes)
    ensures RunFrame(AtTag(ReadyForQuery), bs) == Message(v, rest) <==>
            exists status :: Status(status) && v == Ready(status) && bs == ['Z' as int, 0, 0, 0, 5, status] + rest
  {
    FrameCodec(ReadyForQuery, bs, v, rest);
    if RunFrame(AtTag(ReadyForQuery), bs) == Message(v, rest) {
      var m :| MsgOk(m) && KindOf(m) == ReadyForQuery && Meaning(m) == v && bs == EncodeMsg(m) + rest;
      ReadyIs(m);
      ReadyLayout(m.status);
    }
    forall status | Status(status) && v == Ready(status) && bs == ['Z' as int, 0, 0, 0, 5, status] + rest
      ensures RunFrame(AtTag(ReadyForQuery), bs) == Message(v, rest)
    {
      ReadyLayout(status);
      FrameDecodes(ReadyMsg(status), rest);
    }
  }

  /** The requests the client understands, and how they are sent. */
  predicate Understood(request: AuthRequest) {
    match request
    case Method(code) => code in {0, 2, 3, 7, 9}
    case Md5(salt) => |salt| == 4
    case Sasl(mechanism) => 0 !in mechanism && 9 + |mechanism| < 0x1_0000_0000
  }

  function RequestWire(request: AuthRequest): bytes
    requires Understood(request)
  {
    match request
    case Method(code) => ['R' as int, 0, 0, 0, 8, 0, 0, 0, code]
    case Md5(salt) => ['R' as int, 0, 0, 0, 12, 0, 0, 0, 5] + salt
    case Sasl(mechanism) => ['R' as int] + (Int32(9 + |mechanism|) + ([0, 0, 0, 10] + (mechanism + [0])))
  }

  lemma RequestLayout(request: AuthRequest)
    ensures Understood(request) <==> MsgOk(AuthMsg(request))
    ensures Understood(request) ==> EncodeMsg(AuthMsg(request)) == RequestWire(request)
  {
    if MsgOk(AuthMsg(request)) {
      MessageLayout(AuthMsg(request));
      var code := CodeOf(request);
      NetworkOrder(code);
      assert Int32(code) == [0, 0, 0, code];
      if request.Sasl? {
        var content := EncodeContent(AuthMsg(request));
        Assoc(['R' as int], Int32(4 + |content|), content);
      }
    }
  }

  lemma RequestIs(m: Msg)
    requires ContentOk(m)
    ensures KindOf(m) == Authentication <==> m.AuthMsg?
  {
  }

  /**
   An authentication request is accepted with the numbers 0, 2, 3, 7 and 9 and nothing behind them, with 5 and a salt
   of four bytes, and with 10 and a terminated name; and nothing else is.
   */
  lemma AuthenticationExactly(bs: bytes, v: Value, rest: bytes)
    ensures RunFrame(AtTag(Authentication), bs) == Message(v, rest) <==>
            exists request :: Understood(request) && v == Asked(request) && bs == RequestWire(request) + rest
  {
    FrameCodec(Authentication, bs, v, rest);
    if RunFrame(AtTag(Authentication), bs) == Message(v, rest) {
      var m :| MsgOk(m) && KindOf(m) == Authentication && Meaning(m) == v && bs == EncodeMsg(m) + rest;
      RequestIs(m);
      RequestLayout(m.request);
    }
    forall request | Understood(request) && v == Asked(request) && bs == RequestWire(request) + rest
      ensures RunFrame(AtTag(Authentication), bs) == Message(v, rest)
    {
      RequestLayout(request);
      FrameDecodes(AuthMsg(request), rest);
    }
  }

  lemma SaslContent(mechanism: bytes, more: bytes)
    requires NoNul(mechanism)
    ensures EncodeRequest(Sasl(mechanism)) + more == [0, 0, 0, 10] + (mechanism + ([0] + more))
  {
    NetworkOrder(10);
    Assoc([0, 0, 0, 10], mechanism + [0], more);
    Assoc(mechanism, [0], more);
  }

  /**
   An AuthenticationSASL message names its mechanisms one after another and ends with a zero byte (section 55.7),
   so that something always follows the first name, and the message is refused for it.
   */
  lemma SaslRefused(mechanism: bytes, more: bytes, content: bytes, rest: bytes)
    requires NoNul(mechanism) && more != [] && content == [0, 0, 0, 10] + (mechanism + ([0] + more))
    requires 4 + |content| < 0x1_0000_0000
    ensures RunFrame(AtTag(Authentication), ['R' as int] + (Int32(4 + |content|) + (content + rest))) ==
            BadFrame(ParseMalformedTrailingData)
  {
    NetworkOrder(4 + |content|);
    SaslContent(mechanism, more);
    RequestDecodes(Sasl(mechanism), more);
    RequestRead(content, Asked(Sasl(mechanism)), more, rest);
  }

  // ---- the parsers of connecting ----

  /** What may always come. */
  predicate AnyTime(m: Msg) {
    m.ErrorMsg? || m.ParameterMsg? || m.NoticeMsg?
  }

  /** The messages of a parser with distinct tags are the ones it accepts. */
  lemma DispatchExactly(kinds: seq<Kind>, bs: bytes, v: Value, rest: bytes)
    requires Distinct(kinds) && forall k :: k in kinds ==> KindOk(k)
    ensures RunDispatch(kinds, Guess, bs) == Dispatched(v, rest) <==>
            exists m :: MsgOk(m) && KindOf(m) in kinds && Meaning(m) == v && bs == EncodeMsg(m) + rest
  {
    if bs != [] {
      DispatchAgrees(kinds, bs);
    }
    if RunDispatch(kinds, Guess, bs) == Dispatched(v, rest) {
      var i :| 0 <= i < |kinds| && TagOf(kinds[i]) == bs[0];
      FrameCodec(kinds[i], bs, v, rest);
    }
    forall m | MsgOk(m) && KindOf(m) in kinds && Meaning(m) == v && bs == EncodeMsg(m) + rest
      ensures RunDispatch(kinds, Guess, bs) == Dispatched(v, rest)
    {
      var i :| 0 <= i < |kinds| && kinds[i] == KindOf(m);
      FirstByte(m, rest);
      FrameDecodes(m, rest);
    }
  }

  lemma FirstByte(m: Msg, rest: bytes)
    requires MsgOk(m)
    ensures EncodeMsg(m) + rest != [] && (EncodeMsg(m) + rest)[0] == TagOf(KindOf(m))
  {
  }

  lemma AuthenticatingKinds(m: Msg)
    requires MsgOk(m)
    ensures KindOf(m) in Alternatives([Authentication]) <==> m.AuthMsg? || AnyTime(m)
  {
  }

  lemma SettlingKinds(m: Msg)
    requires MsgOk(m)
    ensures KindOf(m) in Alternatives([ReadyForQuery, BackendKeyData]) <==> m.ReadyMsg? || m.KeyMsg? || AnyTime(m)
  {
  }

  /** Until it is authenticated, connecting accepts requests, errors, parameters and notices. */
  lemma AuthenticatingReads(bs: bytes, v: Value, rest: bytes)
    ensures RunDispatch(Alternatives([Authentication]), Guess, bs) == Dispatched(v, rest) <==>
            exists m :: MsgOk(m) && (m.AuthMsg? || AnyTime(m)) && Meaning(m) == v && bs == EncodeMsg(m) + rest
  {
    DispatchExactly(Alternatives([Authentication]), bs, v, rest);
    forall m | MsgOk(m)
      ensures KindOf(m) in Alternatives([Authentication]) <==> m.AuthMsg? || AnyTime(m)
    {
      AuthenticatingKinds(m);
    }
  }

  /** From then on until it is ready, ReadyForQuery, key data, errors, parameters and notices. */
  lemma SettlingReads(bs: bytes, v: Value, rest: bytes)
    ensures RunDispatch(Alternatives([ReadyForQuery, BackendKeyData]), Guess, bs) == Dispatched(v, rest) <==>
            exists m :: MsgOk(m) && (m.ReadyMsg? || m.KeyMsg? || AnyTime(m))
                     && Meaning(m) == v && bs == EncodeMsg(m) + rest
  {
    DispatchExactly(Alternatives([ReadyForQuery, BackendKeyData]), bs, v, rest);
    forall m | MsgOk(m)
      ensures KindOf(m) in Alternatives([ReadyForQuery, BackendKeyData]) <==> m.ReadyMsg? || m.KeyMsg? || AnyTime(m)
    {
      SettlingKinds(m);
    }
  }
}
