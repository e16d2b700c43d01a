/**
 Messages as values, the bytes they are sent as, and the proof that a conversation
 over bytes is the fold of its automaton over the messages in them.
 */
module PgStream {
  import opened Bytes
  import opened Machine
  import opened PgFields
  import opened PgMessages
  import opened PgFrame
  import opened PgCodec
  import opened Conversation

  datatype Msg =
    | Bare(k: Kind)
    | DescMsg(desc: seq<RowDesc>)
    | RowMsg(row: Row)
    | ErrorMsg(fields: seq<ErrField>)
    | NoticeMsg(fields: seq<ErrField>)
    | CompleteMsg(tag: bytes)
    | ReadyMsg(status: byte)
    | ParameterMsg(name: bytes, value: bytes)
    | KeyMsg(processId: nat, secretKey: nat)
    | AuthMsg(request: AuthRequest)

  function KindOf(m: Msg): Kind {
    match m
    case Bare(k) => k
    case DescMsg(_) => RowDescription
    case RowMsg(row) => DataRowOf(|row|)
    case ErrorMsg(_) => ErrorResponse
    case NoticeMsg(_) => NoticeResponse
    case CompleteMsg(_) => CommandComplete
    case ReadyMsg(_) => ReadyForQuery
    case ParameterMsg(_, _) => ParameterStatus
    case KeyMsg(_, _) => BackendKeyData
    case AuthMsg(_) => Authentication
  }

  predicate ContentOk(m: Msg) {
    match m
    case Bare(k) => k.ParseComplete? || k.BindComplete? || k.NoData? || k.EmptyQueryResponse?
    case DescMsg(desc) => DescriptionOk(desc)
    case RowMsg(row) => RowOk(row)
    case ErrorMsg(fields) => ErrFieldsOk(fields)
    case NoticeMsg(fields) => NoteFieldsOk(fields)
    case CompleteMsg(tag) => NoNul(tag)
    case ReadyMsg(status) => status in {'I' as int, 'T' as int, 'E' as int}
    case ParameterMsg(name, value) => NoNul(name) && NoNul(value)
    case KeyMsg(processId, secretKey) => processId < TWO_32 && secretKey < TWO_32
    case AuthMsg(request) => RequestOk(request)
  }

  function EncodeContent(m: Msg): bytes
    requires ContentOk(m)
  {
    match m
    case Bare(_) => []
    case DescMsg(desc) => EncodeDescription(desc)
    case RowMsg(row) => EncodeRow(row)
    case ErrorMsg(fields) => EncodeErrFields(fields)
    case NoticeMsg(fields) => EncodeErrFields(fields)
    case CompleteMsg(tag) => Terminated(tag)
    case ReadyMsg(status) => [status]
    case ParameterMsg(name, value) => Terminated(name) + Terminated(value)
    case KeyMsg(processId, secretKey) => ToBe32(processId) + ToBe32(secretKey)
    case AuthMsg(request) => EncodeRequest(request)
  }

  /** What a message means to an operation. */
  function Meaning(m: Msg): Value {
    match m
    case Bare(_) => Empty
    case DescMsg(desc) => Description(desc)
    case RowMsg(row) => DataRow(row)
    case ErrorMsg(fields) => Error(SqlState(fields, None))
    case NoticeMsg(_) => Notice
    case CompleteMsg(tag) => Completed(tag)
    case ReadyMsg(status) => Ready(status)
    case ParameterMsg(_, _) => Parameter
    case KeyMsg(processId, secretKey) => KeyData(processId, secretKey)
    case AuthMsg(request) => Asked(request)
  }

  /** A message whose length field can say its length; that of a BackendKeyData must be 12. */
  predicate MsgOk(m: Msg) {
    ContentOk(m) && 4 + |EncodeContent(m)| < TWO_32
  }

  /** Tag, length of what follows the tag, content. */
  function EncodeMsg(m: Msg): bytes
    requires MsgOk(m)
  {
    [TagOf(KindOf(m))] + ToBe32(4 + |EncodeContent(m)|) + EncodeContent(m)
  }

  lemma ParameterDecodes(name: bytes, value: bytes, rest: bytes)
    requires NoNul(name) && NoNul(value)
    ensures RunFields(BODY, ParamName, SkipP(0), Terminated(name) + Terminated(value) + rest) ==
            Yielded(Parameter, rest)
  {
    Assoc(Terminated(name), Terminated(value), rest);
    TextField(value, rest);
    TextField(name, Terminated(value) + rest);
  }

  /** The body parser of a message decodes its content to its meaning. */
  lemma ContentDecodes(m: Msg, rest: bytes)
    requires ContentOk(m) && !m.Bare?
    ensures RunFields(BODY, BodyOf(KindOf(m)), Start(BodyOf(KindOf(m))), EncodeContent(m) + rest) ==
            Yielded(Meaning(m), rest)
  {
    match m
    case DescMsg(desc) => DescriptionDecodes(desc, rest);
    case RowMsg(row) => RowDecodes(row, rest);
    case ErrorMsg(fields) => ErrorDecodes(None, fields, rest);
    case NoticeMsg(fields) => NoticeDecodes(fields, rest);
    case KeyMsg(_, _) => ConnectDecodes(m, rest);
    case AuthMsg(_) => ConnectDecodes(m, rest);
    case _ => ShortDecodes(m, rest);
  }

  lemma ConnectDecodes(m: Msg, rest: bytes)
    requires ContentOk(m) && (m.KeyMsg? || m.AuthMsg?)
    ensures RunFields(BODY, BodyOf(KindOf(m)), Start(BodyOf(KindOf(m))), EncodeContent(m) + rest) ==
            Yielded(Meaning(m), rest)
  {
    match m
    case KeyMsg(processId, secretKey) => KeyDecodes(processId, secretKey, rest);
    case AuthMsg(request) => RequestDecodes(request, rest);
  }

  lemma ShortDecodes(m: Msg, rest: bytes)
    requires ContentOk(m) && (m.CompleteMsg? || m.ReadyMsg? || m.ParameterMsg?)
    ensures RunFields(BODY, BodyOf(KindOf(m)), Start(BodyOf(KindOf(m))), EncodeContent(m) + rest) ==
            Yielded(Meaning(m), rest)
  {
    match m
    case CompleteMsg(tag) => TextField(tag, rest);
    case ReadyMsg(status) => TypeField(status, rest);
    case ParameterMsg(name, value) => ParameterDecodes(name, value, rest);
  }

  /** Whatever a body parser accepts is the content of a message of its kind. */
  lemma ContentTaken(k: Kind, bs: bytes) returns (m: Msg, rest: bytes)
    requires KindOk(k) && RunFields(BODY, BodyOf(k), Start(BodyOf(k)), bs).Yielded?
    ensures KindOf(m) == k && ContentOk(m) && !m.Bare? && bs == EncodeContent(m) + rest
  {
    match k
    case RowDescription =>
      var desc;
      desc, rest := DescriptionTaken(bs);
      m := DescMsg(desc);
    case DataRowOf(n) =>
      var row;
      row, rest := RowTaken(n, bs);
      m := RowMsg(row);
    case ErrorResponse =>
      var fields;
      fields, rest := ErrorTaken(None, bs);
      m := ErrorMsg(fields);
    case NoticeResponse =>
      var fields;
      fields, rest := NoticeTaken(bs);
      m := NoticeMsg(fields);
    case BackendKeyData =>
      var processId, secretKey;
      processId, secretKey, rest := KeyTaken(bs);
      m := KeyMsg(processId, secretKey);
    case Authentication =>
      var request;
      request, rest := RequestTaken(bs);
      m := AuthMsg(request);
    case _ => m, rest := ShortTaken(k, bs);
  }

  lemma ShortTaken(k: Kind, bs: bytes) returns (m: Msg, rest: bytes)
    requires !k.RowDescription? && !k.DataRowOf? && !k.ErrorResponse? && !k.NoticeResponse?
    requires !k.BackendKeyData? && !k.Authentication?
    requires RunFields(BODY, BodyOf(k), Start(BodyOf(k)), bs).Yielded?
    ensures KindOf(m) == k && ContentOk(m) && !m.Bare? && bs == EncodeContent(m) + rest
  {
    match k
    case CommandComplete =>
      var tag;
      tag, rest := TextTaken(bs);
      m := CompleteMsg(tag);
    case ReadyForQuery =>
      m, rest := ReadyMsg(bs[0]), bs[1..];
      assert bs == [bs[0]] + rest;
    case ParameterStatus =>
      var name, rest0 := TextTaken(bs);
      var value;
      value, rest := TextTaken(rest0);
      m := ParameterMsg(name, value);
      Assoc(Terminated(name), Terminated(value), rest);
    case _ => NothingRead(BodyOf(k), bs);
  }

  lemma NothingRead(c: Control, bs: bytes)
    requires c.NoFields?
    ensures !RunFields(BODY, c, NothingP, bs).Yielded?
  {
  }

  lemma BodyDecodes(m: Msg, rest: bytes)
    requires ContentOk(m)
    ensures var c := BodyOf(KindOf(m));
            RunBody(BODY, |EncodeContent(m)|, c, Start(c), EncodeContent(m) + rest) == Decoded(Meaning(m), rest)
  {
    var content := EncodeContent(m);
    assert (content + rest)[..|content|] == content && (content + rest)[|content|..] == rest;
    if !m.Bare? {
      ContentDecodes(m, []);
      assert content + [] == content == content[..|content|];
    }
  }

  /** The parser of a message's kind reads the message's bytes, and nothing after them, to its meaning. */
  lemma FrameDecodes(m: Msg, rest: bytes)
    requires MsgOk(m)
    ensures RunFrame(AtTag(KindOf(m)), EncodeMsg(m) + rest) == Message(Meaning(m), rest)
  {
    LengthRead(KindOf(m), m, rest);
    BodyDecodes(m, rest);
  }

  /** A body that was decoded is the content of a message of its kind. */
  lemma BodyTaken(k: Kind, n: nat, body: bytes) returns (m: Msg)
    requires KindOk(k) && LengthOk(k, n + 4) && RunBody(BODY, n, BodyOf(k), Start(BodyOf(k)), body).Decoded?
    ensures n <= |body| && ContentOk(m) && KindOf(m) == k && EncodeContent(m) == body[..n]
    ensures RunBody(BODY, n, BodyOf(k), Start(BodyOf(k)), body).rest == body[n..]
  {
    if BodyOf(k).NoFields? {
      m := Bare(k);
    } else {
      RunKeeps(k, BodyOf(k), Start(BodyOf(k)), body[..Min(n, |body|)]);
      var left;
      m, left := ContentTaken(k, body[..n]);
      ContentDecodes(m, left);
      assert EncodeContent(m) + [] == EncodeContent(m);
    }
  }

  /** Whatever a kind's parser accepts is a message of that kind, and it consumes exactly that message. */
  lemma FrameTaken(k: Kind, bs: bytes) returns (m: Msg, rest: bytes)
    requires KindOk(k) && RunFrame(AtTag(k), bs).Message?
    ensures MsgOk(m) && KindOf(m) == k && bs == EncodeMsg(m) + rest
  {
    var len, enc, body := LengthTaken(k, bs);
    AcceptedBody(k, len, body);
    m := BodyTaken(k, len - 4, body);
    rest := body[len - 4..];
    Assembled(m, len, bs, body);
  }

  lemma Assembled(m: Msg, len: nat, bs: bytes, body: bytes)
    requires ContentOk(m) && 4 <= len < TWO_32 && len - 4 <= |body| && EncodeContent(m) == body[..len - 4]
    requires bs != [] && bs[0] == TagOf(KindOf(m)) && bs[1..] == ToBe32(len) + body
    ensures MsgOk(m) && bs == EncodeMsg(m) + body[len - 4..]
  {
    assert 4 + |EncodeContent(m)| == len;
    FrameParts(bs, ToBe32(len), body, len - 4);
    MsgLayout(m, body[len - 4..]);
  }

  lemma AcceptedBody(k: Kind, len: nat, body: bytes)
    requires AfterLength(k, len, body).Message?
    ensures 4 <= len && LengthOk(k, len) && RunBody(BODY, len - 4, BodyOf(k), Start(BodyOf(k)), body).Decoded?
  {
  }

  /** An accepted frame begins with its tag and a length, and the rest of it is its body. */
  lemma LengthTaken(k: Kind, bs: bytes) returns (len: nat, enc: bytes, body: bytes)
    requires RunFrame(AtTag(k), bs).Message?
    ensures bs != [] && bs[0] == TagOf(k) && bs[1..] == enc + body && 4 <= len < TWO_32 && LengthOk(k, len)
    ensures enc == ToBe32(len)
    ensures RunFrame(AtTag(k), bs) == AfterLength(k, len, body)
  {
    enc, body := IntTaken(4, bs[1..]);
    len := FromBe32(enc);
    Be32RoundTrip(len, enc);
  }

  lemma FrameParts(bs: bytes, enc: bytes, body: bytes, n: nat)
    requires bs != [] && bs[1..] == enc + body && n <= |body|
    ensures bs == [bs[0]] + (enc + (body[..n] + body[n..]))
  {
    assert body == body[..n] + body[n..] && bs == [bs[0]] + bs[1..];
  }

  lemma MsgLayout(m: Msg, rest: bytes)
    requires MsgOk(m)
    ensures EncodeMsg(m) + rest == [TagOf(KindOf(m))] + (ToBe32(4 + |EncodeContent(m)|) + (EncodeContent(m) + rest))
  {
    var tag, len, content := [TagOf(KindOf(m))], ToBe32(4 + |EncodeContent(m)|), EncodeContent(m);
    Assoc(tag + len, content, rest);
    Assoc(tag, len, content + rest);
  }

  /** Exact framing: what basic_parser accepts, what it decodes it to and where it stops. */
  lemma FrameCodec(k: Kind, bs: bytes, v: Value, rest: bytes)
    requires KindOk(k)
    ensures RunFrame(AtTag(k), bs) == Message(v, rest) <==>
            exists m :: MsgOk(m) && KindOf(m) == k && Meaning(m) == v && bs == EncodeMsg(m) + rest
  {
    forall m | MsgOk(m) && KindOf(m) == k && bs == EncodeMsg(m) + rest
      ensures RunFrame(AtTag(k), bs) == Message(Meaning(m), rest)
    {
      FrameDecodes(m, rest);
    }
    if RunFrame(AtTag(k), bs) == Message(v, rest) {
      var m, rest' := FrameTaken(k, bs);
      FrameDecodes(m, rest');
    }
  }

  // ---- conversations ----

  predicate MsgsOk(ms: seq<Msg>) {
    forall m :: m in ms ==> MsgOk(m)
  }

  function EncodeAll(ms: seq<Msg>): bytes
    requires MsgsOk(ms)
  {
    if ms == [] then [] else EncodeMsg(ms[0]) + EncodeAll(ms[1..])
  }

  datatype Verdict<S> = Going(s: S) | Ended(o: Outcome, left: seq<Msg>) | Refused(o: Outcome)

  /** The specification of an operation: its automaton folded over whole messages. */
  function Follow<S>(a: Automaton<S>, s: S, ms: seq<Msg>): (v: Verdict<S>)
    ensures v.Ended? && MsgsOk(ms) ==> MsgsOk(v.left)
    decreases |ms|
  {
    if ms == [] then Going(s) else
    match a.peek(s, TagOf(KindOf(ms[0])))
    case None => Refused(Outcome(MalformedMessage, a.result(s)))
    case Some((k, s')) =>
      if k != KindOf(ms[0]) then Refused(Outcome(MalformedMessage, a.result(s'))) else
      match a.apply(s', Meaning(ms[0]))
      case Continue(s'') => Follow(a, s'', ms[1..])
      case Finish(o) => Ended(o, ms[1..])
  }

  /** A data row of another width than the description is malformed. */
  lemma WrongWidth(n: nat, m: Msg, rest: bytes)
    requires MsgOk(m) && m.RowMsg? && n < TWO_16 && n != |m.row|
    ensures RunFrame(AtTag(DataRowOf(n)), EncodeMsg(m) + rest) == BadFrame(ParseMalformed)
  {
    var content := EncodeContent(m);
    LengthRead(DataRowOf(n), m, rest);
    WrongCount(n, m.row);
    assert (content + rest)[..|content|] == content;
  }

  lemma WrongCount(n: nat, row: Row)
    requires RowOk(row) && n < TWO_16 && n != |row|
    ensures RunFields(BODY, RowCount(seq(n, _ => None)), NewInteger(2), EncodeRow(row)) == Rejected(ParseMalformed)
  {
    IntField(2, ToBe16(|row|), EncodeCells(row));
    Be16RoundTrip(|row|, ToBe16(|row|));
  }

  /** The tag and the length of a message lead to its content, for every kind of its tag. */
  lemma LengthRead(k: Kind, m: Msg, rest: bytes)
    requires MsgOk(m) && TagOf(k) == TagOf(KindOf(m))
    ensures RunFrame(AtTag(k), EncodeMsg(m) + rest) == AfterLength(k, 4 + |EncodeContent(m)|, EncodeContent(m) + rest)
  {
    MsgLayout(m, rest);
    ContentRead(k, 4 + |EncodeContent(m)|, EncodeContent(m) + rest, EncodeMsg(m) + rest);
  }

  lemma ContentRead(k: Kind, len: nat, more: bytes, bs: bytes)
    requires len < TWO_32 && bs == [TagOf(k)] + (ToBe32(len) + more)
    ensures RunFrame(AtTag(k), bs) == AfterLength(k, len, more)
  {
    assert bs[0] == TagOf(k) && bs[1..] == ToBe32(len) + more;
    IntField(4, ToBe32(len), more);
    Be32RoundTrip(len, ToBe32(len));
  }

  /** A body that is decoded before its end has trailing data. */
  lemma BodyTrails(c: Control, p: FieldParser, content: bytes, v: Value, more: bytes, rest: bytes)
    requires RunFields(BODY, c, p, content) == Yielded(v, more) && more != []
    ensures RunBody(BODY, |content|, c, p, content + rest) == Trailing(v)
  {
    assert (content + rest)[..|content|] == content;
  }

  lemma RequestBody(len: nat, bs: bytes)
    ensures AfterLength(Authentication, 4 + len, bs) ==
            FromBody(Authentication, RunBody(BODY, len, AuthMethod, NewInteger(4), bs))
  {
  }

  lemma RequestRead(content: bytes, v: Value, more: bytes, rest: bytes)
    requires RunFields(BODY, AuthMethod, NewInteger(4), content) == Yielded(v, more) && more != []
    requires 4 + |content| < TWO_32
    ensures RunFrame(AtTag(Authentication), ['R' as int] + (ToBe32(4 + |content|) + (content + rest))) ==
            BadFrame(ParseMalformedTrailingData)
  {
    var len := ToBe32(4 + |content|);
    ContentRead(Authentication, 4 + |content|, content + rest, ['R' as int] + (len + (content + rest)));
    RequestBody(|content|, content + rest);
    BodyTrails(AuthMethod, NewInteger(4), content, v, more, rest);
  }

  lemma WrongKind(k: Kind, m: Msg, rest: bytes)
    requires MsgOk(m) && KindOk(k) && k != KindOf(m)
    ensures RunFrame(AtTag(k), EncodeMsg(m) + rest).BadFrame?
  {
    if TagOf(k) == TagOf(KindOf(m)) {
      WrongWidth(k.columns, m, rest);
    }
  }

  /** What a verdict is for a conversation, when `tail` follows the messages. */
  function Fate<S>(a: Automaton<S>, v: Verdict<S>, tail: bytes): Talk<S>
    requires v.Ended? ==> MsgsOk(v.left)
  {
    match v
    case Going(s) => Converse(a, s, Idle, tail)
    case Ended(o, left) => Complete(o, EncodeAll(left) + tail)
    case Refused(o) => Failed(o)
  }

  /** A conversation over the bytes of messages does what its automaton does on the messages. */
  lemma {:induction false} ConverseFollows<S>(a: Automaton<S>, s: S, ms: seq<Msg>, tail: bytes)
    requires MsgsOk(ms)
    ensures Converse(a, s, Idle, EncodeAll(ms) + tail) == Fate(a, Follow(a, s, ms), tail)
    decreases |ms|
  {
    if ms == [] {
      assert EncodeAll(ms) + tail == tail;
    } else {
      var more := EncodeAll(ms[1..]) + tail;
      assert EncodeAll(ms) + tail == EncodeMsg(ms[0]) + more;
      match a.peek(s, TagOf(KindOf(ms[0])))
      case None =>
      case Some((k, s')) =>
        if k != KindOf(ms[0]) {
          WrongKind(k, ms[0], more);
        } else {
          FrameDecodes(ms[0], more);
          if a.apply(s', Meaning(ms[0])).Continue? {
            ConverseFollows(a, a.apply(s', Meaning(ms[0])).s, ms[1..], tail);
          }
        }
    }
  }

  /**
   No whole acceptable message at the head of the bytes: they are empty, or a refused tag, a partial message or a
   malformed one.
   */
  predicate NoMessage<S>(a: Automaton<S>, s: S, bs: bytes) {
    bs == [] || a.peek(s, bs[0]).None? || !RunFrame(AtTag(a.peek(s, bs[0]).value.0), bs).Message?
  }

  /** The bytes are whole messages that the automaton follows to its end, or as far as there are any. */
  ghost predicate Explains<S>(a: Automaton<S>, s: S, bs: bytes, ms: seq<Msg>, tail: bytes) {
    && MsgsOk(ms) && bs == EncodeAll(ms) + tail
    && match Follow(a, s, ms)
       case Ended(_, left) => left == []
       case Going(s') => NoMessage(a, s', tail)
       case Refused(_) => false
  }

  lemma EncodeCons(m: Msg, ms: seq<Msg>, tail: bytes)
    requires MsgOk(m) && MsgsOk(ms)
    ensures MsgsOk([m] + ms) && EncodeAll([m] + ms) + tail == EncodeMsg(m) + (EncodeAll(ms) + tail)
  {
    assert ([m] + ms)[1..] == ms;
    var x, y := EncodeMsg(m), EncodeAll(ms);
    assert x + y + tail == x + (y + tail);
  }

  lemma FollowCons<S>(a: Automaton<S>, s: S, m: Msg, s': S, ms: seq<Msg>)
    requires a.peek(s, TagOf(KindOf(m))) == Some((KindOf(m), s'))
    ensures var after := a.apply(s', Meaning(m));
            Follow(a, s, [m] + ms) == if after.Continue? then Follow(a, after.s, ms) else Ended(after.o, ms)
  {
    assert ([m] + ms)[1..] == ms;
  }

  /** A message that the automaton accepts and goes on from. */
  ghost predicate Steps<S>(a: Automaton<S>, s: S, m: Msg, s': S) {
    match a.peek(s, TagOf(KindOf(m)))
    case None => false
    case Some((k, s1)) => k == KindOf(m) && a.apply(s1, Meaning(m)) == Continue(s')
  }

  /** A message that the automaton accepts and ends with. */
  ghost predicate Stops<S>(a: Automaton<S>, s: S, m: Msg, o: Outcome) {
    match a.peek(s, TagOf(KindOf(m)))
    case None => false
    case Some((k, s1)) => k == KindOf(m) && a.apply(s1, Meaning(m)) == Finish(o)
  }

  /** What the first of some messages decides, or where it leads on. */
  function ByFirst<S>(a: Automaton<S>, s: S, m: Msg, ms: seq<Msg>): Verdict<S> {
    match a.peek(s, TagOf(KindOf(m)))
    case None => Refused(Outcome(MalformedMessage, a.result(s)))
    case Some((k, s1)) =>
      if k != KindOf(m) then Refused(Outcome(MalformedMessage, a.result(s1))) else
      match a.apply(s1, Meaning(m))
      case Continue(s2) => Follow(a, s2, ms)
      case Finish(o) => Ended(o, ms)
  }

  lemma FollowFirst<S>(a: Automaton<S>, s: S, m: Msg, ms: seq<Msg>)
    ensures Follow(a, s, [m] + ms) == ByFirst(a, s, m, ms)
  {
    assert ([m] + ms)[1..] == ms;
  }

  lemma FollowStep<S>(a: Automaton<S>, s: S, m: Msg, s': S, ms: seq<Msg>)
    requires Steps(a, s, m, s')
    ensures Follow(a, s, [m] + ms) == Follow(a, s', ms)
  {
    assert ([m] + ms)[1..] == ms;
  }

  lemma FollowStop<S>(a: Automaton<S>, s: S, m: Msg, o: Outcome, ms: seq<Msg>)
    requires Stops(a, s, m, o)
    ensures Follow(a, s, [m] + ms) == Ended(o, ms)
  {
    assert ([m] + ms)[1..] == ms;
  }

  lemma FollowRefused<S>(a: Automaton<S>, s: S, m: Msg, ms: seq<Msg>)
    requires a.peek(s, TagOf(KindOf(m))).None?
    ensures Follow(a, s, [m] + ms) == Refused(Outcome(MalformedMessage, a.result(s)))
  {
  }

  /** The first message of messages that lead to an end is accepted. */
  lemma FollowTaken<S>(a: Automaton<S>, s: S, ms: seq<Msg>) returns (m: Msg, more: seq<Msg>, s1: S)
    requires Follow(a, s, ms).Ended?
    ensures ms == [m] + more && a.peek(s, TagOf(KindOf(m))) == Some((KindOf(m), s1))
  {
    m, more := ms[0], ms[1..];
    s1 := a.peek(s, TagOf(KindOf(m))).value.1;
  }

  /** The first whole acceptable message. */
  lemma Head<S>(a: Automaton<S>, s: S, bs: bytes) returns (m: Msg, s': S, rest: bytes)
    requires !NoMessage(a, s, bs)
    ensures MsgOk(m) && bs == EncodeMsg(m) + rest && |rest| < |bs|
    ensures a.peek(s, TagOf(KindOf(m))) == Some((KindOf(m), s'))
  {
    s' := a.peek(s, bs[0]).value.1;
    m, rest := FrameTaken(a.peek(s, bs[0]).value.0, bs);
  }

  /** The bytes of every conversation split so. */
  lemma {:induction false} Explain<S>(a: Automaton<S>, s: S, bs: bytes) returns (ms: seq<Msg>, tail: bytes)
    ensures Explains(a, s, bs, ms, tail)
    decreases |bs|
  {
    ms, tail := [], bs;
    if NoMessage(a, s, bs) {
      assert EncodeAll(ms) + tail == bs;
    } else {
      var m, s', rest := Head(a, s, bs);
      if a.apply(s', Meaning(m)).Continue? {
        ms, tail := Explain(a, a.apply(s', Meaning(m)).s, rest);
      } else {
        tail := rest;
        assert EncodeAll(ms) + tail == rest;
      }
      FollowCons(a, s, m, s', ms);
      EncodeCons(m, ms, tail);
      ms := [m] + ms;
    }
  }

  /**
   Refinement: every conversation is what its automaton makes of the whole messages in the
   bytes, continued on a tail that holds no further whole acceptable message.
   */
  lemma Refines<S>(a: Automaton<S>, s: S, bs: bytes) returns (ms: seq<Msg>, tail: bytes)
    ensures Explains(a, s, bs, ms, tail)
    ensures Converse(a, s, Idle, bs) == Fate(a, Follow(a, s, ms), tail)
  {
    ms, tail := Explain(a, s, bs);
    ConverseFollows(a, s, ms, tail);
  }

  lemma NoMessages(tail: bytes)
    ensures EncodeAll([]) + tail == tail
  {
  }

  /** On such a tail the conversation waits, or fails; it does not complete. */
  lemma TailNeverCompletes<S>(a: Automaton<S>, s: S, tail: bytes)
    requires NoMessage(a, s, tail)
    ensures !Converse(a, s, Idle, tail).Complete?
  {
  }

  /**
   An operation completes exactly when the bytes begin with the messages its automaton
   ends on; its outcome is the automaton's, and the bytes after them are left.
   */
  lemma CompletesExactly<S>(a: Automaton<S>, s: S, bs: bytes, o: Outcome, rest: bytes)
    ensures Converse(a, s, Idle, bs) == Complete(o, rest) <==>
            exists ms :: MsgsOk(ms) && bs == EncodeAll(ms) + rest && Follow(a, s, ms) == Ended(o, [])
  {
    forall ms | MsgsOk(ms) && bs == EncodeAll(ms) + rest && Follow(a, s, ms) == Ended(o, [])
      ensures Converse(a, s, Idle, bs) == Complete(o, rest)
    {
      ConverseFollows(a, s, ms, rest);
      assert EncodeAll([]) + rest == rest;
    }
    if Converse(a, s, Idle, bs) == Complete(o, rest) {
      var ms, tail := Refines(a, s, bs);
      NoMessages(tail);
      if Follow(a, s, ms).Going? {
        TailNeverCompletes(a, Follow(a, s, ms).s, tail);
      }
    }
  }

  // ---- failing ----

  /** A parser asks for more bytes only while those that the length field announces are not all there. */
  lemma FrameDecides(k: Kind, bs: bytes)
    requires |bs| >= 5 && |bs| >= 1 + FromBe32(bs[1..5])
    ensures !RunFrame(AtTag(k), bs).NeedFrame?
  {
    var len, enc, more := FromBe32(bs[1..5]), bs[1..5], bs[5..];
    assert bs[1..] == enc + more;
    IntField(4, enc, more);
    if bs[0] == TagOf(k) && len >= 4 && LengthOk(k, len) {
      BodyDecides(len - 4, BodyOf(k), Start(BodyOf(k)), more);
    }
  }

  lemma BodyDecides(n: nat, c: Control, p: FieldParser, bs: bytes)
    requires n <= |bs|
    ensures !RunBody(BODY, n, c, p, bs).NeedBody?
  {
  }

  /** The bytes begin with a refused tag, or with a malformed message. */
  ghost predicate Broken<S>(a: Automaton<S>, s: S, bs: bytes) {
    && bs != []
    && match a.peek(s, bs[0])
       case None => true
       case Some((k, _)) => RunFrame(AtTag(k), bs).BadFrame?
  }

  /** The state whose results a failure delivers: the tag may have changed it. */
  function Blamed<S>(a: Automaton<S>, s: S, bs: bytes): S {
    if bs == [] || a.peek(s, bs[0]).None? then s else a.peek(s, bs[0]).value.1
  }

  lemma BrokenFails<S>(a: Automaton<S>, s: S, bs: bytes)
    requires Broken(a, s, bs)
    ensures Converse(a, s, Idle, bs) == Failed(Outcome(MalformedMessage, a.result(Blamed(a, s, bs))))
  {
  }

  lemma UnbrokenWaits<S>(a: Automaton<S>, s: S, bs: bytes)
    requires NoMessage(a, s, bs) && !Broken(a, s, bs)
    ensures Converse(a, s, Idle, bs).Waiting?
  {
  }

  /** The bytes are messages that the automaton goes on from, and then broken ones. */
  ghost predicate Breaks<S>(a: Automaton<S>, s: S, bs: bytes, ms: seq<Msg>, tail: bytes) {
    && MsgsOk(ms) && bs == EncodeAll(ms) + tail && Follow(a, s, ms).Going? && Broken(a, Follow(a, s, ms).s, tail)
  }

  /** An operation fails exactly when the bytes break so. */
  lemma FailsExactly<S>(a: Automaton<S>, s: S, bs: bytes)
    ensures Converse(a, s, Idle, bs).Failed? <==> exists ms, tail :: Breaks(a, s, bs, ms, tail)
  {
    forall ms, tail | Breaks(a, s, bs, ms, tail)
      ensures Converse(a, s, Idle, bs).Failed?
    {
      ConverseFollows(a, s, ms, tail);
      BrokenFails(a, Follow(a, s, ms).s, tail);
    }
    if Converse(a, s, Idle, bs).Failed? {
      var ms, tail := FailsAt(a, s, bs);
    }
  }

  /** Where, and with what. */
  lemma FailsAt<S>(a: Automaton<S>, s: S, bs: bytes) returns (ms: seq<Msg>, tail: bytes)
    requires Converse(a, s, Idle, bs).Failed?
    ensures Breaks(a, s, bs, ms, tail)
    ensures Converse(a, s, Idle, bs).o == Outcome(MalformedMessage, a.result(Blamed(a, Follow(a, s, ms).s, tail)))
  {
    ms, tail := Refines(a, s, bs);
    var s' := Follow(a, s, ms).s;
    if !Broken(a, s', tail) {
      UnbrokenWaits(a, s', tail);
    }
    BrokenFails(a, s', tail);
  }

  /** Where the first of some messages leads, if the automaton goes on from it. */
  function AfterFirst<S>(a: Automaton<S>, s: S, m: Msg): Option<S> {
    match a.peek(s, TagOf(KindOf(m)))
    case None => None
    case Some((k, s')) =>
      if k != KindOf(m) then None else
      match a.apply(s', Meaning(m))
      case Continue(s'') => Some(s'')
      case Finish(_) => None
  }

  /** The messages that the automaton goes on from. */
  function Taken<S>(a: Automaton<S>, s: S, ms: seq<Msg>): seq<Msg>
    decreases |ms|
  {
    if ms == [] || AfterFirst(a, s, ms[0]).None? then []
    else [ms[0]] + Taken(a, AfterFirst(a, s, ms[0]).value, ms[1..])
  }

  lemma TakenFirst<S>(a: Automaton<S>, s: S, m: Msg, more: seq<Msg>)
    ensures Taken(a, s, [m] + more) ==
            if AfterFirst(a, s, m).None? then [] else [m] + Taken(a, AfterFirst(a, s, m).value, more)
  {
    assert ([m] + more)[1..] == more;
  }

  /** They come before the one that is refused. */
  lemma {:induction false} TakenGoes<S>(a: Automaton<S>, s: S, ms: seq<Msg>)
    requires Follow(a, s, ms).Refused?
    ensures var n := |Taken(a, s, ms)|;
            n < |ms| && Taken(a, s, ms) == ms[..n] && Follow(a, s, ms[..n]).Going? && Follow(a, s, ms[..n + 1]).Refused?
    decreases |ms|
  {
    var m, more := ms[0], ms[1..];
    var n := |Taken(a, s, ms)|;
    assert ms == [m] + more;
    FollowFirst(a, s, m, more);
    if n > 0 {
      var s2 := AfterFirst(a, s, m).value;
      TakenGoes(a, s2, more);
      assert ms[..n] == [m] + more[..n - 1] && ms[..n + 1] == [m] + more[..n];
      FollowStep(a, s, m, s2, more[..n - 1]);
      FollowStep(a, s, m, s2, more[..n]);
    } else {
      assert ms[..1] == [m] + [];
      FollowFirst(a, s, m, []);
      assert ms[..0] == [];
    }
  }
}
