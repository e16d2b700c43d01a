/** The messages the client sends (postgresql/detail/create_msg.hpp, encode_param.hpp, simple_query.ipp). */
module PgRequests {
  import opened Bytes
  import opened Buffers
  import opened Machine
  import opened PgFields
  import opened PgMessages
  import opened PgCodec

  /** integer_to_network for a 32-bit value. */
  method PutInt32(dest: array<byte>, ptr: nat, v: nat, ghost w: bytes) returns (ptr': nat)
    requires Written(dest, w) && ptr == |w| && |w| + 4 <= dest.Length && v < TWO_32
    modifies dest
    ensures Written(dest, w + ToBe32(v)) && ptr' == ptr + 4
  {
    ptr' := PutBytes(dest, ptr, ToBe32(v), w);
  }

  /** string_to_network: the text and a zero. */
  method PutString(dest: array<byte>, ptr: nat, text: bytes, ghost w: bytes) returns (ptr': nat)
    requires Written(dest, w) && ptr == |w| && |w| + |text| + 1 <= dest.Length
    modifies dest
    ensures Written(dest, w + Terminated(text)) && ptr' == ptr + |text| + 1
  {
    var p := PutBytes(dest, ptr, text, w);
    ptr' := PutByte(dest, p, 0, w + text);
    assert w + text + [0] == w + Terminated(text);
  }

  /** `ptr += n` over bytes that are zero already. */
  method Skip(dest: array<byte>, ptr: nat, n: nat, ghost w: bytes) returns (ptr': nat)
    requires Written(dest, w) && ptr == |w| && |w| + n <= dest.Length
    ensures Written(dest, w + Zeros(n)) && ptr' == ptr + n
  {
    Skipped(dest, w, n);
    ptr' := ptr + n;
  }

  /** The tag and the length of a message. */
  function Head(tag: byte, len: nat): bytes
    requires len < TWO_32
  {
    [tag] + ToBe32(len)
  }

  method PutHead(dest: array<byte>, ptr: nat, tag: byte, len: nat, ghost w: bytes) returns (ptr': nat)
    requires Written(dest, w) && ptr == |w| && |w| + 5 <= dest.Length && len < TWO_32
    modifies dest
    ensures Written(dest, w + Head(tag, len)) && ptr' == ptr + 5
  {
    ptr' := PutByte(dest, ptr, tag, w);
    ptr' := PutInt32(dest, ptr', len, w + [tag]);
    Assoc(w, [tag], ToBe32(len));
  }

  /** A vector of n zeros, and the tag and the length in it. */
  method NewMessage(n: nat, tag: byte, len: nat) returns (dest: array<byte>, ptr: nat)
    requires 5 <= n && len < TWO_32
    ensures fresh(dest) && dest.Length == n && Written(dest, Head(tag, len)) && ptr == 5
  {
    dest := new byte[n](_ => 0);
    assert dest[..] == Zeros(n) == [] + Zeros(n);
    ptr := PutHead(dest, 0, tag, len, []);
    assert [] + Head(tag, len) == Head(tag, len);
  }

  /** A buffer that is full holds what was written. */
  lemma Filled(dest: array<byte>, w: bytes)
    requires Written(dest, w) && |w| == dest.Length
    ensures dest[..] == w
  {
    assert w + Zeros(0) == w;
  }

  // ---- the messages ----

  /** encode_param: the length, as a uint32, and the bytes. */
  function EncodeParam(p: bytes): bytes {
    ToBe32(|p| % TWO_32) + p
  }

  function EncodeParams(ps: seq<bytes>): bytes {
    if ps == [] then [] else EncodeParam(ps[0]) + EncodeParams(ps[1..])
  }

  /** A request: its tag, its length as the uint32 it is computed in, its content. */
  function Request(tag: byte, content: bytes): bytes {
    Head(tag, (4 + |content|) % TWO_32) + content
  }

  datatype Req = Req(tag: byte, content: bytes)

  const DESCRIBE: Req := Req('D' as int, ['P' as int, 0])
  const EXECUTE: Req := Req('E' as int, [0, 0, 0, 0, 0])
  const SYNC: Req := Req('S' as int, [])

  function Sent(r: Req): bytes {
    Request(r.tag, r.content)
  }

  lemma RequestIs(tag: byte, content: bytes, len: nat)
    requires len == 4 + |content| < TWO_32
    ensures Request(tag, content) == Head(tag, len) + content
  {
    assert (4 + |content|) % TWO_32 == len;
  }

  /** Bind: unnamed portal, statement name, no parameter formats, the parameters, no result formats (section 55.7). */
  function BindContent(name: bytes, ps: seq<bytes>): bytes
    requires |ps| < TWO_16
  {
    BindHeader(name, |ps|) + (EncodeParams(ps) + Zeros(2))
  }

  function BindHeader(name: bytes, n: nat): bytes
    requires n < TWO_16
  {
    Zeros(1) + Terminated(name) + Zeros(2) + ToBe16(n)
  }

  /** Parse: unnamed statement, query, no parameter types. */
  function ParseContent(pattern: bytes): bytes {
    Zeros(1) + Terminated(pattern) + Zeros(2)
  }

  /** Describe the unnamed portal, Execute it without a row limit, Sync. */
  function DescribeExecuteSync(): bytes {
    Sent(DESCRIBE) + (Sent(EXECUTE) + Sent(SYNC))
  }

  /** These three messages as the 22 bytes they are. */
  lemma DescribeExecuteSyncBytes()
    ensures DescribeExecuteSync() ==
            ['D' as int, 0, 0, 0, 6, 'P' as int, 0]
            + ['E' as int, 0, 0, 0, 9, 0, 0, 0, 0, 0]
            + ['S' as int, 0, 0, 0, 4]
  {
    assert Sent(DESCRIBE) == ['D' as int, 0, 0, 0, 6, 'P' as int, 0];
    assert Sent(EXECUTE) == ['E' as int, 0, 0, 0, 9, 0, 0, 0, 0, 0];
    assert Sent(SYNC) == ['S' as int, 0, 0, 0, 4];
  }

  /** The header of a Bind message that announces `len` bytes. */
  method CreateBindHeader(name: bytes, n: nat, len: nat) returns (header: bytes)
    requires n < TWO_16 && len < TWO_32
    ensures header == Head('B' as int, len) + BindHeader(name, n)
  {
    ghost var w1, w2 := Head('B' as int, len), Head('B' as int, len) + Zeros(1);
    ghost var w3 := w2 + Terminated(name);
    ghost var w4 := w3 + Zeros(2);
    var raw, ptr := NewMessage(5 + 1 + |name| + 1 + 2 + 2, 'B' as int, len);
    ptr := Skip(raw, ptr, 1, w1);
    ptr := PutString(raw, ptr, name, w2);
    ptr := Skip(raw, ptr, 2, w3);
    ptr := PutBytes(raw, ptr, ToBe16(n), w4);
    Filled(raw, w4 + ToBe16(n));
    header := raw[..];
    BindHeaderLayout(w1, name, n);
  }

  lemma BindHeaderLayout(head: bytes, name: bytes, n: nat)
    requires n < TWO_16
    ensures head + Zeros(1) + Terminated(name) + Zeros(2) + ToBe16(n) == head + BindHeader(name, n)
  {
    var a, b, c, d := Zeros(1), Terminated(name), Zeros(2), ToBe16(n);
    Assoc(head, a, b);
    Assoc(head, a + b, c);
    Assoc(head, a + b + c, d);
  }

  /** create_bind_msg: header, body and tail are sent one after another. */
  method CreateBindMsg(name: bytes, ps: seq<bytes>) returns (header: bytes, body: bytes, tail: bytes)
    requires |ps| < TWO_16 && |name| + 11 < TWO_32
    ensures header + (body + tail) == Request('B' as int, BindContent(name, ps))
  {
    body, tail := EncodeParams(ps), Zeros(2);
    var bodySize := |body| % TWO_32;
    var headerLen := 5 + 1 + |name| + 1 + 2 + 2;
    header := CreateBindHeader(name, |ps|, (headerLen - 1 + bodySize + 2) % TWO_32);
    BindLength(name, ps);
    Assoc(Head('B' as int, (4 + |BindContent(name, ps)|) % TWO_32), BindHeader(name, |ps|), body + tail);
  }

  /** The length computed from the truncated parts is the truncated length. */
  lemma BindLength(name: bytes, ps: seq<bytes>)
    requires |ps| < TWO_16
    ensures (10 + |name| + |EncodeParams(ps)| % TWO_32 + 2) % TWO_32 == (4 + |BindContent(name, ps)|) % TWO_32
  {
    assert |BindContent(name, ps)| == 6 + |name| + |EncodeParams(ps)| + 2;
    Truncated(|EncodeParams(ps)|, 12 + |name|);
  }

  lemma Truncated(n: nat, more: nat)
    ensures (n % TWO_32 + more) % TWO_32 == (n + more) % TWO_32
  {
  }

  /** create_parse_msg. */
  method CreateParseMsg(pattern: bytes) returns (msg: bytes)
    requires |pattern| + 9 < TWO_32
    ensures msg == Request('P' as int, ParseContent(pattern))
  {
    var pLen := 5 + 1 + |pattern| + 1 + 2;
    ghost var w1, w2 := Head('P' as int, pLen - 1), Head('P' as int, pLen - 1) + Zeros(1);
    ghost var w3 := w2 + Terminated(pattern);
    var raw, ptr := NewMessage(pLen, 'P' as int, pLen - 1);
    ptr := Skip(raw, ptr, 1, w1);
    ptr := PutString(raw, ptr, pattern, w2);
    ptr := Skip(raw, ptr, 2, w3);
    Filled(raw, w3 + Zeros(2));
    msg := raw[..];
    ParseLayout(pattern, w1);
  }

  lemma ParseLayout(pattern: bytes, head: bytes)
    requires |pattern| + 9 < TWO_32 && head == Head('P' as int, |pattern| + 8)
    ensures head + Zeros(1) + Terminated(pattern) + Zeros(2) == Request('P' as int, ParseContent(pattern))
  {
    RequestIs('P' as int, ParseContent(pattern), |pattern| + 8);
    Assoc(head, Zeros(1), Terminated(pattern));
    Assoc(head, Zeros(1) + Terminated(pattern), Zeros(2));
  }

  // The three messages of create_DES_msg.

  method PutDescribe(dest: array<byte>, ptr: nat, ghost w: bytes) returns (ptr': nat)
    requires Written(dest, w) && ptr == |w| && |w| + 7 <= dest.Length
    modifies dest
    ensures Written(dest, w + Sent(DESCRIBE)) && ptr' == ptr + 7
  {
    ghost var head, portal := Head('D' as int, 6), ['P' as int];
    ptr' := PutHead(dest, ptr, 'D' as int, 6, w);
    ptr' := PutByte(dest, ptr', 'P' as int, w + head);
    ptr' := Skip(dest, ptr', 1, w + head + portal);
    Assoc(w + head, portal, Zeros(1));
    assert portal + Zeros(1) == DESCRIBE.content;
    Sending(DESCRIBE, 6, w);
  }

  method PutExecute(dest: array<byte>, ptr: nat, ghost w: bytes) returns (ptr': nat)
    requires Written(dest, w) && ptr == |w| && |w| + 10 <= dest.Length
    modifies dest
    ensures Written(dest, w + Sent(EXECUTE)) && ptr' == ptr + 10
  {
    ptr' := PutHead(dest, ptr, 'E' as int, 9, w);
    ptr' := Skip(dest, ptr', 5, w + Head('E' as int, 9));
    assert Zeros(5) == EXECUTE.content;
    Sending(EXECUTE, 9, w);
  }

  method PutSync(dest: array<byte>, ptr: nat, ghost w: bytes) returns (ptr': nat)
    requires Written(dest, w) && ptr == |w| && |w| + 5 <= dest.Length
    modifies dest
    ensures Written(dest, w + Sent(SYNC)) && ptr' == ptr + 5
  {
    ptr' := PutHead(dest, ptr, 'S' as int, 4, w);
    Sending(SYNC, 4, w);
    Nothing(w + Head('S' as int, 4));
  }

  lemma Nothing(w: bytes)
    ensures w + [] == w
  {
  }

  /** A head and a content, written one after the other. */
  lemma Sending(r: Req, len: nat, w: bytes)
    requires len == 4 + |r.content| < TWO_32
    ensures w + Head(r.tag, len) + r.content == w + Sent(r)
  {
    RequestIs(r.tag, r.content, len);
    Assoc(w, Head(r.tag, len), r.content);
  }

  /** create_DES_msg. */
  method CreateDesMsg() returns (msg: bytes)
    ensures msg == DescribeExecuteSync()
    ensures msg == ['D' as int, 0, 0, 0, 6, 'P' as int, 0]
                 + ['E' as int, 0, 0, 0, 9, 0, 0, 0, 0, 0]
                 + ['S' as int, 0, 0, 0, 4]
  {
    DescribeExecuteSyncBytes();
    var raw := new byte[7 + 10 + 5](_ => 0);
    assert raw[..] == [] + Zeros(22);
    ghost var d, e, s := Sent(DESCRIBE), Sent(EXECUTE), Sent(SYNC);
    var ptr := PutDescribe(raw, 0, []);
    assert [] + d == d;
    ptr := PutExecute(raw, ptr, d);
    ptr := PutSync(raw, ptr, d + e);
    Filled(raw, d + e + s);
    msg := raw[..];
    Assoc(d, e, s);
  }

  /** The message of simple_query. */
  method CreateQueryMsg(query: bytes) returns (msg: bytes)
    requires |query| + 6 < TWO_32
    ensures msg == Request('Q' as int, Terminated(query))
  {
    var rawSize := 5 + |query| + 1;
    ghost var w := Head('Q' as int, rawSize - 1);
    var raw, ptr := NewMessage(rawSize, 'Q' as int, rawSize - 1);
    ptr := PutString(raw, ptr, query, w);
    Filled(raw, w + Terminated(query));
    msg := raw[..];
    RequestIs('Q' as int, Terminated(query), rawSize - 1);
  }

  // ---- framing of what is sent ----

  /** The tags met when the bytes are walked by their length fields; None if a length leads out of the bytes. */
  function Walk(bs: bytes): Option<bytes>
    decreases |bs|
  {
    if bs == [] then Some([])
    else if |bs| < 5 then None
    else
      var len := FromBe32(bs[1..5]);
      if len < 4 || 1 + len > |bs| then None else
      match Walk(bs[1 + len..])
      case None => None
      case Some(tags) => Some([bs[0]] + tags)
  }

  predicate Fits(content: bytes) {
    4 + |content| < TWO_32
  }

  lemma WalkRequest(tag: byte, content: bytes, rest: bytes)
    requires Fits(content)
    ensures Walk(Request(tag, content) + rest) ==
            if Walk(rest).None? then None else Some([tag] + Walk(rest).value)
  {
    var len := 4 + |content|;
    Be32RoundTrip(len, ToBe32(len));
    RequestLayout(tag, content, len, rest);
    RequestParts(tag, ToBe32(len), content, rest);
    WalkStep(Request(tag, content) + rest, ToBe32(len), rest);
  }

  lemma RequestLayout(tag: byte, content: bytes, len: nat, rest: bytes)
    requires len == 4 + |content| < TWO_32
    ensures Request(tag, content) + rest == [tag] + ToBe32(len) + content + rest
  {
    RequestIs(tag, content, len);
  }

  lemma WalkStep(bs: bytes, enc: bytes, rest: bytes)
    requires |enc| == 4 && FromBe32(enc) >= 4 && |bs| >= 1 + FromBe32(enc)
    requires bs[1..5] == enc && bs[1 + FromBe32(enc)..] == rest
    ensures Walk(bs) == if Walk(rest).None? then None else Some([bs[0]] + Walk(rest).value)
  {
  }

  lemma RequestParts(tag: byte, len: bytes, content: bytes, rest: bytes)
    requires |len| == 4
    ensures var bs := [tag] + len + content + rest;
            bs[0] == tag && bs[1..5] == len && bs[5 + |content|..] == rest && |bs| >= 5 + |content|
  {
    var front := [tag] + len + content;
    assert (front + rest)[|front|..] == rest;
  }

  function Stream(rs: seq<Req>): bytes {
    if rs == [] then [] else Request(rs[0].tag, rs[0].content) + Stream(rs[1..])
  }

  function Tags(rs: seq<Req>): bytes {
    if rs == [] then [] else [rs[0].tag] + Tags(rs[1..])
  }

  /** Requests are found again by their own length fields, with nothing left over. */
  lemma {:induction false} WalkStream(rs: seq<Req>)
    requires forall r :: r in rs ==> Fits(r.content)
    ensures Walk(Stream(rs)) == Some(Tags(rs))
  {
    if rs != [] {
      WalkStream(rs[1..]);
      WalkRequest(rs[0].tag, rs[0].content, Stream(rs[1..]));
    }
  }

  /** What oneshot sends. */
  function OneshotRequests(pattern: bytes, name: bytes, ps: seq<bytes>): seq<Req>
    requires |ps| < TWO_16
  {
    [Req('P' as int, ParseContent(pattern)), Req('B' as int, BindContent(name, ps)),
     DESCRIBE, EXECUTE, SYNC]
  }

  lemma TwoStreams(r: Req, rs: seq<Req>)
    ensures Stream([r] + rs) == Request(r.tag, r.content) + Stream(rs) && Tags([r] + rs) == [r.tag] + Tags(rs)
  {
    assert ([r] + rs)[1..] == rs;
  }

  lemma OneshotStream(pattern: bytes, name: bytes, ps: seq<bytes>)
    requires |ps| < TWO_16
    ensures Tags(OneshotRequests(pattern, name, ps)) == ['P' as int, 'B' as int, 'D' as int, 'E' as int, 'S' as int]
    ensures Stream(OneshotRequests(pattern, name, ps)) ==
            Request('P' as int, ParseContent(pattern)) +
            (Request('B' as int, BindContent(name, ps)) + DescribeExecuteSync())
  {
    var parse, bind := Req('P' as int, ParseContent(pattern)), Req('B' as int, BindContent(name, ps));
    var rs3 := [DESCRIBE, EXECUTE, SYNC];
    SyncStream();
    TwoStreams(bind, rs3);
    TwoStreams(parse, [bind] + rs3);
    assert OneshotRequests(pattern, name, ps) == [parse] + ([bind] + rs3);
  }

  /** The tags of what oneshot sends, walked by its length fields: Parse, Bind, Describe, Execute, Sync. */
  lemma RequestsWalk(pattern: bytes, name: bytes, ps: seq<bytes>)
    requires |ps| < TWO_16 && Fits(ParseContent(pattern)) && Fits(BindContent(name, ps))
    ensures var parse, bind := Request('P' as int, ParseContent(pattern)), Request('B' as int, BindContent(name, ps));
            Walk(parse + (bind + DescribeExecuteSync())) ==
            Some(['P' as int, 'B' as int, 'D' as int, 'E' as int, 'S' as int])
  {
    OneshotStream(pattern, name, ps);
    WalkStream(OneshotRequests(pattern, name, ps));
  }

  lemma SyncStream()
    ensures Stream([DESCRIBE, EXECUTE, SYNC]) == DescribeExecuteSync()
    ensures Tags([DESCRIBE, EXECUTE, SYNC]) == ['D' as int, 'E' as int, 'S' as int]
  {
    TwoStreams(SYNC, []);
    TwoStreams(EXECUTE, [SYNC]);
    TwoStreams(DESCRIBE, [EXECUTE, SYNC]);
    assert [DESCRIBE] + [EXECUTE, SYNC] == [DESCRIBE, EXECUTE, SYNC] && [EXECUTE] + [SYNC] == [EXECUTE, SYNC];
    assert [SYNC] + [] == [SYNC] && Sent(SYNC) + Stream([]) == Sent(SYNC);
  }

  // ---- parameters are rows ----

  function AsRow(ps: seq<bytes>): Row {
    if ps == [] then [] else [Some(ps[0])] + AsRow(ps[1..])
  }

  lemma CellsCons(cell: Cell, row: Row)
    ensures CellsOk([cell] + row) <==> CellOk(cell) && CellsOk(row)
    ensures CellsOk([cell] + row) ==> EncodeCells([cell] + row) == EncodeCell(cell) + EncodeCells(row)
  {
    var all := [cell] + row;
    assert all[0] == cell && all[1..] == row;
    assert forall c :: c in all <==> c == cell || c in row;
  }

  lemma {:induction false} ParamsAreCells(ps: seq<bytes>)
    requires CellsOk(AsRow(ps))
    ensures EncodeCells(AsRow(ps)) == EncodeParams(ps)
  {
    if ps != [] {
      CellsCons(Some(ps[0]), AsRow(ps[1..]));
      ParamsAreCells(ps[1..]);
    }
  }

  lemma {:induction false} RowLength(ps: seq<bytes>)
    ensures |AsRow(ps)| == |ps|
  {
    if ps != [] {
      RowLength(ps[1..]);
    }
  }

  /**
   Round trip through the client's own decoder: data_row, over the parameter count and the parameters
   of a Bind message, returns the parameters, exactly when each is shorter than the length that means NULL.
   */
  lemma ParamsRoundTrip(ps: seq<bytes>, rest: bytes)
    requires |ps| < TWO_16
    ensures CellsOk(AsRow(ps)) <==>
            RunFields(BODY, RowCount(seq(|ps|, _ => None)), NewInteger(2), ToBe16(|ps|) + EncodeParams(ps) + rest) ==
            Yielded(DataRow(AsRow(ps)), rest)
  {
    var bs := ToBe16(|ps|) + EncodeParams(ps) + rest;
    RowLength(ps);
    if CellsOk(AsRow(ps)) {
      ParamsAreCells(ps);
      RowDecodes(AsRow(ps), rest);
    }
    if RunFields(BODY, RowCount(seq(|ps|, _ => None)), NewInteger(2), bs) == Yielded(DataRow(AsRow(ps)), rest) {
      var row, rest' := RowTaken(|ps|, bs);
      RowDecodes(row, rest');
    }
  }

  // ---- what is in a Bind and a Parse message ----

  lemma BindParts(name: bytes, ps: seq<bytes>) returns (r1: bytes, r2: bytes, r3: bytes)
    requires |ps| < TWO_16
    ensures BindContent(name, ps) == Terminated([]) + r1 && r1 == Terminated(name) + r2 && r2 == [0, 0] + r3
    ensures r3 == ToBe16(|ps|) + EncodeParams(ps) + Zeros(2)
  {
    var a, b, c, d, e := Zeros(1), Terminated(name), Zeros(2), ToBe16(|ps|), EncodeParams(ps) + Zeros(2);
    r3 := ToBe16(|ps|) + EncodeParams(ps) + Zeros(2);
    r2 := [0, 0] + r3;
    r1 := Terminated(name) + r2;
    Assoc(d, EncodeParams(ps), Zeros(2));
    Assoc(a + b + c, d, e);
    Assoc(a + b, c, d + e);
    Assoc(a, b, c + (d + e));
    assert a == Terminated([]) && c == [0, 0];
  }

  /**
   Read with the client's own field parsers, a Bind message is: no portal name, the statement name, no
   parameter formats, the parameters as a row, and two bytes for no result formats.
   */
  lemma BindReads(name: bytes, ps: seq<bytes>) returns (r1: bytes, r2: bytes, r3: bytes)
    requires |ps| < TWO_16 && NoNul(name) && CellsOk(AsRow(ps))
    ensures ScanField(FieldStep, StringP([]), BindContent(name, ps)) == Field(StringP([]), r1)
    ensures ScanField(FieldStep, StringP([]), r1) == Field(StringP(name), r2)
    ensures ScanField(FieldStep, NewInteger(2), r2) == Field(IntegerP([0, 0], 2), r3)
    ensures RunFields(BODY, RowCount(seq(|ps|, _ => None)), NewInteger(2), r3) == Yielded(DataRow(AsRow(ps)), Zeros(2))
  {
    r1, r2, r3 := BindParts(name, ps);
    TextField([], r1);
    TextField(name, r2);
    IntField(2, [0, 0], r3);
    ParamsRoundTrip(ps, Zeros(2));
  }

  /** A Parse message is: no statement name, the text, and two bytes for no parameter types. */
  lemma ParseReads(pattern: bytes) returns (r1: bytes)
    requires NoNul(pattern)
    ensures ScanField(FieldStep, StringP([]), ParseContent(pattern)) == Field(StringP([]), r1)
    ensures ScanField(FieldStep, StringP([]), r1) == Field(StringP(pattern), Zeros(2))
  {
    r1 := Terminated(pattern) + Zeros(2);
    Assoc(Zeros(1), Terminated(pattern), Zeros(2));
    assert Zeros(1) == Terminated([]);
    TextField([], r1);
    TextField(pattern, Zeros(2));
  }
}
