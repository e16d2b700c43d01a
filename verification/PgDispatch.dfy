/**
 message_parser<Messages...>: framing of a message chosen by its tag (postgresql/detail/message_parser.hpp).
 */
module PgDispatch {
  import opened Bytes
  import opened Machine
  import opened PgFields
  import opened PgMessages
  import opened PgFrame

  /** std::size_t(-1). */
  const NO_MESSAGE: int := -1

  /** The last position of a tag among the first `n` kinds. */
  function LastIndex(kinds: seq<Kind>, n: nat, tag: byte): (i: int)
    requires n <= |kinds|
    ensures NO_MESSAGE <= i < n
  {
    if n == 0 then NO_MESSAGE
    else if TagOf(kinds[n - 1]) == tag then n - 1
    else LastIndex(kinds, n - 1, tag)
  }

  /** msg_type_jump_table: later messages overwrite earlier ones. */
  method JumpTable(kinds: seq<Kind>) returns (table: array<int>)
    ensures fresh(table) && table.Length == 256
    ensures forall tag: byte :: table[tag] == LastIndex(kinds, |kinds|, tag)
  {
    table := new int[256](_ => NO_MESSAGE);
    for i := 0 to |kinds|
      invariant fresh(table) && forall tag: byte :: table[tag] == LastIndex(kinds, i, tag)
    {
      table[TagOf(kinds[i])] := i;
    }
  }

  predicate Distinct(kinds: seq<Kind>) {
    forall i, j :: 0 <= i < j < |kinds| ==> TagOf(kinds[i]) != TagOf(kinds[j])
  }

  /** The table is right for every message exactly when the tags are pairwise distinct. */
  lemma TableRight(kinds: seq<Kind>)
    ensures Distinct(kinds) <==> forall i :: 0 <= i < |kinds| ==> LastIndex(kinds, |kinds|, TagOf(kinds[i])) == i
  {
    forall i | 0 <= i < |kinds|
      ensures LastIndex(kinds, |kinds|, TagOf(kinds[i])) >= i
      ensures Distinct(kinds) ==> LastIndex(kinds, |kinds|, TagOf(kinds[i])) == i
    {
      LastIndexFinds(kinds, |kinds|, i);
    }
    if forall i :: 0 <= i < |kinds| ==> LastIndex(kinds, |kinds|, TagOf(kinds[i])) == i {
      forall i, j | 0 <= i < j < |kinds|
        ensures TagOf(kinds[i]) != TagOf(kinds[j])
      {
        assert LastIndex(kinds, |kinds|, TagOf(kinds[i])) != LastIndex(kinds, |kinds|, TagOf(kinds[j]));
      }
    }
  }

  lemma {:induction false} LastIndexFinds(kinds: seq<Kind>, n: nat, i: nat)
    requires i < n <= |kinds|
    ensures var last := LastIndex(kinds, n, TagOf(kinds[i])); i <= last && TagOf(kinds[last]) == TagOf(kinds[i])
  {
    if TagOf(kinds[n - 1]) != TagOf(kinds[i]) {
      LastIndexFinds(kinds, n - 1, i);
    }
  }

  lemma {:induction false} LastIndexMisses(kinds: seq<Kind>, n: nat, tag: byte)
    requires n <= |kinds| && forall i :: 0 <= i < n ==> TagOf(kinds[i]) != tag
    ensures LastIndex(kinds, n, tag) == NO_MESSAGE
  {
    if n > 0 {
      LastIndexMisses(kinds, n - 1, tag);
    }
  }

  /** Guessing the message, or inside one. */
  datatype Dispatch = Guess | Chosen(f: Frame)

  datatype DispatchOut = NeedDispatch(d: Dispatch) | Dispatched(v: Value, rest: bytes) | BadDispatch(e: ParseResult)

  function FromFrame(out: FrameOut): DispatchOut {
    match out
    case NeedFrame(f) => NeedDispatch(Chosen(f))
    case Message(v, rest) => Dispatched(v, rest)
    case BadFrame(e) => BadDispatch(e)
  }

  function RunDispatch(kinds: seq<Kind>, d: Dispatch, bs: bytes): DispatchOut {
    match d
    case Chosen(f) => FromFrame(RunFrame(f, bs))
    case Guess =>
      if bs == [] then NeedDispatch(Guess) else
      var i := LastIndex(kinds, |kinds|, bs[0]);
      if i == NO_MESSAGE then BadDispatch(ParseMalformed)
      else FromFrame(RunFrame(AtLength(kinds[i], NewInteger(4)), bs[1..]))
  }

  function ResumeDispatch(kinds: seq<Kind>, out: DispatchOut, b: bytes): DispatchOut {
    match out
    case NeedDispatch(d) => RunDispatch(kinds, d, b)
    case Dispatched(v, rest) => Dispatched(v, rest + b)
    case BadDispatch(e) => BadDispatch(e)
  }

  /** Chunk invariance, whatever the messages. */
  lemma DispatchSplit(kinds: seq<Kind>, d: Dispatch, a: bytes, b: bytes)
    ensures RunDispatch(kinds, d, a + b) == ResumeDispatch(kinds, RunDispatch(kinds, d, a), b)
  {
    match d
    case Chosen(f) => FrameSplit(f, a, b);
    case Guess =>
      if a == [] {
        assert a + b == b;
      } else {
        assert (a + b)[1..] == a[1..] + b;
        var i := LastIndex(kinds, |kinds|, a[0]);
        if i != NO_MESSAGE {
          FrameSplit(AtLength(kinds[i], NewInteger(4)), a[1..], b);
        }
      }
  }

  /**
   With pairwise distinct tags, a parser of many messages is the parser of the one whose tag comes first,
   and malformed when there is none.
   */
  lemma DispatchAgrees(kinds: seq<Kind>, bs: bytes)
    requires Distinct(kinds) && bs != []
    ensures forall i :: 0 <= i < |kinds| && TagOf(kinds[i]) == bs[0] ==>
              RunDispatch(kinds, Guess, bs) == FromFrame(RunFrame(AtTag(kinds[i]), bs))
    ensures (forall i :: 0 <= i < |kinds| ==> TagOf(kinds[i]) != bs[0]) ==>
              RunDispatch(kinds, Guess, bs) == BadDispatch(ParseMalformed)
  {
    TableRight(kinds);
    if forall i :: 0 <= i < |kinds| ==> TagOf(kinds[i]) != bs[0] {
      LastIndexMisses(kinds, |kinds|, bs[0]);
    }
  }

  /** The messages of a parser: those it is given, and three that may always come. */
  function Alternatives(messages: seq<Kind>): seq<Kind> {
    messages + [ErrorResponse, ParameterStatus, NoticeResponse]
  }

  /**
   The two parsers that connecting uses: no tag comes twice in either, so that on any bytes each of them is the
   parser of the message whose tag comes first, if that is one of its own, and malformed otherwise.
   */
  lemma ConnectDispatch(messages: seq<Kind>, bs: bytes)
    requires messages == [Authentication] || messages == [ReadyForQuery, BackendKeyData]
    requires bs != []
    ensures Distinct(Alternatives(messages))
    ensures forall k :: k in Alternatives(messages) && TagOf(k) == bs[0] ==>
              RunDispatch(Alternatives(messages), Guess, bs) == FromFrame(RunFrame(AtTag(k), bs))
    ensures (forall k :: k in Alternatives(messages) ==> TagOf(k) != bs[0]) ==>
              RunDispatch(Alternatives(messages), Guess, bs) == BadDispatch(ParseMalformed)
  {
    DispatchAgrees(Alternatives(messages), bs);
  }

  /** A message whose tag comes again later in the list is never parsed: the later one takes its place. */
  lemma DuplicateTag(kinds: seq<Kind>, i: nat, j: nat, bs: bytes) returns (last: nat)
    requires i < j < |kinds| && TagOf(kinds[i]) == TagOf(kinds[j]) && bs != [] && bs[0] == TagOf(kinds[i])
    ensures j <= last < |kinds| && RunDispatch(kinds, Guess, bs) == FromFrame(RunFrame(AtTag(kinds[last]), bs))
  {
    LastIndexFinds(kinds, |kinds|, j);
    last := LastIndex(kinds, |kinds|, TagOf(kinds[j]));
  }

  predicate DispatchOk(kinds: seq<Kind>, d: Dispatch) {
    && (forall i :: 0 <= i < |kinds| ==> KindOk(kinds[i]))
    && (d.Chosen? ==> Resumable(d.f) && !d.f.AtTag?)
  }

  /** message_parser<Messages...>::operator(), with its jump table. */
  method MessageParse(kinds: seq<Kind>, table: array<int>, d: Dispatch, bs: bytes, begin: nat)
    returns (r: ParseResult, d': Dispatch, begin': nat, v: Value)
    requires table.Length == 256 && forall tag: byte :: table[tag] == LastIndex(kinds, |kinds|, tag)
    requires begin <= |bs| && DispatchOk(kinds, d)
    ensures begin <= begin' <= |bs|
    ensures match RunDispatch(kinds, d, bs[begin..])
            case NeedDispatch(next) => r == ParseNeedMore && d' == next && begin' == |bs| && DispatchOk(kinds, d')
            case Dispatched(value, rest) => r == ParseSuccess && v == value && rest == bs[begin'..]
            case BadDispatch(e) => r == e && r != ParseSuccess && r != ParseNeedMore
  {
    d', begin', v := d, begin, Empty;
    if d'.Guess? {
      if begin' == |bs| {
        r := ParseNeedMore;
        return;
      }
      var type_ := bs[begin'];
      begin' := begin' + 1;
      assert bs[begin..][1..] == bs[begin'..];
      if table[type_] == NO_MESSAGE {
        r := ParseMalformed;
        return;
      }
      d' := Chosen(AtLength(kinds[table[type_]], NewInteger(4)));
    }
    FrameKeeps(d'.f, bs[begin'..]);
    StaysInside(d'.f, bs[begin'..]);
    var f;
    r, f, begin', v := ParseAfterTag(d'.f, bs, begin');
    d' := Chosen(f);
  }

  /** A frame past its tag does not come back to it. */
  lemma StaysInside(f: Frame, bs: bytes)
    requires !f.AtTag?
    ensures RunFrame(f, bs).NeedFrame? ==> !RunFrame(f, bs).f.AtTag?
  {
  }
}
