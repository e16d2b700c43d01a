/**
 Exactly which responses execute completes on, and with what; and that it does so however the response is cut
 into reads.
 */
module PgExecuteResponses {
  import opened Bytes
  import opened PgMessages
  import opened PgFrame
  import opened PgCodec
  import opened PgStream
  import opened Conversation
  import opened PgConnection
  import opened PgResponses
  import Ex = PgExecute

  function Notices(): Msg -> bool {
    (m: Msg) => m.NoticeMsg?
  }

  lemma NoticesIgnored()
    ensures Ignores(Ex.EXECUTE, Notices())
  {
  }

  // ---- execute ----

  /** What execute can have been told before its response is closed. */
  datatype Told =
    | Nothing
    | Bound
    | NoRows
    | EmptyQuery
    | Rows(rs: ResultSet)
    | Commanded(rs: ResultSet, tag: bytes)

  /** The last message of it, and what came before. */
  function Latest(t: Told): Option<(Told, Msg)> {
    match t
    case Nothing => None
    case Bound => Some((Nothing, Bare(BindComplete)))
    case NoRows => Some((Bound, Bare(NoData)))
    case EmptyQuery => Some((NoRows, Bare(EmptyQueryResponse)))
    case Rows(rs) =>
      if rs.data == [] then Some((Bound, DescMsg(rs.desc)))
      else Some((Rows(ResultSet(rs.desc, rs.data[..|rs.data| - 1])), RowMsg(rs.data[|rs.data| - 1])))
    case Commanded(rs, tag) => Some((Rows(rs), CompleteMsg(tag)))
  }

  function Size(t: Told): nat {
    match t
    case Nothing => 0
    case Bound => 1
    case NoRows => 2
    case EmptyQuery => 3
    case Rows(rs) => 2 + |rs.data|
    case Commanded(rs, _) => 3 + |rs.data|
  }

  /** The messages it was told with. */
  function Said(t: Told): seq<Msg>
    decreases Size(t), t
  {
    match Latest(t)
    case None => []
    case Some((before, m)) => Said(before) + [m]
  }

  /** Rows have the width of the description. */
  predicate Fine(t: Told) {
    t.Rows? || t.Commanded? ==> Ex.Rectangular(t.rs)
  }

  /** The entries so far. */
  function EntriesOf(t: Told): Results {
    if t.Commanded? then [Some(t.rs)] else []
  }

  function StateOf(t: Told): Ex.State<Ex.Expect> {
    match t
    case Nothing => Ex.State(Ex.BindDone, None, [], NoError)
    case Bound => Ex.State(Ex.RowDescOrNoData, None, [], NoError)
    case NoRows => Ex.State(Ex.EmptyQuery, None, [], NoError)
    case EmptyQuery => Ex.State(Ex.ReadyNow, None, [], NoError)
    case Rows(rs) => Ex.State(Ex.DataRows, Some(rs), [], NoError)
    case Commanded(rs, _) => Ex.State(Ex.ReadyNow, None, [Some(rs)], NoError)
  }

  lemma LatestSteps(t: Told)
    requires Fine(t) && Latest(t).Some?
    ensures var (before, m) := Latest(t).value; Fine(before) && Steps(Ex.EXECUTE, StateOf(before), m, StateOf(t))
  {
    if t.Rows? && t.rs.data != [] {
      RowSteps(t.rs);
    } else if t.Commanded? {
      assert [] + [Some(t.rs)] == [Some(t.rs)];
    }
  }

  lemma RowSteps(rs: ResultSet)
    requires Ex.Rectangular(rs) && rs.data != []
    ensures var (before, m) := Latest(Rows(rs)).value;
            Fine(before) && Steps(Ex.EXECUTE, StateOf(before), m, StateOf(Rows(rs)))
  {
    var n := |rs.data| - 1;
    assert rs.data[..n] + [rs.data[n]] == rs.data && rs.data[n] in rs.data;
    assert forall row :: row in rs.data[..n] ==> row in rs.data;
  }

  /** Execute is in that state when it has been told so. */
  lemma {:induction false} Reaches(t: Told, tail: seq<Msg>)
    requires Fine(t)
    ensures Follow(Ex.EXECUTE, Ex.INIT, Said(t) + tail) == Follow(Ex.EXECUTE, StateOf(t), tail)
    decreases Size(t)
  {
    SaidNext(t, tail);
    match Latest(t)
    case None =>
    case Some((before, m)) =>
      LatestSteps(t);
      Reaches(before, [m] + tail);
      FollowStep(Ex.EXECUTE, StateOf(before), m, StateOf(t), tail);
  }

  lemma SaidNext(t: Told, tail: seq<Msg>)
    ensures match Latest(t)
            case None => Said(t) + tail == tail && StateOf(t) == Ex.INIT
            case Some((before, m)) => Said(t) + tail == Said(before) + ([m] + tail)
  {
    match Latest(t)
    case None => assert [] + tail == tail;
    case Some((before, m)) => assert Said(before) + [m] + tail == Said(before) + ([m] + tail);
  }

  /** Errors and notices, then a ReadyForQuery, then nothing. */
  predicate Closing(ms: seq<Msg>) {
    ms != [] && if ms[0].ReadyMsg? then |ms| == 1 else (ms[0].ErrorMsg? || ms[0].NoticeMsg?) && Closing(ms[1..])
  }

  /** Once only ReadyForQuery is expected, the rest is errors and notices and it, exactly, and the last error counts. */
  lemma {:induction false} ClosingExactly(s: Ex.State<Ex.Expect>, ms: seq<Msg>, o: Outcome)
    requires s.expected == Ex.ReadyNow && MsgsOk(ms)
    ensures Follow(Ex.EXECUTE, s, ms) == Ended(o, []) <==> Closing(ms) && o == Outcome(LastError(ms, s.err), s.result)
    decreases |ms|
  {
    if ms != [] {
      var m, more := ms[0], ms[1..];
      assert m in ms && ms == [m] + more;
      ReadyNowStep(s, m, more);
      if m.ErrorMsg? {
        ClosingExactly(s.(err := Server(SqlState(m.fields, None))), more, o);
      } else if m.NoticeMsg? {
        ClosingExactly(s, more, o);
      }
    }
  }

  lemma ReadyNowStep(s: Ex.State<Ex.Expect>, m: Msg, more: seq<Msg>)
    requires s.expected == Ex.ReadyNow && MsgOk(m)
    ensures var v := Follow(Ex.EXECUTE, s, [m] + more);
            if m.ReadyMsg? then v == Ended(Outcome(s.err, s.result), more)
            else if m.ErrorMsg? then v == Follow(Ex.EXECUTE, s.(err := Server(SqlState(m.fields, None))), more)
            else if m.NoticeMsg? then v == Follow(Ex.EXECUTE, s, more)
            else v.Refused?
  {
    ReadyNowPeeks(s, m);
    FollowFirst(Ex.EXECUTE, s, m, more);
  }

  lemma ReadyNowPeeks(s: Ex.State<Ex.Expect>, m: Msg)
    requires s.expected == Ex.ReadyNow && MsgOk(m)
    ensures Ex.Peek(s, TagOf(KindOf(m))) ==
            if m.ReadyMsg? || m.ErrorMsg? || m.NoticeMsg? then Some((KindOf(m), s)) else None
  {
  }

  /** An error, in any state, is accepted, and closes the response. */
  lemma ErrorExactly(s: Ex.State<Ex.Expect>, m: Msg, ms: seq<Msg>, o: Outcome)
    requires MsgOk(m) && m.ErrorMsg? && MsgsOk(ms)
    ensures Follow(Ex.EXECUTE, s, [m] + ms) == Ended(o, []) <==>
            Closing(ms) && o == Outcome(LastError(ms, Server(SqlState(m.fields, None))), s.result)
  {
    var s' := s.(expected := Ex.ReadyNow, err := Server(SqlState(m.fields, None)));
    ErrorSteps(s, m);
    FollowStep(Ex.EXECUTE, s, m, s', ms);
    ClosingExactly(s', ms, o);
  }

  lemma ErrorSteps(s: Ex.State<Ex.Expect>, m: Msg)
    requires MsgOk(m) && m.ErrorMsg?
    ensures Steps(Ex.EXECUTE, s, m, s.(expected := Ex.ReadyNow, err := Server(SqlState(m.fields, None))))
  {
  }

  // ---- the responses execute completes on ----

  /** What a message can be that is expected, and neither notice nor error. */
  lemma OnlyExpected(m: Msg)
    requires MsgOk(m) && !m.NoticeMsg? && !m.ErrorMsg?
    ensures Ex.Allow(Ex.BindDone, TagOf(KindOf(m))).Some? ==> m == Bare(BindComplete)
    ensures Ex.Allow(Ex.RowDescOrNoData, TagOf(KindOf(m))).Some? ==> m == Bare(NoData) || m.DescMsg?
    ensures Ex.Allow(Ex.DataRows, TagOf(KindOf(m))).Some? ==> m.RowMsg? || m.CompleteMsg?
    ensures Ex.Allow(Ex.EmptyQuery, TagOf(KindOf(m))).Some? ==> m == Bare(EmptyQueryResponse)
    ensures Ex.Allow(Ex.ReadyNow, TagOf(KindOf(m))).Some? ==> m.ReadyMsg?
  {
  }

  lemma RowWidth(rs: ResultSet, row: Row, s1: Ex.State<Ex.Expect>)
    requires Ex.Rectangular(rs) && Ex.Peek(StateOf(Rows(rs)), TagOf(DataRowOf(|row|))) == Some((DataRowOf(|row|), s1))
    ensures var more := ResultSet(rs.desc, rs.data + [row]);
            Ex.Rectangular(more) && Latest(Rows(more)) == Some((Rows(rs), RowMsg(row)))
  {
    var data := rs.data + [row];
    assert data[..|data| - 1] == rs.data;
  }

  /** A message that execute accepts, and that does not close the response, tells it more. */
  lemma Extends(t: Told, m: Msg, s1: Ex.State<Ex.Expect>) returns (t': Told)
    requires Fine(t) && MsgOk(m) && !m.NoticeMsg? && !m.ErrorMsg? && !m.ReadyMsg?
    requires Ex.Peek(StateOf(t), TagOf(KindOf(m))) == Some((KindOf(m), s1))
    ensures Fine(t') && Latest(t') == Some((t, m))
  {
    OnlyExpected(m);
    assert Ex.Allow(StateOf(t).expected, TagOf(KindOf(m))).Some?;
    match t
    case Nothing => t' := Bound;
    case Bound => t' := if m.DescMsg? then Rows(ResultSet(m.desc, [])) else NoRows;
    case NoRows => t' := EmptyQuery;
    case Rows(rs) =>
      if m.RowMsg? {
        RowWidth(rs, m.row, s1);
        t' := Rows(ResultSet(rs.desc, rs.data + [m.row]));
      } else {
        t' := Commanded(rs, m.tag);
      }
    case _ => assert false;
  }

  predicate Quietless(ms: seq<Msg>) {
    forall m :: m in ms ==> !m.NoticeMsg?
  }

  /**
   The response `ms`: what execute is told, and what closes it; without an error, the command must have been
   completed.
   */
  predicate Answered(t: Told, tail: seq<Msg>, ms: seq<Msg>, o: Outcome) {
    && Fine(t) && ms == Said(t) + tail && Closing(tail)
    && (tail[0].ReadyMsg? ==> t.EmptyQuery? || t.Commanded?)
    && o == Outcome(LastError(tail, NoError), EntriesOf(t))
  }

  /** From what execute has been told on, whatever it completes on is such a response. */
  lemma {:induction false} ResponseTaken(t: Told, ms: seq<Msg>, o: Outcome) returns (t': Told, tail: seq<Msg>)
    requires Fine(t) && MsgsOk(ms) && Quietless(ms) && Follow(Ex.EXECUTE, StateOf(t), ms) == Ended(o, [])
    ensures Answered(t', tail, Said(t) + ms, o)
    decreases |ms|
  {
    var m, more, s1 := FollowTaken(Ex.EXECUTE, StateOf(t), ms);
    AcceptedTail(ms, m, more);
    if m.ErrorMsg? {
      ErrorExactly(StateOf(t), m, more, o);
      ClosingNext(m, more, NoError);
      t', tail := t, ms;
    } else if m.ReadyMsg? {
      ClosingExactly(StateOf(t), ms, o);
      t', tail := t, ms;
    } else {
      var next := Extends(t, m, s1);
      LatestSteps(next);
      FollowStep(Ex.EXECUTE, StateOf(t), m, StateOf(next), more);
      SaidNext(next, more);
      t', tail := ResponseTaken(next, more, o);
    }
  }

  lemma AcceptedTail(ms: seq<Msg>, m: Msg, more: seq<Msg>)
    requires MsgsOk(ms) && Quietless(ms) && ms == [m] + more
    ensures MsgOk(m) && !m.NoticeMsg? && MsgsOk(more) && Quietless(more)
  {
    assert m in ms && forall x :: x in more ==> x in ms;
  }

  lemma ClosingNext(m: Msg, more: seq<Msg>, ec: ErrorCode)
    requires m.ErrorMsg? && Closing(more)
    ensures Closing([m] + more) && LastError([m] + more, ec) == LastError(more, Server(SqlState(m.fields, None)))
  {
    assert ([m] + more)[1..] == more;
  }

  /** And such a response is what it completes on. */
  lemma ResponseFollows(t: Told, tail: seq<Msg>, ms: seq<Msg>, o: Outcome)
    requires Answered(t, tail, ms, o) && MsgsOk(ms) && Quietless(ms)
    ensures Follow(Ex.EXECUTE, Ex.INIT, ms) == Ended(o, [])
  {
    var m, more := tail[0], tail[1..];
    assert tail == [m] + more && m in ms && forall x :: x in tail ==> x in ms;
    Reaches(t, tail);
    if m.ErrorMsg? {
      ClosingNext(m, more, NoError);
      ErrorExactly(StateOf(t), m, more, o);
    } else {
      ClosingExactly(StateOf(t), tail, o);
    }
  }

  /** execute ends only with a ReadyForQuery, so that it leaves nothing of a response that ends with its only one. */
  lemma {:induction false} EndsAtReady(s: Ex.State<Ex.Expect>, ms: seq<Msg>)
    requires MsgsOk(ms) && OneResponse(ms) && Follow(Ex.EXECUTE, s, ms).Ended?
    ensures Follow(Ex.EXECUTE, s, ms).left == []
    decreases |ms|
  {
    var m, more, s1 := FollowTaken(Ex.EXECUTE, s, ms);
    FollowCons(Ex.EXECUTE, s, m, s1, more);
    assert m in ms && forall x :: x in more ==> x in ms;
    if !m.ReadyMsg? {
      EndsAtReady(Ex.Act(s1, Meaning(m)).s, more);
    }
  }

  lemma {:induction false} WithoutNotices(ms: seq<Msg>)
    requires MsgsOk(ms)
    ensures MsgsOk(Without(Notices(), ms)) && Quietless(Without(Notices(), ms))
  {
    if ms != [] {
      WithoutNotices(ms[1..]);
    }
  }

  /**
   The responses execute completes on, exactly, among all lists of messages: notices aside, what it can be told,
   closed by a ReadyForQuery once the command is complete, or by errors and a ReadyForQuery at any time.
   It delivers the last error, and the one result set if its command was completed.
   */
  lemma ExecuteResponses(ms: seq<Msg>, o: Outcome)
    requires MsgsOk(ms)
    ensures Follow(Ex.EXECUTE, Ex.INIT, ms) == Ended(o, []) <==>
            OneResponse(ms) && exists t, tail :: Answered(t, tail, Without(Notices(), ms), o)
  {
    var spoken := Without(Notices(), ms);
    if Follow(Ex.EXECUTE, Ex.INIT, ms) == Ended(o, []) {
      WithoutNotices(ms);
      NoticesIgnored();
      QuietIgnored(Ex.EXECUTE, Notices(), Ex.INIT, ms);
      ExecuteAccounts(Ex.INIT, [], ms);
      var t, tail := ResponseTaken(Nothing, spoken, o);
      assert Said(Nothing) + spoken == spoken;
    }
    if OneResponse(ms) {
      forall t, tail | Answered(t, tail, spoken, o)
        ensures Follow(Ex.EXECUTE, Ex.INIT, ms) == Ended(o, [])
      {
        AnsweredFollows(ms, t, tail, o);
      }
    }
  }

  lemma AnsweredFollows(ms: seq<Msg>, t: Told, tail: seq<Msg>, o: Outcome)
    requires MsgsOk(ms) && OneResponse(ms) && Answered(t, tail, Without(Notices(), ms), o)
    ensures Follow(Ex.EXECUTE, Ex.INIT, ms) == Ended(o, [])
  {
    WithoutNotices(ms);
    NoticesIgnored();
    QuietIgnored(Ex.EXECUTE, Notices(), Ex.INIT, ms);
    ResponseFollows(t, tail, Without(Notices(), ms), o);
    EndsAtReady(Ex.INIT, ms);
  }

  /**
   So a command without a result that is not empty, which the protocol ends with NoData and
   CommandComplete, is refused (section 55.2.3 of the PostgreSQL 16 documentation).
   */
  lemma CommandWithoutRowsRefused(tag: bytes, ms: seq<Msg>)
    ensures Follow(Ex.EXECUTE, Ex.INIT, Said(NoRows) + ([CompleteMsg(tag)] + ms)) ==
            Refused(Outcome(MalformedMessage, []))
  {
    Reaches(NoRows, [CompleteMsg(tag)] + ms);
    NotExpected(tag);
    FollowRefused(Ex.EXECUTE, StateOf(NoRows), CompleteMsg(tag), ms);
  }

  lemma NotExpected(tag: bytes)
    ensures Ex.EXECUTE.peek(StateOf(NoRows), TagOf(KindOf(CompleteMsg(tag)))).None?
    ensures Ex.EXECUTE.result(StateOf(NoRows)) == []
  {
  }

  lemma ResponseConverses(ms: seq<Msg>, t: Told, tail: seq<Msg>, o: Outcome, extra: bytes)
    requires MsgsOk(ms) && OneResponse(ms) && Answered(t, tail, Without(Notices(), ms), o)
    ensures Converse(Ex.EXECUTE, Ex.INIT, Idle, EncodeAll(ms) + extra) == Complete(o, extra)
  {
    AnsweredFollows(ms, t, tail, o);
    EndsConverse(Ex.EXECUTE, Ex.INIT, ms, o, extra);
  }

  /**
   execute on any response it completes on, partly left in the buffer by the operation before and otherwise
   cut into any reads: it completes so, and what is unread after it, with the reads not yet made, is exactly
   what follows the response.
   */
  method Receive(conn: Connection, chunks: seq<bytes>,
        ghost ms: seq<Msg>, ghost t: Told, ghost tail: seq<Msg>, ghost o: Outcome, ghost extra: bytes)
    returns (done: Option<Outcome>, used: nat)
    requires conn.Valid() && forall chunk :: chunk in chunks ==> ReadOk(chunk)
    requires MsgsOk(ms) && OneResponse(ms) && Answered(t, tail, Without(Notices(), ms), o)
    requires conn.Unread() + Joined(chunks) == EncodeAll(ms) + extra
    modifies conn, conn.buffer
    ensures done == Some(o) && used <= |chunks|
    ensures conn.Valid() && conn.Unread() + Joined(chunks[used..]) == extra
  {
    ResponseConverses(ms, t, tail, o, extra);
    done, used := CompleteOn(conn, chunks, o, extra);
  }

  /** execute on bytes that it completes on. */
  method CompleteOn(conn: Connection, chunks: seq<bytes>, ghost o: Outcome, ghost extra: bytes)
    returns (done: Option<Outcome>, used: nat)
    requires conn.Valid() && forall chunk :: chunk in chunks ==> ReadOk(chunk)
    requires Converse(Ex.EXECUTE, Ex.INIT, Idle, conn.Unread() + Joined(chunks)) == Complete(o, extra)
    modifies conn, conn.buffer
    ensures done == Some(o) && used <= |chunks|
    ensures conn.Valid() && conn.Unread() + Joined(chunks[used..]) == extra
  {
    ghost var left := conn.Unread();
    ghost var all := left + Joined(chunks);
    var execute := new Ex.Execute(conn);
    done, used := execute.Operate(chunks);
    ghost var heard := Heard(left, chunks, used);
    JoinedRest(left, chunks, used);
    assert heard <= all && all[|heard|..] == Joined(chunks[used..]);
    HeardEnds(Ex.EXECUTE, Ex.INIT, all, heard, o, extra);
  }

  // ---- consecutive operations on one connection ----

  lemma {:induction false} EncodeEachMore(responses: seq<seq<Msg>>, ms: seq<Msg>)
    requires ResponsesOk(responses) && MsgsOk(ms) && OneResponse(ms)
    ensures ResponsesOk(responses + [ms]) && EncodeEach(responses + [ms]) == EncodeEach(responses) + EncodeAll(ms)
  {
    if responses == [] {
      assert [] + [ms] == [ms] && [ms][1..] == [];
      assert EncodeAll(ms) + [] == EncodeAll(ms) == [] + EncodeAll(ms);
    } else {
      assert (responses + [ms])[1..] == responses[1..] + [ms] && responses == [responses[0]] + responses[1..];
      EncodeEachMore(responses[1..], ms);
      Assoc(EncodeAll(responses[0]), EncodeEach(responses[1..]), EncodeAll(ms));
    }
  }

  lemma {:induction false} JoinedTwo(chunks: seq<bytes>, n: nat, k: nat)
    requires n + k <= |chunks|
    ensures Joined(chunks[..n + k]) == Joined(chunks[..n]) + Joined(chunks[n..][..k])
    decreases k
  {
    if k == 0 {
      assert Joined(chunks[..n]) + [] == Joined(chunks[..n]);
    } else {
      JoinedTwo(chunks, n, k - 1);
      JoinedMore(chunks[..n + k - 1], chunks[n + k - 1]);
      JoinedMore(chunks[n..][..k - 1], chunks[n + k - 1]);
      assert chunks[..n + k] == chunks[..n + k - 1] + [chunks[n + k - 1]];
      assert chunks[n..][..k] == chunks[n..][..k - 1] + [chunks[n + k - 1]];
      Assoc(Joined(chunks[..n]), Joined(chunks[n..][..k - 1]), chunks[n + k - 1]);
    }
  }

  function OutcomeOf(ms: seq<Msg>): Outcome {
    Outcome(LastError(ms, NoError), Entries([], [], ms))
  }

  /** What the messages of a response are to the operation that used them. */
  predicate OutcomesOf(outcomes: seq<Outcome>, responses: seq<seq<Msg>>) {
    && |outcomes| == |responses|
    && forall i :: 0 <= i < |outcomes| ==> outcomes[i] == OutcomeOf(responses[i])
  }

  /** All that was unread and has been read is the responses used, and what is unread now. */
  lemma Accounted(left: bytes, chunks: seq<bytes>, used: nat, more: nat,
        responses: seq<seq<Msg>>, ms: seq<Msg>, unread: bytes, unread': bytes)
    requires used + more <= |chunks| && ResponsesOk(responses) && MsgsOk(ms) && OneResponse(ms)
    requires left + Joined(chunks[..used]) == EncodeEach(responses) + unread
    requires Heard(unread, chunks[used..], more) == EncodeAll(ms) + unread'
    ensures ResponsesOk(responses + [ms])
    ensures left + Joined(chunks[..used + more]) == EncodeEach(responses + [ms]) + unread'
  {
    var read := Joined(chunks[used..][..more]);
    JoinedTwo(chunks, used, more);
    Assoc(left, Joined(chunks[..used]), read);
    EncodeEachMore(responses, ms);
    Assoc(EncodeEach(responses), unread, read);
    Assoc(EncodeEach(responses), EncodeAll(ms), unread');
  }

  /** One more outcome, of one more response. */
  lemma OutcomesMore(outcomes: seq<Outcome>, responses: seq<seq<Msg>>, ms: seq<Msg>)
    requires OutcomesOf(outcomes, responses)
    ensures OutcomesOf(outcomes + [OutcomeOf(ms)], responses + [ms])
  {
  }

  lemma {:induction false} LastErrorServer(ms: seq<Msg>, ec: ErrorCode)
    requires ec != MalformedMessage
    ensures LastError(ms, ec) != MalformedMessage
    decreases |ms|
  {
    if ms != [] {
      LastErrorServer(ms[1..], if ms[0].ErrorMsg? then Server(SqlState(ms[0].fields, None)) else ec);
    }
  }

  predicate EndsAt<S>(a: Automaton<S>, s: S, ms: seq<Msg>) {
    Follow(a, s, ms).Ended? && Follow(a, s, ms).left == []
  }

  /** Responses of one ReadyForQuery that the operation completes on. */
  predicate AllEnd<S>(a: Automaton<S>, s: S, responses: seq<seq<Msg>>) {
    ResponsesOk(responses) && forall ms :: ms in responses ==> EndsAt(a, s, ms)
  }

  lemma EndingParts<S>(a: Automaton<S>, s: S, responses: seq<seq<Msg>>, rest: bytes)
    requires AllEnd(a, s, responses) && responses != []
    ensures MsgsOk(responses[0]) && EndsAt(a, s, responses[0]) && AllEnd(a, s, responses[1..])
    ensures EncodeEach(responses) + rest == EncodeAll(responses[0]) + (EncodeEach(responses[1..]) + rest)
  {
    var ms, more := responses[0], responses[1..];
    assert ms in responses && responses == [ms] + more && forall x :: x in more ==> x in responses;
    EncodeEachCons(ms, more, rest);
  }

  lemma EndingCons<S>(a: Automaton<S>, s: S, ms: seq<Msg>, more: seq<seq<Msg>>, rest: bytes)
    requires MsgsOk(ms) && OneResponse(ms) && EndsAt(a, s, ms) && AllEnd(a, s, more)
    ensures AllEnd(a, s, [ms] + more)
    ensures EncodeEach([ms] + more) + rest == EncodeAll(ms) + (EncodeEach(more) + rest)
  {
    EncodeEachCons(ms, more, rest);
  }

  lemma EndsFirst<S>(a: Automaton<S>, s: S, ms: seq<Msg>, n: nat, more: bytes)
    requires MsgsOk(ms) && EndsAt(a, s, ms)
    ensures Repeated(a, s, n + 1, EncodeAll(ms) + more) == Repeated(a, s, n, more)
  {
    EndsConverse(a, s, ms, Follow(a, s, ms).o, more);
  }

  /** Responses that an operation completes on are used one by one. */
  lemma {:induction false} ResponsesRepeat<S>(a: Automaton<S>, s: S, responses: seq<seq<Msg>>, n: nat, rest: bytes)
    requires AllEnd(a, s, responses)
    ensures Repeated(a, s, |responses| + n, EncodeEach(responses) + rest) == Repeated(a, s, n, rest)
  {
    if responses == [] {
      assert [] + rest == rest;
    } else {
      var more := responses[1..];
      EndingParts(a, s, responses, rest);
      EndsFirst(a, s, responses[0], |more| + n, EncodeEach(more) + rest);
      ResponsesRepeat(a, s, more, n, rest);
    }
  }

  /** Whatever the operation completes on ends with its only ReadyForQuery. */
  ghost predicate EndsAtReadyOnly<S>(a: Automaton<S>, s: S) {
    forall ms :: MsgsOk(ms) && EndsAt(a, s, ms) ==> OneResponse(ms)
  }

  lemma OneEnds<S>(a: Automaton<S>, s: S, bs: bytes, o: Outcome, rest: bytes) returns (ms: seq<Msg>)
    requires EndsAtReadyOnly(a, s) && Converse(a, s, Idle, bs) == Complete(o, rest)
    ensures MsgsOk(ms) && OneResponse(ms) && EndsAt(a, s, ms) && bs == EncodeAll(ms) + rest
    ensures Follow(a, s, ms).o == o
  {
    CompletesExactly(a, s, bs, o, rest);
    ms :| MsgsOk(ms) && bs == EncodeAll(ms) + rest && Follow(a, s, ms) == Ended(o, []);
    assert EndsAt(a, s, ms);
  }

  /** The bytes are n responses that the operation completes on, and `rest`. */
  predicate Series<S>(a: Automaton<S>, s: S, responses: seq<seq<Msg>>, n: nat, bs: bytes, rest: bytes) {
    |responses| == n && AllEnd(a, s, responses) && bs == EncodeEach(responses) + rest
  }

  lemma NoSeries<S>(a: Automaton<S>, s: S, bs: bytes)
    ensures Series(a, s, [], 0, bs, bs)
  {
    assert bs == [] + bs;
  }

  lemma SeriesCons<S>(
      a: Automaton<S>, s: S, ms: seq<Msg>, more: seq<seq<Msg>>, n: nat, bs: bytes, mid: bytes, rest: bytes)
    requires MsgsOk(ms) && OneResponse(ms) && EndsAt(a, s, ms) && bs == EncodeAll(ms) + mid
    requires Series(a, s, more, n, mid, rest)
    ensures Series(a, s, [ms] + more, n + 1, bs, rest)
  {
    EndingCons(a, s, ms, more, rest);
  }

  lemma RepeatedFirst<S>(a: Automaton<S>, s: S, n: nat, bs: bytes, rest: bytes) returns (o: Outcome, mid: bytes)
    requires n > 0 && Repeated(a, s, n, bs) == Some(rest)
    ensures Converse(a, s, Idle, bs) == Complete(o, mid) && Repeated(a, s, n - 1, mid) == Some(rest)
  {
    o, mid := Converse(a, s, Idle, bs).o, Converse(a, s, Idle, bs).rest;
  }

  lemma {:induction false} RepeatedResponses<S>(a: Automaton<S>, s: S, n: nat, bs: bytes, rest: bytes)
    returns (responses: seq<seq<Msg>>)
    requires EndsAtReadyOnly(a, s) && Repeated(a, s, n, bs) == Some(rest)
    ensures Series(a, s, responses, n, bs, rest)
    decreases n
  {
    if n == 0 {
      responses := [];
      NoSeries(a, s, bs);
    } else {
      var o, mid := RepeatedFirst(a, s, n, bs, rest);
      var more := RepeatedResponses(a, s, n - 1, mid, rest);
      responses := SeriesFirst(a, s, o, more, n - 1, bs, mid, rest);
    }
  }

  lemma SeriesFirst<S>(
      a: Automaton<S>, s: S, o: Outcome, more: seq<seq<Msg>>, n: nat, bs: bytes, mid: bytes, rest: bytes)
    returns (responses: seq<seq<Msg>>)
    requires EndsAtReadyOnly(a, s) && Converse(a, s, Idle, bs) == Complete(o, mid) && Series(a, s, more, n, mid, rest)
    ensures Series(a, s, responses, n + 1, bs, rest)
  {
    var ms := OneEnds(a, s, bs, o, mid);
    SeriesCons(a, s, ms, more, n, bs, mid, rest);
    responses := [ms] + more;
  }

  lemma SeriesRepeats<S>(a: Automaton<S>, s: S, responses: seq<seq<Msg>>, n: nat, bs: bytes, rest: bytes)
    requires Series(a, s, responses, n, bs, rest)
    ensures Repeated(a, s, n, bs) == Some(rest)
  {
    ResponsesRepeat(a, s, responses, 0, rest);
  }

  lemma ExecuteEnds()
    ensures EndsAtReadyOnly(Ex.EXECUTE, Ex.INIT)
  {
    forall ms | MsgsOk(ms) && EndsAt(Ex.EXECUTE, Ex.INIT, ms)
      ensures OneResponse(ms)
    {
      ExecuteAccounts(Ex.INIT, [], ms);
    }
  }

  /** n executes one after another complete exactly when the bytes begin with n responses that execute completes on. */
  lemma RepeatedExactly(n: nat, bs: bytes, rest: bytes)
    ensures Repeated(Ex.EXECUTE, Ex.INIT, n, bs) == Some(rest) <==>
            exists responses :: Series(Ex.EXECUTE, Ex.INIT, responses, n, bs, rest)
  {
    if Repeated(Ex.EXECUTE, Ex.INIT, n, bs) == Some(rest) {
      ExecuteEnds();
      var responses := RepeatedResponses(Ex.EXECUTE, Ex.INIT, n, bs, rest);
    }
    forall responses | Series(Ex.EXECUTE, Ex.INIT, responses, n, bs, rest)
      ensures Repeated(Ex.EXECUTE, Ex.INIT, n, bs) == Some(rest)
    {
      SeriesRepeats(Ex.EXECUTE, Ex.INIT, responses, n, bs, rest);
    }
  }

  /** The bytes are these responses, and no further one that the operation completes on. */
  ghost predicate StopsAfter<S>(a: Automaton<S>, s: S, responses: seq<seq<Msg>>, bs: bytes) {
    && ResponsesOk(responses)
    && exists rest :: bs == EncodeEach(responses) + rest && !Converse(a, s, Idle, rest).Complete?
  }

  /** The bytes begin with n responses that the operation completes on. */
  ghost predicate Holds<S>(a: Automaton<S>, s: S, n: nat, bs: bytes) {
    exists responses, rest :: Series(a, s, responses, n, bs, rest)
  }

  lemma StopsShort<S>(a: Automaton<S>, s: S, responses: seq<seq<Msg>>, n: nat, bs: bytes)
    requires AllEnd(a, s, responses) && StopsAfter(a, s, responses, bs) && |responses| < n
    ensures Repeated(a, s, n, bs) == None
  {
    var rest :| bs == EncodeEach(responses) + rest && !Converse(a, s, Idle, rest).Complete?;
    ResponsesRepeat(a, s, responses, n - |responses|, rest);
  }

  lemma NotHeld<S>(a: Automaton<S>, s: S, responses: seq<seq<Msg>>, n: nat, bs: bytes)
    requires AllEnd(a, s, responses) && StopsAfter(a, s, responses, bs) && |responses| < n
    ensures !Holds(a, s, n, bs)
  {
    StopsShort(a, s, responses, n, bs);
    if all, rest :| Series(a, s, all, n, bs, rest) {
      SeriesRepeats(a, s, all, n, bs, rest);
    }
  }

  /** What the reads of one operation decide about all the bytes there are. */
  lemma OnceDecides<S>(a: Automaton<S>, s: S, heard: bytes, more: bytes, done: Option<Outcome>)
    requires match Converse(a, s, Idle, heard)
             case Waiting(_, _) => done == None && more == []
             case Complete(o, _) => done == Some(o) && o.ec != MalformedMessage
             case Failed(o) => done == Some(o)
    ensures done.Some? && done.value.ec != MalformedMessage <==> Converse(a, s, Idle, heard + more).Complete?
    ensures done.Some? && done.value.ec != MalformedMessage ==> Converse(a, s, Idle, heard).Complete?
  {
    ConverseSplit(a, s, Idle, heard, more);
    FailureIsMalformed(a, s, Idle, heard);
    assert heard + [] == heard;
  }

  lemma NotMalformed(bs: bytes)
    ensures Converse(Ex.EXECUTE, Ex.INIT, Idle, bs).Complete? ==>
              Converse(Ex.EXECUTE, Ex.INIT, Idle, bs).o.ec != MalformedMessage
  {
    if Converse(Ex.EXECUTE, Ex.INIT, Idle, bs).Complete? {
      var talk := Converse(Ex.EXECUTE, Ex.INIT, Idle, bs);
      var ms := ExecuteDelivers(bs, talk.o, talk.rest);
      LastErrorServer(ms, NoError);
    }
  }

  lemma OneUsed(bs: bytes, o: Outcome, rest: bytes) returns (ms: seq<Msg>)
    requires Converse(Ex.EXECUTE, Ex.INIT, Idle, bs) == Complete(o, rest)
    ensures MsgsOk(ms) && OneResponse(ms) && EndsAt(Ex.EXECUTE, Ex.INIT, ms)
    ensures bs == EncodeAll(ms) + rest && o == OutcomeOf(ms)
  {
    ExecuteEnds();
    ms := OneEnds(Ex.EXECUTE, Ex.INIT, bs, o, rest);
    ExecuteAccounts(Ex.INIT, [], ms);
  }

  /** One execute, and the response it used if it completed on one. */
  method Once(conn: Connection, chunks: seq<bytes>) returns (done: Option<Outcome>, used: nat, ghost ms: seq<Msg>)
    requires conn.Valid() && forall chunk :: chunk in chunks ==> ReadOk(chunk)
    modifies conn, conn.buffer
    ensures conn.Valid() && used <= |chunks|
    ensures done.Some? && done.value.ec != MalformedMessage ==>
              && MsgsOk(ms) && OneResponse(ms) && EndsAt(Ex.EXECUTE, Ex.INIT, ms) && done.value == OutcomeOf(ms)
              && Heard(old(conn.Unread()), chunks, used) == EncodeAll(ms) + conn.Unread()
    ensures done == None || done.value.ec == MalformedMessage ==>
              !Converse(Ex.EXECUTE, Ex.INIT, Idle, old(conn.Unread()) + Joined(chunks)).Complete?
  {
    var execute := new Ex.Execute(conn);
    done, used := execute.Operate(chunks);
    ms := [];
    ghost var heard := Heard(old(conn.Unread()), chunks, used);
    JoinedRest(old(conn.Unread()), chunks, used);
    NotMalformed(heard);
    OnceDecides(Ex.EXECUTE, Ex.INIT, heard, Joined(chunks[used..]), done);
    if done.Some? && done.value.ec != MalformedMessage {
      ms := OneUsed(heard, done.value, conn.Unread());
    }
  }

  /** The bytes heard are responses that execute completes on, and what is unread now. */
  predicate UsedUp(heard: bytes, responses: seq<seq<Msg>>, unread: bytes) {
    AllEnd(Ex.EXECUTE, Ex.INIT, responses) && heard == EncodeEach(responses) + unread
  }

  /** One response more has been used. */
  lemma UsedMore(left: bytes, chunks: seq<bytes>, used: nat, more: nat,
        responses: seq<seq<Msg>>, ms: seq<Msg>, unread: bytes, unread': bytes)
    requires used + more <= |chunks| && UsedUp(left + Joined(chunks[..used]), responses, unread)
    requires MsgsOk(ms) && OneResponse(ms) && EndsAt(Ex.EXECUTE, Ex.INIT, ms)
    requires Heard(unread, chunks[used..], more) == EncodeAll(ms) + unread'
    ensures UsedUp(left + Joined(chunks[..used + more]), responses + [ms], unread')
  {
    Accounted(left, chunks, used, more, responses, ms, unread, unread');
    assert forall x :: x in responses + [ms] ==> x in responses || x == ms;
  }

  /** All there is is what has been used and what is still to come. */
  lemma UsedAll(left: bytes, chunks: seq<bytes>, used: nat, responses: seq<seq<Msg>>, unread: bytes)
    requires used <= |chunks| && UsedUp(left + Joined(chunks[..used]), responses, unread)
    ensures left + Joined(chunks) == EncodeEach(responses) + (unread + Joined(chunks[used..]))
  {
    JoinedRest(left, chunks, used);
    Assoc(EncodeEach(responses), unread, Joined(chunks[used..]));
  }

  lemma StopsHere(left: bytes, chunks: seq<bytes>, used: nat, responses: seq<seq<Msg>>, unread: bytes)
    requires used <= |chunks| && UsedUp(left + Joined(chunks[..used]), responses, unread)
    requires !Converse(Ex.EXECUTE, Ex.INIT, Idle, unread + Joined(chunks[used..])).Complete?
    ensures StopsAfter(Ex.EXECUTE, Ex.INIT, responses, left + Joined(chunks))
  {
    UsedAll(left, chunks, used, responses, unread);
  }

  lemma RestReads(chunks: seq<bytes>, used: nat)
    requires used <= |chunks| && forall chunk :: chunk in chunks ==> ReadOk(chunk)
    ensures forall chunk :: chunk in chunks[used..] ==> ReadOk(chunk)
  {
  }

  /** One more execute, with the reads the ones before it have left. */
  method OneMore(conn: Connection, chunks: seq<bytes>, used: nat, ghost left: bytes, ghost responses: seq<seq<Msg>>)
    returns (done: Option<Outcome>, used': nat, ghost ms: seq<Msg>)
    requires conn.Valid() && used <= |chunks| && UsedUp(left + Joined(chunks[..used]), responses, conn.Unread())
    requires forall chunk :: chunk in chunks ==> ReadOk(chunk)
    modifies conn, conn.buffer
    ensures conn.Valid() && used' <= |chunks|
    ensures done.Some? && done.value.ec != MalformedMessage ==>
              done.value == OutcomeOf(ms) && UsedUp(left + Joined(chunks[..used']), responses + [ms], conn.Unread())
    ensures done == None || done.value.ec == MalformedMessage ==>
              StopsAfter(Ex.EXECUTE, Ex.INIT, responses, left + Joined(chunks))
  {
    ghost var unread := conn.Unread();
    RestReads(chunks, used);
    var more;
    done, more, ms := Once(conn, chunks[used..]);
    used' := used + more;
    if done.Some? && done.value.ec != MalformedMessage {
      UsedMore(left, chunks, used, more, responses, ms, unread, conn.Unread());
    } else {
      StopsHere(left, chunks, used, responses, unread);
    }
  }

  /**
   Executes one after another on one connection, each going on with what the one before it left unread and with
   the reads after it: all n complete exactly if the bytes begin with n responses that execute completes on, and then
   the bytes they had are n responses, each used by one of them, and what is unread after the last; no byte is lost
   or used twice.
   */
  method RunExecutes(conn: Connection, n: nat, chunks: seq<bytes>)
    returns (outcomes: seq<Outcome>, used: nat, ghost responses: seq<seq<Msg>>)
    requires conn.Valid() && forall chunk :: chunk in chunks ==> ReadOk(chunk)
    modifies conn, conn.buffer
    ensures conn.Valid() && |outcomes| <= n && used <= |chunks| && OutcomesOf(outcomes, responses)
    ensures |outcomes| == n ==> UsedUp(old(conn.Unread()) + Joined(chunks[..used]), responses, conn.Unread())
    ensures |outcomes| == n <==> Holds(Ex.EXECUTE, Ex.INIT, n, old(conn.Unread()) + Joined(chunks))
  {
    outcomes, used, responses := [], 0, [];
    ghost var left := conn.Unread();
    assert left + Joined(chunks[..0]) == left == EncodeEach([]) + conn.Unread();
    while |outcomes| < n
      invariant conn.Valid() && |outcomes| <= n && used <= |chunks| && OutcomesOf(outcomes, responses)
      invariant UsedUp(left + Joined(chunks[..used]), responses, conn.Unread())
    {
      var done, used';
      ghost var ms;
      done, used', ms := OneMore(conn, chunks, used, left, responses);
      if done == None || done.value.ec == MalformedMessage {
        NotHeld(Ex.EXECUTE, Ex.INIT, responses, n, left + Joined(chunks));
        return;
      }
      OutcomesMore(outcomes, responses, ms);
      outcomes, used, responses := outcomes + [done.value], used', responses + [ms];
    }
    UsedAll(left, chunks, used, responses, conn.Unread());
    assert Series(Ex.EXECUTE, Ex.INIT, responses, n, left + Joined(chunks), conn.Unread() + Joined(chunks[used..]));
  }
}
