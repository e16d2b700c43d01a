/**
 Exactly which responses simple_query completes on, with any number of statements, and with what; and that it does
 so however the response is cut into reads.
 */
module PgSimpleResponses {
  import opened Bytes
  import opened PgMessages
  import opened PgFrame
  import opened PgCodec
  import opened PgStream
  import opened Conversation
  import opened PgConnection
  import opened PgResponses
  import Ex = PgExecute
  import Sq = PgSimpleQuery

  /**
   The response to a statement, before its CommandComplete: nothing, EmptyQueryResponse, or a description and rows.
   */
  datatype Answer = Silent | EmptyQuery | Tuples(rs: ResultSet)

  datatype Command = Command(answer: Answer, tag: bytes)

  /** The commands completed, and the one that is not. */
  datatype Script = Script(commands: seq<Command>, open: Answer)

  function EntryOf(a: Answer): Option<ResultSet> {
    if a.Tuples? then Some(a.rs) else None
  }

  function EntriesOf(commands: seq<Command>): Results {
    if commands == [] then [] else EntriesOf(commands[..|commands| - 1]) + [EntryOf(commands[|commands| - 1].answer)]
  }

  /** The last message of a script, and what came before. */
  function Latest(t: Script): Option<(Script, Msg)> {
    match t.open
    case Silent =>
      if t.commands == [] then None else
      var n := |t.commands| - 1;
      Some((Script(t.commands[..n], t.commands[n].answer), CompleteMsg(t.commands[n].tag)))
    case EmptyQuery => Some((t.(open := Silent), Bare(EmptyQueryResponse)))
    case Tuples(rs) =>
      if rs.data == [] then Some((t.(open := Silent), DescMsg(rs.desc)))
      else Some((t.(open := Tuples(ResultSet(rs.desc, rs.data[..|rs.data| - 1]))), RowMsg(rs.data[|rs.data| - 1])))
  }

  function Size(a: Answer): nat {
    match a
    case Silent => 0
    case EmptyQuery => 1
    case Tuples(rs) => 1 + |rs.data|
  }

  /** The messages of a script. */
  function Said(t: Script): seq<Msg>
    decreases |t.commands|, Size(t.open), t
  {
    match Latest(t)
    case None => []
    case Some((before, m)) => Said(before) + [m]
  }

  predicate FineAnswer(a: Answer) {
    a.Tuples? ==> Ex.Rectangular(a.rs)
  }

  /** Rows have the width of their description. */
  predicate Fine(t: Script) {
    FineAnswer(t.open) && forall c :: c in t.commands ==> FineAnswer(c.answer)
  }

  function Stage(a: Answer): Sq.Response {
    match a
    case Silent => Sq.Unknown
    case EmptyQuery => Sq.EmptyResponse
    case Tuples(_) => Sq.WithDataWithDef
  }

  function StateOf(t: Script): Sq.State {
    Sq.State(Stage(t.open), EntryOf(t.open), EntriesOf(t.commands))
  }

  lemma LatestFine(t: Script)
    requires Fine(t) && Latest(t).Some?
    ensures Fine(Latest(t).value.0)
  {
    match t.open
    case Silent =>
      var n := |t.commands| - 1;
      assert t.commands[n] in t.commands && forall c :: c in t.commands[..n] ==> c in t.commands;
    case EmptyQuery =>
    case Tuples(rs) => assert rs.data != [] ==> forall row :: row in rs.data[..|rs.data| - 1] ==> row in rs.data;
  }

  lemma LatestSteps(t: Script)
    requires Fine(t) && Latest(t).Some?
    ensures var (before, m) := Latest(t).value; Steps(Sq.SIMPLE, StateOf(before), m, StateOf(t))
  {
    if t.open.Tuples? && t.open.rs.data != [] {
      RowSteps(t);
    }
  }

  lemma RowSteps(t: Script)
    requires Fine(t) && t.open.Tuples? && t.open.rs.data != []
    ensures var (before, m) := Latest(t).value; Steps(Sq.SIMPLE, StateOf(before), m, StateOf(t))
  {
    var data := t.open.rs.data;
    var n := |data| - 1;
    assert data[..n] + [data[n]] == data && data[n] in data;
  }

  lemma SaidNext(t: Script, tail: seq<Msg>)
    ensures match Latest(t)
            case None => Said(t) + tail == tail && StateOf(t) == Sq.INIT
            case Some((before, m)) => Said(t) + tail == Said(before) + ([m] + tail)
  {
    match Latest(t)
    case None => assert [] + tail == tail;
    case Some((before, m)) => assert Said(before) + [m] + tail == Said(before) + ([m] + tail);
  }

  /** simple_query is in that state when the script has been said. */
  lemma {:induction false} Reaches(t: Script, tail: seq<Msg>)
    requires Fine(t)
    ensures Follow(Sq.SIMPLE, Sq.INIT, Said(t) + tail) == Follow(Sq.SIMPLE, StateOf(t), tail)
    decreases |t.commands|, Size(t.open)
  {
    SaidNext(t, tail);
    match Latest(t)
    case None =>
    case Some((before, m)) =>
      LatestFine(t);
      LatestSteps(t);
      Reaches(before, [m] + tail);
      FollowStep(Sq.SIMPLE, StateOf(before), m, StateOf(t), tail);
  }

  // ---- the responses simple_query completes on ----

  /** A row that is accepted has the width of its table. */
  lemma RowWidth(t: Script, row: Row, s1: Sq.State)
    requires Fine(t) && t.open.Tuples?
    requires Sq.Peek(StateOf(t), TagOf(DataRowOf(|row|))) == Some((DataRowOf(|row|), s1))
    ensures var t' := t.(open := Tuples(ResultSet(t.open.rs.desc, t.open.rs.data + [row])));
            Fine(t') && Latest(t') == Some((t, RowMsg(row)))
  {
    var data := t.open.rs.data + [row];
    assert data[..|data| - 1] == t.open.rs.data;
  }

  lemma CommandDone(t: Script, tag: bytes)
    requires Fine(t)
    ensures var t' := Script(t.commands + [Command(t.open, tag)], Silent);
            Fine(t') && Latest(t') == Some((t, CompleteMsg(tag)))
  {
    var commands := t.commands + [Command(t.open, tag)];
    assert commands[..|commands| - 1] == t.commands;
  }

  /** What an accepted message can be in each stage. */
  lemma OnlyExpected(s: Sq.State, m: Msg)
    requires MsgOk(m) && Sq.Peek(s, TagOf(KindOf(m))).Some?
    ensures match m
            case Bare(k) => k == EmptyQueryResponse && s.response == Sq.Unknown
            case DescMsg(_) => s.response == Sq.Unknown
            case RowMsg(_) => s.response == Sq.WithDataWithDef
            case _ => true
  {
  }

  /** A message that simple_query accepts, and that does not end it, goes on with the script. */
  lemma Extends(t: Script, m: Msg, s1: Sq.State) returns (t': Script)
    requires Fine(t) && MsgOk(m) && !m.NoticeMsg? && !m.ParameterMsg? && !m.ErrorMsg? && !m.ReadyMsg?
    requires Sq.Peek(StateOf(t), TagOf(KindOf(m))) == Some((KindOf(m), s1))
    ensures Fine(t') && Latest(t') == Some((t, m))
  {
    OnlyExpected(StateOf(t), m);
    match m
    case Bare(_) => t' := t.(open := EmptyQuery);
    case DescMsg(desc) => t' := t.(open := Tuples(ResultSet(desc, [])));
    case RowMsg(row) =>
      RowWidth(t, row, s1);
      t' := t.(open := Tuples(ResultSet(t.open.rs.desc, t.open.rs.data + [row])));
    case CompleteMsg(tag) =>
      CommandDone(t, tag);
      t' := Script(t.commands + [Command(t.open, tag)], Silent);
  }

  function Quiet(): Msg -> bool {
    (m: Msg) => m.NoticeMsg? || m.ParameterMsg?
  }

  lemma QuietSteps()
    ensures Ignores(Sq.SIMPLE, Quiet())
  {
  }

  predicate Quietless(ms: seq<Msg>) {
    forall m :: m in ms ==> !m.NoticeMsg? && !m.ParameterMsg?
  }

  /** The error an end stands for. */
  function CodeOf(end: Msg): ErrorCode {
    if end.ErrorMsg? then Server(SqlState(end.fields, None)) else NoError
  }

  /**
   The response `ms`: a script, whose last command may be unfinished, and its end; an unfinished command has no
   entry.
   */
  predicate Answered(t: Script, end: Msg, ms: seq<Msg>, o: Outcome) {
    && Fine(t) && ms == Said(t) + [end] && (end.ReadyMsg? || end.ErrorMsg?)
    && o == Outcome(CodeOf(end), EntriesOf(t.commands))
  }

  lemma AcceptedTail(ms: seq<Msg>, m: Msg, more: seq<Msg>)
    requires MsgsOk(ms) && Quietless(ms) && ms == [m] + more
    ensures MsgOk(m) && !m.NoticeMsg? && !m.ParameterMsg? && MsgsOk(more) && Quietless(more)
  {
    assert m in ms && forall x :: x in more ==> x in ms;
  }

  /** From a script on, whatever simple_query completes on is such a response. */
  lemma {:induction false} ResponseTaken(t: Script, ms: seq<Msg>, o: Outcome) returns (t': Script, end: Msg)
    requires Fine(t) && MsgsOk(ms) && Quietless(ms) && Follow(Sq.SIMPLE, StateOf(t), ms) == Ended(o, [])
    ensures Answered(t', end, Said(t) + ms, o)
    decreases |ms|
  {
    var m, more, s1 := FollowTaken(Sq.SIMPLE, StateOf(t), ms);
    AcceptedTail(ms, m, more);
    if m.ErrorMsg? || m.ReadyMsg? {
      EndStops(StateOf(t), m);
      FollowStop(Sq.SIMPLE, StateOf(t), m, Outcome(CodeOf(m), EntriesOf(t.commands)), more);
      t', end := t, m;
      assert [m] + [] == [m];
    } else {
      var next := Extends(t, m, s1);
      LatestSteps(next);
      FollowStep(Sq.SIMPLE, StateOf(t), m, StateOf(next), more);
      SaidNext(next, more);
      t', end := ResponseTaken(next, more, o);
    }
  }

  lemma EndStops(s: Sq.State, m: Msg)
    requires m.ErrorMsg? || m.ReadyMsg?
    ensures Stops(Sq.SIMPLE, s, m, Outcome(CodeOf(m), s.result))
  {
  }

  /** And such a response is what it completes on. */
  lemma ResponseFollows(t: Script, end: Msg, ms: seq<Msg>, o: Outcome)
    requires Answered(t, end, ms, o)
    ensures Follow(Sq.SIMPLE, Sq.INIT, ms) == Ended(o, [])
  {
    Reaches(t, [end]);
    EndStops(StateOf(t), end);
    FollowStop(Sq.SIMPLE, StateOf(t), end, o, []);
    assert [end] + [] == [end];
  }

  /** Nothing is left of a list that one end ends. */
  lemma {:induction false} EndsAtEnd(s: Sq.State, ms: seq<Msg>)
    requires MsgsOk(ms) && EndsOnce(ms) && Follow(Sq.SIMPLE, s, ms).Ended?
    ensures Follow(Sq.SIMPLE, s, ms).left == []
    decreases |ms|
  {
    var m, more, s1 := FollowTaken(Sq.SIMPLE, s, ms);
    SimpleStep(s, m, s1, more);
    assert ms[1..] == more;
    if !m.ReadyMsg? && !m.ErrorMsg? {
      EndsAtEnd(Sq.Act(s1, Meaning(m)).s, more);
    }
  }

  lemma {:induction false} WithoutQuiet(ms: seq<Msg>)
    requires MsgsOk(ms)
    ensures MsgsOk(Without(Quiet(), ms)) && Quietless(Without(Quiet(), ms))
  {
    if ms != [] {
      WithoutQuiet(ms[1..]);
    }
  }

  /**
   The responses simple_query completes on, exactly, among all lists of messages: notices and parameters aside, any
   commands with their answers, possibly one that is not completed, and one ReadyForQuery or error at the end.
   It delivers one entry for each completed command, and that error.
   */
  lemma SimpleResponses(ms: seq<Msg>, o: Outcome)
    requires MsgsOk(ms)
    ensures Follow(Sq.SIMPLE, Sq.INIT, ms) == Ended(o, []) <==>
            EndsOnce(ms) && exists t, end :: Answered(t, end, Without(Quiet(), ms), o)
  {
    var spoken := Without(Quiet(), ms);
    if Follow(Sq.SIMPLE, Sq.INIT, ms) == Ended(o, []) {
      WithoutQuiet(ms);
      QuietSteps();
      QuietIgnored(Sq.SIMPLE, Quiet(), Sq.INIT, ms);
      SimpleStops(Sq.INIT, ms);
      var start := Script([], Silent);
      var t, end := ResponseTaken(start, spoken, o);
      SaidNext(start, spoken);
    }
    if EndsOnce(ms) {
      forall t, end | Answered(t, end, spoken, o)
        ensures Follow(Sq.SIMPLE, Sq.INIT, ms) == Ended(o, [])
      {
        AnsweredFollows(ms, t, end, o);
      }
    }
  }

  lemma AnsweredFollows(ms: seq<Msg>, t: Script, end: Msg, o: Outcome)
    requires MsgsOk(ms) && EndsOnce(ms) && Answered(t, end, Without(Quiet(), ms), o)
    ensures Follow(Sq.SIMPLE, Sq.INIT, ms) == Ended(o, [])
  {
    QuietSteps();
    QuietIgnored(Sq.SIMPLE, Quiet(), Sq.INIT, ms);
    ResponseFollows(t, end, Without(Quiet(), ms), o);
    EndsAtEnd(Sq.INIT, ms);
  }

  lemma ResponseConverses(ms: seq<Msg>, t: Script, end: Msg, o: Outcome, extra: bytes)
    requires MsgsOk(ms) && EndsOnce(ms) && Answered(t, end, Without(Quiet(), ms), o)
    ensures Converse(Sq.SIMPLE, Sq.INIT, Idle, EncodeAll(ms) + extra) == Complete(o, extra)
  {
    AnsweredFollows(ms, t, end, o);
    EndsConverse(Sq.SIMPLE, Sq.INIT, ms, o, extra);
  }

  /**
   simple_query on any response it completes on, partly left in the buffer by the operation before and otherwise
   cut into any reads: it completes so, and what is unread after it, with the reads not yet made, is exactly
   what follows the response.
   */
  method Receive(conn: Connection, chunks: seq<bytes>,
        ghost ms: seq<Msg>, ghost t: Script, ghost end: Msg, ghost o: Outcome, ghost extra: bytes)
    returns (done: Option<Outcome>, used: nat)
    requires conn.Valid() && forall chunk :: chunk in chunks ==> ReadOk(chunk)
    requires MsgsOk(ms) && EndsOnce(ms) && Answered(t, end, Without(Quiet(), ms), o)
    requires conn.Unread() + Joined(chunks) == EncodeAll(ms) + extra
    modifies conn, conn.buffer
    ensures done == Some(o) && used <= |chunks|
    ensures conn.Valid() && conn.Unread() + Joined(chunks[used..]) == extra
  {
    ResponseConverses(ms, t, end, o, extra);
    done, used := CompleteOn(conn, chunks, o, extra);
  }

  /** simple_query on bytes that it completes on. */
  method CompleteOn(conn: Connection, chunks: seq<bytes>, ghost o: Outcome, ghost extra: bytes)
    returns (done: Option<Outcome>, used: nat)
    requires conn.Valid() && forall chunk :: chunk in chunks ==> ReadOk(chunk)
    requires Converse(Sq.SIMPLE, Sq.INIT, Idle, conn.Unread() + Joined(chunks)) == Complete(o, extra)
    modifies conn, conn.buffer
    ensures done == Some(o) && used <= |chunks|
    ensures conn.Valid() && conn.Unread() + Joined(chunks[used..]) == extra
  {
    ghost var left := conn.Unread();
    ghost var all := left + Joined(chunks);
    var query := new Sq.SimpleQuery(conn);
    done, used := query.Operate(chunks);
    ghost var heard := Heard(left, chunks, used);
    JoinedRest(left, chunks, used);
    assert heard <= all && all[|heard|..] == Joined(chunks[used..]);
    HeardEnds(Sq.SIMPLE, Sq.INIT, all, heard, o, extra);
  }
}
