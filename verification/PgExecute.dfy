/** execute: Bind, Describe, Execute, Sync and the parsing of their responses (postgresql/detail/execute.ipp). */
module PgExecute {
  import opened Bytes
  import opened PgFields
  import opened PgMessages
  import opened PgFrame
  import opened Conversation
  import opened PgConnection

  datatype Expect = BindDone | RowDescOrNoData | DataRows | EmptyQuery | ReadyNow

  /** The members of the operation that its responses change, but for the parser variant. */
  datatype State<E> = State(expected: E, curr: Option<ResultSet>, result: Results, err: ErrorCode)

  const INIT: State<Expect> := State(BindDone, None, [], NoError)

  /** The automaton over `expected`: the state after the tag of an acceptable message. */
  function Allow(expected: Expect, tag: byte): Option<Expect> {
    match tag as char
    case '2' => if expected == BindDone then Some(RowDescOrNoData) else None
    case 'T' => if expected == RowDescOrNoData then Some(DataRows) else None
    case 'D' => if expected == DataRows then Some(DataRows) else None
    case 'C' => if expected == DataRows then Some(ReadyNow) else None
    case 'n' => if expected == RowDescOrNoData then Some(EmptyQuery) else None
    case 'I' => if expected == EmptyQuery then Some(ReadyNow) else None
    case 'Z' => if expected == ReadyNow then Some(ReadyNow) else None
    case 'E' => Some(ReadyNow)
    case 'N' => Some(expected)
    case _ => None
  }

  /** The parser emplaced for a tag; a row parser is given the number of columns described, as a uint16. */
  function ParserFor(tag: byte, curr: Option<ResultSet>): GoodKind {
    match tag as char
    case '1' => ParseComplete
    case '2' => BindComplete
    case 'T' => RowDescription
    case 'D' => DataRowOf(if curr.Some? then |curr.value.desc| % TWO_16 else 0)
    case 'C' => CommandComplete
    case 'n' => NoData
    case 'I' => EmptyQueryResponse
    case 'Z' => ReadyForQuery
    case 'E' => ErrorResponse
    case _ => NoticeResponse
  }

  function Peek(s: State<Expect>, tag: byte): Option<(GoodKind, State<Expect>)> {
    match Allow(s.expected, tag)
    case None => None
    case Some(expected) => Some((ParserFor(tag, s.curr), s.(expected := expected)))
  }

  /** What a parsed message does. */
  function Act<E>(s: State<E>, v: Value): After<State<E>> {
    match v
    case Description(desc) => Continue(s.(curr := Some(ResultSet(desc, []))))
    case DataRow(row) =>
      Continue(if s.curr.None? then s else s.(curr := Some(s.curr.value.(data := s.curr.value.data + [row]))))
    case Completed(_) => Continue(s.(result := s.result + [s.curr], curr := None))
    case Error(ec) => Continue(s.(err := Server(ec)))
    case Ready(_) => Finish(Outcome(s.err, s.result))
    case _ => Continue(s)
  }

  const EXECUTE: Automaton<State<Expect>> := Automaton(Peek, Act<Expect>, (s: State<Expect>) => s.result)

  // ---- every reachable state ----

  /** Each row has as many cells as there are columns, and that number is a uint16. */
  predicate Rectangular(rs: ResultSet) {
    |rs.desc| < TWO_16 && forall row :: row in rs.data ==> |row| == |rs.desc|
  }

  /** At most one entry, and every entry is engaged and rectangular. */
  predicate GoodResults(result: Results) {
    |result| <= 1 && forall r :: r in result ==> r.Some? && Rectangular(r.value)
  }

  predicate GoodOutcome(o: Outcome) {
    GoodResults(o.result)
  }

  /** `before`: still before the rows; `rows`: between the description and the end of the command. */
  predicate Sound(before: bool, rows: bool, curr: Option<ResultSet>, result: Results, k: Option<Kind>) {
    && GoodResults(result)
    && (curr.Some? ==> Rectangular(curr.value))
    && (before || rows || k == Some(CommandComplete) ==> result == [])
    && (before || k == Some(RowDescription) ==> curr.None?)
    && (rows && k != Some(RowDescription) ==> curr.Some?)
    && (k == Some(CommandComplete) ==> curr.Some?)
    && (k.Some? && k.value.DataRowOf? ==> curr.Some? && k.value.columns == |curr.value.desc|)
  }

  /** The invariant of every reachable state, with the message in flight. */
  predicate Inv(s: State<Expect>, k: Option<Kind>) {
    && Sound(s.expected in {BindDone, RowDescOrNoData}, s.expected == DataRows, s.curr, s.result, k)
    && (k.Some? ==> k.value.RowDescription? || k.value.DataRowOf? ==> s.expected == DataRows)
    && (k == Some(CommandComplete) ==> s.expected == ReadyNow)
  }

  lemma PeekKeeps(s: State<Expect>, tag: byte)
    requires Inv(s, None)
    ensures Peek(s, tag).Some? ==> Inv(Peek(s, tag).value.1, Some(Peek(s, tag).value.0))
  {
  }

  lemma ActKeeps(s: State<Expect>, k: Kind, v: Value)
    requires Inv(s, Some(k)) && Yields(k, v)
    ensures match Act(s, v)
            case Continue(s') => Inv(s', None)
            case Finish(o) => GoodOutcome(o)
  {
  }

  lemma ExecuteInductive()
    ensures Inductive(EXECUTE, Inv, GoodOutcome)
  {
    forall s, b: byte | Inv(s, None)
      ensures match Peek(s, b)
              case None => GoodOutcome(Outcome(MalformedMessage, s.result))
              case Some((k, s')) => Inv(s', Some(k))
    {
      PeekKeeps(s, b);
    }
    forall s, k, v | Inv(s, Some(k)) && Yields(k, v)
      ensures match Act(s, v)
              case Continue(s') => Inv(s', None)
              case Finish(o) => GoodOutcome(o)
    {
      ActKeeps(s, k, v);
    }
  }

  /**
   Over every byte string: the invariant holds whenever execute waits, and whatever it completes
   with has at most one entry, engaged, rectangular.
   */
  lemma ExecuteSafe(bs: bytes)
    ensures match Converse(EXECUTE, INIT, Idle, bs)
            case Waiting(s, slot) => Inv(s, InFlight(slot))
            case Complete(o, _) => GoodOutcome(o)
            case Failed(o) => GoodOutcome(o)
  {
    ExecuteInductive();
    ConverseKeeps(EXECUTE, Inv, GoodOutcome, INIT, Idle, bs);
  }

  // ---- the operation ----

  class Execute {
    const conn: Connection
    var err: ErrorCode
    var result: Results
    var curr: Option<ResultSet>
    var parsers: Slot
    var expected: Expect

    ghost function Members(): State<Expect>
      reads this
    {
      State(expected, curr, result, err)
    }

    ghost predicate Valid()
      reads this, conn, conn.buffer
    {
      conn.Valid() && Inv(Members(), InFlight(parsers))
    }

    /** The operation and its connection are where a conversation says they are. */
    ghost predicate Agrees(t: Talk<State<Expect>>, done: Option<Outcome>)
      reads this, conn, conn.buffer
      requires conn.Valid()
    {
      match t
      case Waiting(s, slot) =>
        done == None && Valid() && Members() == s && parsers == slot && conn.bufBegin == conn.bufEnd
      case Complete(o, rest) => done == Some(o) && conn.Unread() == rest
      case Failed(o) => done == Some(o)
    }

    constructor (c: Connection)
      requires c.Valid()
      ensures Valid() && conn == c && Members() == INIT && parsers == Idle
    {
      conn, err, result, curr, parsers, expected := c, NoError, [], None, Idle, BindDone;
    }

    /** case 0 of do_parse, after the emptiness test: chooses the parser for a tag, or refuses it. */
    method Choose(tag: byte) returns (ok: bool)
      requires Valid() && parsers == Idle
      modifies `parsers, `expected
      ensures match Peek(old(Members()), tag)
              case None => !ok && Members() == old(Members()) && parsers == Idle
              case Some((k, s)) => ok && Members() == s && parsers == Busy(AtTag(k))
      ensures Valid()
    {
      PeekKeeps(Members(), tag);
      ok := true;
      var kind: GoodKind := NoticeResponse;
      if tag == '2' as int {
        if expected == BindDone {
          kind, expected := BindComplete, RowDescOrNoData;
        } else {
          ok := false;
        }
      } else if tag == 'T' as int {
        if expected == RowDescOrNoData {
          kind, expected := RowDescription, DataRows;
        } else {
          ok := false;
        }
      } else if tag == 'D' as int {
        if expected == DataRows {
          kind := DataRowOf(|curr.value.desc| % TWO_16);
        } else {
          ok := false;
        }
      } else if tag == 'C' as int {
        if expected == DataRows {
          kind, expected := CommandComplete, ReadyNow;
        } else {
          ok := false;
        }
      } else if tag == 'n' as int {
        if expected == RowDescOrNoData {
          kind, expected := NoData, EmptyQuery;
        } else {
          ok := false;
        }
      } else if tag == 'I' as int {
        if expected == EmptyQuery {
          kind, expected := EmptyQueryResponse, ReadyNow;
        } else {
          ok := false;
        }
      } else if tag == 'Z' as int {
        if expected == ReadyNow {
          kind := ReadyForQuery;
        } else {
          ok := false;
        }
      } else if tag == 'E' as int {
        kind, expected := ErrorResponse, ReadyNow;
      } else if tag != 'N' as int {
        ok := false;
      }
      if ok {
        parsers := Busy(AtTag(kind));
      }
    }

    /** The ParseSuccess branches of do_parse; Some is a call of complete. */
    method Absorb(v: Value) returns (done: Option<Outcome>)
      requires Valid() && parsers.Busy? && Yields(parsers.f.k, v)
      modifies `err, `result, `curr, `parsers
      ensures match Act(old(Members()), v)
              case Continue(s) => done == None && Members() == s && parsers == Idle && Valid()
              case Finish(o) => done == Some(o)
    {
      ActKeeps(Members(), parsers.f.k, v);
      done := None;
      match v {
        case Error(ec) => err := Server(ec);
        case Description(desc) => curr := Some(ResultSet(desc, []));
        case DataRow(row) =>
          var rows := curr.value.data + [row];
          curr := Some(ResultSet(curr.value.desc, rows));
        case Completed(_) =>
          result := result + [curr];
          curr := None;
        case Ready(_) =>
          done := Some(Outcome(err, result));
          return;
        case _ =>
      }
      parsers := Idle;
    }

    /** One turn of the loop of do_parse; `stop` when it returns, after a request for a read or a call of complete. */
    method Turn() returns (stop: bool, done: Option<Outcome>)
      requires Valid()
      modifies this, conn
      ensures conn.Valid() && conn.received == old(conn.received) && old(conn.taken) <= conn.taken
      ensures stop ==> Agrees(Converse(EXECUTE, old(Members()), old(parsers), old(conn.Unread())), done)
      ensures !stop ==> Valid() && Converse(EXECUTE, Members(), parsers, conn.Unread()) ==
                                   Converse(EXECUTE, old(Members()), old(parsers), old(conn.Unread()))
      ensures !stop ==> conn.bufEnd == old(conn.bufEnd)
      ensures stop || conn.bufBegin > old(conn.bufBegin)
           || (conn.bufBegin == old(conn.bufBegin) && old(parsers).Idle? && parsers.Busy?)
    {
      stop, done := true, None;
      if parsers.Idle? {
        if conn.bufBegin == conn.bufEnd {
          conn.ResetCursors();
          return;
        }
        var ok := Choose(conn.buffer[conn.bufBegin]);
        if !ok {
          done := Some(Outcome(MalformedMessage, result));
          return;
        }
        stop := false;
      } else {
        var r, f, v := conn.Parse(parsers.f);
        if r == ParseSuccess {
          done := Absorb(v);
          stop := done.Some?;
        } else if r == ParseNeedMore {
          parsers := Busy(f);
          conn.ResetCursors();
        } else {
          done := Some(Outcome(MalformedMessage, result));
        }
      }
    }

    /** do_parse: None is a request for another read, Some a call of complete. */
    method DoParse() returns (done: Option<Outcome>)
      requires Valid()
      modifies this, conn
      ensures conn.Valid() && conn.received == old(conn.received) && old(conn.taken) <= conn.taken
      ensures Agrees(Converse(EXECUTE, old(Members()), old(parsers), old(conn.Unread())), done)
    {
      var stop := false;
      done := None;
      while !stop
        invariant conn.Valid() && conn.received == old(conn.received) && old(conn.taken) <= conn.taken
        invariant !stop ==> Valid() && Converse(EXECUTE, old(Members()), old(parsers), old(conn.Unread())) ==
                                       Converse(EXECUTE, Members(), parsers, conn.Unread())
        invariant stop ==> Agrees(Converse(EXECUTE, old(Members()), old(parsers), old(conn.Unread())), done)
        decreases !stop, conn.bufEnd - conn.bufBegin, parsers.Idle?
      {
        stop, done := Turn();
      }
    }

    /** The ev_read handler, and the read that leads to it. */
    method OnRead(chunk: bytes) returns (done: Option<Outcome>)
      requires Valid() && conn.bufBegin == conn.bufEnd && ReadOk(chunk)
      modifies this, conn, conn.buffer
      ensures conn.Valid() && conn.received == old(conn.received) + chunk && old(conn.taken) <= conn.taken
      ensures Agrees(Converse(EXECUTE, old(Members()), old(parsers), chunk), done)
    {
      conn.Deliver(chunk);
      done := DoParse();
    }

    /**
     The operation after its request is sent: do_parse on what the previous operation left, and
     again on every read, until it completes or the reads run out.  `used` reads were made, and none after it completed.
     */
    method Operate(chunks: seq<bytes>) returns (done: Option<Outcome>, used: nat)
      requires Valid() && forall chunk :: chunk in chunks ==> ReadOk(chunk)
      modifies this, conn, conn.buffer
      ensures conn.Valid() && used <= |chunks| && (done == None ==> used == |chunks|)
      ensures conn.received == Heard(old(conn.received), chunks, used) && old(conn.taken) <= conn.taken
      ensures Agrees(Converse(EXECUTE, old(Members()), old(parsers), Heard(old(conn.Unread()), chunks, used)), done)
      ensures done.Some? && used > 0 ==>
                Converse(EXECUTE, old(Members()), old(parsers), Heard(old(conn.Unread()), chunks, used - 1)).Waiting?
    {
      used := 0;
      ghost var left, s0, slot0, received := conn.Unread(), Members(), parsers, conn.received;
      assert Heard(left, chunks, 0) == left && Heard(received, chunks, 0) == received;
      ghost var talk := Converse(EXECUTE, s0, slot0, left);
      ghost var before := talk;
      done := DoParse();
      while done == None && used < |chunks|
        invariant used <= |chunks| && conn.Valid() && old(conn.taken) <= conn.taken
        invariant conn.received == Heard(received, chunks, used)
        invariant talk == Converse(EXECUTE, s0, slot0, Heard(left, chunks, used)) && Agrees(talk, done)
        invariant done.Some? && used > 0 ==>
                    before == Converse(EXECUTE, s0, slot0, Heard(left, chunks, used - 1)) && before.Waiting?
      {
        HearNext(EXECUTE, s0, slot0, left, chunks, used);
        HeardNext(received, chunks, used);
        before, talk := talk, Hear(EXECUTE, talk, chunks[used]);
        done := OnRead(chunks[used]);
        used := used + 1;
      }
    }
  }
}
