/** simple_query: any number of statements in one query string (postgresql/detail/simple_query.ipp). */
module PgSimpleQuery {
  import opened Bytes
  import opened PgFields
  import opened PgMessages
  import opened PgFrame
  import opened Conversation
  import opened PgConnection
  import Ex = PgExecute

  /** __CurrRespType: what is known of the response to the current statement. */
  datatype Response = Unknown | WithDataNoDef | WithDataWithDef | EmptyResponse

  datatype State = State(response: Response, curr: Option<ResultSet>, result: Results)

  const INIT: State := State(Unknown, None, [])

  function Peek(s: State, tag: byte): Option<(GoodKind, State)> {
    match tag as char
    case 'D' =>
      if s.response == WithDataWithDef then
        Some((DataRowOf(if s.curr.Some? then |s.curr.value.desc| % TWO_16 else 0), s))
      else None
    case 'T' =>
      if s.response == Unknown then
        Some((RowDescription, s.(response := WithDataNoDef, curr := Some(ResultSet([], [])))))
      else None
    case 'I' =>
      if s.response == Unknown then Some((EmptyQueryResponse, s.(response := EmptyResponse, curr := None))) else None
    case 'C' => Some((CommandComplete, s))
    case 'Z' => Some((ReadyForQuery, s))
    case 'E' => Some((ErrorResponse, s))
    case 'N' => Some((NoticeResponse, s))
    case 'S' => Some((ParameterStatus, s))
    case _ => None
  }

  /** What a parsed message does; an error completes the operation at once. */
  function Act(s: State, v: Value): After<State> {
    match v
    case Description(desc) =>
      Continue(if s.curr.None? then s
               else s.(curr := Some(s.curr.value.(desc := desc)), response := WithDataWithDef))
    case DataRow(row) =>
      Continue(if s.curr.None? then s else s.(curr := Some(s.curr.value.(data := s.curr.value.data + [row]))))
    case Completed(_) => Continue(State(Unknown, None, s.result + [s.curr]))
    case Error(ec) => Finish(Outcome(Server(ec), s.result))
    case Ready(_) => Finish(Outcome(NoError, s.result))
    case _ => Continue(s)
  }

  const SIMPLE: Automaton<State> := Automaton(Peek, Act, (s: State) => s.result)

  // ---- every reachable state ----

  /** Whatever is engaged is rectangular. */
  predicate GoodOutcome(o: Outcome) {
    forall r :: r in o.result && r.Some? ==> Ex.Rectangular(r.value)
  }

  predicate Inv(s: State, k: Option<Kind>) {
    && GoodOutcome(Outcome(NoError, s.result))
    && (s.curr.Some? ==> Ex.Rectangular(s.curr.value))
    && (s.curr.Some? <==> s.response in {WithDataNoDef, WithDataWithDef})
    && (s.response == WithDataNoDef ==> s.curr.value == ResultSet([], []))
    && (k == Some(RowDescription) <==> s.response == WithDataNoDef)
    && (k.Some? && k.value.DataRowOf? ==> s.response == WithDataWithDef && k.value.columns == |s.curr.value.desc|)
  }

  lemma PeekKeeps(s: State, tag: byte)
    requires Inv(s, None)
    ensures Peek(s, tag).Some? ==> Inv(Peek(s, tag).value.1, Some(Peek(s, tag).value.0))
  {
  }

  lemma ActKeeps(s: State, k: Kind, v: Value)
    requires Inv(s, Some(k)) && Yields(k, v)
    ensures match Act(s, v)
            case Continue(s') => Inv(s', None)
            case Finish(o) => GoodOutcome(o)
  {
  }

  lemma SimpleInductive()
    ensures Inductive(SIMPLE, Inv, GoodOutcome)
  {
    forall s, b: byte | Inv(s, None)
      ensures match Peek(s, b)
              case None => GoodOutcome(Outcome(MalformedMessage, s.result))
              case Some((k, s')) => Inv(s', Some(k))
    {
      PeekKeeps(s, b);
    }
    forall s, k, v | Inv(s, Some(k)) && Yields(k, v)
      ensures match Act(s, v)
              case Continue(s') => Inv(s', None)
              case Finish(o) => GoodOutcome(o)
    {
      ActKeeps(s, k, v);
    }
  }

  /** Over every byte string: the invariant holds whenever simple_query waits, and its entries are rectangular. */
  lemma SimpleSafe(bs: bytes)
    ensures match Converse(SIMPLE, INIT, Idle, bs)
            case Waiting(s, slot) => Inv(s, InFlight(slot))
            case Complete(o, _) => GoodOutcome(o)
            case Failed(o) => GoodOutcome(o)
  {
    SimpleInductive();
    ConverseKeeps(SIMPLE, Inv, GoodOutcome, INIT, Idle, bs);
  }

  // ---- the operation ----

  class SimpleQuery {
    const conn: Connection
    var result: Results
    var curr: Option<ResultSet>
    var parsers: Slot
    var response: Response

    ghost function Members(): State
      reads this
    {
      State(response, curr, result)
    }

    ghost predicate Valid()
      reads this, conn, conn.buffer
    {
      conn.Valid() && Inv(Members(), InFlight(parsers))
    }

    /** The operation and its connection are where a conversation says they are. */
    ghost predicate Agrees(t: Talk<State>, done: Option<Outcome>)
      reads this, conn, conn.buffer
      requires conn.Valid()
    {
      match t
      case Waiting(s, slot) =>
        done == None && Valid() && Members() == s && parsers == slot && conn.bufBegin == conn.bufEnd
      case Complete(o, rest) => done == Some(o) && conn.Unread() == rest
      case Failed(o) => done == Some(o)
    }

    constructor (c: Connection)
      requires c.Valid()
      ensures Valid() && conn == c && Members() == INIT && parsers == Idle
    {
      conn, result, curr, parsers, response := c, [], None, Idle, Unknown;
    }

    /** case 0 of do_read_till_ready, after the emptiness test: chooses the parser for a tag, or refuses it. */
    method Choose(tag: byte) returns (ok: bool)
      requires Valid() && parsers == Idle
      modifies `parsers, `response, `curr
      ensures match Peek(old(Members()), tag)
              case None => !ok && Members() == old(Members()) && parsers == Idle
              case Some((k, s)) => ok && Members() == s && parsers == Busy(AtTag(k))
      ensures Valid()
    {
      PeekKeeps(Members(), tag);
      ok := true;
      var kind: GoodKind := NoticeResponse;
      if tag == 'D' as int {
        if response == WithDataWithDef {
          kind := DataRowOf(|curr.value.desc| % TWO_16);
        } else {
          ok := false;
        }
      } else if tag == 'T' as int {
        if response == Unknown {
          response, curr, kind := WithDataNoDef, Some(ResultSet([], [])), RowDescription;
        } else {
          ok := false;
        }
      } else if tag == 'I' as int {
        if response == Unknown {
          response, curr, kind := EmptyResponse, None, EmptyQueryResponse;
        } else {
          ok := false;
        }
      } else if tag == 'C' as int {
        kind := CommandComplete;
      } else if tag == 'Z' as int {
        kind := ReadyForQuery;
      } else if tag == 'E' as int {
        kind := ErrorResponse;
      } else if tag == 'S' as int {
        kind := ParameterStatus;
      } else if tag != 'N' as int {
        ok := false;
      }
      if ok {
        parsers := Busy(AtTag(kind));
      }
    }

    /** The ParseSuccess branches of do_read_till_ready; Some is a call of complete. */
    method Absorb(v: Value) returns (done: Option<Outcome>)
      requires Valid() && parsers.Busy? && Yields(parsers.f.k, v)
      modifies `result, `curr, `response, `parsers
      ensures match Act(old(Members()), v)
              case Continue(s) => done == None && Members() == s && parsers == Idle && Valid()
              case Finish(o) => done == Some(o)
    {
      ActKeeps(Members(), parsers.f.k, v);
      done := None;
      match v {
        case Description(desc) =>
          var data := curr.value.data;
          curr := Some(ResultSet(desc, data));
          response := WithDataWithDef;
        case DataRow(row) =>
          var rows := curr.value.data + [row];
          curr := Some(ResultSet(curr.value.desc, rows));
        case Completed(_) =>
          result := result + [curr];
          curr := None;
          response := Unknown;
        case Ready(_) =>
          done := Some(Outcome(NoError, result));
          return;
        case Error(ec) =>
          done := Some(Outcome(Server(ec), result));
          return;
        case _ =>
      }
      parsers := Idle;
    }

    /**
     One turn of the loop of do_read_till_ready; `stop` when it returns, after a request for a read or a call of
     complete.
     */
    method Turn() returns (stop: bool, done: Option<Outcome>)
      requires Valid()
      modifies this, conn
      ensures conn.Valid() && conn.received == old(conn.received) && old(conn.taken) <= conn.taken
      ensures stop ==> Agrees(Converse(SIMPLE, old(Members()), old(parsers), old(conn.Unread())), done)
      ensures !stop ==> Valid() && Converse(SIMPLE, Members(), parsers, conn.Unread()) ==
                                   Converse(SIMPLE, old(Members()), old(parsers), old(conn.Unread()))
      ensures !stop ==> conn.bufEnd == old(conn.bufEnd)
      ensures stop || conn.bufBegin > old(conn.bufBegin)
           || (conn.bufBegin == old(conn.bufBegin) && old(parsers).Idle? && parsers.Busy?)
    {
      stop, done := true, None;
      if parsers.Idle? {
        if conn.bufBegin == conn.bufEnd {
          conn.ResetCursors();
          return;
        }
        var ok := Choose(conn.buffer[conn.bufBegin]);
        if !ok {
          done := Some(Outcome(MalformedMessage, result));
          return;
        }
        stop := false;
      } else {
        var r, f, v := conn.Parse(parsers.f);
        if r == ParseSuccess {
          done := Absorb(v);
          stop := done.Some?;
        } else if r == ParseNeedMore {
          parsers := Busy(f);
          conn.ResetCursors();
        } else {
          done := Some(Outcome(MalformedMessage, result));
        }
      }
    }

    /** do_read_till_ready: None is a request for another read, Some a call of complete. */
    method DoParse() returns (done: Option<Outcome>)
      requires Valid()
      modifies this, conn
      ensures conn.Valid() && conn.received == old(conn.received) && old(conn.taken) <= conn.taken
      ensures Agrees(Converse(SIMPLE, old(Members()), old(parsers), old(conn.Unread())), done)
    {
      var stop := false;
      done := None;
      while !stop
        invariant conn.Valid() && conn.received == old(conn.received) && old(conn.taken) <= conn.taken
        invariant !stop ==> Valid() && Converse(SIMPLE, old(Members()), old(parsers), old(conn.Unread())) ==
                                       Converse(SIMPLE, Members(), parsers, conn.Unread())
        invariant stop ==> Agrees(Converse(SIMPLE, old(Members()), old(parsers), old(conn.Unread())), done)
        decreases !stop, conn.bufEnd - conn.bufBegin, parsers.Idle?
      {
        stop, done := Turn();
      }
    }

    /** The ev_read handler, and the read that leads to it. */
    method OnRead(chunk: bytes) returns (done: Option<Outcome>)
      requires Valid() && conn.bufBegin == conn.bufEnd && ReadOk(chunk)
      modifies this, conn, conn.buffer
      ensures conn.Valid() && conn.received == old(conn.received) + chunk && old(conn.taken) <= conn.taken
      ensures Agrees(Converse(SIMPLE, old(Members()), old(parsers), chunk), done)
    {
      conn.Deliver(chunk);
      done := DoParse();
    }

    /**
     The operation after its request is sent: do_read_till_ready on what the previous operation left, and
     again on every read, until it completes or the reads run out.  `used` reads were made, and none after it completed.
     */
    method Operate(chunks: seq<bytes>) returns (done: Option<Outcome>, used: nat)
      requires Valid() && forall chunk :: chunk in chunks ==> ReadOk(chunk)
      modifies this, conn, conn.buffer
      ensures conn.Valid() && used <= |chunks| && (done == None ==> used == |chunks|)
      ensures conn.received == Heard(old(conn.received), chunks, used) && old(conn.taken) <= conn.taken
      ensures Agrees(Converse(SIMPLE, old(Members()), old(parsers), Heard(old(conn.Unread()), chunks, used)), done)
      ensures done.Some? && used > 0 ==>
                Converse(SIMPLE, old(Members()), old(parsers), Heard(old(conn.Unread()), chunks, used - 1)).Waiting?
    {
      used := 0;
      ghost var left, s0, slot0, received := conn.Unread(), Members(), parsers, conn.received;
      assert Heard(left, chunks, 0) == left && Heard(received, chunks, 0) == received;
      ghost var talk := Converse(SIMPLE, s0, slot0, left);
      ghost var before := talk;
      done := DoParse();
      while done == None && used < |chunks|
        invariant used <= |chunks| && conn.Valid() && old(conn.taken) <= conn.taken
        invariant conn.received == Heard(received, chunks, used)
        invariant talk == Converse(SIMPLE, s0, slot0, Heard(left, chunks, used)) && Agrees(talk, done)
        invariant done.Some? && used > 0 ==>
                    before == Converse(SIMPLE, s0, slot0, Heard(left, chunks, used - 1)) && before.Waiting?
      {
        HearNext(SIMPLE, s0, slot0, left, chunks, used);
        HeardNext(received, chunks, used);
        before, talk := talk, Hear(SIMPLE, talk, chunks[used]);
        done := OnRead(chunks[used]);
        used := used + 1;
      }
    }
  }
}
