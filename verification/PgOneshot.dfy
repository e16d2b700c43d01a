/**
 oneshot: Parse in front of what execute sends, and ParseComplete in front of what it expects
 (postgresql/detail/oneshot.ipp).
 */
module PgOneshot {
  import opened Bytes
  import opened PgFields
  import opened PgMessages
  import opened PgFrame
  import opened Conversation
  import opened PgConnection
  import Ex = PgExecute

  datatype OneExpect = AwaitParse | AwaitBind | AwaitDescOrNoData | AwaitRows | AwaitEmpty | AwaitReady

  type State = Ex.State<OneExpect>

  const INIT: State := Ex.State(AwaitParse, None, [], NoError)

  /** The automaton over `expected`: the state after the tag of an acceptable message. */
  function Allow(expected: OneExpect, tag: byte): Option<OneExpect> {
    match tag as char
    case '1' => if expected == AwaitParse then Some(AwaitBind) else None
    case '2' => if expected == AwaitBind then Some(AwaitDescOrNoData) else None
    case 'T' => if expected == AwaitDescOrNoData then Some(AwaitRows) else None
    case 'D' => if expected == AwaitRows then Some(AwaitRows) else None
    case 'C' => if expected == AwaitRows then Some(AwaitReady) else None
    case 'n' => if expected == AwaitDescOrNoData then Some(AwaitEmpty) else None
    case 'I' => if expected == AwaitEmpty then Some(AwaitReady) else None
    case 'Z' => if expected == AwaitReady then Some(AwaitReady) else None
    case 'E' => Some(AwaitReady)
    case 'N' => Some(expected)
    case _ => None
  }

  function Peek(s: State, tag: byte): Option<(GoodKind, State)> {
    match Allow(s.expected, tag)
    case None => None
    case Some(expected) => Some((Ex.ParserFor(tag, s.curr), s.(expected := expected)))
  }

  const ONESHOT: Automaton<State> := Automaton(Peek, Ex.Act<OneExpect>, (s: State) => s.result)

  // ---- oneshot is execute after a ParseComplete ----

  /** The state of oneshot that corresponds to a state of execute. */
  function LiftExpect(e: Ex.Expect): OneExpect {
    match e
    case BindDone => AwaitBind
    case RowDescOrNoData => AwaitDescOrNoData
    case DataRows => AwaitRows
    case EmptyQuery => AwaitEmpty
    case ReadyNow => AwaitReady
  }

  function Lift(s: Ex.State<Ex.Expect>): State {
    Ex.State(LiftExpect(s.expected), s.curr, s.result, s.err)
  }

  function LiftTalk(t: Talk<Ex.State<Ex.Expect>>): Talk<State> {
    match t
    case Waiting(s, slot) => Waiting(Lift(s), slot)
    case Complete(o, rest) => Complete(o, rest)
    case Failed(o) => Failed(o)
  }

  lemma PeekLifts(s: Ex.State<Ex.Expect>, tag: byte)
    ensures Peek(Lift(s), tag) ==
            if Ex.Peek(s, tag).None? then None else Some((Ex.Peek(s, tag).value.0, Lift(Ex.Peek(s, tag).value.1)))
  {
  }

  lemma ActLifts(s: Ex.State<Ex.Expect>, v: Value)
    ensures Ex.Act(Lift(s), v) ==
            if Ex.Act(s, v).Continue? then Continue(Lift(Ex.Act(s, v).s)) else Finish(Ex.Act(s, v).o)
  {
  }

  /**
   Bisimulation: from corresponding states the two operations stay in lock-step on every continuation of the
   stream.
   */
  lemma {:induction false} LockStep(s: Ex.State<Ex.Expect>, slot: Slot, bs: bytes)
    ensures Converse(ONESHOT, Lift(s), slot, bs) == LiftTalk(Converse(Ex.EXECUTE, s, slot, bs))
    decreases |bs|, slot.Idle?
  {
    match slot
    case Idle =>
      if bs != [] {
        PeekLifts(s, bs[0]);
        if Ex.Peek(s, bs[0]).Some? {
          var (k, s') := Ex.Peek(s, bs[0]).value;
          LockStep(s', Busy(AtTag(k)), bs);
        }
      }
    case Busy(f) =>
      FrameKeeps(f, bs);
      match RunFrame(f, bs) {
        case Message(v, rest) =>
          ActLifts(s, v);
          if Ex.Act(s, v).Continue? {
            LockStep(Ex.Act(s, v).s, Idle, rest);
          }
        case _ =>
      }
  }

  // ---- every reachable state ----

  predicate Inv(s: State, k: Option<Kind>) {
    && Ex.Sound(s.expected in {AwaitParse, AwaitBind, AwaitDescOrNoData}, s.expected == AwaitRows, s.curr, s.result, k)
    && (k.Some? ==> k.value.RowDescription? || k.value.DataRowOf? ==> s.expected == AwaitRows)
    && (k == Some(CommandComplete) ==> s.expected == AwaitReady)
  }

  lemma PeekKeeps(s: State, tag: byte)
    requires Inv(s, None)
    ensures Peek(s, tag).Some? ==> Inv(Peek(s, tag).value.1, Some(Peek(s, tag).value.0))
  {
  }

  lemma ActKeeps(s: State, k: Kind, v: Value)
    requires Inv(s, Some(k)) && Yields(k, v)
    ensures match Ex.Act(s, v)
            case Continue(s') => Inv(s', None)
            case Finish(o) => Ex.GoodOutcome(o)
  {
  }

  // ---- the operation ----

  class Oneshot {
    const conn: Connection
    var err: ErrorCode
    var result: Results
    var curr: Option<ResultSet>
    var parsers: Slot
    var expected: OneExpect

    ghost function Members(): State
      reads this
    {
      Ex.State(expected, curr, result, err)
    }

    ghost predicate Valid()
      reads this, conn, conn.buffer
    {
      conn.Valid() && Inv(Members(), InFlight(parsers))
    }

    /** The operation and its connection are where a conversation says they are. */
    ghost predicate Agrees(t: Talk<State>, done: Option<Outcome>)
      reads this, conn, conn.buffer
      requires conn.Valid()
    {
      match t
      case Waiting(s, slot) =>
        done == None && Valid() && Members() == s && parsers == slot && conn.bufBegin == conn.bufEnd
      case Complete(o, rest) => done == Some(o) && conn.Unread() == rest
      case Failed(o) => done == Some(o)
    }

    constructor (c: Connection)
      requires c.Valid()
      ensures Valid() && conn == c && Members() == INIT && parsers == Idle
    {
      conn, err, result, curr, parsers, expected := c, NoError, [], None, Idle, AwaitParse;
    }

    /** case 0 of do_parse, after the emptiness test: chooses the parser for a tag, or refuses it. */
    method Choose(tag: byte) returns (ok: bool)
      requires Valid() && parsers == Idle
      modifies `parsers, `expected
      ensures match Peek(old(Members()), tag)
              case None => !ok && Members() == old(Members()) && parsers == Idle
              case Some((k, s)) => ok && Members() == s && parsers == Busy(AtTag(k))
      ensures Valid()
    {
      PeekKeeps(Members(), tag);
      ok := true;
      var kind: GoodKind := NoticeResponse;
      if tag == '1' as int {
        if expected == AwaitParse {
          kind, expected := ParseComplete, AwaitBind;
        } else {
          ok := false;
        }
      } else if tag == '2' as int {
        if expected == AwaitBind {
          kind, expected := BindComplete, AwaitDescOrNoData;
        } else {
          ok := false;
        }
      } else if tag == 'T' as int {
        if expected == AwaitDescOrNoData {
          kind, expected := RowDescription, AwaitRows;
        } else {
          ok := false;
        }
      } else if tag == 'D' as int {
        if expected == AwaitRows {
          kind := DataRowOf(|curr.value.desc| % TWO_16);
        } else {
          ok := false;
        }
      } else if tag == 'C' as int {
        if expected == AwaitRows {
          kind, expected := CommandComplete, AwaitReady;
        } else {
          ok := false;
        }
      } else if tag == 'n' as int {
        if expected == AwaitDescOrNoData {
          kind, expected := NoData, AwaitEmpty;
        } else {
          ok := false;
        }
      } else if tag == 'I' as int {
        if expected == AwaitEmpty {
          kind, expected := EmptyQueryResponse, AwaitReady;
        } else {
          ok := false;
        }
      } else if tag == 'Z' as int {
        if expected == AwaitReady {
          kind := ReadyForQuery;
        } else {
          ok := false;
        }
      } else if tag == 'E' as int {
        kind, expected := ErrorResponse, AwaitReady;
      } else if tag != 'N' as int {
        ok := false;
      }
      if ok {
        parsers := Busy(AtTag(kind));
      }
    }

    /** The ParseSuccess branches of do_parse; Some is a call of complete. */
    method Absorb(v: Value) returns (done: Option<Outcome>)
      requires Valid() && parsers.Busy? && Yields(parsers.f.k, v)
      modifies `err, `result, `curr, `parsers
      ensures match Ex.Act(old(Members()), v)
              case Continue(s) => done == None && Members() == s && parsers == Idle && Valid()
              case Finish(o) => done == Some(o)
    {
      ActKeeps(Members(), parsers.f.k, v);
      done := None;
      match v {
        case Error(ec) => err := Server(ec);
        case Description(desc) => curr := Some(ResultSet(desc, []));
        case DataRow(row) =>
          var rows := curr.value.data + [row];
          curr := Some(ResultSet(curr.value.desc, rows));
        case Completed(_) =>
          result := result + [curr];
          curr := None;
        case Ready(_) =>
          done := Some(Outcome(err, result));
          return;
        case _ =>
      }
      parsers := Idle;
    }

    /** One turn of the loop of do_parse; `stop` when it returns, after a request for a read or a call of complete. */
    method Turn() returns (stop: bool, done: Option<Outcome>)
      requires Valid()
      modifies this, conn
      ensures conn.Valid() && conn.received == old(conn.received) && old(conn.taken) <= conn.taken
      ensures stop ==> Agrees(Converse(ONESHOT, old(Members()), old(parsers), old(conn.Unread())), done)
      ensures !stop ==> Valid() && Converse(ONESHOT, Members(), parsers, conn.Unread()) ==
                                   Converse(ONESHOT, old(Members()), old(parsers), old(conn.Unread()))
      ensures !stop ==> conn.bufEnd == old(conn.bufEnd)
      ensures stop || conn.bufBegin > old(conn.bufBegin)
           || (conn.bufBegin == old(conn.bufBegin) && old(parsers).Idle? && parsers.Busy?)
    {
      stop, done := true, None;
      if parsers.Idle? {
        if conn.bufBegin == conn.bufEnd {
          conn.ResetCursors();
          return;
        }
        var ok := Choose(conn.buffer[conn.bufBegin]);
        if !ok {
          done := Some(Outcome(MalformedMessage, result));
          return;
        }
        stop := false;
      } else {
        var r, f, v := conn.Parse(parsers.f);
        if r == ParseSuccess {
          done := Absorb(v);
          stop := done.Some?;
        } else if r == ParseNeedMore {
          parsers := Busy(f);
          conn.ResetCursors();
        } else {
          done := Some(Outcome(MalformedMessage, result));
        }
      }
    }

    /** do_parse: None is a request for another read, Some a call of complete. */
    method DoParse() returns (done: Option<Outcome>)
      requires Valid()
      modifies this, conn
      ensures conn.Valid() && conn.received == old(conn.received) && old(conn.taken) <= conn.taken
      ensures Agrees(Converse(ONESHOT, old(Members()), old(parsers), old(conn.Unread())), done)
    {
      var stop := false;
      done := None;
      while !stop
        invariant conn.Valid() && conn.received == old(conn.received) && old(conn.taken) <= conn.taken
        invariant !stop ==> Valid() && Converse(ONESHOT, old(Members()), old(parsers), old(conn.Unread())) ==
                                       Converse(ONESHOT, Members(), parsers, conn.Unread())
        invariant stop ==> Agrees(Converse(ONESHOT, old(Members()), old(parsers), old(conn.Unread())), done)
        decreases !stop, conn.bufEnd - conn.bufBegin, parsers.Idle?
      {
        stop, done := Turn();
      }
    }

    /** The ev_read handler, and the read that leads to it. */
    method OnRead(chunk: bytes) returns (done: Option<Outcome>)
      requires Valid() && conn.bufBegin == conn.bufEnd && ReadOk(chunk)
      modifies this, conn, conn.buffer
      ensures conn.Valid() && conn.received == old(conn.received) + chunk && old(conn.taken) <= conn.taken
      ensures Agrees(Converse(ONESHOT, old(Members()), old(parsers), chunk), done)
    {
      conn.Deliver(chunk);
      done := DoParse();
    }

    /**
     The operation after its request is sent: do_parse on what the previous operation left, and
     again on every read, until it completes or the reads run out.  `used` reads were made, and none after it completed.
     */
    method Operate(chunks: seq<bytes>) returns (done: Option<Outcome>, used: nat)
      requires Valid() && forall chunk :: chunk in chunks ==> ReadOk(chunk)
      modifies this, conn, conn.buffer
      ensures conn.Valid() && used <= |chunks| && (done == None ==> used == |chunks|)
      ensures conn.received == Heard(old(conn.received), chunks, used) && old(conn.taken) <= conn.taken
      ensures Agrees(Converse(ONESHOT, old(Members()), old(parsers), Heard(old(conn.Unread()), chunks, used)), done)
      ensures done.Some? && used > 0 ==>
                Converse(ONESHOT, old(Members()), old(parsers), Heard(old(conn.Unread()), chunks, used - 1)).Waiting?
    {
      used := 0;
      ghost var left, s0, slot0, received := conn.Unread(), Members(), parsers, conn.received;
      assert Heard(left, chunks, 0) == left && Heard(received, chunks, 0) == received;
      ghost var talk := Converse(ONESHOT, s0, slot0, left);
      ghost var before := talk;
      done := DoParse();
      while done == None && used < |chunks|
        invariant used <= |chunks| && conn.Valid() && old(conn.taken) <= conn.taken
        invariant conn.received == Heard(received, chunks, used)
        invariant talk == Converse(ONESHOT, s0, slot0, Heard(left, chunks, used)) && Agrees(talk, done)
        invariant done.Some? && used > 0 ==>
                    before == Converse(ONESHOT, s0, slot0, Heard(left, chunks, used - 1)) && before.Waiting?
      {
        HearNext(ONESHOT, s0, slot0, left, chunks, used);
        HeardNext(received, chunks, used);
        before, talk := talk, Hear(ONESHOT, talk, chunks[used]);
        done := OnRead(chunks[used]);
        used := used + 1;
      }
    }
  }
}
