/** What whole responses mean: the results, errors and boundaries of the operations over message lists. */
module PgResponses {
  import opened Bytes
  import opened PgMessages
  import opened PgFrame
  import opened PgCodec
  import opened PgStream
  import opened Conversation
  import opened PgConnection
  import Ex = PgExecute
  import One = PgOneshot
  import Sq = PgSimpleQuery

  // ---- the results of a response ----

  /** The first description in a list of messages. */
  function Described(g: seq<Msg>): Option<seq<RowDesc>> {
    if g == [] then None else if g[0].DescMsg? then Some(g[0].desc) else Described(g[1..])
  }

  /** The rows in a list of messages, in order. */
  function RowsIn(g: seq<Msg>): seq<Row> {
    if g == [] then [] else (if g[0].RowMsg? then [g[0].row] else []) + RowsIn(g[1..])
  }

  /** The entry of one command: engaged if its messages hold a description, with all their rows. */
  function Entry(g: seq<Msg>): Option<ResultSet> {
    match Described(g)
    case None => None
    case Some(desc) => Some(ResultSet(desc, RowsIn(g)))
  }

  /** The messages since the last CommandComplete, one message later. */
  function StillOpen(open: seq<Msg>, m: Msg): seq<Msg> {
    if m.CompleteMsg? then [] else open + [m]
  }

  /** The entries after one more message. */
  function WithEntry(done: Results, open: seq<Msg>, m: Msg): Results {
    if m.CompleteMsg? then done + [Entry(open)] else done
  }

  /** After the entries in `done`, one entry for each CommandComplete, from the messages since the one before it. */
  function Entries(done: Results, open: seq<Msg>, ms: seq<Msg>): Results
    decreases |ms|
  {
    if ms == [] then done else Entries(WithEntry(done, open, ms[0]), StillOpen(open, ms[0]), ms[1..])
  }

  /** The number of CommandComplete messages. */
  function Completions(ms: seq<Msg>): nat {
    if ms == [] then 0 else (if ms[0].CompleteMsg? then 1 else 0) + Completions(ms[1..])
  }

  lemma {:induction false} OneEntryEach(done: Results, open: seq<Msg>, ms: seq<Msg>)
    ensures |Entries(done, open, ms)| == |done| + Completions(ms)
    decreases |ms|
  {
    if ms != [] {
      OneEntryEach(WithEntry(done, open, ms[0]), StillOpen(open, ms[0]), ms[1..]);
    }
  }

  /** What one more message adds to the entry in progress. */
  lemma {:induction false} EntryGrows(g: seq<Msg>, m: Msg)
    ensures Described(g + [m]) ==
            if Described(g).Some? then Described(g) else if m.DescMsg? then Some(m.desc) else None
    ensures RowsIn(g + [m]) == if m.RowMsg? then RowsIn(g) + [m.row] else RowsIn(g)
  {
    if g == [] {
      assert g + [m] == [m] && [m][1..] == [];
    } else {
      assert (g + [m])[1..] == g[1..] + [m];
      EntryGrows(g[1..], m);
    }
  }

  /** `curr` is the entry the messages since the last CommandComplete amount to. */
  predicate Tracks(curr: Option<ResultSet>, open: seq<Msg>) {
    curr == Entry(open) && (curr.None? ==> RowsIn(open) == [])
  }

  lemma MeaningYields(m: Msg)
    requires ContentOk(m)
    ensures Yields(KindOf(m), Meaning(m))
  {
  }

  /** The entry in progress, one message later. */
  function Grown(curr: Option<ResultSet>, m: Msg): Option<ResultSet> {
    if m.CompleteMsg? then None
    else if m.DescMsg? && curr.None? then Some(ResultSet(m.desc, []))
    else if m.RowMsg? && curr.Some? then Some(ResultSet(curr.value.desc, curr.value.data + [m.row]))
    else curr
  }

  lemma TracksNext(curr: Option<ResultSet>, open: seq<Msg>, m: Msg)
    requires Tracks(curr, open) && (m.RowMsg? ==> curr.Some?)
    ensures Tracks(Grown(curr, m), StillOpen(open, m))
  {
    EntryGrows(open, m);
  }

  /** What simple_query makes of an accepted message. */
  lemma SimpleActs(s: Sq.State, m: Msg, s1: Sq.State)
    requires Sq.Inv(s, None) && ContentOk(m)
    requires Sq.Peek(s, TagOf(KindOf(m))) == Some((KindOf(m), s1))
    ensures match Sq.Act(s1, Meaning(m))
            case Continue(s2) => s2.curr == Grown(s.curr, m)
                              && s2.result == if m.CompleteMsg? then s.result + [s.curr] else s.result
            case Finish(o) => o.result == s.result && !m.CompleteMsg?
    ensures m.RowMsg? ==> s.curr.Some?
  {
    match m
    case DescMsg(_) =>
    case RowMsg(_) =>
    case CompleteMsg(_) =>
    case ErrorMsg(_) =>
    case ReadyMsg(_) =>
    case NoticeMsg(_) =>
    case _ =>
  }

  lemma SimpleTracks(s: Sq.State, open: seq<Msg>, m: Msg, s1: Sq.State)
    requires Sq.Inv(s, None) && Tracks(s.curr, open) && ContentOk(m)
    requires Sq.Peek(s, TagOf(KindOf(m))) == Some((KindOf(m), s1))
    ensures match Sq.Act(s1, Meaning(m))
            case Continue(s2) => Sq.Inv(s2, None) && Tracks(s2.curr, StillOpen(open, m))
                              && s2.result == WithEntry(s.result, open, m)
            case Finish(o) => o.result == s.result && !m.CompleteMsg?
  {
    SimpleActs(s, m, s1);
    TracksNext(s.curr, open, m);
    SimpleStays(s, m, s1);
  }

  lemma SimpleStays(s: Sq.State, m: Msg, s1: Sq.State)
    requires Sq.Inv(s, None) && ContentOk(m)
    requires Sq.Peek(s, TagOf(KindOf(m))) == Some((KindOf(m), s1))
    ensures Sq.Act(s1, Meaning(m)).Continue? ==> Sq.Inv(Sq.Act(s1, Meaning(m)).s, None)
  {
    Sq.PeekKeeps(s, TagOf(KindOf(m)));
    MeaningYields(m);
    Sq.ActKeeps(s1, KindOf(m), Meaning(m));
  }

  lemma EntriesFirst(done: Results, open: seq<Msg>, m: Msg, more: seq<Msg>)
    ensures Entries(done, open, [m] + more) == Entries(WithEntry(done, open, m), StillOpen(open, m), more)
  {
    assert ([m] + more)[1..] == more;
  }

  /** What a message does to the entries `res` of a state that is `inv` with the messages since the last of them. */
  predicate Tallies<S>(a: Automaton<S>, inv: (S, seq<Msg>) -> bool, res: S -> Results, s: S, open: seq<Msg>, m: Msg) {
    match a.peek(s, TagOf(KindOf(m)))
    case None => a.result(s) == res(s)
    case Some((k, s1)) =>
      && a.result(s1) == res(s)
      && (k == KindOf(m) ==>
            match a.apply(s1, Meaning(m))
            case Continue(s2) => inv(s2, StillOpen(open, m)) && res(s2) == WithEntry(res(s), open, m)
            case Finish(o) => o.result == res(s) && !m.CompleteMsg?)
  }

  ghost predicate Counts<S(!new)>(a: Automaton<S>, inv: (S, seq<Msg>) -> bool, res: S -> Results) {
    forall s, open, m :: inv(s, open) && MsgOk(m) ==> Tallies(a, inv, res, s, open, m)
  }

  /** `entries` are those of all the messages, `taken` those of the ones before a refused one. */
  predicate Tells<S>(v: Verdict<S>, res: S -> Results, entries: Results, taken: Results) {
    match v
    case Going(s) => res(s) == entries
    case Ended(o, left) => left == [] ==> o.result == entries
    case Refused(o) => o == Outcome(MalformedMessage, taken)
  }

  lemma {:induction false} Tally<S(!new)>(
      a: Automaton<S>, inv: (S, seq<Msg>) -> bool, res: S -> Results, s: S, open: seq<Msg>, ms: seq<Msg>)
    requires Counts(a, inv, res) && inv(s, open) && MsgsOk(ms)
    ensures Tells(Follow(a, s, ms), res, Entries(res(s), open, ms), Entries(res(s), open, Taken(a, s, ms)))
    decreases |ms|
  {
    if ms != [] {
      var m, more := ms[0], ms[1..];
      assert m in ms && ms == [m] + more;
      assert Tallies(a, inv, res, s, open, m);
      TakenFirst(a, s, m, more);
      FollowFirst(a, s, m, more);
      EntriesFirst(res(s), open, m, more);
      if AfterFirst(a, s, m).Some? {
        var s2 := AfterFirst(a, s, m).value;
        Tally(a, inv, res, s2, StillOpen(open, m), more);
        EntriesFirst(res(s), open, m, Taken(a, s2, more));
      }
    }
  }

  predicate SimpleInv(s: Sq.State, open: seq<Msg>) {
    Sq.Inv(s, None) && Tracks(s.curr, open)
  }

  function SimpleEntries(s: Sq.State): Results {
    s.result
  }

  lemma SimplePeeks(s: Sq.State, tag: byte)
    ensures Sq.Peek(s, tag).Some? ==> Sq.Peek(s, tag).value.1.result == s.result
  {
  }

  lemma SimpleTallies(s: Sq.State, open: seq<Msg>, m: Msg, tag: byte, next: Option<(GoodKind, Sq.State)>)
    requires SimpleInv(s, open) && MsgOk(m) && tag == TagOf(KindOf(m)) && next == Sq.SIMPLE.peek(s, tag)
    ensures Tallies(Sq.SIMPLE, SimpleInv, SimpleEntries, s, open, m)
  {
    SimplePeeks(s, tag);
    if next.Some? && next.value.0 == KindOf(m) {
      SimpleTracks(s, open, m, next.value.1);
    }
  }

  lemma SimpleCounts()
    ensures Counts(Sq.SIMPLE, SimpleInv, SimpleEntries)
  {
    forall s, open, m | SimpleInv(s, open) && MsgOk(m)
      ensures Tallies(Sq.SIMPLE, SimpleInv, SimpleEntries, s, open, m)
    {
      SimpleTallies(s, open, m, TagOf(KindOf(m)), Sq.SIMPLE.peek(s, TagOf(KindOf(m))));
    }
  }

  /**
   The result of simple_query after a list of messages is the list of their entries, also when it refuses a message:
   then it is that of the messages before it.
   */
  lemma SimpleAccounts(s: Sq.State, open: seq<Msg>, ms: seq<Msg>)
    requires Sq.Inv(s, None) && Tracks(s.curr, open) && MsgsOk(ms)
    ensures match Follow(Sq.SIMPLE, s, ms)
            case Going(s') => s'.result == Entries(s.result, open, ms)
            case Ended(o, left) => left == [] ==> o.result == Entries(s.result, open, ms)
            case Refused(o) => o == Outcome(MalformedMessage, Entries(s.result, open, Taken(Sq.SIMPLE, s, ms)))
  {
    SimpleCounts();
    Tally(Sq.SIMPLE, SimpleInv, SimpleEntries, s, open, ms);
  }

  lemma ExecuteTracks(s: Ex.State<Ex.Expect>, open: seq<Msg>, m: Msg, s1: Ex.State<Ex.Expect>)
    requires Ex.Inv(s, None) && Tracks(s.curr, open) && ContentOk(m)
    requires Ex.Peek(s, TagOf(KindOf(m))) == Some((KindOf(m), s1))
    ensures match Ex.Act(s1, Meaning(m))
            case Continue(s2) => Ex.Inv(s2, None) && Tracks(s2.curr, StillOpen(open, m))
                              && s2.result == WithEntry(s.result, open, m)
                              && s2.err == LastError([m], s.err) && !m.ReadyMsg?
            case Finish(o) => o.result == s.result && o.ec == s.err && m.ReadyMsg?
  {
    Ex.PeekKeeps(s, TagOf(KindOf(m)));
    MeaningYields(m);
    Ex.ActKeeps(s1, KindOf(m), Meaning(m));
    TracksNext(s.curr, open, m);
  }

  /** The error of the last ErrorResponse, or `ec` if there is none. */
  function LastError(ms: seq<Msg>, ec: ErrorCode): ErrorCode {
    if ms == [] then ec
    else LastError(ms[1..], if ms[0].ErrorMsg? then Server(SqlState(ms[0].fields, None)) else ec)
  }

  /** A response ends with its only ReadyForQuery. */
  predicate OneResponse(ms: seq<Msg>) {
    ms != [] && if ms[0].ReadyMsg? then |ms| == 1 else OneResponse(ms[1..])
  }

  /**
   execute completes with the last error and the entries of the messages up to ReadyForQuery; when it refuses a
   message, with the entries of the messages before it.
   */
  lemma {:induction false} ExecuteAccounts(s: Ex.State<Ex.Expect>, open: seq<Msg>, ms: seq<Msg>)
    requires Ex.Inv(s, None) && Tracks(s.curr, open) && MsgsOk(ms)
    ensures match Follow(Ex.EXECUTE, s, ms)
            case Ended(o, left) =>
              left == [] ==> o == Outcome(LastError(ms, s.err), Entries(s.result, open, ms)) && OneResponse(ms)
            case Going(s') => s'.err == LastError(ms, s.err) && s'.result == Entries(s.result, open, ms)
            case Refused(o) => o == Outcome(MalformedMessage, Entries(s.result, open, Taken(Ex.EXECUTE, s, ms)))
    decreases |ms|
  {
    if ms != [] && Ex.Peek(s, TagOf(KindOf(ms[0]))).Some? {
      var m := ms[0];
      assert m in ms;
      var (k, s1) := Ex.Peek(s, TagOf(KindOf(m))).value;
      if k == KindOf(m) {
        ExecuteTracks(s, open, m, s1);
        if Ex.Act(s1, Meaning(m)).Continue? {
          ExecuteAccounts(Ex.Act(s1, Meaning(m)).s, StillOpen(open, m), ms[1..]);
        }
      }
    }
  }

  /**
   What execute delivers, on every byte string it completes on: the bytes it used are the messages
   of one response, the entries and the error are those of the messages, the rest is untouched.
   */
  lemma ExecuteDelivers(bs: bytes, o: Outcome, rest: bytes) returns (ms: seq<Msg>)
    requires Converse(Ex.EXECUTE, Ex.INIT, Idle, bs) == Complete(o, rest)
    ensures MsgsOk(ms) && bs == EncodeAll(ms) + rest && OneResponse(ms)
    ensures o == Outcome(LastError(ms, NoError), Entries([], [], ms))
  {
    CompletesExactly(Ex.EXECUTE, Ex.INIT, bs, o, rest);
    ms :| MsgsOk(ms) && bs == EncodeAll(ms) + rest && Follow(Ex.EXECUTE, Ex.INIT, ms) == Ended(o, []);
    ExecuteAccounts(Ex.INIT, [], ms);
  }

  // ---- consecutive operations ----

  /** What n operations on one connection leave of the stream, if each of them completes. */
  function Repeated<S>(a: Automaton<S>, s: S, n: nat, bs: bytes): Option<bytes> {
    if n == 0 then Some(bs) else
    match Converse(a, s, Idle, bs)
    case Complete(_, rest) => Repeated(a, s, n - 1, rest)
    case _ => None
  }

  predicate ResponsesOk(responses: seq<seq<Msg>>) {
    forall ms :: ms in responses ==> MsgsOk(ms) && OneResponse(ms)
  }

  function EncodeEach(responses: seq<seq<Msg>>): bytes
    requires ResponsesOk(responses)
  {
    if responses == [] then [] else EncodeAll(responses[0]) + EncodeEach(responses[1..])
  }

  lemma EncodeEachCons(ms: seq<Msg>, more: seq<seq<Msg>>, tail: bytes)
    requires MsgsOk(ms) && OneResponse(ms) && ResponsesOk(more)
    ensures ResponsesOk([ms] + more)
    ensures EncodeEach([ms] + more) + tail == EncodeAll(ms) + (EncodeEach(more) + tail)
  {
    assert ([ms] + more)[1..] == more;
    Assoc(EncodeAll(ms), EncodeEach(more), tail);
  }

  // ---- where simple_query stops ----

  /** One message ends the list: its only ReadyForQuery or error. */
  predicate EndsOnce(ms: seq<Msg>) {
    ms != [] && if ms[0].ReadyMsg? || ms[0].ErrorMsg? then |ms| == 1 else EndsOnce(ms[1..])
  }

  predicate HasError(ms: seq<Msg>) {
    exists m :: m in ms && m.ErrorMsg?
  }

  /** simple_query takes the first ReadyForQuery or error as its end, and completes with that error, or none. */
  lemma {:induction false} SimpleStops(s: Sq.State, ms: seq<Msg>)
    requires MsgsOk(ms) && Follow(Sq.SIMPLE, s, ms).Ended? && Follow(Sq.SIMPLE, s, ms).left == []
    ensures EndsOnce(ms) && Follow(Sq.SIMPLE, s, ms).o.ec == LastError(ms, NoError)
    decreases |ms|
  {
    var m, more, s1 := FollowTaken(Sq.SIMPLE, s, ms);
    SimpleStep(s, m, s1, more);
    if !m.ReadyMsg? && !m.ErrorMsg? {
      SimpleStops(Sq.Act(s1, Meaning(m)).s, more);
    }
  }

  /** One accepted message: an end, or one step. */
  lemma SimpleStep(s: Sq.State, m: Msg, s1: Sq.State, more: seq<Msg>)
    requires Sq.Peek(s, TagOf(KindOf(m))) == Some((KindOf(m), s1))
    ensures var v := Follow(Sq.SIMPLE, s, [m] + more);
            if m.ReadyMsg? then v == Ended(Outcome(NoError, s.result), more)
            else if m.ErrorMsg? then v == Ended(Outcome(Server(SqlState(m.fields, None)), s.result), more)
            else Sq.Act(s1, Meaning(m)).Continue? && v == Follow(Sq.SIMPLE, Sq.Act(s1, Meaning(m)).s, more)
  {
    FollowCons(Sq.SIMPLE, s, m, s1, more);
  }

  /** Of a whole response, simple_query uses everything exactly when there is no error in it. */
  lemma {:induction false} SimpleUses(s: Sq.State, ms: seq<Msg>)
    requires MsgsOk(ms) && OneResponse(ms) && Follow(Sq.SIMPLE, s, ms).Ended?
    ensures Follow(Sq.SIMPLE, s, ms).left == [] <==> !HasError(ms)
    decreases |ms|
  {
    var m, more, s1 := FollowTaken(Sq.SIMPLE, s, ms);
    SimpleStep(s, m, s1, more);
    assert ms[1..] == more && (HasError(ms) <==> m.ErrorMsg? || HasError(more));
    if !m.ReadyMsg? && !m.ErrorMsg? {
      SimpleUses(Sq.Act(s1, Meaning(m)).s, more);
    }
  }

  /**
   The same on the wire: what is left after a whole response is what follows it exactly when there is no error in
   it.
   */
  lemma SimpleLeaves(ms: seq<Msg>, rest: bytes)
    requires MsgsOk(ms) && OneResponse(ms) && Follow(Sq.SIMPLE, Sq.INIT, ms).Ended?
    ensures Converse(Sq.SIMPLE, Sq.INIT, Idle, EncodeAll(ms) + rest).Complete?
    ensures Converse(Sq.SIMPLE, Sq.INIT, Idle, EncodeAll(ms) + rest).rest == rest <==> !HasError(ms)
  {
    ConverseFollows(Sq.SIMPLE, Sq.INIT, ms, rest);
    SimpleUses(Sq.INIT, ms);
    var left := Follow(Sq.SIMPLE, Sq.INIT, ms).left;
    if left == [] {
      NoMessages(rest);
    } else {
      assert |EncodeAll(left) + rest| > |rest|;
    }
  }

  /**
   What simple_query delivers, on every byte string it completes on: the bytes it used are messages up to their
   only ReadyForQuery or error, which is the error it completes with; its entries are those of the commands.
   */
  lemma SimpleDelivers(bs: bytes, o: Outcome, rest: bytes) returns (ms: seq<Msg>)
    requires Converse(Sq.SIMPLE, Sq.INIT, Idle, bs) == Complete(o, rest)
    ensures MsgsOk(ms) && bs == EncodeAll(ms) + rest && EndsOnce(ms)
    ensures o == Outcome(LastError(ms, NoError), Entries([], [], ms)) && |o.result| == Completions(ms)
  {
    CompletesExactly(Sq.SIMPLE, Sq.INIT, bs, o, rest);
    ms :| MsgsOk(ms) && bs == EncodeAll(ms) + rest && Follow(Sq.SIMPLE, Sq.INIT, ms) == Ended(o, []);
    SimpleAccounts(Sq.INIT, [], ms);
    OneEntryEach([], [], ms);
    SimpleStops(Sq.INIT, ms);
  }

  /**
   A consequence of stopping at an error, wherever it comes: the ReadyForQuery that follows it is left for the
   next operation.  An execute, or oneshot, refuses it; a simple_query takes it for its whole response,
   completes at once without an error or entries, and leaves its own response for the operation after it.
   */
  lemma ErrorLeavesReady(ms: seq<Msg>, o: Outcome, status: byte, more: bytes)
    requires MsgsOk(ms) && Follow(Sq.SIMPLE, Sq.INIT, ms) == Ended(o, []) && HasError(ms) && MsgOk(ReadyMsg(status))
    ensures var left := EncodeMsg(ReadyMsg(status)) + more;
            && o.ec.Server? && Converse(Sq.SIMPLE, Sq.INIT, Idle, EncodeAll(ms) + left) == Complete(o, left)
            && Converse(Ex.EXECUTE, Ex.INIT, Idle, left) == Failed(Outcome(MalformedMessage, []))
            && Converse(One.ONESHOT, One.INIT, Idle, left) == Failed(Outcome(MalformedMessage, []))
            && Converse(Sq.SIMPLE, Sq.INIT, Idle, left) == Complete(Outcome(NoError, []), more)
  {
    var left := EncodeMsg(ReadyMsg(status)) + more;
    SimpleStops(Sq.INIT, ms);
    ErrorCodeOf(ms);
    ConverseFollows(Sq.SIMPLE, Sq.INIT, ms, left);
    NoMessages(left);
    ReadyFirst(status, more);
  }

  /** The only error of a list that ends with it. */
  lemma {:induction false} ErrorCodeOf(ms: seq<Msg>)
    requires EndsOnce(ms) && HasError(ms)
    ensures LastError(ms, NoError).Server?
  {
    if !ms[0].ErrorMsg? {
      ErrorCodeOf(ms[1..]);
    }
  }

  /** A ReadyForQuery first: execute and oneshot refuse it, simple_query ends with it. */
  lemma ReadyFirst(status: byte, more: bytes)
    requires MsgOk(ReadyMsg(status))
    ensures var bs := EncodeMsg(ReadyMsg(status)) + more;
            && Converse(Ex.EXECUTE, Ex.INIT, Idle, bs) == Failed(Outcome(MalformedMessage, []))
            && Converse(One.ONESHOT, One.INIT, Idle, bs) == Failed(Outcome(MalformedMessage, []))
            && Converse(Sq.SIMPLE, Sq.INIT, Idle, bs) == Complete(Outcome(NoError, []), more)
  {
    var m := ReadyMsg(status);
    assert (EncodeMsg(m) + more)[0] == 'Z' as int;
    ReadyUnexpected(EncodeMsg(m) + more);
    ReadyEnds(m, more);
  }

  lemma ReadyUnexpected(bs: bytes)
    requires bs != [] && bs[0] == 'Z' as int
    ensures Converse(Ex.EXECUTE, Ex.INIT, Idle, bs) == Failed(Outcome(MalformedMessage, []))
    ensures Converse(One.ONESHOT, One.INIT, Idle, bs) == Failed(Outcome(MalformedMessage, []))
  {
  }

  lemma ReadyEnds(m: Msg, more: bytes)
    requires MsgOk(m) && m.ReadyMsg?
    ensures Converse(Sq.SIMPLE, Sq.INIT, Idle, EncodeMsg(m) + more) == Complete(Outcome(NoError, []), more)
  {
    FrameDecodes(m, more);
  }

  // ---- messages that change nothing ----

  /** The messages that are not quiet. */
  function Without(quiet: Msg -> bool, ms: seq<Msg>): seq<Msg> {
    if ms == [] then [] else if quiet(ms[0]) then Without(quiet, ms[1..]) else [ms[0]] + Without(quiet, ms[1..])
  }

  function Thinned<S>(quiet: Msg -> bool, v: Verdict<S>): Verdict<S> {
    match v
    case Ended(o, left) => Ended(o, Without(quiet, left))
    case _ => v
  }

  /** Quiet messages are accepted in every state, and leave it as it is. */
  ghost predicate Ignores<S(!new)>(a: Automaton<S>, quiet: Msg -> bool) {
    forall s, m :: quiet(m) ==> Steps(a, s, m, s)
  }

  /** Leaving out the quiet messages changes nothing but the messages left. */
  lemma {:induction false} QuietIgnored<S(!new)>(a: Automaton<S>, quiet: Msg -> bool, s: S, ms: seq<Msg>)
    requires Ignores(a, quiet)
    ensures Follow(a, s, Without(quiet, ms)) == Thinned(quiet, Follow(a, s, ms))
    decreases |ms|
  {
    if ms != [] {
      var m, more := ms[0], ms[1..];
      assert ms == [m] + more;
      if quiet(m) {
        assert Steps(a, s, m, s);
        FollowStep(a, s, m, s, more);
        QuietIgnored(a, quiet, s, more);
      } else {
        FollowFirst(a, s, m, more);
        FollowFirst(a, s, m, Without(quiet, more));
        match a.peek(s, TagOf(KindOf(m)))
        case None =>
        case Some((k, s1)) =>
          if k == KindOf(m) && a.apply(s1, Meaning(m)).Continue? {
            QuietIgnored(a, quiet, a.apply(s1, Meaning(m)).s, more);
          }
      }
    }
  }

  // ---- a response, cut into reads ----

  /** The bytes of a list that an automaton ends on. */
  lemma EndsConverse<S>(a: Automaton<S>, s: S, ms: seq<Msg>, o: Outcome, extra: bytes)
    requires MsgsOk(ms) && Follow(a, s, ms) == Ended(o, [])
    ensures Converse(a, s, Idle, EncodeAll(ms) + extra) == Complete(o, extra)
  {
    ConverseFollows(a, s, ms, extra);
    NoMessages(extra);
  }

  /** What the bytes heard so far lead to, when all of them lead to the end of a response. */
  lemma HeardEnds<S>(a: Automaton<S>, s: S, all: bytes, heard: bytes, o: Outcome, extra: bytes)
    requires Converse(a, s, Idle, all) == Complete(o, extra) && heard <= all
    ensures match Converse(a, s, Idle, heard)
            case Waiting(_, _) => |heard| < |all|
            case Complete(o', rest) => o' == o && rest + all[|heard|..] == extra
            case Failed(_) => false
  {
    var more := all[|heard|..];
    assert all == heard + more;
    ConverseSplit(a, s, Idle, heard, more);
    assert more == [] ==> heard == all;
  }

  lemma {:induction false} JoinedRest(left: bytes, chunks: seq<bytes>, n: nat)
    requires n <= |chunks|
    ensures left + Joined(chunks) == Heard(left, chunks, n) + Joined(chunks[n..])
    decreases n
  {
    if n > 0 {
      JoinedRest(left, chunks, n - 1);
      HeardNext(left, chunks, n - 1);
      Assoc(Heard(left, chunks, n - 1), chunks[n - 1], Joined(chunks[n..]));
      assert chunks[n - 1..][1..] == chunks[n..];
    } else {
      assert chunks[..0] == [] && chunks[0..] == chunks && left + [] == left;
    }
  }

  // ---- oneshot ----

  lemma OneshotStep(m: Msg, s1: One.State, s2: One.State, rest: bytes)
    requires MsgOk(m) && One.Peek(One.INIT, TagOf(KindOf(m))) == Some((KindOf(m), s1))
    requires Ex.Act(s1, Meaning(m)) == Continue(s2)
    ensures Converse(One.ONESHOT, One.INIT, Idle, EncodeMsg(m) + rest) == Converse(One.ONESHOT, s2, Idle, rest)
  {
    FrameDecodes(m, rest);
  }

  lemma ErrorStep(m: Msg, rest: bytes)
    requires MsgOk(m) && m.ErrorMsg?
    ensures Converse(Ex.EXECUTE, Ex.INIT, Idle, EncodeMsg(m) + rest) ==
            Converse(Ex.EXECUTE, Ex.State(Ex.ReadyNow, None, [], Server(SqlState(m.fields, None))), Idle, rest)
  {
    FrameDecodes(m, rest);
  }

  lemma OneshotAfterParse(rest: bytes)
    ensures Converse(One.ONESHOT, One.INIT, Idle, EncodeMsg(Bare(ParseComplete)) + rest) ==
            One.LiftTalk(Converse(Ex.EXECUTE, Ex.INIT, Idle, rest))
  {
    OneshotStep(Bare(ParseComplete), One.Lift(Ex.INIT), One.Lift(Ex.INIT), rest);
    One.LockStep(Ex.INIT, Idle, rest);
  }

  lemma OneshotAfterError(m: Msg, rest: bytes)
    requires MsgOk(m) && m.ErrorMsg?
    ensures Converse(One.ONESHOT, One.INIT, Idle, EncodeMsg(m) + rest) ==
            One.LiftTalk(Converse(Ex.EXECUTE, Ex.INIT, Idle, EncodeMsg(m) + rest))
  {
    var failed := Ex.State(Ex.ReadyNow, None, [], Server(SqlState(m.fields, None)));
    OneshotStep(m, Ex.State(One.AwaitReady, None, [], NoError), One.Lift(failed), rest);
    ErrorStep(m, rest);
    One.LockStep(failed, Idle, rest);
  }

  lemma OneshotAfterNotice(m: Msg, rest: bytes)
    requires MsgOk(m) && m.NoticeMsg?
    ensures Converse(One.ONESHOT, One.INIT, Idle, EncodeMsg(m) + rest) == Converse(One.ONESHOT, One.INIT, Idle, rest)
  {
    OneshotStep(m, One.INIT, One.INIT, rest);
  }

  /**
   oneshot in terms of execute, by the first message of the response and for everything that follows it: a
   ParseComplete is followed by an execute; an error in its place is handled as execute handles it; a notice
   changes nothing; any other message is malformed.
   */
  lemma OneshotByFirst(m: Msg, rest: bytes)
    requires MsgOk(m)
    ensures var bs := EncodeMsg(m) + rest;
            Converse(One.ONESHOT, One.INIT, Idle, bs) ==
            if m == Bare(ParseComplete) then One.LiftTalk(Converse(Ex.EXECUTE, Ex.INIT, Idle, rest))
            else if m.ErrorMsg? then One.LiftTalk(Converse(Ex.EXECUTE, Ex.INIT, Idle, bs))
            else if m.NoticeMsg? then Converse(One.ONESHOT, One.INIT, Idle, rest)
            else Failed(Outcome(MalformedMessage, []))
  {
    if m == Bare(ParseComplete) {
      OneshotAfterParse(rest);
    } else if m.ErrorMsg? {
      OneshotAfterError(m, rest);
    } else if m.NoticeMsg? {
      OneshotAfterNotice(m, rest);
    } else {
      FirstTag(m, rest);
    }
  }

  lemma FirstTag(m: Msg, rest: bytes)
    requires MsgOk(m)
    ensures EncodeMsg(m) + rest != [] && (EncodeMsg(m) + rest)[0] == TagOf(KindOf(m))
    ensures TagOf(KindOf(m)) in {TagOf(ParseComplete), TagOf(ErrorResponse), TagOf(NoticeResponse)} ==>
              m == Bare(ParseComplete) || m.ErrorMsg? || m.NoticeMsg?
  {
  }
}
