/** What the operations deliver when they fail: the entries of the whole messages before the one they fail on. */
module PgFailures {
  import opened Bytes
  import opened PgMessages
  import opened PgFrame
  import opened PgCodec
  import opened PgStream
  import opened Conversation
  import opened PgResponses
  import Ex = PgExecute
  import One = PgOneshot
  import Sq = PgSimpleQuery

  // ---- oneshot ----

  lemma OneshotTracks(s: One.State, open: seq<Msg>, m: Msg, s1: One.State)
    requires One.Inv(s, None) && Tracks(s.curr, open) && ContentOk(m)
    requires One.Peek(s, TagOf(KindOf(m))) == Some((KindOf(m), s1))
    ensures match Ex.Act(s1, Meaning(m))
            case Continue(s2) => One.Inv(s2, None) && Tracks(s2.curr, StillOpen(open, m))
                              && s2.result == WithEntry(s.result, open, m)
                              && s2.err == LastError([m], s.err) && !m.ReadyMsg?
            case Finish(o) => o.result == s.result && o.ec == s.err && m.ReadyMsg?
  {
    One.PeekKeeps(s, TagOf(KindOf(m)));
    MeaningYields(m);
    One.ActKeeps(s1, KindOf(m), Meaning(m));
    TracksNext(s.curr, open, m);
  }

  /** oneshot counts entries and errors as execute does. */
  lemma {:induction false} OneshotAccounts(s: One.State, open: seq<Msg>, ms: seq<Msg>)
    requires One.Inv(s, None) && Tracks(s.curr, open) && MsgsOk(ms)
    ensures match Follow(One.ONESHOT, s, ms)
            case Ended(o, left) =>
              left == [] ==> o == Outcome(LastError(ms, s.err), Entries(s.result, open, ms)) && OneResponse(ms)
            case Going(s') => s'.err == LastError(ms, s.err) && s'.result == Entries(s.result, open, ms)
            case Refused(o) => o == Outcome(MalformedMessage, Entries(s.result, open, Taken(One.ONESHOT, s, ms)))
    decreases |ms|
  {
    if ms != [] && One.Peek(s, TagOf(KindOf(ms[0]))).Some? {
      var m := ms[0];
      assert m in ms;
      var (k, s1) := One.Peek(s, TagOf(KindOf(m))).value;
      if k == KindOf(m) {
        OneshotTracks(s, open, m, s1);
        if Ex.Act(s1, Meaning(m)).Continue? {
          OneshotAccounts(Ex.Act(s1, Meaning(m)).s, StillOpen(open, m), ms[1..]);
        }
      }
    }
  }

  /** What oneshot delivers, on every byte string it completes on. */
  lemma OneshotDelivers(bs: bytes, o: Outcome, rest: bytes) returns (ms: seq<Msg>)
    requires Converse(One.ONESHOT, One.INIT, Idle, bs) == Complete(o, rest)
    ensures MsgsOk(ms) && bs == EncodeAll(ms) + rest && OneResponse(ms)
    ensures o == Outcome(LastError(ms, NoError), Entries([], [], ms))
  {
    CompletesExactly(One.ONESHOT, One.INIT, bs, o, rest);
    ms :| MsgsOk(ms) && bs == EncodeAll(ms) + rest && Follow(One.ONESHOT, One.INIT, ms) == Ended(o, []);
    OneshotAccounts(One.INIT, [], ms);
  }

  // ---- failures ----

  // A tag does not change the entries.

  lemma SimpleKeeps(s: Sq.State, tail: bytes)
    ensures Sq.SIMPLE.result(Blamed(Sq.SIMPLE, s, tail)) == s.result
  {
  }

  lemma ExecuteKeeps(s: Ex.State<Ex.Expect>, tail: bytes)
    ensures Ex.EXECUTE.result(Blamed(Ex.EXECUTE, s, tail)) == s.result
  {
  }

  lemma OneshotKeeps(s: One.State, tail: bytes)
    ensures One.ONESHOT.result(Blamed(One.ONESHOT, s, tail)) == s.result
  {
  }

  /**
   Whenever simple_query fails, on any bytes: they are whole messages it goes on from and then a tag or a message that
   it refuses, and it delivers the entries of those messages.
   */
  lemma SimpleFails(bs: bytes, o: Outcome) returns (ms: seq<Msg>, tail: bytes)
    requires Converse(Sq.SIMPLE, Sq.INIT, Idle, bs) == Failed(o)
    ensures Breaks(Sq.SIMPLE, Sq.INIT, bs, ms, tail)
    ensures o == Outcome(MalformedMessage, Entries([], [], ms))
  {
    ms, tail := FailsAt(Sq.SIMPLE, Sq.INIT, bs);
    SimpleAccounts(Sq.INIT, [], ms);
    SimpleKeeps(Follow(Sq.SIMPLE, Sq.INIT, ms).s, tail);
  }

  /** The same of execute. */
  lemma ExecuteFails(bs: bytes, o: Outcome) returns (ms: seq<Msg>, tail: bytes)
    requires Converse(Ex.EXECUTE, Ex.INIT, Idle, bs) == Failed(o)
    ensures Breaks(Ex.EXECUTE, Ex.INIT, bs, ms, tail)
    ensures o == Outcome(MalformedMessage, Entries([], [], ms))
  {
    ms, tail := FailsAt(Ex.EXECUTE, Ex.INIT, bs);
    ExecuteAccounts(Ex.INIT, [], ms);
    ExecuteKeeps(Follow(Ex.EXECUTE, Ex.INIT, ms).s, tail);
  }

  /** And of oneshot. */
  lemma OneshotFails(bs: bytes, o: Outcome) returns (ms: seq<Msg>, tail: bytes)
    requires Converse(One.ONESHOT, One.INIT, Idle, bs) == Failed(o)
    ensures Breaks(One.ONESHOT, One.INIT, bs, ms, tail)
    ensures o == Outcome(MalformedMessage, Entries([], [], ms))
  {
    ms, tail := FailsAt(One.ONESHOT, One.INIT, bs);
    OneshotAccounts(One.INIT, [], ms);
    OneshotKeeps(Follow(One.ONESHOT, One.INIT, ms).s, tail);
  }
}
