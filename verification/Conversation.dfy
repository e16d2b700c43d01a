/**
 A conversation reads one backend message after another.  The three operations
 execute, oneshot and simple_query share this shape: look at the tag of the next
 message, parse the message it announces, act on it.  They differ in their automaton.
 */
module Conversation {
  import opened Bytes
  import opened Machine
  import opened PgFields
  import opened PgMessages
  import opened PgFrame

  /** `Server` carries the SQLSTATE of the ErrorResponse, if it had one. */
  datatype ErrorCode = NoError | MalformedMessage | Server(sqlstate: Option<bytes>)

  datatype ResultSet = ResultSet(desc: seq<RowDesc>, data: seq<Row>)

  type Results = seq<Option<ResultSet>>

  datatype Outcome = Outcome(ec: ErrorCode, result: Results)

  datatype After<S> = Continue(s: S) | Finish(o: Outcome)

  type GoodKind = k: Kind | KindOk(k) witness NoData

  type LiveFrame = f: Frame | Resumable(f) witness AtTag(NoData)

  /** The variant `parsers`: monostate, or the parser of the message being read. */
  datatype Slot = Idle | Busy(f: LiveFrame)

  /**
   `peek` chooses the parser for a tag and changes the state, or refuses the tag;
   `apply` acts on a parsed message; `result` is what a refusal completes with.
   */
  datatype Automaton<!S> = Automaton(
    peek: (S, byte) -> Option<(GoodKind, S)>,
    apply: (S, Value) -> After<S>,
    result: S -> Results)

  datatype Talk<S> = Waiting(s: S, slot: Slot) | Complete(o: Outcome, rest: bytes) | Failed(o: Outcome)

  function Refuse<S>(a: Automaton<S>, s: S): Talk<S> {
    Failed(Outcome(MalformedMessage, a.result(s)))
  }

  function Converse<S>(a: Automaton<S>, s: S, slot: Slot, bs: bytes): (t: Talk<S>)
    decreases |bs|, slot.Idle?
  {
    match slot
    case Idle =>
      if bs == [] then Waiting(s, Idle) else
      (match a.peek(s, bs[0])
       case None => Refuse(a, s)
       case Some((k, s')) => Converse(a, s', Busy(AtTag(k)), bs))
    case Busy(f) =>
      FrameKeeps(f, bs);
      match RunFrame(f, bs)
      case NeedFrame(g) => Waiting(s, Busy(g))
      case BadFrame(_) => Refuse(a, s)
      case Message(v, rest) =>
        match a.apply(s, v)
        case Continue(s') => Converse(a, s', Idle, rest)
        case Finish(o) => Complete(o, rest)
  }

  /** What the bytes `b` add to a conversation that has seen the bytes before. */
  function Hear<S>(a: Automaton<S>, t: Talk<S>, b: bytes): Talk<S> {
    match t
    case Waiting(s, slot) => Converse(a, s, slot, b)
    case Complete(o, rest) => Complete(o, rest + b)
    case Failed(o) => Failed(o)
  }

  /** Chunk invariance of a conversation, on every byte string, malformed ones included. */
  lemma {:induction false} ConverseSplit<S>(a: Automaton<S>, s: S, slot: Slot, x: bytes, y: bytes)
    ensures Converse(a, s, slot, x + y) == Hear(a, Converse(a, s, slot, x), y)
    decreases |x|, slot.Idle?
  {
    match slot
    case Idle =>
      if x == [] {
        assert x + y == y;
      } else if a.peek(s, x[0]).Some? {
        var (k, s') := a.peek(s, x[0]).value;
        ConverseSplit(a, s', Busy(AtTag(k)), x, y);
      }
    case Busy(f) =>
      FrameKeeps(f, x);
      FrameSplit(f, x, y);
      match RunFrame(f, x) {
        case Message(v, rest) =>
          if a.apply(s, v).Continue? {
            ConverseSplit(a, a.apply(s, v).s, Idle, rest, y);
          }
        case _ =>
      }
  }

  /** A refusal is always a malformed message. */
  lemma {:induction false} FailureIsMalformed<S>(a: Automaton<S>, s: S, slot: Slot, bs: bytes)
    ensures Converse(a, s, slot, bs).Failed? ==> Converse(a, s, slot, bs).o.ec == MalformedMessage
    decreases |bs|, slot.Idle?
  {
    match slot
    case Idle =>
      if bs != [] && a.peek(s, bs[0]).Some? {
        var (k, s') := a.peek(s, bs[0]).value;
        FailureIsMalformed(a, s', Busy(AtTag(k)), bs);
      }
    case Busy(f) =>
      FrameKeeps(f, bs);
      match RunFrame(f, bs) {
        case Message(v, rest) =>
          if a.apply(s, v).Continue? {
            FailureIsMalformed(a, a.apply(s, v).s, Idle, rest);
          }
        case _ =>
      }
  }

  /** One more read. */
  lemma HearNext<S>(a: Automaton<S>, s: S, slot: Slot, left: bytes, chunks: seq<bytes>, n: nat)
    requires n < |chunks|
    ensures Converse(a, s, slot, Heard(left, chunks, n + 1)) ==
            Hear(a, Converse(a, s, slot, Heard(left, chunks, n)), chunks[n])
  {
    HeardNext(left, chunks, n);
    ConverseSplit(a, s, slot, Heard(left, chunks, n), chunks[n]);
  }

  /** The message being parsed, if any. */
  function InFlight(slot: Slot): Option<Kind> {
    if slot.Idle? then None else Some(slot.f.k)
  }

  /** `inv`, of a state and the message being parsed, survives every step, and whatever is completed is `good`. */
  ghost predicate Inductive<S(!new)>(a: Automaton<S>, inv: (S, Option<Kind>) -> bool, good: Outcome -> bool) {
    && (forall s, b: byte :: inv(s, None) ==>
          match a.peek(s, b)
          case None => good(Outcome(MalformedMessage, a.result(s)))
          case Some((k, s')) => inv(s', Some(k)))
    && (forall s, k, v :: inv(s, Some(k)) && Yields(k, v) ==>
          match a.apply(s, v)
          case Continue(s') => inv(s', None)
          case Finish(o) => good(o))
    && (forall s, k :: inv(s, Some(k)) ==> good(Outcome(MalformedMessage, a.result(s))))
  }

  /** An inductive invariant holds in every state a conversation can reach, on any bytes. */
  lemma {:induction false} ConverseKeeps<S(!new)>(
      a: Automaton<S>, inv: (S, Option<Kind>) -> bool, good: Outcome -> bool, s: S, slot: Slot, bs: bytes)
    requires Inductive(a, inv, good) && inv(s, InFlight(slot))
    ensures match Converse(a, s, slot, bs)
            case Waiting(s', slot') => inv(s', InFlight(slot'))
            case Complete(o, _) => good(o)
            case Failed(o) => good(o)
    decreases |bs|, slot.Idle?
  {
    match slot
    case Idle =>
      if bs != [] && a.peek(s, bs[0]).Some? {
        var (k, s') := a.peek(s, bs[0]).value;
        ConverseKeeps(a, inv, good, s', Busy(AtTag(k)), bs);
      }
    case Busy(f) =>
      FrameKeeps(f, bs);
      match RunFrame(f, bs) {
        case Message(v, rest) =>
          if a.apply(s, v).Continue? {
            ConverseKeeps(a, inv, good, a.apply(s, v).s, Idle, rest);
          }
        case _ =>
      }
  }
}
