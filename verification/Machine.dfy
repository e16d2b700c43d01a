/**
 Resumable field machines.

 A decoder reads one field at a time.  A field parser `P` takes one byte after
 another until it says that the field is full, or that it is broken.  The control
 `C` then says what a full field means: go on with another field, yield a decoded
 value, or reject.  The length-prefixed frame around the fields is `Body`.

 Every function here takes whatever bytes have arrived and returns the state to
 resume from; the `Split` lemmas say that where the bytes were cut does not matter.
 */
module Machine {
  import opened Bytes

  datatype Step<P> = Open(p: P) | Full(p: P) | Broken(p: P)

  /** Outcome of offering bytes to a field parser. */
  datatype Scan<P> = Partial(p: P) | Field(p: P, rest: bytes) | Fault

  function ScanField<P>(step: (P, byte) -> Step<P>, p: P, bs: bytes): (s: Scan<P>)
    ensures s.Field? ==> |s.rest| < |bs|
  {
    if bs == [] then Partial(p) else
    match step(p, bs[0])
    case Open(p') => ScanField(step, p', bs[1..])
    case Full(p') => Field(p', bs[1..])
    case Broken(_) => Fault
  }

  lemma {:induction false} ScanSplit<P>(step: (P, byte) -> Step<P>, p: P, a: bytes, b: bytes)
    ensures ScanField(step, p, a + b) ==
            match ScanField(step, p, a)
            case Partial(p') => ScanField(step, p', b)
            case Field(p', rest) => Field(p', rest + b)
            case Fault => Fault
  {
    if a == [] {
      assert a + b == b;
    } else {
      assert (a + b)[1..] == a[1..] + b;
      match step(p, a[0])
      case Open(p') => ScanSplit(step, p', a[1..], b);
      case _ =>
    }
  }

  datatype Next<C, V, E> = Go(c: C) | Yield(v: V) | Reject(e: E)

  /**
   `start` is the parser a control begins its field with, `advance` what a full
   field leads to, `fault` the error of a broken field, and `final` the value, if
   any, that the end of the frame yields while a field is still open.
   */
  datatype Machine<!C, !P, !V, !E> = Machine(
    step: (P, byte) -> Step<P>,
    start: C -> P,
    advance: (C, P) -> Next<C, V, E>,
    fault: E,
    final: (C, P) -> Option<V>)

  datatype Run<C, P, V, E> = Pending(c: C, p: P) | Yielded(v: V, rest: bytes) | Rejected(e: E)

  function RunFields<C, P, V, E>(m: Machine<C, P, V, E>, c: C, p: P, bs: bytes): (r: Run<C, P, V, E>)
    ensures r.Yielded? ==> |r.rest| < |bs|
    decreases |bs|
  {
    match ScanField(m.step, p, bs)
    case Partial(p') => Pending(c, p')
    case Fault => Rejected(m.fault)
    case Field(p', rest) =>
      match m.advance(c, p')
      case Go(c') => RunFields(m, c', m.start(c'), rest)
      case Yield(v) => Yielded(v, rest)
      case Reject(e) => Rejected(e)
  }

  function RunNext<C, P, V, E>(m: Machine<C, P, V, E>, next: Next<C, V, E>, bs: bytes): (r: Run<C, P, V, E>)
    ensures r.Yielded? ==> |r.rest| <= |bs|
  {
    match next
    case Go(c) => RunFields(m, c, m.start(c), bs)
    case Yield(v) => Yielded(v, bs)
    case Reject(e) => Rejected(e)
  }

  /** The result of feeding `b` after a run that has already seen the bytes before. */
  function Resume<C, P, V, E>(m: Machine<C, P, V, E>, r: Run<C, P, V, E>, b: bytes): Run<C, P, V, E> {
    match r
    case Pending(c, p) => RunFields(m, c, p, b)
    case Yielded(v, rest) => Yielded(v, rest + b)
    case Rejected(e) => Rejected(e)
  }

  lemma {:induction false} RunSplit<C, P, V, E>(m: Machine<C, P, V, E>, c: C, p: P, a: bytes, b: bytes)
    ensures RunFields(m, c, p, a + b) == Resume(m, RunFields(m, c, p, a), b)
    decreases |a|
  {
    ScanSplit(m.step, p, a, b);
    match ScanField(m.step, p, a)
    case Partial(_) =>
    case Fault =>
    case Field(p', rest) =>
      match m.advance(c, p')
      case Go(c') => RunSplit(m, c', m.start(c'), rest, b);
      case _ =>
  }

  lemma RunNextSplit<C, P, V, E>(m: Machine<C, P, V, E>, next: Next<C, V, E>, a: bytes, b: bytes)
    ensures RunNext(m, next, a + b) == Resume(m, RunNext(m, next, a), b)
  {
    if next.Go? {
      RunSplit(m, next.c, m.start(next.c), a, b);
    }
  }

  /** Outcome of the bytes of one frame body of which `remain` are still to come. */
  datatype Body<C, P, V, E> =
    | NeedBody(remain: nat, c: C, p: P)
    | Decoded(v: V, rest: bytes)
    | Incomplete
    | Trailing(v: V)
    | Bad(e: E)

  /** What a run over the `k` bytes at hand, out of `remain`, means for the frame; `rest` follows the frame. */
  function Judge<C, P, V, E>(m: Machine<C, P, V, E>, r: Run<C, P, V, E>, remain: nat, k: nat,
        rest: bytes): Body<C, P, V, E>
    requires k <= remain
  {
    match r
    case Rejected(e) => Bad(e)
    case Yielded(v, left) => if left == [] && k == remain then Decoded(v, rest) else Trailing(v)
    case Pending(c, p) =>
      if k < remain then NeedBody(remain - k, c, p) else
      match m.final(c, p)
      case Some(v) => Decoded(v, rest)
      case None => Incomplete
  }

  function RunBody<C, P, V, E>(m: Machine<C, P, V, E>, remain: nat, c: C, p: P, bs: bytes): Body<C, P, V, E> {
    var k := Min(remain, |bs|);
    Judge(m, RunFields(m, c, p, bs[..k]), remain, k, bs[k..])
  }

  /** A frame body from its start. */
  function EnterBody<C, P, V, E>(m: Machine<C, P, V, E>, remain: nat, next: Next<C, V, E>,
        bs: bytes): Body<C, P, V, E>
  {
    var k := Min(remain, |bs|);
    Judge(m, RunNext(m, next, bs[..k]), remain, k, bs[k..])
  }

  /** The result of offering `b` after the bytes before. */
  function ResumeBody<C, P, V, E>(m: Machine<C, P, V, E>, body: Body<C, P, V, E>, b: bytes): Body<C, P, V, E> {
    match body
    case NeedBody(n, c, p) => RunBody(m, n, c, p, b)
    case Decoded(v, rest) => Decoded(v, rest + b)
    case out => out
  }

  /** What the first `k` of `remain` bytes of a + b are, when a is not enough and when it is. */
  lemma CutPrefix(a: bytes, b: bytes, remain: nat)
    ensures |a| < remain ==>
              var k := Min(remain - |a|, |b|);
              (a + b)[..|a| + k] == a + b[..k] && (a + b)[|a| + k..] == b[k..] && a[..|a|] == a
    ensures |a| >= remain ==> (a + b)[..remain] == a[..remain] && (a + b)[remain..] == a[remain..] + b
  {
  }

  lemma BodySplit<C, P, V, E>(m: Machine<C, P, V, E>, remain: nat, c: C, p: P, a: bytes, b: bytes)
    ensures RunBody(m, remain, c, p, a + b) == ResumeBody(m, RunBody(m, remain, c, p, a), b)
  {
    CutPrefix(a, b, remain);
    if |a| < remain {
      RunSplit(m, c, p, a, b[..Min(remain - |a|, |b|)]);
    }
  }

  lemma EnterSplit<C, P, V, E>(m: Machine<C, P, V, E>, remain: nat, next: Next<C, V, E>, a: bytes, b: bytes)
    ensures EnterBody(m, remain, next, a + b) == ResumeBody(m, EnterBody(m, remain, next, a), b)
  {
    CutPrefix(a, b, remain);
    if |a| < remain {
      RunNextSplit(m, next, a, b[..Min(remain - |a|, |b|)]);
    }
  }
}
