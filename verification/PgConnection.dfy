/** The buffer a connection shares between its operations (postgresql/connection.hpp). */
module PgConnection {
  import opened Bytes
  import opened PgFields
  import opened PgMessages
  import opened PgFrame

  const BUFFER_SIZE: nat := 4096

  /** What async_read_some can deliver: at least one byte, at most the buffer. */
  predicate ReadOk(chunk: bytes) {
    0 < |chunk| <= BUFFER_SIZE
  }

  class Connection {
    const buffer: array<byte>
    var bufBegin: nat
    var bufEnd: nat
    /** Every byte the reads of this connection delivered, and how many of them operations have used. */
    ghost var received: bytes
    ghost var taken: nat

    /** No byte is lost: what lies between the cursors is what has been received and not used. */
    ghost predicate Valid()
      reads this, buffer
    {
      && buffer.Length == BUFFER_SIZE
      && bufBegin <= bufEnd <= buffer.Length
      && taken <= |received|
      && buffer[bufBegin..bufEnd] == received[taken..]
    }

    ghost function Unread(): bytes
      reads this, buffer
      requires Valid()
    {
      received[taken..]
    }

    constructor ()
      ensures Valid() && received == [] && fresh(buffer)
    {
      buffer := new byte[BUFFER_SIZE](_ => 0);
      bufBegin, bufEnd := 0, 0;
      received, taken := [], 0;
    }

    /** Completion of async_read_some: the bytes overwrite the buffer, which nothing unread may still occupy. */
    method Deliver(chunk: bytes)
      requires Valid() && bufBegin == bufEnd && ReadOk(chunk)
      modifies this, buffer
      ensures Valid() && received == old(received) + chunk && taken == old(taken) && Unread() == chunk
    {
      forall i | 0 <= i < |chunk| {
        buffer[i] := chunk[i];
      }
      bufBegin, bufEnd := 0, |chunk|;
      received := received + chunk;
      assert buffer[..|chunk|] == chunk;
    }

    /** do_read, up to the request: both cursors are reset. */
    method ResetCursors()
      requires Valid() && bufBegin == bufEnd
      modifies `bufBegin, `bufEnd
      ensures Valid() && bufBegin == bufEnd
    {
      bufBegin, bufEnd := 0, 0;
      assert buffer[0..0] == received[taken..];
    }

    /** Runs a message parser between the cursors; the parser moves the begin cursor. */
    method Parse(f: Frame) returns (r: ParseResult, f': Frame, v: Value)
      requires Valid() && Resumable(f)
      modifies `bufBegin, `taken
      ensures Valid() && old(taken) <= taken
      ensures match RunFrame(f, old(Unread()))
              case NeedFrame(g) => r == ParseNeedMore && f' == g && Resumable(g) && g.k == f.k && bufBegin == bufEnd
              case Message(value, rest) => r == ParseSuccess && v == value && Yields(f.k, v)
                                        && Unread() == rest && old(bufBegin) < bufBegin
              case BadFrame(e) => r == e && r != ParseSuccess && r != ParseNeedMore
    {
      FrameKeeps(f, Unread());
      ghost var bs := buffer[..bufEnd];
      assert bs[bufBegin..] == received[taken..];
      var begin;
      r, f', begin, v := BasicParse(f, buffer[..bufEnd], bufBegin);
      assert buffer[begin..bufEnd] == buffer[bufBegin..bufEnd][begin - bufBegin..];
      assert received[taken + (begin - bufBegin)..] == received[taken..][begin - bufBegin..];
      assert bs[begin..] == buffer[begin..bufEnd];
      taken := taken + (begin - bufBegin);
      bufBegin := begin;
    }
  }
}
