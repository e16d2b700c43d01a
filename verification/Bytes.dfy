/** Bytes, options and the fixed-width integers of the two wire formats. */
module Bytes {
  type byte = b: int | 0 <= b < 256

  type bytes = seq<byte>

  datatype Option<+T> = None | Some(value: T)

  function Min(a: nat, b: nat): (m: nat) {
    if a < b then a else b
  }

  const TWO_16: int := 0x1_0000
  const TWO_24: int := 0x100_0000
  const TWO_31: int := 0x8000_0000
  const TWO_32: int := 0x1_0000_0000
  const TWO_64: int := 0x1_0000_0000_0000_0000

  /** Network (big-endian) order: ntohs and htons. */
  function FromBe16(b: bytes): (n: nat)
    requires |b| == 2
    ensures n < TWO_16
  {
    b[0] as int * 256 + b[1] as int
  }

  function ToBe16(n: nat): (b: bytes)
    requires n < TWO_16
    ensures |b| == 2
  {
    [n / 256, n % 256]
  }

  /** Network (big-endian) order: ntohl and htonl. */
  function FromBe32(b: bytes): (n: nat)
    requires |b| == 4
    ensures n < TWO_32
  {
    FromBe16(b[..2]) * TWO_16 + FromBe16(b[2..])
  }

  function ToBe32(n: nat): (b: bytes)
    requires n < TWO_32
    ensures |b| == 4
  {
    ToBe16(n / TWO_16) + ToBe16(n % TWO_16)
  }

  lemma Be16RoundTrip(n: nat, b: bytes)
    requires n < TWO_16 && |b| == 2
    ensures FromBe16(ToBe16(n)) == n
    ensures ToBe16(FromBe16(b)) == b
  {
  }

  lemma Be32RoundTrip(n: nat, b: bytes)
    requires n < TWO_32 && |b| == 4
    ensures FromBe32(ToBe32(n)) == n
    ensures ToBe32(FromBe32(b)) == b
  {
    var hi, lo := ToBe16(n / TWO_16), ToBe16(n % TWO_16);
    assert (hi + lo)[..2] == hi && (hi + lo)[2..] == lo;
    Be16RoundTrip(n / TWO_16, b[..2]);
    Be16RoundTrip(n % TWO_16, b[2..]);
    assert b == b[..2] + b[2..];
  }

  lemma Assoc(a: bytes, b: bytes, c: bytes)
    ensures a + b + c == a + (b + c)
  {
  }

  function Zeros(n: nat): (z: bytes)
    ensures |z| == n
  {
    seq(n, _ => 0)
  }

  /** Little-endian value of a byte string, of any length. */
  function FromLe(b: bytes): (n: nat) {
    if b == [] then 0 else b[0] as int + 256 * FromLe(b[1..])
  }

  /** The bytes of a list of reads, in order. */
  function Joined(chunks: seq<bytes>): bytes {
    if chunks == [] then [] else chunks[0] + Joined(chunks[1..])
  }

  /** A list of reads one longer: the last one comes last. */
  lemma JoinedMore(chunks: seq<bytes>, chunk: bytes)
    ensures Joined(chunks + [chunk]) == Joined(chunks) + chunk
  {
    if chunks == [] {
      assert [] + [chunk] == [chunk] && Joined([chunk][1..]) == [];
    } else {
      JoinedMore(chunks[1..], chunk);
      assert (chunks + [chunk])[1..] == chunks[1..] + [chunk];
    }
  }

  /** The first reads, after the bytes from before them. */
  function Heard(left: bytes, chunks: seq<bytes>, n: nat): bytes
    requires n <= |chunks|
  {
    left + Joined(chunks[..n])
  }

  lemma HeardNext(left: bytes, chunks: seq<bytes>, n: nat)
    requires n < |chunks|
    ensures Heard(left, chunks, n + 1) == Heard(left, chunks, n) + chunks[n]
  {
    assert chunks[..n + 1] == chunks[..n] + [chunks[n]];
    JoinedMore(chunks[..n], chunks[n]);
  }
}
