/** Byte buffers that encoders fill through an advancing pointer. */
module Buffers {
  import opened Bytes

  /** A vector of zeros that has been filled from the front with `w`. */
  ghost predicate Written(dest: array<byte>, w: bytes)
    reads dest
  {
    |w| <= dest.Length && dest[..] == w + Zeros(dest.Length - |w|)
  }

  /** `ptr += n` over bytes that are zero already. */
  lemma Skipped(dest: array<byte>, w: bytes, n: nat)
    requires Written(dest, w) && |w| + n <= dest.Length
    ensures Written(dest, w + Zeros(n))
  {
  }

  method PutByte(dest: array<byte>, ptr: nat, v: byte, ghost w: bytes) returns (ptr': nat)
    requires Written(dest, w) && ptr == |w| < dest.Length
    modifies dest
    ensures Written(dest, w + [v]) && ptr' == ptr + 1
  {
    dest[ptr] := v;
    ptr' := ptr + 1;
    assert dest[..] == w + [v] + Zeros(dest.Length - |w| - 1);
  }

  /** memcpy. */
  method PutBytes(dest: array<byte>, ptr: nat, v: bytes, ghost w: bytes) returns (ptr': nat)
    requires Written(dest, w) && ptr == |w| && |w| + |v| <= dest.Length
    modifies dest
    ensures Written(dest, w + v) && ptr' == ptr + |v|
  {
    forall i | 0 <= i < |v| {
      dest[ptr + i] := v[i];
    }
    ptr' := ptr + |v|;
    assert dest[..] == w + v + Zeros(dest.Length - |w| - |v|);
  }
}
