/** Byte sequences and the copying primitives of the C library. */
module Bytes {
  type Byte = x: int | 0 <= x < 256

  /** The code of a character in the C execution character set. */
  function C(c: char): (b: Byte)
    requires c as int < 256
    ensures b == c as int
  {
    c as int
  }

  const NUL: Byte := 0

  /** Overwriting the bytes from position `at` on. */
  function Put(s: seq<Byte>, at: nat, bytes: seq<Byte>): (r: seq<Byte>)
    requires at + |bytes| <= |s|
    ensures |r| == |s|
    ensures forall k | 0 <= k < |s| :: r[k] == if at <= k < at + |bytes| then bytes[k - at] else s[k]
  {
    s[..at] + bytes + s[at + |bytes|..]
  }

  lemma PutWhole(s: seq<Byte>, bytes: seq<Byte>)
    requires |bytes| == |s|
    ensures Put(s, 0, bytes) == bytes
  {
  }

  /** memcpy into an array. */
  method Store(a: array<Byte>, at: nat, bytes: seq<Byte>)
    requires at + |bytes| <= a.Length
    modifies a
    ensures a[..] == Put(old(a[..]), at, bytes)
  {
    var k := 0;
    while k < |bytes|
      invariant k <= |bytes|
      invariant forall j | 0 <= j < a.Length :: a[j] == if at <= j < at + k then bytes[j - at] else old(a[j])
    {
      a[at + k] := bytes[k];
      k := k + 1;
    }
  }

  function Repeat(b: Byte, n: nat): (s: seq<Byte>)
    ensures |s| == n && forall k | 0 <= k < n :: s[k] == b
  {
    seq(n, _ => b)
  }

  function Reversed(s: seq<Byte>): (r: seq<Byte>)
    ensures |r| == |s|
  {
    if s == [] then [] else [s[|s| - 1]] + Reversed(s[..|s| - 1])
  }

  lemma ReversedPush(s: seq<Byte>, x: Byte)
    ensures Reversed(s + [x]) == [x] + Reversed(s)
  {
    assert (s + [x])[..|s|] == s;
  }
}
