/** Byte strings, their base-256 value, and the byte-wise comparison of `ndn_memcmp`. */
module Bytes {
  type byte = x: int | 0 <= x < 256

  type Blob = seq<byte>

  /** A C `char` seen as an unsigned byte. */
  type Char = c: char | c as int < 256 witness 'a'

  type Text = seq<Char>

  datatype Option<+T> = None | Some(value: T)

  datatype Error =
    | DigestLength       // a digest component whose value is not 32 bytes
    | TypeCodeSyntax     // "Can't parse decimal Name Component type"
    | NegativeTypeCode   // an OTHER_CODE below zero
    | TypeCodeOverflow   // a type code that does not fit an int
    | IndexOutOfRange    // a vector access past its end

  datatype Result<+T> = Ok(value: T) | Err(error: Error)

  /** The characters as bytes. */
  function BytesOf(s: Text): (v: Blob)
    ensures |v| == |s| && forall i :: 0 <= i < |s| ==> v[i] == s[i] as int
  {
    seq(|s|, i requires 0 <= i < |s| => s[i] as int)
  }

  /** The bytes read as a big-endian number. */
  function Value(v: Blob): (n: nat)
  {
    if v == [] then 0 else 256 * Value(v[..|v| - 1]) + v[|v| - 1]
  }

  function Pow256(n: nat): (p: nat)
    ensures p >= 1
  {
    if n == 0 then 1 else 256 * Pow256(n - 1)
  }

  function Repeat(b: byte, n: nat): (v: Blob)
    ensures |v| == n && forall i :: 0 <= i < n ==> v[i] == b
  {
    seq(n, i => b)
  }

  /** The order `ndn_memcmp` gives to two blobs of one length. */
  function CompareBytes(a: Blob, b: Blob): (r: int)
    requires |a| == |b|
    ensures -1 <= r <= 1
  {
    if a == [] then 0
    else if a[0] > b[0] then 1
    else if a[0] < b[0] then -1
    else CompareBytes(a[1..], b[1..])
  }

  method MemCompare(a: Blob, b: Blob) returns (r: int)
    requires |a| == |b|
    ensures r == CompareBytes(a, b)
  {
    for i := 0 to |a|
      invariant CompareBytes(a, b) == CompareBytes(a[i..], b[i..])
    {
      if a[i] > b[i] { return 1; }
      else if a[i] < b[i] { return -1; }
      assert a[i..][1..] == a[i + 1..] && b[i..][1..] == b[i + 1..];
    }
    return 0;
  }

  lemma {:induction false} ValueBound(v: Blob)
    ensures Value(v) < Pow256(|v|)
  {
    if v != [] { ValueBound(v[..|v| - 1]); }
  }

  /** The last byte decides a comparison only when everything before it agrees. */
  lemma {:induction false} CompareByLast(a: Blob, b: Blob, x: byte, y: byte)
    requires |a| == |b|
    ensures CompareBytes(a + [x], b + [y]) ==
            if CompareBytes(a, b) != 0 then CompareBytes(a, b)
            else if x > y then 1 else if x < y then -1 else 0
  {
    if a == [] {
      assert a + [x] == [x] && b + [y] == [y];
      assert [x][1..] == [] && [y][1..] == [];
    } else {
      assert (a + [x])[1..] == a[1..] + [x] && (b + [y])[1..] == b[1..] + [y];
      CompareByLast(a[1..], b[1..], x, y);
    }
  }

  /** For blobs of one length, byte order is numeric order. */
  lemma {:induction false} CompareIsNumeric(a: Blob, b: Blob)
    requires |a| == |b|
    ensures CompareBytes(a, b) < 0 <==> Value(a) < Value(b)
    ensures CompareBytes(a, b) == 0 <==> a == b
    ensures a == b <==> Value(a) == Value(b)
  {
    if a != [] {
      var n := |a| - 1;
      CompareIsNumeric(a[..n], b[..n]);
      assert a == a[..n] + [a[n]] && b == b[..n] + [b[n]];
      CompareByLast(a[..n], b[..n], a[n], b[n]);
    }
  }
}
