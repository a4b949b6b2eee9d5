/** Component and name successors, and number components (src/name.cpp). */
module Successor {
  import opened Bytes
  import opened Names
  import opened Order

  /** Adding one to a fixed-width big-endian number: the new bytes and the carry out of the first byte. */
  function Increment(v: Blob): (r: (Blob, bool))
    ensures |r.0| == |v|
  {
    if v == [] then ([], true)
    else
      var n := |v| - 1;
      if v[n] < 255 then (v[..n] + [v[n] + 1], false)
      else var (p, carry) := Increment(v[..n]); (p + [0], carry)
  }

  function SuccessorValue(v: Blob): Blob {
    var (r, carry) := Increment(v);
    if carry then r + [0] else r
  }

  function ComponentSuccessor(c: Component): Component {
    c.(value := SuccessorValue(c.value))
  }

  function NameSuccessor(x: Name): Name {
    if x == [] then [Component(ImplicitSha256Digest, Repeat(0, DIGEST_SIZE))]
    else x[..|x| - 1] + [ComponentSuccessor(x[|x| - 1])]
  }

  /** What the carry loop does when it reaches the byte in front of `w`. */
  lemma {:induction false} IncrementCons(b: byte, w: Blob)
    ensures Increment([b] + w) ==
            (var (r, carry) := Increment(w);
             if !carry then ([b] + r, false)
             else if b == 255 then ([0] + r, true)
             else ([b + 1] + r, false))
  {
    var v, n := [b] + w, |w| - 1;
    if w == [] {
      assert v[..0] == [] && [] + [0] == [0] && [0] + [] == [0] && [b + 1] + [] == [b + 1] == [] + [b + 1];
    } else {
      assert v[..|w|] == [b] + w[..n];
      IncrementCons(b, w[..n]);
      var p := Increment(w[..n]).0;
      assert forall x: byte :: ([x] + p) + [0] == [x] + (p + [0]);
      assert forall x: byte, p: Blob :: [b] + p + [x] == [b] + (p + [x]);
    }
  }

  /** Component::getSuccessor: a carry loop over a buffer with one spare byte. */
  method GetComponentSuccessor(c: Component) returns (r: Component)
    ensures r == ComponentSuccessor(c)
    ensures r.kind == c.kind
    ensures Value(c.value) < Pow256(|c.value|) - 1 ==> |r.value| == |c.value| && Value(r.value) == Value(c.value) + 1
    ensures Value(c.value) == Pow256(|c.value|) - 1 ==> |r.value| == |c.value| + 1 && Value(r.value) == 0
  {
    var v := c.value;
    var n := |v|;
    var result := new byte[n + 1](_ => 0);
    var carry := true;
    assert v[n..] == [] && result[n..n] == [];
    for i := n downto 0
      invariant Increment(v[i..]) == (result[i..n], carry)
    {
      IncrementCons(v[i], v[i + 1..]);
      assert [v[i]] + v[i + 1..] == v[i..];
      ghost var done := result[i + 1..n];
      if carry {
        result[i] := if v[i] == 255 then 0 else v[i] + 1;
        carry := result[i] == 0;
      } else {
        result[i] := v[i];
      }
      assert result[i + 1..n] == done && result[i..n] == [result[i]] + done;
    }
    assert v[0..] == v && result[0..n] == result[..n];
    if carry {
      result[n] := 0;
      r := Component(c.kind, result[..]);
      assert result[..] == result[..n] + [0];
    } else {
      r := Component(c.kind, result[..n]);
    }
    SuccessorCounts(v);
  }

  // ----- The successor is the next component of its type -----

  lemma {:induction false} IncrementAddsOne(v: Blob)
    ensures var (r, carry) := Increment(v);
            && (carry <==> Value(v) == Pow256(|v|) - 1)
            && (carry ==> Value(r) == 0)
            && (!carry ==> Value(r) == Value(v) + 1)
  {
    if v != [] {
      var n := |v| - 1;
      IncrementAddsOne(v[..n]);
      ValueBound(v[..n]);
      var r := Increment(v).0;
      assert r[..n] == if v[n] < 255 then v[..n] else Increment(v[..n]).0;
    }
  }

  /** All bytes 255 become zeros with one more byte; any other value becomes the next of its length. */
  lemma SuccessorCounts(v: Blob)
    ensures var r := SuccessorValue(v);
            if Value(v) == Pow256(|v|) - 1 then |r| == |v| + 1 && Value(r) == 0
            else |r| == |v| && Value(r) == Value(v) + 1
  {
    IncrementAddsOne(v);
    var (r, carry) := Increment(v);
    if carry { assert (r + [0])[..|r|] == r; }
  }

  /** Exactly the components at or above the successor are above the component. */
  lemma SuccessorIsNext(a: Component, b: Component)
    ensures CompareComponents(a, b) < 0 <==> CompareComponents(ComponentSuccessor(a), b) <= 0
  {
    var s := ComponentSuccessor(a);
    IncrementAddsOne(a.value);
    ComponentOrder(a, b);
    ComponentOrder(s, b);
    var (r, carry) := Increment(a.value);
    if carry {
      assert (r + [0])[..|r|] == r;
      assert Value(s.value) == 0;
    }
    ValueBound(a.value);
    ValueBound(b.value);
    if |s.value| == |b.value| { CompareIsNumeric(s.value, b.value); }
  }

  // ----- The names from a name up to its successor are its extensions -----

  lemma {:induction false} PrefixRange(x: Name, z: Name)
    requires x != []
    ensures CompareNames(x, z) <= 0 && CompareNames(z, NameSuccessor(x)) < 0 <==> IsPrefix(x, z)
  {
    if z != [] {
      var y := NameSuccessor(x);
      PrefixCons(x, z);
      ComponentOrder(x[0], z[0]);
      ComponentAntisymmetry(z[0], y[0]);
      if |x| == 1 {
        assert x[1..] == [] && y == [ComponentSuccessor(x[0])] && y[1..] == [];
        SuccessorIsNext(x[0], z[0]);
      } else {
        assert x[1..][..|x| - 2] == x[..|x| - 1][1..];
        assert y[1..] == NameSuccessor(x[1..]);
        ComponentAntisymmetry(x[0], z[0]);
        PrefixRange(x[1..], z[1..]);
      }
    }
  }

  /** The names strictly between a non-empty name and its successor are its proper extensions, and there are some. */
  lemma BetweenNameAndSuccessor(x: Name, z: Name)
    requires x != []
    ensures CompareNames(x, z) < 0 && CompareNames(z, NameSuccessor(x)) < 0 <==> IsPrefix(x, z) && |z| > |x|
    ensures var w := x + [Component(Generic, [])];
            CompareNames(x, w) < 0 && CompareNames(w, NameSuccessor(x)) < 0
  {
    PrefixRange(x, z);
    NameZero(x, z);
    var w := x + [Component(Generic, [])];
    PrefixRange(x, w);
    NameZero(x, w);
  }

  /** For the empty name, what lies in between starts with a component below an all-zero digest. */
  lemma BetweenEmptyNameAndSuccessor(z: Name)
    ensures CompareNames([], z) < 0 && CompareNames(z, NameSuccessor([])) < 0 <==>
            z != [] && (TypeCodeOf(z[0].kind) == 0 || (TypeCodeOf(z[0].kind) == 1 && |z[0].value| < 32))
  {
    if z != [] {
      var zeros := NameSuccessor([])[0];
      ComponentOrder(z[0], zeros);
      ZeroValue(DIGEST_SIZE);
      assert NameSuccessor([])[1..] == [];
    }
  }

  lemma {:induction false} ZeroValue(n: nat)
    ensures Value(Repeat(0, n)) == 0
  {
    if n > 0 {
      assert Repeat(0, n)[..n - 1] == Repeat(0, n - 1);
      ZeroValue(n - 1);
    }
  }

  // ----- Number components -----

  /** The minimal big-endian form of a number; zero has no bytes. */
  function NumberBytes(n: nat): (v: Blob)
  {
    if n == 0 then [] else NumberBytes(n / 256) + [n % 256]
  }

  function Reverse(v: Blob): (r: Blob)
    ensures |r| == |v| && forall i :: 0 <= i < |v| ==> r[i] == v[|v| - 1 - i]
  {
    seq(|v|, i requires 0 <= i < |v| => v[|v| - 1 - i])
  }

  function NumberComponent(n: nat, prefix: Blob): Component {
    Component(Generic, prefix + NumberBytes(n))
  }

  /** Component::fromNumberWithPrefix: little-endian bytes after the prefix, then reversed in place. */
  method FromNumberWithPrefix(number: nat, prefix: Blob) returns (r: Component)
    requires number < SIZE_LIMIT
    ensures r == NumberComponent(number, prefix)
    ensures r.kind == Generic && prefix <= r.value && Value(r.value[|prefix|..]) == number
    ensures number > 0 ==> r.value[|prefix|] > 0
    ensures number == 0 ==> r.value == prefix
  {
    var value := prefix;
    var n := number;
    ghost var low: Blob := [];
    while n != 0
      invariant value == prefix + low
      invariant NumberBytes(number) == NumberBytes(n) + Reverse(low)
    {
      ghost var next := low + [n % 256];
      assert Reverse(next) == [n % 256] + Reverse(low);
      value := value + [n % 256];
      low := next;
      n := n / 256;
    }
    value := value[..|prefix|] + Reverse(value[|prefix|..]);
    r := Component(Generic, value);
    NumberBytesValue(number);
    assert r.value[|prefix|..] == NumberBytes(number);
  }

  lemma {:induction false} NumberBytesValue(n: nat)
    ensures Value(NumberBytes(n)) == n
    ensures n > 0 ==> var v := NumberBytes(n); v != [] && v[0] != 0
  {
    if n > 0 {
      NumberBytesValue(n / 256);
      assert NumberBytes(n)[..|NumberBytes(n)| - 1] == NumberBytes(n / 256);
    }
  }

  lemma {:induction false} BytesOfValue(v: Blob)
    requires v != [] ==> v[0] != 0
    ensures NumberBytes(Value(v)) == v
  {
    if v != [] {
      var n := |v| - 1;
      LeadingByte(v);
      BytesOfValue(v[..n]);
      assert v == v[..n] + [v[n]];
    }
  }

  /** The bytes denote the number and carry no leading zero, and no other bytes do both. */
  lemma NumberBytesAreMinimal(n: nat, v: Blob)
    ensures v == NumberBytes(n) <==> Value(v) == n && (v != [] ==> v[0] != 0)
  {
    NumberBytesValue(n);
    if v != [] ==> v[0] != 0 { BytesOfValue(v); }
  }

  lemma {:induction false} LeadingByte(v: Blob)
    requires v != [] && v[0] != 0
    ensures Value(v) > 0
  {
    if |v| > 1 { LeadingByte(v[..|v| - 1]); }
  }

  lemma {:induction false} NumberLength(a: nat, b: nat)
    requires a <= b
    ensures |NumberBytes(a)| <= |NumberBytes(b)|
  {
    if a > 0 { NumberLength(a / 256, b / 256); }
  }

  lemma {:induction false} StripBytes(p: Blob, a: Blob, b: Blob)
    requires |a| == |b|
    ensures CompareBytes(p + a, p + b) == CompareBytes(a, b)
  {
    if p == [] {
      assert p + a == a && p + b == b;
    } else {
      assert (p + a)[1..] == p[1..] + a && (p + b)[1..] == p[1..] + b;
      StripBytes(p[1..], a, b);
    }
  }

  lemma BytesBehindPrefix(prefix: Blob, x: Blob, y: Blob)
    requires |x| < |y| || (|x| == |y| && Value(x) < Value(y))
    ensures CompareComponents(Component(Generic, prefix + x), Component(Generic, prefix + y)) < 0
  {
    if |x| == |y| {
      StripBytes(prefix, x, y);
      CompareIsNumeric(x, y);
    }
  }

  /** Behind one prefix, canonical order is numeric order. */
  lemma NumberOrder(a: nat, b: nat, prefix: Blob)
    requires a < b
    ensures CompareComponents(NumberComponent(a, prefix), NumberComponent(b, prefix)) < 0
  {
    NumberBytesValue(a);
    NumberBytesValue(b);
    NumberLength(a, b);
    BytesBehindPrefix(prefix, NumberBytes(a), NumberBytes(b));
  }
}
