/** The buffer-writing loops of contrib/apache/apr_base64.c, against the functions of Base64. */
module Base64Io {
  import opened Bytes
  import opened Words
  import opened Base64

  const NUL: Char := '\0'

  // ----- The bit operations of the C code, and what they compute -----

  lemma SmallPowers()
    ensures Pow2(2) == 4 && Pow2(4) == 16 && Pow2(6) == 64
  {
    PowSum(2, 2);
    PowSum(4, 2);
  }

  lemma Mask2(x: nat)
    ensures And(x, 0x3) == x % 4
  {
    SmallPowers();
    LowMask(x, 2);
  }

  lemma Mask4(x: nat)
    ensures And(x, 0xF) == x % 16
  {
    SmallPowers();
    LowMask(x, 4);
  }

  lemma Mask6(x: nat)
    ensures And(x, 0x3F) == x % 64
  {
    SmallPowers();
    LowMask(x, 6);
  }

  lemma Down2(x: nat)
    ensures Shr(x, 2) == x / 4
  {
    SmallPowers();
    ShrDivides(x, 2);
  }

  lemma Down4(x: nat)
    ensures Shr(x, 4) == x / 16
  {
    SmallPowers();
    ShrDivides(x, 4);
  }

  lemma Down6(x: nat)
    ensures Shr(x, 6) == x / 64
  {
    SmallPowers();
    ShrDivides(x, 6);
  }

  lemma SmallRest(x: nat, d: nat)
    requires x < d
    ensures x % d == x
  {
  }

  /** The four highest bits of a byte, shifted down. */
  lemma HighFour(b: byte)
    ensures Shr(And(b, 0xF0), 4) == b / 16
  {
    var q := b / 16;
    assert q < 16;
    assert Shr(And(b, 0xF0), 4) == And(Shr(b, 4), 0xF) by {
      SmallPowers();
      HighMask(b, 0xF, 0xF0, 4);
    }
    Down4(b);
    Mask4(q);
    SmallRest(q, 16);
  }

  /** The two highest bits. */
  lemma HighTwo(b: byte)
    ensures Shr(And(b, 0xC0), 6) == b / 64
  {
    var q := b / 64;
    assert q < 4;
    assert Shr(And(b, 0xC0), 6) == And(Shr(b, 6), 0x3) by {
      SmallPowers();
      HighMask(b, 0x3, 0xC0, 6);
    }
    Down6(b);
    Mask2(q);
    SmallRest(q, 4);
  }

  lemma Up(x: word, k: nat, p: nat)
    requires x < 0x100 && ((k == 2 && p == 4) || (k == 4 && p == 16) || (k == 6 && p == 64))
    ensures Shl(x, k) as int == x as int * p
  {
    SmallPowers();
    WrapSmall(x as int * p);
  }

  /** An or of a number shifted left and one that fits below it is a sum. */
  lemma ShiftedOr(a: nat, m: nat, b: nat, k: nat, p: nat)
    requires ((k == 2 && p == 4) || (k == 4 && p == 16) || (k == 6 && p == 64)) && m == a * p && b < p
    ensures Or(m, b) == m + b
  {
    SmallPowers();
    DisjointOr(a, m, b, k);
  }

  method First(b0: byte) returns (r: six)
    ensures r == Six0(b0)
  {
    FirstBits(b0);
    return And(Shr(b0, 2), 0x3F);
  }

  lemma FirstBits(b0: byte)
    ensures And(Shr(b0, 2), 0x3F) == Six0(b0) as int
  {
    Down2(b0);
    Mask6(Six0(b0));
    SmallRest(Six0(b0), 64);
  }

  method Second(b0: byte, b1: byte) returns (r: six)
    ensures r == Six1(b0, b1)
  {
    SecondBits(b0, b1);
    return Or(Shl(And(b0, 0x3), 4), Shr(And(b1, 0xF0), 4));
  }

  lemma SecondBits(b0: byte, b1: byte)
    ensures And(b0, 0x3) < 4 && Or(Shl(And(b0, 0x3), 4), Shr(And(b1, 0xF0), 4)) == Six1(b0, b1) as int
  {
    var a, b := b0 % 4, b1 / 16;
    Mask2(b0);
    HighFour(b1);
    Up(a, 4, 16);
    ShiftedOr(a, a * 16, b, 4, 16);
  }

  method Third(b1: byte, b2: byte) returns (r: six)
    ensures r == Six2(b1, b2)
  {
    ThirdBits(b1, b2);
    return Or(Shl(And(b1, 0xF), 2), Shr(And(b2, 0xC0), 6));
  }

  lemma ThirdBits(b1: byte, b2: byte)
    ensures And(b1, 0xF) < 16 && Or(Shl(And(b1, 0xF), 2), Shr(And(b2, 0xC0), 6)) == Six2(b1, b2) as int
  {
    var a, b := b1 % 16, b2 / 64;
    Mask4(b1);
    HighTwo(b2);
    Up(a, 2, 4);
    ShiftedOr(a, a * 4, b, 2, 4);
  }

  method Fourth(b2: byte) returns (r: six)
    ensures r == Six3(b2)
  {
    Mask6(b2);
    return And(b2, 0x3F);
  }

  /** The second character when no second byte follows. */
  method SecondOfOne(b0: byte) returns (r: six)
    ensures r == Six1(b0, 0)
  {
    Mask2(b0);
    Up(b0 % 4, 4, 16);
    return Shl(And(b0, 0x3), 4);
  }

  /** The third character when no third byte follows. */
  method ThirdOfTwo(b1: byte) returns (r: six)
    ensures r == Six2(b1, 0)
  {
    Mask4(b1);
    Up(b1 % 16, 2, 4);
    return Shl(And(b1, 0xF), 2);
  }

  /** The cast to unsigned char. */
  function Cut(x: nat): byte { x % 0x100 }

  lemma CutParts(x: nat, q: nat, r: byte)
    requires x == 0x100 * q + r
    ensures Cut(x) == r
  {
  }

  method FirstByte(v0: six, v1: six) returns (r: byte)
    ensures r == Byte0(v0, v1)
  {
    FirstByteBits(v0, v1);
    return Cut(Or(Shl(v0, 2), Shr(v1, 4)));
  }

  lemma FirstByteBits(v0: six, v1: six)
    ensures Cut(Or(Shl(v0, 2), Shr(v1, 4))) == Byte0(v0, v1)
  {
    var a, b := v0 as int, v1 / 16;
    Down4(v1);
    Up(v0, 2, 4);
    ShiftedOr(a, a * 4, b, 2, 4);
    CutParts(a * 4 + b, 0, Byte0(v0, v1));
  }

  method SecondByte(v1: six, v2: six) returns (r: byte)
    ensures r == Byte1(v1, v2)
  {
    SecondByteBits(v1, v2);
    return Cut(Or(Shl(v1, 4), Shr(v2, 2)));
  }

  lemma SecondByteBits(v1: six, v2: six)
    ensures Cut(Or(Shl(v1, 4), Shr(v2, 2))) == Byte1(v1, v2)
  {
    var a, b := v1 as int, v2 / 4;
    Down2(v2);
    Up(v1, 4, 16);
    ShiftedOr(a, a * 16, b, 4, 16);
    HighParts(v1, v2);
    CutParts(a * 16 + b, a / 16, Byte1(v1, v2));
  }

  lemma HighParts(v: six, w: six)
    ensures v as int * 16 + w / 4 == 0x100 * (v as int / 16) + Byte1(v, w) as int
    ensures v as int * 64 + w == 0x100 * (v as int / 4) + Byte2(v, w) as int
  {
    var q, r := v as int / 16, v as int % 16;
    assert v as int == 16 * q + r;
    var e, f := v as int / 4, v as int % 4;
    assert v as int == 4 * e + f;
  }

  method ThirdByte(v2: six, v3: six) returns (r: byte)
    ensures r == Byte2(v2, v3)
  {
    ThirdByteBits(v2, v3);
    return Cut(Or(Shl(v2, 6), v3));
  }

  lemma ThirdByteBits(v2: six, v3: six)
    ensures Cut(Or(Shl(v2, 6), v3)) == Byte2(v2, v3)
  {
    var a := v2 as int;
    Up(v2, 6, 64);
    ShiftedOr(a, a * 64, v3, 6, 64);
    HighParts(v2, v3);
    CutParts(a * 64 + v3, a / 4, Byte2(v2, v3));
  }

  // ----- The loops -----

  /** Append to what a buffer holds below `p`, leaving the rest alone. */
  method Put<T>(a: array<T>, p: nat, s: seq<T>)
    requires p + |s| <= a.Length
    modifies a
    ensures a[..p + |s|] == old(a[..p]) + s
    ensures forall k :: p + |s| <= k < a.Length ==> a[k] == old(a[k])
  {
    for i := 0 to |s|
      invariant a[..p + i] == old(a[..p]) + s[..i]
      invariant forall k :: p + i <= k < a.Length ==> a[k] == old(a[k])
    {
      a[p + i] := s[i];
      assert a[..p + i + 1] == a[..p + i] + [s[i]];
    }
    assert s[..|s|] == s;
  }

  lemma LettersAppend(v: seq<six>, w: seq<six>)
    ensures Letters(v + w) == Letters(v) + Letters(w)
  {
  }

  lemma EncodeStep(data: Blob, i: nat)
    requires i + 2 < |data|
    ensures Letters(EncodeSixes(data[i..])) ==
            [Basis(Six0(data[i])), Basis(Six1(data[i], data[i + 1])), Basis(Six2(data[i + 1], data[i + 2])),
             Basis(Six3(data[i + 2]))] + Letters(EncodeSixes(data[i + 3..]))
  {
    var x, y := data[i..i + 3], data[i + 3..];
    assert data[i..] == x + y;
    EncodeFirstGroup(x, y);
    LettersAppend(EncodeGroup(x), EncodeSixes(y));
  }

  /** What is still to be written from index `i` on. */
  function RestLetters(data: Blob, i: nat): Text
    requires i <= |data|
  {
    Letters(EncodeSixes(data[i..]))
  }

  /** The four characters of the three bytes at `i`. */
  method FourLetters(data: Blob, i: nat) returns (group: Text)
    requires i + 2 < |data|
    ensures |group| == 4 && RestLetters(data, i) == group + RestLetters(data, i + 3)
  {
    EncodeStep(data, i);
    var v0 := First(data[i]);
    var v1 := Second(data[i], data[i + 1]);
    var v2 := Third(data[i + 1], data[i + 2]);
    var v3 := Fourth(data[i + 2]);
    return [Basis(v0), Basis(v1), Basis(v2), Basis(v3)];
  }

  lemma NextMultiple(i: nat)
    ensures i % 3 == 0 ==> (i + 3) % 3 == 0
    ensures i % 4 == 0 ==> (i + 4) % 4 == 0
  {
  }

  lemma Regroup<T>(whole: seq<T>, before: seq<T>, group: seq<T>, tail: seq<T>)
    requires whole == before + (group + tail)
    ensures whole == (before + group) + tail
  {
  }

  /** The loop over whole groups of three bytes. */
  method EncodeGroups(encoded: array<Char>, data: Blob) returns (i: nat, p: nat)
    requires encoded.Length >= |RestLetters(data, 0)|
    modifies encoded
    ensures i <= |data| < i + 3 && i % 3 == 0 && p <= encoded.Length
    ensures RestLetters(data, 0) == encoded[..p] + RestLetters(data, i)
    ensures forall k :: p <= k < encoded.Length ==> encoded[k] == old(encoded[k])
  {
    i, p := 0, 0;
    ghost var letters, rest := RestLetters(data, 0), RestLetters(data, 0);
    while i < |data| - 2
      invariant i <= |data| && i % 3 == 0 && p <= encoded.Length
      invariant letters == encoded[..p] + rest && rest == RestLetters(data, i)
      invariant forall k :: p <= k < encoded.Length ==> encoded[k] == old(encoded[k])
    {
      var group := FourLetters(data, i);
      Regroup(letters, encoded[..p], group, RestLetters(data, i + 3));
      Put(encoded, p, group);
      rest := RestLetters(data, i + 3);
      NextMultiple(i);
      p := p + 4;
      i := i + 3;
    }
  }

  /** The last one or two bytes, with their padding. */
  function EncodeLast(rest: Blob): Text
    requires |rest| < 3
  {
    if |rest| == 1 then [Basis(Six0(rest[0])), Basis(Six1(rest[0], 0)), '=', '=']
    else if |rest| == 2 then [Basis(Six0(rest[0])), Basis(Six1(rest[0], rest[1])), Basis(Six2(rest[1], 0)), '=']
    else []
  }

  lemma PaddedLetters(a: six, b: six, c: six)
    ensures Letters([a, b]) + "==" == [Basis(a), Basis(b), '=', '=']
    ensures Letters([a, b, c]) + "=" == [Basis(a), Basis(b), Basis(c), '=']
  {
  }

  lemma LastOne(b0: byte)
    ensures EncodeLast([b0]) == Letters(EncodeSixes([b0])) + Padding(1)
  {
    var a, b := Six0(b0), Six1(b0, 0);
    assert EncodeSixes([b0]) == [a, b];
    PaddedLetters(a, b, 0);
  }

  lemma LastTwo(b0: byte, b1: byte)
    ensures EncodeLast([b0, b1]) == Letters(EncodeSixes([b0, b1])) + Padding(2)
  {
    var a, b, c := Six0(b0), Six1(b0, b1), Six2(b1, 0);
    assert EncodeSixes([b0, b1]) == [a, b, c];
    PaddedLetters(a, b, c);
  }

  lemma LastNone()
    ensures EncodeLast([]) == Letters(EncodeSixes([])) + Padding(0)
  {
    assert EncodeSixes([]) == [];
  }

  /** What the code writes last is the last group and its padding. */
  predicate IsLastGroup(rest: Blob)
    requires |rest| < 3
  {
    EncodeLast(rest) == Letters(EncodeSixes(rest)) + Padding(|rest|)
  }

  lemma LastGroup(rest: Blob)
    requires |rest| < 3
    ensures IsLastGroup(rest)
  {
    if |rest| == 0 {
      LastNone();
      assert IsLastGroup([]) && rest == [];
    } else if |rest| == 1 {
      LastOne(rest[0]);
      assert IsLastGroup([rest[0]]) && rest == [rest[0]];
    } else {
      LastTwo(rest[0], rest[1]);
      assert IsLastGroup([rest[0], rest[1]]) && rest == [rest[0], rest[1]];
    }
  }

  /** The last group as the code writes it. */
  method LastLetters(data: Blob, i: nat) returns (last: Text)
    requires i <= |data| < i + 3
    ensures last == EncodeLast(data[i..])
  {
    if i < |data| {
      var v0 := First(data[i]);
      if i == |data| - 1 {
        var v1 := SecondOfOne(data[i]);
        last := [Basis(v0), Basis(v1), '=', '='];
      } else {
        var v1 := Second(data[i], data[i + 1]);
        var v2 := ThirdOfTwo(data[i + 1]);
        last := [Basis(v0), Basis(v1), Basis(v2), '='];
      }
    } else {
      last := [];
    }
  }

  lemma EncodeEnds(data: Blob, i: nat, before: Text)
    requires i <= |data| < i + 3 && i % 3 == 0 && RestLetters(data, 0) == before + RestLetters(data, i)
    ensures Encode(data) == before + EncodeLast(data[i..])
  {
    LastGroup(data[i..]);
    LastPadding(data, i);
    assert data[0..] == data;
    var letters, padding := RestLetters(data, i), Padding(|data|);
    assert Encode(data) == (before + letters) + padding;
    Assoc(before, letters, padding);
  }

  lemma Assoc<T>(a: seq<T>, b: seq<T>, c: seq<T>)
    ensures (a + b) + c == a + (b + c)
  {
  }

  /** apr_base64_encode_binary: the characters, the padding and the terminator. */
  method EncodeBinary(encoded: array<Char>, data: Blob) returns (n: nat)
    requires encoded.Length >= EncodeLen(|data|)
    modifies encoded
    ensures n == EncodeLen(|data|)
    ensures encoded[..n] == Encode(data) + [NUL]
    ensures forall k :: n <= k < encoded.Length ==> encoded[k] == old(encoded[k])
  {
    EncodedSize(data);
    var i, p := EncodeGroups(encoded, data);
    EncodeEnds(data, i, encoded[..p]);
    var last := LastLetters(data, i);
    Put(encoded, p, last);
    p := p + |last|;
    Put(encoded, p, [NUL]);
    n := p + 1;
  }

  lemma EncodedSize(data: Blob)
    ensures |Encode(data)| + 1 == EncodeLen(|data|) && |RestLetters(data, 0)| <= |Encode(data)|
  {
    assert data[0..] == data;
    AnnouncedLengths(data, []);
  }

  lemma LastPadding(data: Blob, i: nat)
    requires i <= |data| < i + 3 && i % 3 == 0
    ensures Padding(|data|) == Padding(|data[i..]|)
  {
  }

  /** The scan `while (pr2six[*(bufin++)] <= 63)`; the terminator is outside the alphabet. */
  method ScanPrefix(s: Text) returns (n: nat)
    ensures n == PrefixLen(s)
  {
    n := 0;
    while n < |s| && Pr2Six(s[n]) <= 63
      invariant n <= |s| && PrefixLen(s) == n + PrefixLen(s[n..])
    {
      assert s[n..][1..] == s[n + 1..];
      n := n + 1;
    }
  }

  lemma DecodeStep(v: seq<six>, i: nat)
    requires i + 4 < |v|
    ensures DecodeSixes(v[i..]) ==
            [Byte0(v[i], v[i + 1]), Byte1(v[i + 1], v[i + 2]), Byte2(v[i + 2], v[i + 3])] + DecodeSixes(v[i + 4..])
  {
    assert v[i..][..4] == v[i..i + 4] && v[i..][4..] == v[i + 4..];
  }

  function RestBytes(s: Text, i: nat): Blob
    requires i <= PrefixLen(s)
  {
    DecodeSixes(Sixes(s)[i..])
  }

  /** The three bytes of the four characters at `i`. */
  method ThreePlain(s: Text, i: nat) returns (group: Blob)
    requires i + 4 < PrefixLen(s)
    ensures |group| == 3 && RestBytes(s, i) == group + RestBytes(s, i + 4)
  {
    DecodeStep(Sixes(s), i);
    var b0 := FirstByte(Pr2Six(s[i]), Pr2Six(s[i + 1]));
    var b1 := SecondByte(Pr2Six(s[i + 1]), Pr2Six(s[i + 2]));
    var b2 := ThirdByte(Pr2Six(s[i + 2]), Pr2Six(s[i + 3]));
    return [b0, b1, b2];
  }

  lemma AllBytes(s: Text)
    ensures RestBytes(s, 0) == Decode(s)
  {
    assert Sixes(s)[0..] == Sixes(s);
  }

  /** The loop over groups of four characters, as long as more than four are left. */
  method DecodeGroups(bufplain: array<byte>, s: Text) returns (i: nat, p: nat)
    requires bufplain.Length >= |Decode(s)|
    modifies bufplain
    ensures i <= PrefixLen(s) <= i + 4 && i % 4 == 0 && p <= bufplain.Length && (i > 0 ==> i < PrefixLen(s))
    ensures Decode(s) == bufplain[..p] + RestBytes(s, i)
    ensures forall k :: p <= k < bufplain.Length ==> bufplain[k] == old(bufplain[k])
  {
    i, p := 0, 0;
    AllBytes(s);
    ghost var plain, rest := Decode(s), RestBytes(s, 0);
    var nprbytes := ScanPrefix(s);
    while nprbytes > 4
      invariant i <= PrefixLen(s) && nprbytes == PrefixLen(s) - i && i % 4 == 0 && p <= bufplain.Length
      invariant i > 0 ==> nprbytes > 0
      invariant plain == bufplain[..p] + rest && rest == RestBytes(s, i)
      invariant forall k :: p <= k < bufplain.Length ==> bufplain[k] == old(bufplain[k])
    {
      var group := ThreePlain(s, i);
      Regroup(plain, bufplain[..p], group, RestBytes(s, i + 4));
      Put(bufplain, p, group);
      rest := RestBytes(s, i + 4);
      NextMultiple(i);
      p := p + 3;
      i := i + 4;
      nprbytes := nprbytes - 4;
    }
  }

  /** apr_base64_decode_binary: returns exactly the number of bytes it wrote. */
  method DecodeBinary(bufplain: array<byte>, s: Text) returns (nbytesdecoded: nat)
    requires bufplain.Length >= |Decode(s)|
    modifies bufplain
    ensures nbytesdecoded == |Decode(s)| && bufplain[..nbytesdecoded] == Decode(s)
    ensures forall k :: nbytesdecoded <= k < bufplain.Length ==> bufplain[k] == old(bufplain[k])
  {
    var count := ScanPrefix(s);
    var i, p := DecodeGroups(bufplain, s);
    WriteLast(bufplain, p, Sixes(s)[i..]);
    DecodedLength(Sixes(s));
    nbytesdecoded := CountDecoded(count, count - i);
  }

  /** The returned count, from the number of characters and how many of them the loop left. */
  method CountDecoded(count: nat, nprbytes: nat) returns (nbytesdecoded: nat)
    requires nprbytes <= count && nprbytes <= 4 && (count - nprbytes) % 4 == 0 && (nprbytes < count ==> nprbytes > 0)
    ensures nbytesdecoded == ByteCount(count)
  {
    Mask2(4 - nprbytes);
    ReturnedCount(count, count - nprbytes);
    return DecodedLen(count) - And(4 - nprbytes, 0x3);
  }

  /** The bytes of the last one to four characters; a single one gives nothing. */
  method WriteLast(bufplain: array<byte>, p: nat, v: seq<six>)
    requires |v| <= 4 && p + |DecodeGroup(v)| <= bufplain.Length
    modifies bufplain
    ensures bufplain[..p + |DecodeGroup(v)|] == old(bufplain[..p]) + DecodeGroup(v)
    ensures forall k :: p + |DecodeGroup(v)| <= k < bufplain.Length ==> bufplain[k] == old(bufplain[k])
  {
    var nprbytes := |v|;
    var bufout := p;
    if nprbytes > 1 {
      var b0 := FirstByte(v[0], v[1]);
      Put(bufplain, bufout, [b0]);
      bufout := bufout + 1;
    }
    if nprbytes > 2 {
      var b1 := SecondByte(v[1], v[2]);
      Put(bufplain, bufout, [b1]);
      bufout := bufout + 1;
    }
    if nprbytes > 3 {
      var b2 := ThirdByte(v[2], v[3]);
      Put(bufplain, bufout, [b2]);
      bufout := bufout + 1;
    }
  }

  lemma ReturnedCount(n: nat, i: nat)
    requires i <= n <= i + 4 && i % 4 == 0 && (i > 0 ==> i < n)
    ensures (n + 3) / 4 * 3 - (4 - (n - i)) % 4 == ByteCount(n)
  {
  }

  /** apr_base64_decode: the terminator also fits the announced length. */
  method DecodeText(bufplain: array<byte>, s: Text) returns (len: nat)
    requires bufplain.Length >= DecodeLen(s)
    modifies bufplain
    ensures len == |Decode(s)| < bufplain.Length && bufplain[..len + 1] == Decode(s) + [0]
    ensures forall k :: len < k < bufplain.Length ==> bufplain[k] == old(bufplain[k])
  {
    AnnouncedLengths([], s);
    len := DecodeBinary(bufplain, s);
    bufplain[len] := 0;
  }
}
