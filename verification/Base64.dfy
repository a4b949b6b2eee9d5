/** The Base64 routines of contrib/apache/apr_base64.c (section 4 of RFC 4648). */
module Base64 {
  import opened Bytes

  type six = x: int | 0 <= x < 64

  /** basis_64 */
  function Basis(x: six): Char {
    if x < 26 then ('A' as int + x) as char
    else if x < 52 then ('a' as int + x - 26) as char
    else if x < 62 then ('0' as int + x - 52) as char
    else if x == 62 then '+' else '/'
  }

  /** pr2six, the ASCII table: 64 marks a character outside the alphabet. */
  function Pr2Six(c: Char): (x: nat)
    ensures x <= 64
  {
    if 'A' <= c <= 'Z' then c as int - 'A' as int
    else if 'a' <= c <= 'z' then c as int - 'a' as int + 26
    else if '0' <= c <= '9' then c as int - '0' as int + 52
    else if c == '+' then 62
    else if c == '/' then 63
    else 64
  }

  function EncodeLen(len: nat): nat { (len + 2) / 3 * 4 + 1 }

  /** The number of alphabet characters before the first other one. */
  function PrefixLen(s: Text): (n: nat)
    ensures n <= |s| && (forall i :: 0 <= i < n ==> Pr2Six(s[i]) < 64) && (n < |s| ==> Pr2Six(s[n]) == 64)
  {
    if s == [] || Pr2Six(s[0]) == 64 then 0 else 1 + PrefixLen(s[1..])
  }

  function DecodedLen(n: nat): nat { (n + 3) / 4 * 3 }

  function DecodeLen(s: Text): nat { DecodedLen(PrefixLen(s)) + 1 }

  // ----- Bits: groups of three bytes and groups of four six-bit numbers -----

  function Six0(b0: byte): six { b0 / 4 }
  function Six1(b0: byte, b1: byte): six { b0 % 4 * 16 + b1 / 16 }
  function Six2(b1: byte, b2: byte): six { b1 % 16 * 4 + b2 / 64 }
  function Six3(b2: byte): six { b2 % 64 }

  function Byte0(v0: six, v1: six): byte { v0 as int * 4 + v1 / 16 }
  function Byte1(v1: six, v2: six): byte { v1 as int % 16 * 16 + v2 / 4 }
  function Byte2(v2: six, v3: six): byte { v2 as int % 4 * 64 + v3 }

  /** What one to three bytes give. */
  function EncodeGroup(x: Blob): (v: seq<six>)
    requires |x| <= 3
    ensures |v| == if x == [] then 0 else |x| + 1
  {
    if x == [] then []
    else if |x| == 1 then [Six0(x[0]), Six1(x[0], 0)]
    else if |x| == 2 then [Six0(x[0]), Six1(x[0], x[1]), Six2(x[1], 0)]
    else [Six0(x[0]), Six1(x[0], x[1]), Six2(x[1], x[2]), Six3(x[2])]
  }

  /** What one to four six-bit numbers give. */
  function DecodeGroup(v: seq<six>): (x: Blob)
    requires |v| <= 4
    ensures |x| == if v == [] then 0 else |v| - 1
  {
    if |v| <= 1 then []
    else if |v| == 2 then [Byte0(v[0], v[1])]
    else if |v| == 3 then [Byte0(v[0], v[1]), Byte1(v[1], v[2])]
    else [Byte0(v[0], v[1]), Byte1(v[1], v[2]), Byte2(v[2], v[3])]
  }

  function EncodeSixes(x: Blob): seq<six> {
    if |x| <= 3 then EncodeGroup(x) else EncodeGroup(x[..3]) + EncodeSixes(x[3..])
  }

  function DecodeSixes(v: seq<six>): Blob {
    if |v| <= 4 then DecodeGroup(v) else DecodeGroup(v[..4]) + DecodeSixes(v[4..])
  }

  /** A number of characters that encodes whole bytes, with zeros in the bits that encode nothing. */
  predicate Tight(v: seq<six>) {
    && |v| % 4 != 1
    && (|v| % 4 == 2 ==> v[|v| - 1] % 16 == 0)
    && (|v| % 4 == 3 ==> v[|v| - 1] % 4 == 0)
  }

  // ----- Characters -----

  function Letters(v: seq<six>): (s: Text)
    ensures |s| == |v| && forall i :: 0 <= i < |v| ==> s[i] == Basis(v[i])
  {
    seq(|v|, i requires 0 <= i < |v| => Basis(v[i]))
  }

  function Padding(len: nat): Text {
    if len % 3 == 1 then "==" else if len % 3 == 2 then "=" else ""
  }

  function Encode(x: Blob): Text { Letters(EncodeSixes(x)) + Padding(|x|) }

  /** The alphabet characters at the start of the text, as numbers. */
  function Sixes(s: Text): (v: seq<six>)
    ensures |v| == PrefixLen(s) && forall i :: 0 <= i < |v| ==> v[i] == Pr2Six(s[i])
  {
    if s == [] || Pr2Six(s[0]) == 64 then [] else [Pr2Six(s[0])] + Sixes(s[1..])
  }

  function Decode(s: Text): Blob { DecodeSixes(Sixes(s)) }

  function CanonicalPadding(n: nat): Text {
    if n % 4 == 2 then "==" else if n % 4 == 3 then "=" else ""
  }

  /** Section 3.5 of RFC 4648: padded to whole groups, and the bits that encode nothing are zero. */
  predicate Canonical(s: Text) {
    var n := PrefixLen(s);
    && n % 4 != 1
    && s[n..] == CanonicalPadding(n)
    && (n % 4 == 2 ==> Pr2Six(s[n - 1]) % 16 == 0)
    && (n % 4 == 3 ==> Pr2Six(s[n - 1]) % 4 == 0)
  }

  // ----- Round trips -----

  lemma AlphabetRoundTrip(x: six, c: Char)
    ensures Pr2Six(Basis(x)) == x
    ensures Pr2Six(c) < 64 ==> Basis(Pr2Six(c)) == c
  {
  }

  lemma {:induction false} SixesOfLetters(v: seq<six>, t: Text)
    requires t != [] ==> Pr2Six(t[0]) == 64
    ensures Sixes(Letters(v) + t) == v
  {
    var s := Letters(v) + t;
    if v == [] {
      assert s == t;
    } else {
      AlphabetRoundTrip(v[0], 'A');
      assert s[1..] == Letters(v[1..]) + t;
      SixesOfLetters(v[1..], t);
    }
  }

  lemma LettersOfSixes(s: Text)
    ensures Letters(Sixes(s)) == s[..PrefixLen(s)]
  {
    forall i | 0 <= i < PrefixLen(s) ensures Basis(Sixes(s)[i]) == s[i] { AlphabetRoundTrip(0, s[i]); }
  }

  lemma ByteOfSixes(b0: byte, b1: byte, b2: byte)
    ensures Byte0(Six0(b0), Six1(b0, b1)) == b0
    ensures Byte1(Six1(b0, b1), Six2(b1, b2)) == b1
    ensures Byte2(Six2(b1, b2), Six3(b2)) == b2
  {
  }

  lemma SixOfBytes(v0: six, v1: six, v2: six, v3: six)
    ensures Six0(Byte0(v0, v1)) == v0
    ensures Six1(Byte0(v0, v1), Byte1(v1, v2)) == v1
    ensures Six2(Byte1(v1, v2), Byte2(v2, v3)) == v2
    ensures Six3(Byte2(v2, v3)) == v3
    ensures v1 % 16 == 0 ==> Six1(Byte0(v0, v1), 0) == v1
    ensures v2 % 4 == 0 ==> Six2(Byte1(v1, v2), 0) == v2
  {
  }

  lemma UnusedBits(b0: byte)
    ensures Six1(b0, 0) % 16 == 0 && Six2(b0, 0) % 4 == 0
  {
  }

  lemma OneByte(b0: byte)
    ensures DecodeGroup(EncodeGroup([b0])) == [b0]
  {
    assert EncodeGroup([b0]) == [Six0(b0), Six1(b0, 0)];
    ByteOfSixes(b0, 0, 0);
  }

  lemma TwoBytes(b0: byte, b1: byte)
    ensures DecodeGroup(EncodeGroup([b0, b1])) == [b0, b1]
  {
    assert EncodeGroup([b0, b1]) == [Six0(b0), Six1(b0, b1), Six2(b1, 0)];
    ByteOfSixes(b0, b1, 0);
  }

  lemma ThreeBytes(b0: byte, b1: byte, b2: byte)
    ensures DecodeGroup(EncodeGroup([b0, b1, b2])) == [b0, b1, b2]
  {
    assert EncodeGroup([b0, b1, b2]) == [Six0(b0), Six1(b0, b1), Six2(b1, b2), Six3(b2)];
    ByteOfSixes(b0, b1, b2);
  }

  lemma DecodeEncodeGroup(x: Blob)
    requires |x| <= 3
    ensures DecodeGroup(EncodeGroup(x)) == x
  {
    if |x| == 1 {
      OneByte(x[0]);
      assert x == [x[0]];
    } else if |x| == 2 {
      TwoBytes(x[0], x[1]);
      assert x == [x[0], x[1]];
    } else if |x| == 3 {
      ThreeBytes(x[0], x[1], x[2]);
      assert x == [x[0], x[1], x[2]];
    }
  }

  lemma EncodeGroupIsTight(x: Blob)
    requires |x| <= 3
    ensures Tight(EncodeGroup(x))
  {
    if |x| > 0 { UnusedBits(x[|x| - 1]); }
  }

  lemma TwoSixes(v0: six, v1: six)
    requires v1 % 16 == 0
    ensures EncodeGroup(DecodeGroup([v0, v1])) == [v0, v1]
  {
    assert DecodeGroup([v0, v1]) == [Byte0(v0, v1)];
    SixOfBytes(v0, v1, 0, 0);
  }

  lemma ThreeSixes(v0: six, v1: six, v2: six)
    requires v2 % 4 == 0
    ensures EncodeGroup(DecodeGroup([v0, v1, v2])) == [v0, v1, v2]
  {
    assert DecodeGroup([v0, v1, v2]) == [Byte0(v0, v1), Byte1(v1, v2)];
    SixOfBytes(v0, v1, v2, 0);
  }

  lemma FourSixes(v0: six, v1: six, v2: six, v3: six)
    ensures EncodeGroup(DecodeGroup([v0, v1, v2, v3])) == [v0, v1, v2, v3]
  {
    assert DecodeGroup([v0, v1, v2, v3]) == [Byte0(v0, v1), Byte1(v1, v2), Byte2(v2, v3)];
    SixOfBytes(v0, v1, v2, v3);
  }

  lemma EncodeDecodeGroup(v: seq<six>)
    requires |v| <= 4 && Tight(v)
    ensures EncodeGroup(DecodeGroup(v)) == v
  {
    if |v| == 2 {
      TwoSixes(v[0], v[1]);
      assert v == [v[0], v[1]];
    } else if |v| == 3 {
      ThreeSixes(v[0], v[1], v[2]);
      assert v == [v[0], v[1], v[2]];
    } else if |v| == 4 {
      FourSixes(v[0], v[1], v[2], v[3]);
      assert v == [v[0], v[1], v[2], v[3]];
    }
  }

  lemma DecodeFirstGroup(v: seq<six>, w: seq<six>)
    requires |v| == 4
    ensures DecodeSixes(v + w) == DecodeGroup(v) + DecodeSixes(w)
  {
    if w == [] { assert v + w == v; } else { assert (v + w)[..4] == v && (v + w)[4..] == w; }
  }

  lemma EncodeFirstGroup(x: Blob, y: Blob)
    requires |x| == 3
    ensures EncodeSixes(x + y) == EncodeGroup(x) + EncodeSixes(y)
  {
    if y == [] { assert x + y == x; } else { assert (x + y)[..3] == x && (x + y)[3..] == y; }
  }

  lemma TightAppend(v: seq<six>, w: seq<six>)
    requires |v| == 4 && Tight(w)
    ensures Tight(v + w)
  {
  }

  lemma {:induction false} SixesRoundTrip(x: Blob)
    ensures DecodeSixes(EncodeSixes(x)) == x && Tight(EncodeSixes(x))
  {
    if |x| <= 3 {
      DecodeEncodeGroup(x);
      EncodeGroupIsTight(x);
    } else {
      var v, w := EncodeGroup(x[..3]), EncodeSixes(x[3..]);
      SixesRoundTrip(x[3..]);
      DecodeEncodeGroup(x[..3]);
      DecodeFirstGroup(v, w);
      TightAppend(v, w);
      assert x == x[..3] + x[3..];
    }
  }

  lemma {:induction false} TightRoundTrip(v: seq<six>)
    requires Tight(v)
    ensures EncodeSixes(DecodeSixes(v)) == v
  {
    if |v| <= 4 {
      EncodeDecodeGroup(v);
    } else {
      var head, tail := v[..4], v[4..];
      TightRoundTrip(tail);
      EncodeDecodeGroup(head);
      EncodeFirstGroup(DecodeGroup(head), DecodeSixes(tail));
      assert v == head + tail;
    }
  }

  // ----- Lengths, counted in whole groups and a rest -----

  function SixCount(n: nat): nat { n / 3 * 4 + (if n % 3 == 0 then 0 else n % 3 + 1) }
  function ByteCount(n: nat): nat { n / 4 * 3 + (if n % 4 == 0 then 0 else n % 4 - 1) }

  lemma SixCountStep(n: nat)
    ensures SixCount(n + 3) == SixCount(n) + 4
  {
    var q, r := n / 3, n % 3;
    assert (n + 3) / 3 == q + 1 && (n + 3) % 3 == r;
  }

  lemma ByteCountStep(n: nat)
    ensures ByteCount(n + 4) == ByteCount(n) + 3
  {
    var q, r := n / 4, n % 4;
    assert (n + 4) / 4 == q + 1 && (n + 4) % 4 == r;
  }

  lemma {:induction false} EncodedLength(x: Blob)
    ensures |EncodeSixes(x)| == SixCount(|x|)
  {
    if |x| > 3 {
      EncodedLength(x[3..]);
      SixCountStep(|x| - 3);
    }
  }

  lemma {:induction false} DecodedLength(v: seq<six>)
    ensures |DecodeSixes(v)| == ByteCount(|v|)
  {
    if |v| > 4 {
      DecodedLength(v[4..]);
      ByteCountStep(|v| - 4);
    }
  }

  lemma SixesOfEncoded(x: Blob)
    ensures Sixes(Encode(x)) == EncodeSixes(x)
  {
    SixesOfLetters(EncodeSixes(x), Padding(|x|));
  }

  /** Decoding undoes encoding, for every byte string. */
  lemma DecodeEncode(x: Blob)
    ensures Decode(Encode(x)) == x
  {
    SixesOfEncoded(x);
    SixesRoundTrip(x);
  }

  /** An encoding and its terminator have the announced length; a decoding stays below it for every text. */
  lemma AnnouncedLengths(x: Blob, s: Text)
    ensures |Encode(x)| + 1 == EncodeLen(|x|)
    ensures |Decode(s)| < DecodeLen(s) <= |Decode(s)| + 4
  {
    EncodedLength(x);
    PaddedCount(|x|);
    DecodedLength(Sixes(s));
    CountBelow(PrefixLen(s));
  }

  lemma PaddedCount(n: nat)
    ensures SixCount(n) + |Padding(n)| + 1 == EncodeLen(n)
  {
    var q, r := n / 3, n % 3;
    assert n == 3 * q + r;
    assert (n + 2) / 3 == if r == 0 then q else q + 1;
  }

  lemma CountBelow(n: nat)
    ensures ByteCount(n) <= DecodedLen(n) <= ByteCount(n) + 3
  {
    var q, r := n / 4, n % 4;
    assert n == 4 * q + r;
    assert (n + 3) / 4 == if r == 0 then q else q + 1;
  }

  lemma PaddingOfDecoded(v: seq<six>)
    requires |v| % 4 != 1
    ensures Padding(|DecodeSixes(v)|) == CanonicalPadding(|v|)
  {
    DecodedLength(v);
    var r := |v| % 4;
    RestModThree(|v| / 4, if r == 0 then 0 else r - 1);
  }

  lemma RestModThree(k: nat, r: nat)
    requires r < 3
    ensures (k * 3 + r) % 3 == r
  {
  }

  lemma CanonicalIsTight(s: Text)
    ensures Canonical(s) <==> Tight(Sixes(s)) && s[PrefixLen(s)..] == CanonicalPadding(PrefixLen(s))
  {
  }

  lemma EncodeCanonical(s: Text)
    requires Canonical(s)
    ensures Encode(Decode(s)) == s
  {
    var v, n := Sixes(s), PrefixLen(s);
    assert Tight(v) && s[n..] == CanonicalPadding(n) by { CanonicalIsTight(s); }
    assert EncodeSixes(Decode(s)) == v by { TightRoundTrip(v); }
    assert Letters(v) == s[..n] by { LettersOfSixes(s); }
    assert Padding(|Decode(s)|) == s[n..] by { PaddingOfDecoded(v); }
    EncodeParts(Decode(s), v, s, n);
  }

  lemma EncodeParts(x: Blob, v: seq<six>, s: Text, n: nat)
    requires EncodeSixes(x) == v && n <= |s| && Letters(v) == s[..n] && Padding(|x|) == s[n..]
    ensures Encode(x) == s
  {
    assert s == s[..n] + s[n..];
  }

  lemma EncodedIsCanonical(x: Blob)
    ensures Canonical(Encode(x))
  {
    var s, v := Encode(x), EncodeSixes(x);
    SixesOfEncoded(x);
    SixesRoundTrip(x);
    PaddingOfDecoded(v);
    assert s[|v|..] == Padding(|x|);
    CanonicalIsTight(s);
  }

  /** Encoding undoes decoding on exactly the canonical texts. */
  lemma EncodeDecode(s: Text)
    ensures Encode(Decode(s)) == s <==> Canonical(s)
  {
    if Canonical(s) { EncodeCanonical(s); }
    EncodedIsCanonical(Decode(s));
  }

  // ----- The alphabet and the bits, as RFC 4648 has them -----

  /** Table 1 of RFC 4648. */
  lemma Alphabet(x: six)
    ensures Basis(x) == ("ABCDEFGHIJKLMNOPQRSTUVWXYZ" + "abcdefghijklmnopqrstuvwxyz" + "0123456789" + "+/")[x]
  {
    if x < 26 { UpperCase(x); } else if x < 52 { LowerCase(x - 26); } else { OtherLetters(x - 52); }
  }

  lemma UpperCase(x: six)
    requires x < 26
    ensures Basis(x) == "ABCDEFGHIJKLMNOPQRSTUVWXYZ"[x]
  {
  }

  lemma LowerCase(x: nat)
    requires x < 26
    ensures Basis(x + 26) == "abcdefghijklmnopqrstuvwxyz"[x]
  {
  }

  lemma OtherLetters(x: nat)
    requires x < 12
    ensures Basis(x + 52) == "0123456789+/"[x]
  {
  }

  /** A letter has its place in that table as its number, and no other character has one. */
  lemma LetterNumbers(alphabet: Text, c: Char)
    requires alphabet == "ABCDEFGHIJKLMNOPQRSTUVWXYZ" + "abcdefghijklmnopqrstuvwxyz" + "0123456789" + "+/"
    ensures forall x: six :: Pr2Six(alphabet[x]) == x
    ensures Pr2Six(c) < 64 <==> c in alphabet
  {
    forall x: six ensures Pr2Six(alphabet[x]) == x {
      Alphabet(x);
      AlphabetRoundTrip(x, c);
    }
    if Pr2Six(c) < 64 {
      Alphabet(Pr2Six(c));
      AlphabetRoundTrip(0, c);
    }
    if c in alphabet {
      var x: six :| alphabet[x] == c;
    }
  }

  /** Three bytes and their four six-bit numbers are the same 24 bits. */
  lemma SameBits(b0: byte, b1: byte, b2: byte, v: seq<six>)
    requires v == EncodeSixes([b0, b1, b2])
    ensures |v| == 4 && Value([b0, b1, b2]) == 0x40000 * v[0] as int + 0x1000 * v[1] as int + 0x40 * v[2] as int + v[3]
  {
    SameSum(b0, b1, b2);
    assert [b0, b1, b2][..2] == [b0, b1] && [b0, b1][..1] == [b0] && [b0][..0] == [];
    assert Value([b0]) == b0;
  }

  lemma SameSum(b0: int, b1: int, b2: int)
    ensures 0x10000 * b0 + 0x100 * b1 + b2 ==
            0x40000 * (b0 / 4) + 0x1000 * (b0 % 4 * 16 + b1 / 16) + 0x40 * (b1 % 16 * 4 + b2 / 64) + b2 % 64
  {
  }

  /** A last group of two or three letters gives the whole bytes in it, whatever its other bits are; one letter gives nothing. */
  lemma ShortGroups(a: six, b: six, c: six)
    ensures DecodeSixes([]) == DecodeSixes([a]) == []
    ensures DecodeSixes([a, b]) == [(0x40 * a as nat + b as nat) / 0x10]
    ensures DecodeSixes([a, b, c]) ==
            [(0x40 * a as nat + b as nat) / 0x10, (0x1000 * a as nat + 0x40 * b as nat + c as nat) / 4 % 0x100]
  {
    TopByte(a, b);
    NextByte(a, b, c);
  }

  lemma TopByte(a: int, b: int)
    ensures (0x40 * a + b) / 0x10 == 4 * a + b / 0x10
  {
  }

  lemma NextByte(a: int, b: int, c: int)
    requires 0 <= c < 64
    ensures (0x1000 * a + 0x40 * b + c) / 4 % 0x100 == b % 0x10 * 0x10 + c / 4
  {
    var q := b / 0x10;
    assert (0x1000 * a + 0x40 * b + c) / 4 == 0x100 * (4 * a + q) + (b % 0x10 * 0x10 + c / 4);
  }

  /** Section 10 of RFC 4648. */
  lemma TestVectors()
    ensures Encode(BytesOf("")) == ""
    ensures Encode(BytesOf("f")) == "Zg=="
    ensures Encode(BytesOf("fo")) == "Zm8="
    ensures Encode(BytesOf("foo")) == "Zm9v"
  {
  }
}
