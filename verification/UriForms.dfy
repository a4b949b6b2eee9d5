/** What the URI texts look like, character by character (src/name.cpp, src/common.cpp). */
module UriForms {
  import opened Bytes
  import opened Names
  import opened UriText
  import opened UriRoundTrip

  // ----- Digits -----

  lemma DigitText(d: nat)
    requires d < 16
    ensures HexDigit(d, false) == "0123456789abcdef"[d] && HexDigit(d, true) == "0123456789ABCDEF"[d]
  {
  }

  /** The value of a hex digit of either case; every other character has none. */
  lemma DigitValues(c: Char)
    ensures forall d :: 0 <= d < 16 ==> FromHexChar("0123456789abcdef"[d]) == d && FromHexChar("0123456789ABCDEF"[d]) == d
    ensures c !in "0123456789abcdefABCDEF" ==> FromHexChar(c) == -1
  {
  }

  /** A digest is printed with two lower-case digits a byte. */
  lemma HexText(b: byte)
    ensures ToHex([b]) == ["0123456789abcdef"[b / 16], "0123456789abcdef"[b % 16]]
  {
    DigitText(b / 16);
    DigitText(b % 16);
    assert ToHex([b][1..]) == [];
  }

  lemma {:induction false} HexConcat(v: Blob, w: Blob)
    ensures ToHex(v + w) == ToHex(v) + ToHex(w)
  {
    if v == [] {
      assert v + w == w;
    } else {
      assert (v + w)[1..] == v[1..] + w;
      HexConcat(v[1..], w);
    }
  }

  /** A numeral ends in the digit of the remainder, behind the numeral of the quotient if that is not zero. */
  lemma NumeralForm(n: nat)
    ensures Numeral(n, false) == (if n < 10 then [] else Numeral(n / 10, false)) + ["0123456789"[n % 10]]
    ensures Numeral(n, true) == (if n < 16 then [] else Numeral(n / 16, true)) + ["0123456789abcdef"[n % 16]]
  {
    DigitText(n % 10);
    DigitText(n % 16);
  }

  // ----- Values -----

  /**
   * The letters, the digits and + - . _ are printed as they are; any other byte as a percent sign and
   * two upper-case digits.
   */
  lemma EscapedByteText(b: byte)
    ensures var c := b as char;
            EscapeBytes([b]) ==
            if '0' <= c <= '9' || 'A' <= c <= 'Z' || 'a' <= c <= 'z' || c in "+-._" then [c]
            else ['%', "0123456789ABCDEF"[b / 16], "0123456789ABCDEF"[b % 16]]
  {
    DigitText(b / 16);
    DigitText(b % 16);
    assert EscapeBytes([b][1..]) == [];
  }

  lemma {:induction false} EscapeConcat(v: Blob, w: Blob)
    ensures EscapeBytes(v + w) == EscapeBytes(v) + EscapeBytes(w)
  {
    if v == [] {
      assert v + w == w;
    } else {
      assert (v + w)[1..] == v[1..] + w;
      EscapeConcat(v[1..], w);
    }
  }

  /** A value of periods only gets three more; any other value is escaped byte by byte. */
  lemma ValueText(v: Blob)
    ensures (forall i :: 0 <= i < |v| ==> v[i] as char == '.') ==>
              |EscapeValue(v)| == |v| + 3 && forall i :: 0 <= i < |v| + 3 ==> EscapeValue(v)[i] == '.'
    ensures !(forall i :: 0 <= i < |v| ==> v[i] as char == '.') ==> EscapeValue(v) == EscapeBytes(v)
  {
  }

  /** Printable characters that are not all periods. */
  predicate Plain(v: Blob) {
    && (exists i :: 0 <= i < |v| && v[i] as char != '.')
    && forall i :: 0 <= i < |v| ==>
         var c := v[i] as char; '0' <= c <= '9' || 'A' <= c <= 'Z' || 'a' <= c <= 'z' || c in "+-._"
  }

  lemma {:induction false} PlainBytes(v: Blob)
    requires forall i :: 0 <= i < |v| ==>
               var c := v[i] as char; '0' <= c <= '9' || 'A' <= c <= 'Z' || 'a' <= c <= 'z' || c in "+-._"
    ensures |EscapeBytes(v)| == |v| && forall i :: 0 <= i < |v| ==> EscapeBytes(v)[i] == v[i] as char
  {
    if v != [] {
      PlainBytes(v[1..]);
      EscapedByteText(v[0]);
      EscapeConcat([v[0]], v[1..]);
      assert v == [v[0]] + v[1..];
    }
  }

  /** Only a value of such characters that is not all periods is printed without a change. */
  lemma PlainValue(v: Blob)
    requires exists i :: 0 <= i < |v| && v[i] as char != '.'
    requires forall i :: 0 <= i < |v| ==>
               var c := v[i] as char; '0' <= c <= '9' || 'A' <= c <= 'Z' || 'a' <= c <= 'z' || c in "+-._"
    ensures |EscapeValue(v)| == |v| && forall i :: 0 <= i < |v| ==> EscapeValue(v)[i] == v[i] as char
    ensures EscapeValue(v) == Characters(v)
  {
    PlainBytes(v);
  }

  // ----- Components and names -----

  function Characters(v: Blob): (s: Text)
    ensures |s| == |v| && forall i :: 0 <= i < |v| ==> s[i] == v[i] as char
  {
    seq(|v|, i requires 0 <= i < |v| => v[i] as char)
  }

  lemma ComponentText(c: Component, hex: bool)
    ensures c.kind == ImplicitSha256Digest ==> PrintComponent(c, hex) == "sha256digest=" + ToHex(c.value)
    ensures c.kind == ParametersSha256Digest ==> PrintComponent(c, hex) == "params-sha256=" + ToHex(c.value)
    ensures c.kind == Generic ==> PrintComponent(c, hex) == EscapeValue(c.value)
    ensures c.kind.OtherCode? ==> PrintComponent(c, hex) == Numeral(c.kind.code, hex) + "=" + EscapeValue(c.value)
  {
  }

  /** The parts, each behind a slash. */
  function Joined(parts: seq<Text>): Text {
    if parts == [] then [] else "/" + parts[0] + Joined(parts[1..])
  }

  lemma {:induction false} GenericPath(x: Name)
    requires forall i :: 0 <= i < |x| ==> x[i].kind == Generic
    ensures PrintPath(x, false) == Joined(seq(|x|, i requires 0 <= i < |x| => EscapeValue(x[i].value)))
  {
    if x != [] {
      GenericPath(x[1..]);
      var parts := seq(|x|, i requires 0 <= i < |x| => EscapeValue(x[i].value));
      assert parts[1..] == seq(|x| - 1, i requires 0 <= i < |x| - 1 => EscapeValue(x[1..][i].value));
    }
  }

  /** The URI of a name of generic components: their escaped values behind slashes, or one slash if there are none. */
  lemma GenericUri(x: Name, includeScheme: bool)
    requires forall i :: 0 <= i < |x| ==> x[i].kind == Generic
    ensures ToUri(x, includeScheme) ==
            (if includeScheme then "ndn:" else "") +
            (if x == [] then "/" else Joined(seq(|x|, i requires 0 <= i < |x| => EscapeValue(x[i].value))))
  {
    GenericPath(x);
  }

  /** Where every value consists of printable characters and is not all periods, these characters are what is seen. */
  lemma PlainUri(x: Name, includeScheme: bool)
    requires x != [] && forall i :: 0 <= i < |x| ==> x[i].kind == Generic && Plain(x[i].value)
    ensures ToUri(x, includeScheme) ==
            (if includeScheme then "ndn:" else "") + Joined(seq(|x|, i requires 0 <= i < |x| => Characters(x[i].value)))
  {
    GenericUri(x, includeScheme);
    forall i | 0 <= i < |x| ensures EscapeValue(x[i].value) == Characters(x[i].value) {
      PlainValue(x[i].value);
    }
    assert seq(|x|, i requires 0 <= i < |x| => EscapeValue(x[i].value)) ==
           seq(|x|, i requires 0 <= i < |x| => Characters(x[i].value));
  }

  lemma JoinedTwo(s: Text, t: Text)
    ensures Joined([s, t]) == "/" + s + "/" + t
  {
    assert [s, t][1..] == [t] && [t][1..] == [];
    assert Joined([t]) == "/" + t;
  }

  lemma OneComponent(c: Component)
    ensures ToUri([c], false) == "/" + PrintComponent(c, false)
  {
    assert [c][1..] == [];
    assert ToUri([c], false) == PrintPath([c], false);
  }

  /** Text that needs no escapes is its own escaped form. */
  lemma PlainText(s: Text)
    requires forall i :: 0 <= i < |s| ==> '0' <= s[i] <= '9' || 'A' <= s[i] <= 'Z' || 'a' <= s[i] <= 'z' || s[i] in "+-_"
    requires s != []
    ensures EscapeValue(BytesOf(s)) == s
  {
    var v := BytesOf(s);
    assert v[0] as char != '.';
    PlainValue(v);
  }

  lemma KnownEmptyUris()
    ensures ToUri([], false) == "/" && ToUri([], true) == "ndn:/"
    ensures ToUri([Component(Generic, [])], false) == "/..."
  {
    OneComponent(Component(Generic, []));
    assert Dots(3) == "...";
  }

  lemma KnownUri(foo: Blob)
    requires foo == BytesOf("foo")
    ensures ToUri([Component(Generic, foo)], false) == "/foo"
  {
    OneComponent(Component(Generic, foo));
    PlainText("foo");
  }

  lemma KnownEscape(slash: Blob)
    requires slash == BytesOf("/")
    ensures ToUri([Component(Generic, slash)], false) == "/%2F"
  {
    OneComponent(Component(Generic, slash));
    EscapedByteText(0x2f);
    assert slash == [0x2f];
  }

  lemma KnownNumeral()
    ensures Numeral(120, false) == "120"
  {
    NumeralForm(120);
    NumeralForm(12);
    NumeralForm(1);
  }

  lemma KnownTypeCode(a: Blob)
    requires a == BytesOf("a")
    ensures ToUri([Component(OtherCode(120), a)], false) == "/120=a"
  {
    OneComponent(Component(OtherCode(120), a));
    KnownNumeral();
    PlainText("a");
  }

  // ----- Reading -----

  /** The hexadecimal digits of either case, and no other characters, have a value. */
  lemma HexLetter(c: Char)
    ensures FromHexChar(c) >= 0 <==> '0' <= c <= '9' || 'a' <= c <= 'f' || 'A' <= c <= 'F'
  {
  }

  /** A percent sign with two hexadecimal digits behind it is a byte; without, all three characters are kept. */
  lemma UnescapeText(c: Char, d: Char, tail: Text)
    ensures Unescape(['%', c, d] + tail) ==
            (if FromHexChar(c) >= 0 && FromHexChar(d) >= 0 then [16 * FromHexChar(c) + FromHexChar(d)]
             else BytesOf(['%', c, d])) + Unescape(tail)
  {
    var s := ['%', c, d] + tail;
    assert s[..3] == ['%', c, d] && s[3..] == tail;
  }

  /** Any other character, and a percent sign without two characters behind it, is kept. */
  lemma UnescapeOther(c: Char, tail: Text)
    requires c != '%' || |tail| < 2
    ensures Unescape([c] + tail) == [c as int] + Unescape(tail)
  {
    assert ([c] + tail)[1..] == tail;
  }

  /** Spaces before a pair of digits and a lone last character are ignored. */
  lemma FromHexSkips(c: Char, tail: Text)
    ensures FromHex([' '] + tail) == FromHex(tail)
    ensures FromHex([c]) == FromHex([]) == Some([])
  {
    assert ([' '] + tail)[1..] == tail && [c][1..] == [];
  }

  /** Two digits are a byte; a pair with anything else is an error. */
  lemma FromHexText(c: Char, d: Char, tail: Text, rest: Option<Blob>)
    requires c != ' ' && rest == FromHex(tail)
    ensures FromHex([c, d] + tail) ==
            if FromHexChar(c) < 0 || FromHexChar(d) < 0 || rest.None? then None
            else Some([16 * FromHexChar(c) + FromHexChar(d)] + rest.value)
  {
    var s := [c, d] + tail;
    assert s[0] == c && s[1] == d && s[2..] == tail;
  }

  /** What Trim leaves starts and ends with no white space, and only white space went. */
  lemma Trims(s: Text) returns (i: nat, j: nat)
    ensures i <= j <= |s| && Trim(s) == s[i..j]
    ensures forall k :: 0 <= k < i || j <= k < |s| ==> s[k] in " \t\n\r"
    ensures i < j ==> s[i] !in " \t\n\r" && s[j - 1] !in " \t\n\r"
  {
    i := TrimsLeft(s);
    j := TrimsRight(s[i..]);
    j := i + j;
  }

  lemma {:induction false} TrimsLeft(s: Text) returns (i: nat)
    ensures i <= |s| && TrimLeft(s) == s[i..]
    ensures forall k :: 0 <= k < i ==> s[k] in " \t\n\r"
    ensures i < |s| ==> s[i] !in " \t\n\r"
  {
    i := 0;
    if s != [] && IsTrimmed(s[0]) {
      var k := TrimsLeft(s[1..]);
      i := k + 1;
    }
  }

  lemma {:induction false} TrimsRight(s: Text) returns (j: nat)
    ensures j <= |s| && TrimRight(s) == s[..j]
    ensures forall k :: j <= k < |s| ==> s[k] in " \t\n\r"
    ensures j > 0 ==> s[j - 1] !in " \t\n\r"
  {
    j := |s|;
    if s != [] && IsTrimmed(s[|s| - 1]) {
      j := TrimsRight(s[..|s| - 1]);
    }
  }

  /** A decimal code names its type: three have names of their own, and those beyond an int are errors. */
  lemma TypeOfCode(n: nat)
    ensures ParseType(Numeral(n, false)) ==
            if n == 1 then Ok(ImplicitSha256Digest)
            else if n == 2 then Ok(ParametersSha256Digest)
            else if n == 8 then Ok(Generic)
            else if n >= 0x8000_0000 then Err(TypeCodeOverflow)
            else Ok(OtherCode(n))
  {
    var t := Numeral(n, false);
    NumeralText(n, false);
    NumeralValue(n, false);
    assert SkipSpace(t) == t;
    assert Atoi(t) == n;
  }

  /** White space and a sign may come before the digits, and what follows the digits is ignored. */
  lemma AtoiText(c: Char, digits: Text, tail: Text)
    requires AllDigits(digits) && digits != [] && (tail != [] ==> !IsDigit(tail[0]))
    ensures Atoi(digits + tail) == DecimalPrefix(digits, 0)
    ensures Atoi(['+'] + digits + tail) == DecimalPrefix(digits, 0)
    ensures Atoi(['-'] + digits + tail) == 0 - DecimalPrefix(digits, 0)
    ensures c as int == 32 || 9 <= c as int <= 13 ==> Atoi([c] + digits + tail) == DecimalPrefix(digits, 0)
  {
    var t := digits + tail;
    DigitsOnly(digits, tail, 0);
    assert t[0] == digits[0] && SkipSpace(t) == t;
    Signed('+', digits, tail);
    Signed('-', digits, tail);
    Signed(c, digits, tail);
  }

  lemma Signed(c: Char, digits: Text, tail: Text)
    ensures [c] + digits + tail == [c] + (digits + tail) && ([c] + digits + tail)[1..] == digits + tail
  {
  }

  lemma {:induction false} DigitsOnly(digits: Text, tail: Text, acc: nat)
    requires AllDigits(digits) && (tail != [] ==> !IsDigit(tail[0]))
    ensures DecimalPrefix(digits + tail, acc) == DecimalPrefix(digits, acc)
  {
    if digits == [] {
      assert digits + tail == tail;
    } else {
      assert (digits + tail)[1..] == digits[1..] + tail;
      DigitsOnly(digits[1..], tail, 10 * acc + DigitValue(digits[0]));
    }
  }

  /** Text without digits is no type code, except "0" itself; a negative code is an error of its own. */
  lemma TypeErrors()
    ensures ParseType("x") == ParseType("") == ParseType("00") == Err(TypeCodeSyntax)
    ensures ParseType("-1") == Err(NegativeTypeCode)
  {
  }

  /** Behind a digest prefix there must be the hexadecimal text of 32 bytes. */
  lemma DigestText(t: Text)
    ensures ParseComponent("sha256digest=" + t) ==
            (match FromHex(t)
             case Some(v) => if |v| == 32 then Ok(Some(Component(ImplicitSha256Digest, v))) else Err(DigestLength)
             case None => Err(DigestLength))
    ensures ParseComponent("params-sha256=" + t) ==
            (match FromHex(t)
             case Some(v) => if |v| == 32 then Ok(Some(Component(ParametersSha256Digest, v))) else Err(DigestLength)
             case None => Err(DigestLength))
  {
    var p, q := "sha256digest=" + t, "params-sha256=" + t;
    assert p[|SHA256_DIGEST|..] == t && q[|PARAMS_SHA256|..] == t;
    assert SHA256_DIGEST <= p && PARAMS_SHA256 <= q && q[0] == 'p' && SHA256_DIGEST[0] == 's';
  }

  /** The first slash ends a segment. */
  lemma PathSplit(segment: Text, tail: Text)
    requires '/' !in segment
    ensures ParsePath(segment + "/" + tail) == PrependComponent(ParseComponent(segment), ParsePath(tail))
  {
    var u := segment + "/" + tail;
    assert Find(u, '/') == |segment| by {
      assert forall i :: 0 <= i < |segment| ==> u[i] == segment[i];
      assert u[|segment|] == '/';
    }
    assert u[..|segment|] == segment && u[|segment| + 1..] == tail;
  }

  lemma LastSegment(segment: Text)
    requires '/' !in segment && segment != []
    ensures ParsePath(segment) == PrependComponent(ParseComponent(segment), Ok([])) && ParsePath([]) == Ok([])
  {
    assert Find(segment, '/') == |segment| by { assert forall i :: 0 <= i < |segment| ==> segment[i] in segment; }
    assert segment[..|segment|] == segment;
  }

  /** The first segment in error decides; an ignored segment adds nothing. */
  lemma Prepends(c: Component, e: Error, rest: Result<Name>)
    ensures PrependComponent(Err(e), rest) == Err(e) && PrependComponent(Ok(None), rest) == rest
    ensures PrependComponent(Ok(Some(c)), rest) == if rest.Ok? then Ok([c] + rest.value) else rest
  {
    if rest.Ok? { assert [] + rest.value == rest.value; }
  }
}
