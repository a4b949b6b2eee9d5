/** Exactly which names come back from parsing their own URI. */
module UriRoundTrip {
  import opened Bytes
  import opened Names
  import opened UriText

  /** Text free of the characters that Name::set gives a meaning between or around segments. */
  predicate Safe(s: Text) {
    forall i :: 0 <= i < |s| ==> s[i] != '/' && s[i] != ':' && !IsTrimmed(s[i])
  }

  predicate NoEquals(s: Text) {
    forall i :: 0 <= i < |s| ==> s[i] != '='
  }

  // ----- Values -----

  lemma HexCharIsSafe(c: Char)
    requires FromHexChar(c) >= 0
    ensures c != '/' && c != ':' && c != '=' && !IsTrimmed(c)
  {
  }

  lemma HexPair(p: Text, tail: Text)
    requires |p| == 2 && FromHexChar(p[0]) >= 0 && FromHexChar(p[1]) >= 0 && FromHex(tail).Some?
    ensures FromHex(p + tail) == Some([16 * FromHexChar(p[0]) + FromHexChar(p[1])] + FromHex(tail).value)
  {
    assert (p + tail)[2..] == tail;
  }

  lemma {:induction false} HexRoundTrip(v: Blob)
    ensures FromHex(ToHex(v)) == Some(v)
  {
    if v != [] {
      HexRoundTrip(v[1..]);
      HexPair(HexByte(v[0], false), ToHex(v[1..]));
      assert v == [v[0]] + v[1..];
    }
  }

  lemma {:induction false} HexIsSafe(v: Blob)
    ensures Safe(ToHex(v))
  {
    if v != [] {
      HexIsSafe(v[1..]);
      var p := HexByte(v[0], false);
      HexCharIsSafe(p[0]);
      HexCharIsSafe(p[1]);
    }
  }

  lemma EscapedByte(b: byte, tail: Text)
    ensures Unescape(EscapeByte(b) + tail) == [b] + Unescape(tail)
  {
    var s := EscapeByte(b) + tail;
    assert s[|EscapeByte(b)|..] == tail;
  }

  lemma EscapedByteIsSafe(b: byte)
    ensures Safe(EscapeByte(b)) && NoEquals(EscapeByte(b))
  {
    if !IsPlain(b) {
      var p := HexByte(b, true);
      HexCharIsSafe(p[0]);
      HexCharIsSafe(p[1]);
    }
  }

  lemma {:induction false} EscapeRoundTrip(v: Blob)
    ensures Unescape(EscapeBytes(v)) == v
    ensures Safe(EscapeBytes(v)) && NoEquals(EscapeBytes(v))
    ensures v != [] ==> EscapeBytes(v) != []
  {
    if v != [] {
      EscapeRoundTrip(v[1..]);
      EscapedByte(v[0], EscapeBytes(v[1..]));
      EscapedByteIsSafe(v[0]);
      assert v == [v[0]] + v[1..];
    }
  }

  lemma {:induction false} DotsUnescape(n: nat)
    ensures Unescape(Dots(n)) == Repeat(0x2e, n)
  {
    if n > 0 {
      assert Dots(n)[1..] == Dots(n - 1);
      DotsUnescape(n - 1);
    }
  }

  lemma TrimSafe(s: Text)
    requires s != [] ==> !IsTrimmed(s[0]) && !IsTrimmed(s[|s| - 1])
    ensures Trim(s) == s
  {
  }

  const THREE_DOTS: Blob := [0x2e, 0x2e, 0x2e]

  /**
   * What fromEscapedString makes of any text: the one value that unescapes to it, when three periods
   * are put before a value of periods only; nothing, when it unescapes to fewer than three periods.
   */
  lemma EscapedStringMeans(s: Text, v: Blob)
    ensures FromEscapedString(s) == Some(v) <==>
            Unescape(Trim(s)) == (if AllDots(v) then THREE_DOTS else []) + v
    ensures FromEscapedString(s) == None <==> |Unescape(Trim(s))| < 3 && AllDots(Unescape(Trim(s)))
  {
    var u := Unescape(Trim(s));
    if AllDots(u) && |u| >= 3 {
      assert u == THREE_DOTS + u[3..];
    }
    if AllDots(v) && u == THREE_DOTS + v {
      assert u[3..] == v && forall i :: 3 <= i < |u| ==> u[i] == v[i - 3];
    }
    assert [] + v == v;
  }

  lemma ValueRoundTrip(v: Blob)
    ensures FromEscapedString(EscapeValue(v)) == Some(v)
    ensures EscapeValue(v) != [] && Safe(EscapeValue(v)) && NoEquals(EscapeValue(v))
  {
    var s := EscapeValue(v);
    if AllDots(v) {
      DotsUnescape(3 + |v|);
      TrimSafe(s);
      assert Repeat(0x2e, 3 + |v|)[3..] == v;
    } else {
      EscapeRoundTrip(v);
      TrimSafe(s);
    }
  }

  // ----- Type codes -----

  predicate AllDigits(s: Text) {
    forall i :: 0 <= i < |s| ==> IsDigit(s[i])
  }

  lemma {:induction false} PrefixAppend(s: Text, c: Char, acc: nat)
    ensures AllDigits(s) && IsDigit(c) ==> DecimalPrefix(s + [c], acc) == 10 * DecimalPrefix(s, acc) + DigitValue(c)
    ensures !(AllDigits(s) && IsDigit(c)) ==> DecimalPrefix(s + [c], acc) == DecimalPrefix(s, acc)
  {
    if s == [] {
      assert s + [c] == [c] && [c][1..] == [];
    } else {
      assert (s + [c])[1..] == s[1..] + [c];
      if IsDigit(s[0]) {
        assert s == [s[0]] + s[1..];
        PrefixAppend(s[1..], c, 10 * acc + DigitValue(s[0]));
      }
    }
  }

  /** Reading a numeral as decimal recovers the number from a decimal one, and falls short on a hexadecimal one. */
  lemma {:induction false} NumeralValue(n: nat, hex: bool)
    ensures !hex ==> AllDigits(Numeral(n, hex)) && DecimalPrefix(Numeral(n, hex), 0) == n
    ensures hex && n < 10 ==> Numeral(n, hex) == Numeral(n, false)
    ensures hex && n >= 10 ==> DecimalPrefix(Numeral(n, hex), 0) < n
  {
    var base := if hex then 16 else 10;
    var head := if n < base then [] else Numeral(n / base, hex);
    var digit := HexDigit(n % base, false);
    PrefixAppend(head, digit, 0);
    if n >= base {
      NumeralValue(n / base, hex);
      if hex && n / 16 < 10 { NumeralValue(n / 16, false); }
    }
  }

  /** Numerals are made of digits a-f and 0-9, and only zero's is "0". */
  lemma {:induction false} NumeralText(n: nat, hex: bool)
    ensures Safe(Numeral(n, hex)) && NoEquals(Numeral(n, hex))
    ensures FromHexChar(Numeral(n, hex)[0]) >= 0
    ensures Numeral(n, hex) == "0" <==> n == 0
  {
    var base := if hex then 16 else 10;
    if n >= base {
      NumeralText(n / base, hex);
      assert |Numeral(n, hex)| > 1;
    }
  }

  predicate Recognised(code: int) {
    code == 1 || code == 2 || code == 8
  }

  lemma TypeRoundTrip(code: TypeCode, hex: bool)
    ensures ParseType(Numeral(code, hex)) == Ok(OtherCode(code)) <==> !Recognised(code) && (hex ==> code < 10)
  {
    var t := Numeral(code, hex);
    NumeralText(code, hex);
    NumeralValue(code, hex);
    NumeralValue(code, false);
    assert SkipSpace(t) == t;
    assert Atoi(t) == DecimalPrefix(t, 0);
  }

  // ----- Components -----

  /** When one component comes back from a stream in the given base. */
  predicate ComponentRoundTrips(c: Component, hex: bool) {
    match c.kind
    case Generic => true
    case OtherCode(code) => !Recognised(code) && (hex ==> code < 10)
    case _ => |c.value| == DIGEST_SIZE
  }

  lemma FindSeparator(s: Text, c: Char, t: Text)
    requires forall i :: 0 <= i < |s| ==> s[i] != c
    ensures t == [] ==> Find(s + t, c) == |s|
    ensures t != [] && t[0] == c ==> Find(s + t, c) == |s|
  {
    var u := s + t;
    assert forall i :: 0 <= i < |s| ==> u[i] == s[i];
    if t != [] { assert u[|s|] == t[0]; }
  }

  lemma DigestPrefixHasEquals(s: Text)
    requires SHA256_DIGEST <= s || PARAMS_SHA256 <= s
    ensures !NoEquals(s) && s[0] in {'s', 'p'}
  {
    DigestPrefixes();
    if SHA256_DIGEST <= s { assert s[12] == '='; } else { assert s[13] == '='; }
  }

  lemma PrintedDigest(c: Component, hex: bool)
    requires IsDigestType(c.kind)
    ensures var t := PrintComponent(c, hex);
            t != [] && Safe(t) &&
            ParseComponent(t) == if |c.value| == DIGEST_SIZE then Ok(Some(c)) else Err(DigestLength)
  {
    HexRoundTrip(c.value);
    HexIsSafe(c.value);
    DigestPrefixes();
    var p := if c.kind == ImplicitSha256Digest then SHA256_DIGEST else PARAMS_SHA256;
    var t := p + ToHex(c.value);
    assert t[|p|..] == ToHex(c.value) && p <= t && t[0] == p[0];
  }

  lemma DigestPrefixes()
    ensures |SHA256_DIGEST| == 13 && Safe(SHA256_DIGEST) && SHA256_DIGEST[0] == 's' && SHA256_DIGEST[12] == '='
    ensures |PARAMS_SHA256| == 14 && Safe(PARAMS_SHA256) && PARAMS_SHA256[0] == 'p' && PARAMS_SHA256[13] == '='
  {
  }

  lemma PrintedGeneric(c: Component, hex: bool)
    requires c.kind == Generic
    ensures var t := PrintComponent(c, hex);
            t != [] && Safe(t) && ParseComponent(t) == Ok(Some(c))
  {
    ValueRoundTrip(c.value);
    var t := PrintComponent(c, hex);
    if SHA256_DIGEST <= t || PARAMS_SHA256 <= t { DigestPrefixHasEquals(t); }
  }

  /** A segment that starts with a type code. */
  lemma ParseTyped(n: Text, v: Text)
    requires n != [] && NoEquals(n) && n[0] !in {'s', 'p'}
    ensures ParseComponent(n + "=" + v) ==
            (match ParseType(n)
             case Err(e) => Err(e)
             case Ok(kind) => match FromEscapedString(v)
                              case None => Ok(None)
                              case Some(bytes) => Ok(Some(Component(kind, bytes))))
  {
    var t := n + "=" + v;
    assert t == n + ("=" + v);
    FindSeparator(n, '=', "=" + v);
    assert t[..|n|] == n && t[|n| + 1..] == v && t[0] == n[0];
  }

  lemma PrintedOtherCode(c: Component, hex: bool)
    requires c.kind.OtherCode?
    ensures var t := PrintComponent(c, hex);
            t != [] && Safe(t) &&
            ParseComponent(t) == (match ParseType(Numeral(c.kind.code, hex))
                                  case Err(e) => Err(e)
                                  case Ok(kind) => Ok(Some(Component(kind, c.value))))
  {
    var n, v := Numeral(c.kind.code, hex), EscapeValue(c.value);
    NumeralText(c.kind.code, hex);
    ValueRoundTrip(c.value);
    ParseTyped(n, v);
  }

  lemma ComponentRoundTrip(c: Component, hex: bool)
    ensures var t := PrintComponent(c, hex);
            && t != [] && Safe(t)
            && (ParseComponent(t).Ok? ==> ParseComponent(t).value.Some?)
            && (ParseComponent(t) == Ok(Some(c)) <==> ComponentRoundTrips(c, hex))
  {
    match c.kind
    case Generic => PrintedGeneric(c, hex);
    case OtherCode(code) => PrintedOtherCode(c, hex); TypeRoundTrip(code, hex);
    case _ => PrintedDigest(c, hex);
  }

  // ----- Names -----

  /** A digest component with bytes to print stands before index `i`. */
  predicate DigestBefore(x: Name, i: nat)
    requires i <= |x|
  {
    exists j :: 0 <= j < i && IsDigestType(x[j].kind) && x[j].value != []
  }

  /**
   * Digests are 32 bytes long; OTHER_CODE is not used for a recognised type; and an OTHER_CODE
   * of ten or more does not follow a digest, after which type codes are printed in hexadecimal.
   */
  predicate NameRoundTrips(x: Name, hex: bool) {
    forall i :: 0 <= i < |x| ==> ComponentRoundTrips(x[i], hex || DigestBefore(x, i))
  }

  lemma NameRoundTripsCons(x: Name, hex: bool)
    requires x != []
    ensures NameRoundTrips(x, hex) <==>
            ComponentRoundTrips(x[0], hex) && NameRoundTrips(x[1..], HexAfter(x[0], hex))
  {
    var rest := x[1..];
    forall i | 0 <= i < |rest|
      ensures HexAfter(x[0], hex) || DigestBefore(rest, i) <==> hex || DigestBefore(x, i + 1)
      ensures rest[i] == x[i + 1]
    {
      if DigestBefore(x, i + 1) && !HexAfter(x[0], hex) {
        var j :| 0 <= j < i + 1 && IsDigestType(x[j].kind) && x[j].value != [];
        assert x[j] == rest[j - 1];
      }
      if DigestBefore(rest, i) {
        var j :| 0 <= j < i && IsDigestType(rest[j].kind) && rest[j].value != [];
        assert rest[j] == x[j + 1];
      }
      if HexAfter(x[0], hex) && !hex { assert IsDigestType(x[0].kind) && x[0].value != []; }
    }
    assert x == [x[0]] + rest;
    assert !DigestBefore(x, 0);
    if NameRoundTrips(rest, HexAfter(x[0], hex)) && ComponentRoundTrips(x[0], hex) {
      forall i | 0 <= i < |x| ensures ComponentRoundTrips(x[i], hex || DigestBefore(x, i)) {
        if i > 0 { assert rest[i - 1] == x[i]; }
      }
    }
  }

  /** The first segment of a path is parsed on its own. */
  lemma FirstSegment(t: Text, rest: Text)
    requires Safe(t) && (rest != [] ==> rest[0] == '/')
    ensures SplitSegment(t + rest) == (t, if rest == [] then [] else rest[1..])
  {
    FindSeparator(t, '/', rest);
    var u := t + rest;
    assert u[..|t|] == t;
    if rest != [] { assert u[|t| + 1..] == rest[1..]; }
  }

  lemma ParseSegments(u: Text, segment: Text, tail: Text)
    requires u != [] && SplitSegment(u) == (segment, tail)
    ensures ParsePath(u) == PrependComponent(ParseComponent(segment), ParsePath(tail))
  {
  }

  /** What Name::set looks at in a printed path before it splits it. */
  predicate PathShape(p: Text) {
    && |p| > 1 && p[0] == '/' && p[1] != '/' && !IsTrimmed(p[1]) && !IsTrimmed(p[|p| - 1])
    && forall i :: 0 <= i < |p| ==> p[i] != ':'
  }

  lemma SlashFirst(t: Text, rest: Text)
    requires t != [] && Safe(t) && (rest != [] ==> PathShape(rest))
    ensures var p := "/" + t + rest; PathShape(p) && p[1..] == t + rest
  {
    var p := "/" + t + rest;
    assert p[1] == t[0];
    assert p[|p| - 1] == if rest == [] then t[|t| - 1] else rest[|rest| - 1];
  }

  lemma {:induction false} PathText(x: Name, hex: bool)
    requires x != []
    ensures PathShape(PrintPath(x, hex))
  {
    ComponentRoundTrip(x[0], hex);
    if x[1..] != [] { PathText(x[1..], HexAfter(x[0], hex)); }
    SlashFirst(PrintComponent(x[0], hex), PrintPath(x[1..], HexAfter(x[0], hex)));
  }

  lemma {:induction false} PathRoundTrip(x: Name, hex: bool)
    requires x != []
    ensures PrintPath(x, hex) != [] && (ParsePath(PrintPath(x, hex)[1..]) == Ok(x) <==> NameRoundTrips(x, hex))
  {
    var t, hex' := PrintComponent(x[0], hex), HexAfter(x[0], hex);
    var y, rest := x[1..], PrintPath(x[1..], hex');
    ComponentRoundTrip(x[0], hex);
    NameRoundTripsCons(x, hex);
    if y != [] {
      PathText(y, hex');
      PathRoundTrip(y, hex');
    }
    var tail := if rest == [] then [] else rest[1..];
    assert ParsePath(tail) == Ok(y) <==> NameRoundTrips(y, hex');
    SlashFirst(t, rest);
    FirstSegment(t, rest);
    ParseSegments(t + rest, t, tail);
    SplitName(x, ParseComponent(t), ParsePath(tail));
  }

  lemma SplitName(x: Name, c: Result<Option<Component>>, rest: Result<Name>)
    requires x != [] && (c.Ok? ==> c.value.Some?)
    ensures PrependComponent(c, rest) == Ok(x) <==> c == Ok(Some(x[0])) && rest == Ok(x[1..])
  {
    assert x == [x[0]] + x[1..];
    if c.Ok? && rest.Ok? {
      assert ([c.value.value] + rest.value)[1..] == rest.value;
    }
  }

  lemma SchemeDropped(p: Text)
    requires p != [] && p[0] == '/' && !IsTrimmed(p[|p| - 1])
    ensures AfterScheme("ndn:" + p) == p
  {
    var u := "ndn:" + p;
    FindSeparator("ndn", ':', ":" + p);
    assert u == "ndn" + (":" + p);
    assert u[4] == '/' && u[0] != '/' && u[1] != '/' && u[2] != '/' && u[3] != '/';
    assert u[4..] == p;
    TrimSafe(p);
  }

  lemma NoSchemeKept(p: Text)
    requires forall i :: 0 <= i < |p| ==> p[i] != ':'
    ensures AfterScheme(p) == p
  {
    FindSeparator(p, ':', []);
    assert p + [] == p;
  }

  lemma PathOfPrinted(p: Text, includeScheme: bool)
    requires p != [] && p[0] == '/' && (|p| > 1 ==> p[1] != '/' && !IsTrimmed(p[1])) && !IsTrimmed(p[|p| - 1])
    requires forall i :: 0 <= i < |p| ==> p[i] != ':'
    ensures PathOf((if includeScheme then "ndn:" else "") + p) == p[1..]
  {
    if includeScheme {
      TrimSafe("ndn:" + p);
      SchemeDropped(p);
    } else {
      assert "" + p == p;
      TrimSafe(p);
      NoSchemeKept(p);
    }
    TrimSafe(p[1..]);
  }

  /** Parsing a name's URI gives the name back exactly when the name satisfies NameRoundTrips. */
  lemma UriRoundTrips(x: Name, includeScheme: bool)
    ensures ParseUri(ToUri(x, includeScheme)) == Ok(x) <==> NameRoundTrips(x, false)
  {
    if x == [] {
      PathOfPrinted("/", includeScheme);
    } else {
      PathText(x, false);
      PathRoundTrip(x, false);
      PathOfPrinted(PrintPath(x, false), includeScheme);
    }
  }

  lemma TypeCodeSixteen(digest: Component)
    requires digest.kind == ImplicitSha256Digest && |digest.value| == DIGEST_SIZE
    ensures var other := Component(OtherCode(16), []);
            !NameRoundTrips([digest, other], false) && NameRoundTrips([other, digest], false)
  {
    var other := Component(OtherCode(16), []);
    var x, y := [digest, other], [other, digest];
    assert IsDigestType(x[0].kind) && x[0].value != [];
    assert DigestBefore(x, 1) && !ComponentRoundTrips(x[1], true);
    assert !DigestBefore(y, 0) && ComponentRoundTrips(y[0], false) && ComponentRoundTrips(y[1], false);
  }

  /** Type code 16 after a digest is printed as "10", which does not read back as 16; before it, all is well. */
  lemma DigestThenOtherCode(digest: Component, includeScheme: bool)
    requires digest.kind == ImplicitSha256Digest && |digest.value| == DIGEST_SIZE
    ensures var other := Component(OtherCode(16), []);
            && ParseUri(ToUri([digest, other], includeScheme)) != Ok([digest, other])
            && ParseUri(ToUri([other, digest], includeScheme)) == Ok([other, digest])
  {
    var other := Component(OtherCode(16), []);
    TypeCodeSixteen(digest);
    UriRoundTrips([digest, other], includeScheme);
    UriRoundTrips([other, digest], includeScheme);
  }
}
