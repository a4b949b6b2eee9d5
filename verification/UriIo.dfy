/** The loops of src/name.cpp and src/common.cpp that read and write URIs, against the functions of UriText. */
module UriIo {
  import opened Bytes
  import opened Names
  import opened UriText
  import opened UriForms

  lemma Assoc<T>(a: seq<T>, b: seq<T>, c: seq<T>)
    ensures a + (b + c) == a + b + c
  {
  }

  lemma PrependTwice(a: Blob, b: Blob, rest: Option<Blob>)
    ensures Prepend(a, Prepend(b, rest)) == Prepend(a + b, rest)
    ensures Prepend([], rest) == rest
  {
    if rest.Some? {
      Assoc(a, b, rest.value);
      assert [] + rest.value == rest.value;
    }
  }

  /** What one round of the loop of Name::set does to the name built so far. */
  lemma PrependStep(name: Name, c: Result<Option<Component>>, rest: Result<Name>)
    ensures PrependName([], rest) == rest
    ensures PrependName(name, PrependComponent(c, rest)) ==
            if c.Err? then Err(c.error)
            else PrependName(if c.value.Some? then name + [c.value.value] else name, rest)
  {
    if rest.Ok? {
      assert [] + rest.value == rest.value;
      if c.Ok? && c.value.Some? { Assoc(name, [c.value.value], rest.value); }
    }
  }

  /** fromHex over a range of the text; None is the null Blob. */
  method ReadHex(s: Text, begin: nat, end: nat) returns (r: Option<Blob>)
    requires begin <= end <= |s|
    ensures r == FromHex(s[begin..end])
  {
    var result: Blob := [];
    var i := begin;
    PrependTwice([], [], FromHex(s[begin..end]));
    while i < end
      invariant begin <= i <= end
      invariant FromHex(s[begin..end]) == Prepend(result, FromHex(s[i..end]))
    {
      ghost var rest := s[i..end];
      if s[i] == ' ' {
        assert rest[1..] == s[i + 1..end];
        i := i + 1;
        continue;
      }
      if i + 1 >= end { break; }
      var hi, lo := FromHexChar(s[i]), FromHexChar(s[i + 1]);
      if hi < 0 || lo < 0 { return None; }
      assert rest[2..] == s[i + 2..end];
      PrependTwice(result, [16 * hi + lo], FromHex(s[i + 2..end]));
      result := result + [16 * hi + lo];
      i := i + 2;
    }
    assert result + [] == result;
    return Some(result);
  }

  /** The bytes produced at index `i` and the number of characters they stand for. */
  function EscapeAt(s: Text, i: nat): (r: (Blob, nat))
    requires i < |s|
    ensures 1 <= r.1 && i + r.1 <= |s|
  {
    if s[i] == '%' && i + 2 < |s| then
      var hi, lo := FromHexChar(s[i + 1]), FromHexChar(s[i + 2]);
      (if hi < 0 || lo < 0 then BytesOf(s[i..i + 3]) else [16 * hi + lo], 3)
    else ([s[i] as int], 1)
  }

  lemma UnescapeStep(s: Text, i: nat, result: Blob)
    requires i < |s|
    ensures result + Unescape(s[i..]) == result + EscapeAt(s, i).0 + Unescape(s[i + EscapeAt(s, i).1..])
  {
    var rest := s[i..];
    var (chunk, width) := EscapeAt(s, i);
    assert rest[width..] == s[i + width..];
    if width == 3 { assert rest[..3] == s[i..i + 3]; }
    assert Unescape(rest) == chunk + Unescape(s[i + width..]);
    Assoc(result, chunk, Unescape(s[i + width..]));
  }

  method ReadEscaped(s: Text) returns (r: Blob)
    ensures r == Unescape(s)
  {
    r := [];
    var i := 0;
    ghost var whole := Unescape(s);
    assert s[0..] == s && [] + whole == whole;
    while i < |s|
      invariant 0 <= i <= |s|
      invariant whole == r + Unescape(s[i..])
    {
      UnescapeStep(s, i, r);
      var (chunk, width) := EscapeAt(s, i);
      r := r + chunk;
      i := i + width;
    }
    assert s[i..] == [] && r + [] == r;
  }

  /** Name::fromEscapedString; None is the null Blob of a segment to ignore. */
  method ReadValue(s: Text) returns (r: Option<Blob>)
    ensures r == FromEscapedString(s)
  {
    var value := ReadEscaped(Trim(s));
    if AllDots(value) {
      r := if |value| <= 2 then None else Some(value[3..]);
    } else {
      r := Some(value);
    }
  }

  /** uri.find(c, begin), with the length standing for npos. */
  function FindFrom(s: Text, c: Char, begin: nat): (i: nat)
    requires begin <= |s|
  {
    begin + Find(s[begin..], c)
  }

  lemma FindInRange(s: Text, c: Char, begin: nat, end: nat)
    requires begin <= end <= |s|
    ensures FindFrom(s, c, begin) < end ==> Find(s[begin..end], c) == FindFrom(s, c, begin) - begin
    ensures FindFrom(s, c, begin) >= end ==> Find(s[begin..end], c) == end - begin
  {
    var all, part := s[begin..], s[begin..end];
    assert forall i :: 0 <= i < |part| ==> part[i] == all[i];
  }

  /** A prefix without a slash that is found at the start of a segment lies inside the segment. */
  lemma PrefixInSegment(s: Text, p: Text, begin: nat, end: nat)
    requires begin <= end <= |s| && end == FindFrom(s, '/', begin)
    requires forall i :: 0 <= i < |p| ==> p[i] != '/'
    ensures begin + |p| <= |s| && s[begin..begin + |p|] == p <==> p <= s[begin..end]
  {
    var segment := s[begin..end];
    if begin + |p| <= |s| && s[begin..begin + |p|] == p {
      NoSlashBefore(s, p, begin, end);
      assert segment[..|p|] == p;
    }
    if p <= segment { assert s[begin..begin + |p|] == segment[..|p|]; }
  }

  lemma {:induction false} NoSlashBefore(s: Text, p: Text, begin: nat, end: nat)
    requires begin <= end <= |s| && (end < |s| ==> s[end] == '/') && begin + |p| <= |s|
    requires s[begin..begin + |p|] == p && forall i :: 0 <= i < |p| ==> p[i] != '/'
    ensures begin + |p| <= end
  {
    if p != [] {
      var q := p[..|p| - 1];
      assert s[begin..begin + |q|] == s[begin..begin + |p|][..|q|];
      NoSlashBefore(s, q, begin, end);
      assert s[begin + |q|] == p[|q|];
    }
  }

  method ReadEscapedComponent(uri: Text, begin: nat, end: nat) returns (r: Result<Option<Component>>)
    requires begin <= end <= |uri|
    ensures r == ParseEscaped(uri[begin..end])
  {
    ghost var segment := uri[begin..end];
    FindInRange(uri, '=', begin, end);
    var typeEnd := FindFrom(uri, '=', begin);
    if typeEnd < |uri| && typeEnd < end {
      TwoSlices(uri, begin, typeEnd, end);
      var kind := ParseType(uri[begin..typeEnd]);
      if kind.Err? { return Err(kind.error); }
      var v := ReadValue(uri[typeEnd + 1..end]);
      r := WithValue(kind, v);
    } else {
      var v := ReadValue(uri[begin..end]);
      r := WithValue(Ok(Generic), v);
    }
  }

  lemma TwoSlices(uri: Text, begin: nat, mid: nat, end: nat)
    requires begin <= mid < end <= |uri|
    ensures uri[begin..end][..mid - begin] == uri[begin..mid]
    ensures uri[begin..end][mid - begin + 1..] == uri[mid + 1..end]
  {
  }

  /** The body of the loop of Name::set: the segment from `begin` to the next slash. */
  method ReadComponent(uri: Text, begin: nat, end: nat) returns (r: Result<Option<Component>>)
    requires begin < |uri| && end == FindFrom(uri, '/', begin)
    ensures r == ParseComponent(uri[begin..end])
  {
    ghost var segment := uri[begin..end];
    PrefixInSegment(uri, SHA256_DIGEST, begin, end);
    PrefixInSegment(uri, PARAMS_SHA256, begin, end);
    if begin + |SHA256_DIGEST| <= |uri| && uri[begin..begin + |SHA256_DIGEST|] == SHA256_DIGEST {
      assert segment[|SHA256_DIGEST|..] == uri[begin + |SHA256_DIGEST|..end];
      var v := ReadHex(uri, begin + |SHA256_DIGEST|, end);
      r := DigestComponent(ImplicitSha256Digest, v);
    } else if begin + |PARAMS_SHA256| <= |uri| && uri[begin..begin + |PARAMS_SHA256|] == PARAMS_SHA256 {
      assert segment[|PARAMS_SHA256|..] == uri[begin + |PARAMS_SHA256|..end];
      var v := ReadHex(uri, begin + |PARAMS_SHA256|, end);
      r := DigestComponent(ParametersSha256Digest, v);
    } else {
      r := ReadEscapedComponent(uri, begin, end);
    }
  }

  /** A colon with no other colon and no slash before it. */
  predicate SchemeEndsAt(text: Text, i: nat) {
    i < |text| && text[i] == ':' && forall j :: 0 <= j < i ==> text[j] != ':' && text[j] != '/'
  }

  lemma OneScheme(text: Text)
    ensures forall i :: SchemeEndsAt(text, i) ==> Find(text, ':') == i
    ensures Find(text, ':') < |text| && (Find(text, '/') == |text| || Find(text, ':') < Find(text, '/')) <==>
            SchemeEndsAt(text, Find(text, ':'))
  {
  }

  /** The scheme goes, if there is one: the text up to a colon that comes before any slash. */
  method StripScheme(text: Text) returns (uri: Text)
    ensures forall i :: SchemeEndsAt(text, i) ==> uri == Trim(text[i + 1..])
    ensures (forall i :: !SchemeEndsAt(text, i)) ==> uri == text
    ensures uri == AfterScheme(text)
  {
    uri := text;
    OneScheme(text);
    var iColon := Find(uri, ':');
    if iColon < |uri| {
      var iFirstSlash := Find(uri, '/');
      if iFirstSlash == |uri| || iColon < iFirstSlash { uri := Trim(uri[iColon + 1..]); }
    }
  }

  /** The first slash behind the two that announce an authority. */
  predicate AuthorityEndsAt(text: Text, i: nat) {
    2 <= i < |text| && text[i] == '/' && forall j :: 2 <= j < i ==> text[j] != '/'
  }

  predicate StartsWith(text: Text, slashes: nat) {
    slashes <= |text| && forall j :: 0 <= j < slashes ==> text[j] == '/'
  }

  lemma OneAuthority(text: Text)
    requires 2 <= |text|
    ensures forall i :: AuthorityEndsAt(text, i) ==> FindFrom(text, '/', 2) == i
    ensures FindFrom(text, '/', 2) < |text| ==> AuthorityEndsAt(text, FindFrom(text, '/', 2))
  {
    var rest := text[2..];
    assert forall j :: 2 <= j < |text| ==> text[j] == rest[j - 2];
  }

  /** A leading slash goes, and if there are two, everything up to the next one: all of it when there is none. */
  method StripAuthority(text: Text) returns (uri: Text)
    ensures !StartsWith(text, 1) ==> uri == text
    ensures StartsWith(text, 1) && !StartsWith(text, 2) ==> uri == Trim(text[1..])
    ensures StartsWith(text, 2) ==> forall i :: AuthorityEndsAt(text, i) ==> uri == Trim(text[i + 1..])
    ensures StartsWith(text, 2) && (forall i :: !AuthorityEndsAt(text, i)) ==> uri == []
    ensures uri == AfterAuthority(text)
  {
    uri := text;
    if |text| >= 2 { OneAuthority(text); }
    if |uri| > 0 && uri[0] == '/' {
      if |uri| >= 2 && uri[1] == '/' {
        var iAfterAuthority := FindFrom(uri, '/', 2);
        if iAfterAuthority == |uri| { return []; }
        assert uri[2..][iAfterAuthority - 1..] == uri[iAfterAuthority + 1..];
        uri := Trim(uri[iAfterAuthority + 1..]);
      } else {
        uri := Trim(uri[1..]);
      }
    }
  }

  /** The start of Name::set: scheme, authority and leading slash. */
  method StripToPath(uriText: Text) returns (uri: Text)
    ensures uri == PathOf(uriText)
  {
    uri := Trim(uriText);
    if |uri| == 0 { return []; }
    uri := StripScheme(uri);
    uri := StripAuthority(uri);
  }

  /** What is left of the text when the loop of Name::set stands at `start`. */
  function Rest(uri: Text, start: nat): Text {
    if start <= |uri| then uri[start..] else []
  }

  lemma SplitAt(uri: Text, start: nat)
    requires start < |uri|
    ensures SplitSegment(Rest(uri, start)).0 == uri[start..FindFrom(uri, '/', start)]
    ensures SplitSegment(Rest(uri, start)).1 == Rest(uri, FindFrom(uri, '/', start) + 1)
  {
    var e := Find(uri[start..], '/');
    SlicesAt(uri, start, e);
  }

  lemma SlicesAt(uri: Text, start: nat, e: nat)
    requires start + e <= |uri|
    ensures uri[start..][..e] == uri[start..start + e]
    ensures start + e < |uri| ==> uri[start..][e + 1..] == uri[start + e + 1..]
  {
  }

  lemma ParseSplit(u: Text, segment: Text, tail: Text, component: Result<Option<Component>>)
    requires u != [] && SplitSegment(u).0 == segment && SplitSegment(u).1 == tail
    requires component == ParseComponent(segment)
    ensures ParsePath(u) == PrependComponent(component, ParsePath(tail))
  {
  }

  /** One round of the loop: the component at `start`, and where the next one starts. */
  method NextComponent(uri: Text, start: nat) returns (component: Result<Option<Component>>, next: nat)
    requires start < |uri|
    ensures start < next <= |uri| + 1
    ensures ParsePath(Rest(uri, start)) == PrependComponent(component, ParsePath(Rest(uri, next)))
  {
    var end := FindFrom(uri, '/', start);
    component := ReadComponent(uri, start, end);
    next := end + 1;
    SplitAt(uri, start);
    ParseSplit(Rest(uri, start), uri[start..end], Rest(uri, next), component);
  }

  /** Name::set(uri). */
  method SetUri(uriText: Text) returns (r: Result<Name>)
    ensures r == ParseUri(uriText)
  {
    var uri := StripToPath(uriText);
    var name: Name := [];
    var start := 0;
    ghost var whole := ParsePath(uri);
    PrependStep([], Ok(None), whole);
    assert Rest(uri, 0) == uri;
    while start < |uri|
      invariant 0 <= start <= |uri| + 1
      invariant whole == PrependName(name, ParsePath(Rest(uri, start)))
    {
      var component, next := NextComponent(uri, start);
      PrependStep(name, component, ParsePath(Rest(uri, next)));
      if component.Err? { return Err(component.error); }
      if component.value.Some? {
        name := name + [component.value.value];
      }
      start := next;
    }
    assert Rest(uri, start) == [] && name + [] == name;
    return Ok(name);
  }

  // ----- Writing -----

  datatype Flags = Dec | Hex | HexUpper

  /** An ostringstream: what it holds and its integer formatting flags. */
  class OutStream {
    var text: Text
    var flags: Flags

    constructor ()
      ensures text == [] && flags == Dec
    {
      text, flags := [], Dec;
    }

    method Put(s: Text)
      modifies this`text
      ensures text == old(text) + s
    {
      text := text + s;
    }

    method PutInt(n: nat)
      modifies this`text
      ensures text == old(text) + Numeral(n, flags != Dec, flags == HexUpper)
    {
      text := text + Numeral(n, flags != Dec, flags == HexUpper);
    }

    /** A byte as two digits, with a '0' written by hand below sixteen. */
    method PutHexByte(b: byte)
      requires flags != Dec
      modifies this`text
      ensures text == old(text) + HexByte(b, flags == HexUpper)
    {
      if b < 16 { Put("0"); }
      PutInt(b);
      HexByteText(b, flags == HexUpper);
      Assoc(old(text), "0", Numeral(b, true, flags == HexUpper));
    }

    /** toHex: the flags are not restored. */
    method WriteHex(v: Blob)
      modifies this
      ensures text == old(text) + ToHex(v)
      ensures flags == if v == [] then old(flags) else Hex
    {
      if |v| == 0 { return; }
      flags := Hex;
      for i := 0 to |v|
        invariant flags == Hex
        invariant old(text) + ToHex(v) == text + ToHex(v[i..])
      {
        Assoc(text, HexByte(v[i], false), ToHex(v[i + 1..]));
        assert v[i..][1..] == v[i + 1..];
        PutHexByte(v[i]);
      }
    }

    method WriteDots(n: nat)
      modifies this`text
      ensures text == old(text) + Dots(3 + n)
    {
      Put("...");
      for i := 0 to n
        invariant text == old(text) + Dots(3 + i)
      {
        Put(".");
        assert Dots(3 + i) + "." == Dots(4 + i);
      }
    }

    method WriteEscapedBytes(v: Blob)
      requires flags == HexUpper
      modifies this`text
      ensures text == old(text) + EscapeBytes(v)
    {
      for i := 0 to |v|
        invariant old(text) + EscapeBytes(v) == text + EscapeBytes(v[i..])
      {
        ghost var before := text;
        assert v[i..][1..] == v[i + 1..];
        if IsPlain(v[i]) {
          Put([v[i] as char]);
        } else {
          Put("%");
          PutHexByte(v[i]);
          Assoc(before, "%", HexByte(v[i], true));
        }
        Assoc(before, EscapeByte(v[i]), EscapeBytes(v[i + 1..]));
      }
    }

    /** Name::toEscapedString: upper-case hexadecimal while escaping, then the previous flags. */
    method WriteEscaped(v: Blob)
      modifies this
      ensures text == old(text) + EscapeValue(v) && flags == old(flags)
      ensures Plain(v) ==> text == old(text) + Characters(v)
    {
      var gotNonDot := HasNonDot(v);
      if !gotNonDot {
        WriteDots(|v|);
      } else {
        var saved := flags;
        flags := HexUpper;
        WriteEscapedBytes(v);
        flags := saved;
      }
      if Plain(v) { PlainValue(v); }
    }

    /** Component::toEscapedString. */
    method WriteComponent(c: Component)
      requires flags != HexUpper
      modifies this
      ensures text == old(text) + PrintComponent(c, old(flags) == Hex)
      ensures flags == if HexAfter(c, old(flags) == Hex) then Hex else Dec
    {
      match c.kind
      case ImplicitSha256Digest =>
        Put(SHA256_DIGEST);
        WriteHex(c.value);
        Assoc(old(text), SHA256_DIGEST, ToHex(c.value));
      case ParametersSha256Digest =>
        Put(PARAMS_SHA256);
        WriteHex(c.value);
        Assoc(old(text), PARAMS_SHA256, ToHex(c.value));
      case Generic =>
        WriteEscaped(c.value);
      case OtherCode(code) =>
        PutInt(code);
        Put("=");
        WriteEscaped(c.value);
        Assoc(old(text), Numeral(code, old(flags) == Hex), "=");
        Assoc(old(text), Numeral(code, old(flags) == Hex) + "=", EscapeValue(c.value));
    }
  }

  method HasNonDot(v: Blob) returns (r: bool)
    ensures r == !AllDots(v)
  {
    for i := 0 to |v|
      invariant forall j :: 0 <= j < i ==> v[j] == 0x2e
    {
      if v[i] != 0x2e { return true; }
    }
    return false;
  }

  lemma HexByteText(b: byte, upper: bool)
    ensures HexByte(b, upper) == (if b < 16 then "0" else "") + Numeral(b, true, upper)
  {
    var low := [HexDigit(b % 16, upper)];
    if b < 16 {
      assert Numeral(b, true, upper) == [] + low == low;
      assert HexDigit(0, upper) == '0' && "0" + low == ['0'] + low;
    } else {
      assert "" + Numeral(b, true, upper) == Numeral(b, true, upper);
      assert Numeral(b / 16, true, upper) == [] + [HexDigit(b / 16, upper)] == [HexDigit(b / 16, upper)];
    }
  }

  /** Name::toUri. */
  method PrintUri(x: Name, includeScheme: bool) returns (uri: Text)
    ensures uri == ToUri(x, includeScheme)
    ensures x == [] ==> uri == if includeScheme then "ndn:/" else "/"
    ensures x != [] && (forall i :: 0 <= i < |x| ==> x[i].kind == Generic) ==>
              uri == (if includeScheme then "ndn:" else "") +
                     Joined(seq(|x|, i requires 0 <= i < |x| => EscapeValue(x[i].value)))
    ensures x != [] && (forall i :: 0 <= i < |x| ==> x[i].kind == Generic && Plain(x[i].value)) ==>
              uri == (if includeScheme then "ndn:" else "") +
                     Joined(seq(|x|, i requires 0 <= i < |x| => Characters(x[i].value)))
  {
    uri := WriteUri(x, includeScheme);
    if forall i :: 0 <= i < |x| ==> x[i].kind == Generic { GenericUri(x, includeScheme); }
    if x != [] && forall i :: 0 <= i < |x| ==> x[i].kind == Generic && Plain(x[i].value) { PlainUri(x, includeScheme); }
  }

  /** The loop of toUri. */
  method WriteUri(x: Name, includeScheme: bool) returns (uri: Text)
    ensures uri == ToUri(x, includeScheme)
  {
    ghost var scheme: Text := if includeScheme then "ndn:" else "";
    if |x| == 0 {
      uri := if includeScheme then "ndn:/" else "/";
      assert uri == scheme + "/";
      return;
    }
    var result := new OutStream();
    if includeScheme { result.Put("ndn:"); }
    assert result.text == scheme && x[0..] == x;
    for i := 0 to |x|
      invariant result.flags != HexUpper
      invariant scheme + PrintPath(x, false) == result.text + PrintPath(x[i..], result.flags == Hex)
    {
      ghost var before, hex := result.text, result.flags == Hex;
      ghost var printed := PrintComponent(x[i], hex);
      assert x[i..][1..] == x[i + 1..];
      result.Put("/");
      result.WriteComponent(x[i]);
      Assoc(before, "/", printed);
      Assoc(before, "/" + printed, PrintPath(x[i + 1..], HexAfter(x[i], hex)));
    }
    uri := result.text;
    assert x[|x|..] == [] && uri + [] == uri;
  }
}
