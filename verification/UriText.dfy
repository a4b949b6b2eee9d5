/** The text of NDN URIs: what Name::set reads and what Name::toUri writes (src/name.cpp, src/common.cpp). */
module UriText {
  import opened Bytes
  import opened Names

  const SHA256_DIGEST: Text := "sha256digest="
  const PARAMS_SHA256: Text := "params-sha256="

  // ----- Reading -----

  function FromHexChar(c: Char): (d: int)
    ensures -1 <= d < 16
  {
    if '0' <= c <= '9' then c as int - '0' as int
    else if 'A' <= c <= 'F' then c as int - 'A' as int + 10
    else if 'a' <= c <= 'f' then c as int - 'a' as int + 10
    else -1
  }

  /** Pairs of hex digits with spaces allowed before a pair; a lone last digit is ignored. */
  function FromHex(s: Text): Option<Blob> {
    if s == [] then Some([])
    else if s[0] == ' ' then FromHex(s[1..])
    else if |s| == 1 then Some([])
    else
      var hi, lo := FromHexChar(s[0]), FromHexChar(s[1]);
      if hi < 0 || lo < 0 then None
      else Prepend([16 * hi + lo], FromHex(s[2..]))
  }

  function Prepend(v: Blob, rest: Option<Blob>): Option<Blob> {
    if rest.None? then None else Some(v + rest.value)
  }

  /** "%XX" becomes a byte; anything else, a malformed escape included, is copied through. */
  function Unescape(s: Text): Blob {
    if s == [] then []
    else if s[0] == '%' && |s| > 2 then
      var hi, lo := FromHexChar(s[1]), FromHexChar(s[2]);
      (if hi < 0 || lo < 0 then BytesOf(s[..3]) else [16 * hi + lo]) + Unescape(s[3..])
    else [s[0] as int] + Unescape(s[1..])
  }

  predicate IsTrimmed(c: Char) {
    c == ' ' || c == '\t' || c == '\n' || c == '\r'
  }

  function TrimLeft(s: Text): Text {
    if s != [] && IsTrimmed(s[0]) then TrimLeft(s[1..]) else s
  }

  function TrimRight(s: Text): Text {
    if s != [] && IsTrimmed(s[|s| - 1]) then TrimRight(s[..|s| - 1]) else s
  }

  function Trim(s: Text): Text {
    TrimRight(TrimLeft(s))
  }

  predicate AllDots(v: Blob) {
    forall i :: 0 <= i < |v| ==> v[i] == 0x2e
  }

  function FromEscapedString(s: Text): Option<Blob> {
    var v := Unescape(Trim(s));
    if AllDots(v) then (if |v| <= 2 then None else Some(v[3..])) else Some(v)
  }

  predicate IsDigit(c: Char) { '0' <= c <= '9' }

  function DigitValue(c: Char): (d: nat)
    requires IsDigit(c)
  {
    c as int - '0' as int
  }

  function DecimalPrefix(s: Text, acc: nat): nat {
    if s != [] && IsDigit(s[0]) then DecimalPrefix(s[1..], 10 * acc + DigitValue(s[0])) else acc
  }

  function SkipSpace(s: Text): Text {
    if s != [] && (IsTrimmed(s[0]) || s[0] as int == 11 || s[0] as int == 12) then SkipSpace(s[1..]) else s
  }

  /** atoi, without the overflow it leaves undefined. */
  function Atoi(s: Text): int {
    var t := SkipSpace(s);
    if t != [] && t[0] == '-' then 0 - DecimalPrefix(t[1..], 0)
    else if t != [] && t[0] == '+' then DecimalPrefix(t[1..], 0)
    else DecimalPrefix(t, 0)
  }

  /** The component type named by the text before '='. */
  function ParseType(t: Text): Result<ComponentType> {
    var code := if t == "0" then 0 else Atoi(t);
    if code == 0 && t != "0" then Err(TypeCodeSyntax)
    else if code == 8 then Ok(Generic)
    else if code == 1 then Ok(ImplicitSha256Digest)
    else if code == 2 then Ok(ParametersSha256Digest)
    else if code < 0 then Err(NegativeTypeCode)
    else if code >= 0x8000_0000 then Err(TypeCodeOverflow)
    else Ok(OtherCode(code))
  }

  /** The index of the first `c`, or the length when there is none. */
  function Find(s: Text, c: Char): (i: nat)
    ensures i <= |s| && (i < |s| ==> s[i] == c)
    ensures forall j :: 0 <= j < i ==> s[j] != c
  {
    if s == [] || s[0] == c then 0 else 1 + Find(s[1..], c)
  }

  function DigestComponent(kind: ComponentType, v: Option<Blob>): Result<Option<Component>> {
    if v.None? || |v.value| != DIGEST_SIZE then Err(DigestLength) else Ok(Some(Component(kind, v.value)))
  }

  /** A segment without a digest prefix: a type code may come before '='. */
  function ParseEscaped(s: Text): Result<Option<Component>> {
    var e := Find(s, '=');
    if e < |s| then WithValue(ParseType(s[..e]), FromEscapedString(s[e + 1..]))
    else WithValue(Ok(Generic), FromEscapedString(s))
  }

  /** A component of the type, unless the type is in error or the value is one to ignore. */
  function WithValue(kind: Result<ComponentType>, v: Option<Blob>): Result<Option<Component>> {
    match kind
    case Err(e) => Err(e)
    case Ok(k) => Ok(match v case None => None case Some(bytes) => Some(Component(k, bytes)))
  }

  /** One path segment; None is a segment that is ignored. */
  function ParseComponent(s: Text): Result<Option<Component>> {
    if SHA256_DIGEST <= s then DigestComponent(ImplicitSha256Digest, FromHex(s[|SHA256_DIGEST|..]))
    else if PARAMS_SHA256 <= s then DigestComponent(ParametersSha256Digest, FromHex(s[|PARAMS_SHA256|..]))
    else ParseEscaped(s)
  }

  /** The text before the first slash and the text after it. */
  function SplitSegment(u: Text): (r: (Text, Text))
    ensures u != [] ==> |r.1| < |u|
  {
    var e := Find(u, '/');
    (u[..e], if e < |u| then u[e + 1..] else [])
  }

  /** The segments of a path, left to right, up to the first that is in error. */
  function ParsePath(u: Text): Result<Name>
    decreases |u|
  {
    if u == [] then Ok([])
    else
      var (segment, tail) := SplitSegment(u);
      PrependComponent(ParseComponent(segment), ParsePath(tail))
  }

  function PrependName(x: Name, rest: Result<Name>): Result<Name> {
    if rest.Err? then rest else Ok(x + rest.value)
  }

  function PrependComponent(c: Result<Option<Component>>, rest: Result<Name>): Result<Name> {
    if c.Err? then Err(c.error) else PrependName(if c.value.Some? then [c.value.value] else [], rest)
  }

  /** Drop a scheme such as "ndn:", whose colon comes before any slash. */
  function AfterScheme(u: Text): Text {
    var colon, slash := Find(u, ':'), Find(u, '/');
    if colon < |u| && (slash == |u| || colon < slash) then Trim(u[colon + 1..]) else u
  }

  /** Drop the leading slash, and the authority that a second slash announces. */
  function AfterAuthority(u: Text): Text {
    if u == [] || u[0] != '/' then u
    else if |u| == 1 || u[1] != '/' then Trim(u[1..])
    else
      var e := Find(u[2..], '/');
      if e == |u| - 2 then [] else Trim(u[2..][e + 1..])
  }

  function PathOf(uri: Text): Text {
    AfterAuthority(AfterScheme(Trim(uri)))
  }

  function ParseUri(uri: Text): Result<Name> {
    ParsePath(PathOf(uri))
  }

  // ----- Writing -----

  function HexDigit(d: nat, upper: bool): (c: Char)
    requires d < 16
    ensures FromHexChar(c) == d
  {
    if d < 10 then ('0' as int + d) as char
    else if upper then ('A' as int + d - 10) as char
    else ('a' as int + d - 10) as char
  }

  function HexByte(b: byte, upper: bool): (s: Text)
    ensures |s| == 2 && FromHexChar(s[0]) >= 0 && FromHexChar(s[1]) >= 0
    ensures 16 * FromHexChar(s[0]) + FromHexChar(s[1]) == b
  {
    [HexDigit(b / 16, upper), HexDigit(b % 16, upper)]
  }

  /** Two lower-case digits for every byte. */
  function ToHex(v: Blob): Text {
    if v == [] then [] else HexByte(v[0], false) + ToHex(v[1..])
  }

  /** An integer as a stream prints it in base ten or sixteen. */
  function Numeral(n: nat, hex: bool, upper: bool := false): (s: Text)
    ensures s != []
  {
    var base := if hex then 16 else 10;
    (if n < base then [] else Numeral(n / base, hex, upper)) + [HexDigit(n % base, upper)]
  }

  /** 0-9, A-Z, a-z, (+), (-), (.), (_). */
  predicate IsPlain(b: byte) {
    || 0x30 <= b <= 0x39 || 0x41 <= b <= 0x5a || 0x61 <= b <= 0x7a
    || b == 0x2b || b == 0x2d || b == 0x2e || b == 0x5f
  }

  function EscapeByte(b: byte): (s: Text)
    ensures s != []
  {
    if IsPlain(b) then [b as char] else "%" + HexByte(b, true)
  }

  function EscapeBytes(v: Blob): Text {
    if v == [] then [] else EscapeByte(v[0]) + EscapeBytes(v[1..])
  }

  function Dots(n: nat): Text {
    seq(n, _ => '.')
  }

  function EscapeValue(v: Blob): Text {
    if AllDots(v) then Dots(3 + |v|) else EscapeBytes(v)
  }

  predicate IsDigestType(k: ComponentType) {
    k == ImplicitSha256Digest || k == ParametersSha256Digest
  }

  /** A component as written to a stream whose integer base is sixteen when `hex` holds. */
  function PrintComponent(c: Component, hex: bool): Text {
    match c.kind
    case ImplicitSha256Digest => SHA256_DIGEST + ToHex(c.value)
    case ParametersSha256Digest => PARAMS_SHA256 + ToHex(c.value)
    case Generic => EscapeValue(c.value)
    case OtherCode(code) => Numeral(code, hex) + "=" + EscapeValue(c.value)
  }

  /** toHex leaves the stream in base sixteen unless it has nothing to write. */
  predicate HexAfter(c: Component, hex: bool) {
    hex || (IsDigestType(c.kind) && c.value != [])
  }

  function PrintPath(x: Name, hex: bool): Text {
    if x == [] then [] else "/" + PrintComponent(x[0], hex) + PrintPath(x[1..], HexAfter(x[0], hex))
  }

  function ToUri(x: Name, includeScheme: bool): Text {
    (if includeScheme then "ndn:" else "") + (if x == [] then "/" else PrintPath(x, false))
  }
}
