/** Name components and names (include/ndn-ind/name.hpp), with the value-only comparisons of Name. */
module Names {
  import opened Bytes

  /** An OTHER_CODE type code: a non-negative C `int`. */
  type TypeCode = x: int | 0 <= x < 0x8000_0000

  datatype ComponentType =
    | ImplicitSha256Digest
    | ParametersSha256Digest
    | Generic
    | OtherCode(code: TypeCode)

  datatype Component = Component(kind: ComponentType, value: Blob)

  type Name = seq<Component>

  const DIGEST_SIZE := 32

  /** The number that orders components: the TLV type code. */
  function TypeCodeOf(k: ComponentType): TypeCode {
    match k
    case ImplicitSha256Digest => 1
    case ParametersSha256Digest => 2
    case Generic => 8
    case OtherCode(code) => code
  }

  /** The codes of the recognised types are those of the NDN packet format; an OTHER_CODE brings its own. */
  lemma TypeCodes(code: TypeCode)
    ensures TypeCodeOf(ImplicitSha256Digest) == 1 && TypeCodeOf(ParametersSha256Digest) == 2
    ensures TypeCodeOf(Generic) == 8 && TypeCodeOf(OtherCode(code)) == code
  {
  }

  /** Name::equals compares component values and ignores component types. */
  predicate SameValues(x: Name, y: Name) {
    |x| == |y| && forall i :: 0 <= i < |x| ==> x[i].value == y[i].value
  }

  /** Name::match: `x` is a prefix of `y`, again by component values only. */
  predicate ValuePrefix(x: Name, y: Name) {
    |x| <= |y| && forall i :: 0 <= i < |x| ==> x[i].value == y[i].value
  }

  method Equals(x: Name, y: Name) returns (r: bool)
    ensures r == SameValues(x, y)
    ensures r <==> |x| == |y| && forall i :: 0 <= i < |x| ==> x[i].value == y[i].value
  {
    if |x| != |y| { return false; }
    for i := |x| downto 0
      invariant forall j :: i <= j < |x| ==> x[j].value == y[j].value
    {
      if x[i].value != y[i].value { return false; }
    }
    return true;
  }

  method Match(x: Name, y: Name) returns (r: bool)
    ensures r == ValuePrefix(x, y)
    ensures r <==> |x| <= |y| && forall i :: 0 <= i < |x| ==> x[i].value == y[i].value
  {
    if |x| > |y| { return false; }
    for i := |x| downto 0
      invariant forall j :: i <= j < |x| ==> x[j].value == y[j].value
    {
      if x[i].value != y[i].value { return false; }
    }
    return true;
  }
}
