/** Interest::matchesName and Interest::matchesData (src/interest.cpp), with KeyLocator::equals. */
module Matching {
  import opened Bytes
  import opened Names
  import opened Exclude

  datatype KeyLocatorType = NoKeyLocator | KeyName | KeyDigest

  datatype KeyLocator = KeyLocator(kind: KeyLocatorType, name: Name, data: Blob)

  /** The selectors of an Interest. A negative suffix count means that it is not specified. */
  datatype Selectors = Selectors(
    name: Name, minSuffix: int, maxSuffix: int, exclude: seq<Entry>, keyLocator: KeyLocator)

  /** A Data packet: `digest` stands for the SHA-256 of its encoding, `keyLocator` for the one in its signature. */
  datatype Packet = Packet(name: Name, digest: Blob, keyLocator: Option<KeyLocator>)

  /** Data::getFullName. */
  function FullName(d: Packet): Name { d.name + [Component(ImplicitSha256Digest, d.digest)] }

  predicate SameKeyLocator(a: KeyLocator, b: KeyLocator) {
    && a.kind == b.kind
    && (a.kind.KeyName? ==> SameValues(a.name, b.name))
    && (a.kind.KeyDigest? ==> a.data == b.data)
  }

  /** The number of components by which `y` is longer than `x` is within the bounds that are specified. */
  predicate SuffixWithin(q: Selectors, y: Name) {
    && (q.minSuffix >= 0 ==> |y| >= |q.name| + q.minSuffix)
    && (q.maxSuffix >= 0 ==> |y| <= |q.name| + q.maxSuffix)
  }

  /** The first component of `y` after the Interest name, if there is one, is not excluded. */
  predicate NextAllowed(q: Selectors, y: Name) {
    |q.name| < |y| ==> !MatchesExclude(q.exclude, y[|q.name|])
  }

  /** What an Interest asks of the full name and the key of a Data packet. */
  predicate Satisfies(q: Selectors, d: Packet) {
    var full := FullName(d);
    && ValuePrefix(q.name, full)
    && SuffixWithin(q, full)
    && NextAllowed(q, full)
    && (|q.name| == |full| ==> q.name[|q.name| - 1].kind.ImplicitSha256Digest?)
    && (!q.keyLocator.kind.NoKeyLocator? ==>
          d.keyLocator.Some? && SameKeyLocator(q.keyLocator, d.keyLocator.value))
  }

  /** The tests before the Exclude all pass. */
  predicate Undecided(q: Selectors, d: Packet) {
    ValuePrefix(q.name, FullName(d)) && SuffixWithin(q, FullName(d))
  }

  /** What an Interest asks of a Data name whose digest is not known. */
  predicate NameSatisfies(q: Selectors, n: Name) {
    && ValuePrefix(q.name, n)
    && (q.minSuffix >= 0 ==> |n| + 1 >= |q.name| + q.minSuffix)
    && (q.maxSuffix >= 0 ==> |n| + 1 <= |q.name| + q.maxSuffix)
    && NextAllowed(q, n)
  }

  method KeyLocatorEquals(a: KeyLocator, b: KeyLocator) returns (r: bool)
    ensures r == SameKeyLocator(a, b)
    ensures r <==>
            && a.kind == b.kind
            && (a.kind == KeyName ==> |a.name| == |b.name| && forall i :: 0 <= i < |a.name| ==> a.name[i].value == b.name[i].value)
            && (a.kind == KeyDigest ==> a.data == b.data)
  {
    if a.kind != b.kind { return false; }
    if a.kind.KeyName? {
      var same := Equals(a.name, b.name);
      if !same { return false; }
    } else if a.kind.KeyDigest? {
      if a.data != b.data { return false; }
    }
    return true;
  }

  method MatchesName(q: Selectors, n: Name) returns (r: bool)
    ensures r == NameSatisfies(q, n)
    ensures r <==>
            && |q.name| <= |n| && (forall i :: 0 <= i < |q.name| ==> q.name[i].value == n[i].value)
            && (q.minSuffix >= 0 ==> |n| - |q.name| + 1 >= q.minSuffix)
            && (q.maxSuffix >= 0 ==> |n| - |q.name| + 1 <= q.maxSuffix)
            && (|n| > |q.name| ==> !MatchesExclude(q.exclude, n[|q.name|]))
  {
    var isPrefix := Match(q.name, n);
    if !isPrefix { return false; }
    if q.minSuffix >= 0 && !(|n| + 1 - |q.name| >= q.minSuffix) { return false; }
    if q.maxSuffix >= 0 && !(|n| + 1 - |q.name| <= q.maxSuffix) { return false; }
    if |q.exclude| > 0 && |n| > |q.name| {
      var excluded := Matches(q.exclude, n[|q.name|]);
      if excluded { return false; }
    }
    return true;
  }

  /**
   * matchesData, given what getFullName returned. That name is read only when the Interest name is
   * at least as long as the Data name; the answer is right for every shorter Interest name.
   */
  method MatchesData(q: Selectors, d: Packet, full: Name) returns (r: Result<bool>)
    ensures full == FullName(d) || |q.name| < |d.name| || |q.name| > |d.name| + 1 ==> r == Ok(Satisfies(q, d))
    ensures r.Err? <==> |full| <= |q.name| == |d.name| && q.exclude != [] && Undecided(q, d)
    ensures |q.name| > |d.name| + 1 ==> r == Ok(false)
    ensures full == d.name + [Component(ImplicitSha256Digest, d.digest)] && |q.name| == |d.name| + 1 ==>
              (r == Ok(true) <==>
               && (forall i :: 0 <= i < |q.name| ==> q.name[i].value == full[i].value)
               && q.name[|q.name| - 1].kind == ImplicitSha256Digest
               && q.minSuffix <= 0
               && (q.keyLocator.kind == NoKeyLocator ||
                   (d.keyLocator.Some? && SameKeyLocator(q.keyLocator, d.keyLocator.value))))
    ensures full == d.name + [Component(ImplicitSha256Digest, d.digest)] && |q.name| <= |d.name| ==>
              (r == Ok(true) <==>
               && (forall i :: 0 <= i < |q.name| ==> q.name[i].value == d.name[i].value)
               && (q.minSuffix >= 0 ==> |d.name| + 1 - |q.name| >= q.minSuffix)
               && (q.maxSuffix >= 0 ==> |d.name| + 1 - |q.name| <= q.maxSuffix)
               && !MatchesExclude(q.exclude, full[|q.name|])
               && (q.keyLocator.kind == NoKeyLocator ||
                   (d.keyLocator.Some? && SameKeyLocator(q.keyLocator, d.keyLocator.value))))
  {
    var minSuffix := if q.minSuffix >= 0 then q.minSuffix else 0;
    if !(|q.name| + minSuffix <= |d.name| + 1) { return Ok(false); }
    if q.maxSuffix >= 0 && !(|q.name| + q.maxSuffix >= |d.name| + 1) { return Ok(false); }
    if |q.name| == |d.name| + 1 {
      if q.name[|q.name| - 1].kind.ImplicitSha256Digest? {
        var same := Equals(q.name, full);
        if !same { return Ok(false); }
      } else {
        return Ok(false);
      }
    } else {
      var isPrefix := Match(q.name, d.name);
      PrefixOfShorter(q.name, d);
      if !isPrefix { return Ok(false); }
    }
    if |q.exclude| > 0 && |d.name| + 1 > |q.name| {
      var excluded: bool;
      if |q.name| == |d.name| {
        if |full| <= |q.name| { return Err(IndexOutOfRange); }
        excluded := Matches(q.exclude, full[|q.name|]);
      } else {
        excluded := Matches(q.exclude, d.name[|q.name|]);
      }
      if excluded { return Ok(false); }
    }
    if !q.keyLocator.kind.NoKeyLocator? {
      if d.keyLocator.None? { return Ok(false); }
      var same := KeyLocatorEquals(q.keyLocator, d.keyLocator.value);
      if !same { return Ok(false); }
    }
    return Ok(true);
  }

  lemma PrefixOfShorter(x: Name, d: Packet)
    requires |x| <= |d.name|
    ensures ValuePrefix(x, FullName(d)) == ValuePrefix(x, d.name)
  {
    assert forall i :: 0 <= i < |x| ==> FullName(d)[i] == d.name[i];
  }

  /**
   * Every Data packet that an Interest accepts has a name that the Interest accepts, unless the
   * Interest name is longer than the Data name: it then ends in the digest.
   */
  lemma DataImpliesName(q: Selectors, d: Packet)
    requires Satisfies(q, d)
    ensures NameSatisfies(q, d.name) <==> |q.name| <= |d.name|
    ensures |q.name| > |d.name| ==> q.name == q.name[..|d.name|] + [Component(ImplicitSha256Digest, d.digest)]
  {
    if |q.name| <= |d.name| {
      PrefixOfShorter(q.name, d);
    }
  }

  /**
   * An Interest for the full name of a Data packet accepts it, whatever is excluded, unless it asks
   * for more components or another key.
   */
  lemma FullNameIsAccepted(q: Selectors, d: Packet)
    requires q.name == d.name + [Component(ImplicitSha256Digest, d.digest)]
    ensures Satisfies(q, d) <==>
            && q.minSuffix <= 0
            && (q.keyLocator.kind == NoKeyLocator || (d.keyLocator.Some? && SameKeyLocator(q.keyLocator, d.keyLocator.value)))
  {
    assert q.name[|d.name|] == Component(ImplicitSha256Digest, d.digest);
  }

  /** The other way the name test leaves open only the digest and the key. */
  lemma NameImpliesData(q: Selectors, d: Packet)
    requires NameSatisfies(q, d.name)
    ensures Satisfies(q, d) <==>
            && (|q.name| == |d.name| ==> !MatchesExclude(q.exclude, Component(ImplicitSha256Digest, d.digest)))
            && (!q.keyLocator.kind.NoKeyLocator? ==>
                  d.keyLocator.Some? && SameKeyLocator(q.keyLocator, d.keyLocator.value))
  {
    PrefixOfShorter(q.name, d);
  }
}
