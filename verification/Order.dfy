/** The NDN canonical order on components and names (src/name.cpp, Component::compare and Name::compare). */
module Order {
  import opened Bytes
  import opened Names

  function CompareComponents(a: Component, b: Component): (r: int)
    ensures -1 <= r <= 1
  {
    var x, y := TypeCodeOf(a.kind), TypeCodeOf(b.kind);
    if x < y then -1
    else if x > y then 1
    else if |a.value| < |b.value| then -1
    else if |a.value| > |b.value| then 1
    else CompareBytes(a.value, b.value)
  }

  /** What the canonical order can see of a component: its type code and its value. */
  predicate SameComponent(a: Component, b: Component) {
    TypeCodeOf(a.kind) == TypeCodeOf(b.kind) && a.value == b.value
  }

  predicate SameName(x: Name, y: Name) {
    |x| == |y| && forall i :: 0 <= i < |x| ==> SameComponent(x[i], y[i])
  }

  predicate IsPrefix(x: Name, y: Name) {
    |x| <= |y| && forall i :: 0 <= i < |x| ==> SameComponent(x[i], y[i])
  }

  function CompareNames(x: Name, y: Name): (r: int)
    ensures -1 <= r <= 1
  {
    if x == [] && y == [] then 0
    else if x == [] then -1
    else if y == [] then 1
    else if CompareComponents(x[0], y[0]) != 0 then CompareComponents(x[0], y[0])
    else CompareNames(x[1..], y[1..])
  }

  // ----- The component order is the lexicographic order of (type code, length, numeric value) -----

  lemma ComponentOrder(a: Component, b: Component)
    ensures CompareComponents(a, b) < 0 <==>
            || TypeCodeOf(a.kind) < TypeCodeOf(b.kind)
            || (TypeCodeOf(a.kind) == TypeCodeOf(b.kind) &&
                (|a.value| < |b.value| ||
                 (|a.value| == |b.value| && Value(a.value) < Value(b.value))))
    ensures CompareComponents(a, b) == 0 <==> TypeCodeOf(a.kind) == TypeCodeOf(b.kind) && a.value == b.value
  {
    if |a.value| == |b.value| { CompareIsNumeric(a.value, b.value); }
  }

  lemma ComponentAntisymmetry(a: Component, b: Component)
    ensures CompareComponents(a, b) == -CompareComponents(b, a)
  {
    ComponentOrder(a, b);
    ComponentOrder(b, a);
    if |a.value| == |b.value| {
      CompareIsNumeric(a.value, b.value);
      CompareIsNumeric(b.value, a.value);
    }
  }

  lemma ComponentTransitivity(a: Component, b: Component, c: Component)
    requires CompareComponents(a, b) <= 0 && CompareComponents(b, c) <= 0
    ensures CompareComponents(a, c) <= 0
    ensures CompareComponents(a, c) == 0 ==> CompareComponents(a, b) == 0 && CompareComponents(b, c) == 0
  {
    ComponentOrder(a, b);
    ComponentOrder(b, c);
    ComponentOrder(a, c);
  }

  // ----- The name order is a total order whose classes are the names that agree componentwise -----

  lemma {:induction false} NameZero(x: Name, y: Name)
    ensures CompareNames(x, y) == 0 <==> SameName(x, y)
  {
    if x != [] && y != [] {
      ComponentOrder(x[0], y[0]);
      NameZero(x[1..], y[1..]);
      assert x == [x[0]] + x[1..] && y == [y[0]] + y[1..];
    }
  }

  /** Names are in lexicographic order, from the first component on: with equal components before, one less decides. */
  lemma {:induction false} NameLess(x: Name, y: Name, k: nat)
    requires k <= |x| && k < |y| && forall i :: 0 <= i < k ==> CompareComponents(x[i], y[i]) == 0
    requires k < |x| ==> CompareComponents(x[k], y[k]) < 0
    ensures CompareNames(x, y) < 0
  {
    if k > 0 { NameLess(x[1..], y[1..], k - 1); }
  }

  /** And a lesser name is so for that reason. */
  lemma {:induction false} FirstDifference(x: Name, y: Name) returns (k: nat)
    requires CompareNames(x, y) < 0
    ensures k <= |x| && k < |y| && forall i :: 0 <= i < k ==> CompareComponents(x[i], y[i]) == 0
    ensures k < |x| ==> CompareComponents(x[k], y[k]) < 0
  {
    if x == [] || CompareComponents(x[0], y[0]) != 0 { return 0; }
    k := FirstDifference(x[1..], y[1..]);
    k := k + 1;
  }

  lemma {:induction false} NameAntisymmetry(x: Name, y: Name)
    ensures CompareNames(x, y) == -CompareNames(y, x)
  {
    if x != [] && y != [] {
      ComponentAntisymmetry(x[0], y[0]);
      NameAntisymmetry(x[1..], y[1..]);
    }
  }

  lemma {:induction false} NameTransitivity(x: Name, y: Name, z: Name)
    requires CompareNames(x, y) <= 0 && CompareNames(y, z) <= 0
    ensures CompareNames(x, z) <= 0
    ensures CompareNames(x, z) == 0 ==> CompareNames(x, y) == 0 && CompareNames(y, z) == 0
  {
    if x != [] && y != [] && z != [] {
      ComponentTransitivity(x[0], y[0], z[0]);
      if CompareComponents(x[0], y[0]) == 0 && CompareComponents(y[0], z[0]) == 0 {
        ComponentOrder(x[0], y[0]);
        ComponentOrder(y[0], z[0]);
        ComponentOrder(x[0], z[0]);
        NameTransitivity(x[1..], y[1..], z[1..]);
      }
    }
  }

  lemma PrefixCons(x: Name, y: Name)
    requires x != [] && y != []
    ensures IsPrefix(x, y) <==> SameComponent(x[0], y[0]) && IsPrefix(x[1..], y[1..])
  {
    assert x == [x[0]] + x[1..] && y == [y[0]] + y[1..];
  }

  // ----- Subrange comparison -----

  const SIZE_LIMIT := 0x1_0000_0000_0000_0000   // size_t is 64 bits
  const INT_LIMIT := 0x8000_0000                // int is 32 bits

  function Min(a: int, b: int): int { if a <= b then a else b }

  /** Conversion to size_t of an `int` sum or difference. */
  function ToSize(i: int): (r: nat)
    requires -SIZE_LIMIT <= i < 2 * SIZE_LIMIT
    ensures r < SIZE_LIMIT && (r - i == 0 || r - i == SIZE_LIMIT || r - i == -SIZE_LIMIT)
  {
    if i < 0 then i + SIZE_LIMIT else if i < SIZE_LIMIT then i else i - SIZE_LIMIT
  }

  /** The start index after the "-N counts from the end" convention. */
  function EffectiveStart(x: Name, start: int): int {
    if start < 0 then |x| + start else start
  }

  /** The start lies in the name, or right behind it. */
  predicate DocumentedStart(x: Name, start: int) {
    -|x| <= start <= |x|
  }

  /** What the documentation calls the subset: at most `n` components from `start`; none outside the name. */
  function Slice(x: Name, start: int, n: nat): Name {
    var s := EffectiveStart(x, start);
    if 0 <= s <= |x| then x[s..s + Min(n, |x| - s)] else []
  }

  /** Name::getSubName, whose end index is computed in size_t and can wrap. */
  method GetSubName(x: Name, start: int, n: nat) returns (r: Name)
    requires |x| < INT_LIMIT && -INT_LIMIT < start < INT_LIMIT && n < SIZE_LIMIT
    ensures r == Slice(x, start, n) <==> !(0 <= EffectiveStart(x, start) < |x| && EffectiveStart(x, start) + n >= SIZE_LIMIT)
    ensures EffectiveStart(x, start) + n >= SIZE_LIMIT ==> r == []
    ensures start > |x| || start < -|x| ==> r == []
    ensures -|x| <= start <= |x| ==>
              var from := if start < 0 then |x| + start else start;
              from + n < SIZE_LIMIT ==>
                && |r| == (if n < |x| - from then n else |x| - from)
                && forall i :: 0 <= i < |r| ==> r[i] == x[from + i]
  {
    var s := if start < 0 then |x| + start else start;
    var end := Min(ToSize(s + n), |x|);
    r := [];
    var i := ToSize(s);
    while i < end
      invariant s >= 0 ==> s <= i && (s <= end ==> i <= end) && (s > end ==> i == s)
      invariant s < 0 ==> i > |x|
      invariant r == if 0 <= s <= i <= |x| then x[s..i] else []
    {
      assert s >= 0 && x[s..i + 1] == x[s..i] + [x[i]];
      r := r + [x[i]];
      i := i + 1;
    }
  }

  /** Names compare by their common length first, then the shorter is less. */
  lemma {:induction false} CompareByCommonLength(a: Name, b: Name)
    ensures CompareNames(a, b) ==
            (var k := Min(|a|, |b|);
             if CompareNames(a[..k], b[..k]) != 0 then CompareNames(a[..k], b[..k])
             else if |a| < |b| then -1 else if |a| > |b| then 1 else 0)
  {
    if a != [] && b != [] {
      var k := Min(|a|, |b|);
      assert a[..k][1..] == a[1..][..k - 1] && b[..k][1..] == b[1..][..k - 1];
      CompareByCommonLength(a[1..], b[1..]);
    }
  }

  lemma PrefixOfRange(x: Name, s: nat, m: nat, count: nat)
    requires s + m <= |x| && count <= m
    ensures x[s..s + m][..count] == x[s..s + count]
  {
  }

  lemma CompareRanges(x: Name, s: nat, m: nat, y: Name, t: nat, k: nat)
    requires s + m <= |x| && t + k <= |y|
    ensures var count := Min(m, k);
            var c := CompareNames(x[s..s + count], y[t..t + count]);
            CompareNames(x[s..s + m], y[t..t + k]) == if c != 0 then c else CompareLengths(m, k)
  {
    var count := Min(m, k);
    PrefixOfRange(x, s, m, count);
    PrefixOfRange(y, t, k, count);
    CompareByCommonLength(x[s..s + m], y[t..t + k]);
  }

  /** The loop of Name::compare over `count` components of each name; an access past the end is an error. */
  method CompareLoop(x: Name, s: int, y: Name, t: int, count: nat) returns (r: Result<int>)
    requires |x| < INT_LIMIT && |y| < INT_LIMIT && count < SIZE_LIMIT
    requires -2 * INT_LIMIT < s < 2 * INT_LIMIT && -2 * INT_LIMIT < t < 2 * INT_LIMIT
    requires 0 <= s <= |x| ==> s + count <= |x|
    requires 0 <= s <= |x| && 0 <= t <= |y| ==> t + count <= |y|
    ensures r == if count == 0 then Ok(0)
                 else if 0 <= s <= |x| && 0 <= t <= |y| then Ok(CompareNames(x[s..s + count], y[t..t + count]))
                 else Err(IndexOutOfRange)
  {
    for i := 0 to count
      invariant i > 0 ==> 0 <= s <= |x| && 0 <= t <= |y|
      invariant 0 <= s <= |x| && 0 <= t <= |y| ==>
                  CompareNames(x[s..s + count], y[t..t + count]) ==
                  CompareNames(x[s + i..s + count], y[t + i..t + count])
    {
      var p, q := ToSize(s + i), ToSize(t + i);
      if p >= |x| || q >= |y| { return Err(IndexOutOfRange); }
      var c := CompareComponents(x[p], y[q]);
      if c != 0 { return Ok(c); }
      assert x[p..s + count][1..] == x[p + 1..s + count] && y[q..t + count][1..] == y[q + 1..t + count];
    }
    return Ok(0);
  }

  function CompareLengths(m: nat, k: nat): int {
    if m < k then -1 else if m > k then 1 else 0
  }

  /** Assignment of a sum of a size and an int to an int. */
  function ToInt(i: int): int {
    if i < INT_LIMIT then i else i - 2 * INT_LIMIT
  }

  /** The outcome for start indexes `s` and `t` and counts `m` and `k`, cut off at the ends of the names. */
  function Outcome(x: Name, s: int, m: nat, y: Name, t: int, k: nat): Result<int>
    requires (0 <= s <= |x| ==> s + m <= |x|) && (0 <= t <= |y| ==> t + k <= |y|)
  {
    var count := Min(m, k);
    if count == 0 then Ok(CompareLengths(m, k))
    else if 0 <= s <= |x| && 0 <= t <= |y| then
      var c := CompareNames(x[s..s + count], y[t..t + count]);
      Ok(if c != 0 then c else CompareLengths(m, k))
    else Err(IndexOutOfRange)
  }

  /** The loop, and the lengths when it finds no difference. */
  method CompareIndexed(x: Name, s: int, m: nat, y: Name, t: int, k: nat) returns (r: Result<int>)
    requires |x| < INT_LIMIT && |y| < INT_LIMIT && m < SIZE_LIMIT
    requires -2 * INT_LIMIT < s < 2 * INT_LIMIT && -2 * INT_LIMIT < t < 2 * INT_LIMIT
    requires (0 <= s <= |x| ==> s + m <= |x|) && (0 <= t <= |y| ==> t + k <= |y|)
    ensures r == Outcome(x, s, m, y, t, k)
  {
    r := CompareLoop(x, s, y, t, Min(m, k));
    if r.Ok? && r.value == 0 {
      r := Ok(CompareLengths(m, k));
    }
  }

  lemma EmptyFirst(x: Name, y: Name)
    requires x == [] || y == []
    ensures CompareNames(x, y) == CompareLengths(|x|, |y|)
  {
  }

  /** Both starts count from the front: the outcome is the comparison of the slices. */
  lemma OutcomeInside(x: Name, s: nat, m: nat, y: Name, t: nat, k: nat)
    requires s + m <= |x| && t + k <= |y|
    ensures Outcome(x, s, m, y, t, k) == Ok(CompareNames(x[s..s + m], y[t..t + k]))
  {
    if Min(m, k) == 0 { EmptyFirst(x[s..s + m], y[t..t + k]); }
    else { CompareRanges(x, s, m, y, t, k); }
  }

  /** A negative start of the other name: an error as soon as both sides have something to compare. */
  lemma OutcomeBefore(x: Name, s: nat, m: nat, y: Name, t: int, k: nat, b: Name)
    requires s + m <= |x| && t < 0 && (k > 0 <==> b != [])
    ensures Outcome(x, s, m, y, t, k) ==
            if m > 0 && k > 0 then Err(IndexOutOfRange) else Ok(CompareNames(x[s..s + m], b))
  {
    if m == 0 || k == 0 { EmptyFirst(x[s..s + m], b); }
  }

  /** A start outside its name: an error again, or a comparison of counts. */
  lemma OutcomeOutside(x: Name, s: int, m: nat, y: Name, t: int, k: nat)
    requires (0 <= s <= |x| ==> s + m <= |x|) && (0 <= t <= |y| ==> t + k <= |y|)
    requires !(0 <= s <= |x|) || !(0 <= t <= |y|)
    ensures Outcome(x, s, m, y, t, k) ==
            if m > 0 && k > 0 then Err(IndexOutOfRange) else Ok(if m > 0 then 1 else if k > 0 then -1 else 0)
  {
  }

  /** What the documentation promises: getSubName of the one compared with getSubName of the other. */
  function CompareSlices(x: Name, start: int, n: nat, y: Name, otherStart: int, otherN: nat): int {
    CompareNames(Slice(x, start, n), Slice(y, otherStart, otherN))
  }

  lemma DocumentedOutcome(x: Name, start: int, n: nat, y: Name, otherStart: int, otherN: nat)
    requires DocumentedStart(x, start) && DocumentedStart(y, otherStart)
    ensures var s, t := EffectiveStart(x, start), otherStart;
            var m, k := Min(n, |x| - s), Min(otherN, |y| - t);
            && |Slice(x, start, n)| == m
            && Outcome(x, s, m, y, t, k) ==
               if t < 0 && otherN > 0 && m > 0 then Err(IndexOutOfRange)
               else Ok(CompareSlices(x, start, n, y, otherStart, otherN))
  {
    var s, t := EffectiveStart(x, start), otherStart;
    var m, k := Min(n, |x| - s), Min(otherN, |y| - t);
    if t >= 0 {
      OutcomeInside(x, s, m, y, t, k);
    } else {
      OutcomeBefore(x, s, m, y, t, k, Slice(y, otherStart, otherN));
    }
  }

  /**
   * Name::compare on subranges, for every start that an int can hold. The second adjustment tests the
   * wrong variable, so a negative start of the other name is mostly used as it stands.
   */
  method CompareSubranges(x: Name, start: int, n: nat, y: Name, otherStart: int, otherN: nat) returns (r: Result<int>)
    requires |x| < INT_LIMIT && |y| < INT_LIMIT && n < SIZE_LIMIT && otherN < SIZE_LIMIT
    requires -INT_LIMIT < start < INT_LIMIT && -INT_LIMIT < otherStart < INT_LIMIT
    ensures DocumentedStart(x, start) && DocumentedStart(y, otherStart) ==>
              r == if otherStart < 0 && otherN > 0 && |Slice(x, start, n)| > 0 then Err(IndexOutOfRange)
                   else Ok(CompareSlices(x, start, n, y, otherStart, otherN))
    ensures !(DocumentedStart(x, start) && DocumentedStart(y, otherStart)) ==>
              var s := if start < 0 then |x| + start else start;
              var left := n > 0 && s != |x|;
              var right := otherN > 0 && (if s < 0 then ToInt(|y| + otherStart) else otherStart) != |y|;
              r == if left && right then Err(IndexOutOfRange) else Ok(if left then 1 else if right then -1 else 0)
  {
    var s, t := start, otherStart;
    if s < 0 { s := |x| + s; }
    if s < 0 { t := ToInt(|y| + t); }
    var m := Min(n, ToSize(|x| - s));
    var k := Min(otherN, ToSize(|y| - t));
    if DocumentedStart(x, start) && DocumentedStart(y, otherStart) {
      DocumentedOutcome(x, start, n, y, otherStart, otherN);
    } else {
      OutcomeOutside(x, s, m, y, t, k);
    }
    r := CompareIndexed(x, s, m, y, t, k);
  }

  /** A count of 2^64 - 1 from the second component on should give that component, and gives nothing. */
  method GetSubNameWraps(c: Component, d: Component) returns (r: Name)
    ensures r == [] && Slice([c, d], 1, SIZE_LIMIT - 1) == [d]
  {
    r := GetSubName([c, d], 1, SIZE_LIMIT - 1);
  }

  /** A name compared with its own last component should give 0, and reads out of range. */
  method CompareFromTheEnd(c: Component) returns (r: Result<int>)
    ensures r == Err(IndexOutOfRange) && CompareSlices([c], 0, 1, [c], -1, 1) == 0
  {
    var x := [c];
    r := CompareSubranges(x, 0, 1, x, -1, 1);
    assert Slice(x, 0, 1) == x && Slice(x, -1, 1) == x;
    NameZero(x, x);
  }
}
