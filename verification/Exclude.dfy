/** Exclude::matches (src/exclude.cpp). */
module Exclude {
  import opened Bytes
  import opened Names
  import opened Order

  datatype Entry = Any | Only(component: Component)

  /** Entry::getComponent: an ANY holds a default component, generic and empty. */
  function ComponentOf(e: Entry): Component {
    if e.Any? then Component(Generic, []) else e.component
  }

  predicate Above(a: Component, b: Component) { CompareComponents(a, b) > 0 }
  predicate Below(a: Component, b: Component) { CompareComponents(a, b) < 0 }

  /** The nearest component entry to the left of index `i`. */
  function LeftOf(es: seq<Entry>, i: nat): Option<Component>
    requires i <= |es|
  {
    if i == 0 then None else if es[i - 1].Only? then Some(es[i - 1].component) else LeftOf(es, i - 1)
  }

  /** The nearest component entry at index `i` or to its right. */
  function RightFrom(es: seq<Entry>, i: nat): Option<Component>
    requires i <= |es|
    decreases |es| - i
  {
    if i == |es| then None else if es[i].Only? then Some(es[i].component) else RightFrom(es, i + 1)
  }

  /** The component lies strictly between the neighbours of the ANY at `i`; a missing neighbour does not bound it. */
  predicate InGap(es: seq<Entry>, c: Component, i: nat)
    requires i < |es|
  {
    && es[i].Any?
    && (LeftOf(es, i).Some? ==> Above(c, LeftOf(es, i).value))
    && (RightFrom(es, i).Some? ==> Below(c, RightFrom(es, i).value))
  }

  predicate ExcludedBy(es: seq<Entry>, c: Component, i: nat)
    requires i < |es|
  {
    es[i] == Only(c) || InGap(es, c, i)
  }

  /** A component is excluded when some entry names it or some ANY covers it. */
  predicate Excluded(es: seq<Entry>, c: Component) {
    exists i :: 0 <= i < |es| && ExcludedBy(es, c, i)
  }

  /** The list ends in two or more ANYs and has a component before them. */
  predicate EndsInAnys(es: seq<Entry>) {
    |es| >= 2 && es[|es| - 1].Any? && es[|es| - 2].Any? && LeftOf(es, |es|).Some?
  }

  /**
   * What Exclude::matches answers. It is Excluded, except on a list that ends in two or more ANYs
   * after a component: there every component above the empty generic one is excluded.
   */
  predicate MatchesExclude(es: seq<Entry>, c: Component) {
    Excluded(es, c) || (EndsInAnys(es) && Above(c, Component(Generic, [])))
  }

  lemma {:induction false} LeftMeans(es: seq<Entry>, i: nat, c: Component)
    requires i <= |es|
    ensures LeftOf(es, i) == Some(c) <==>
            exists k :: 0 <= k < i && es[k] == Only(c) && forall j :: k < j < i ==> es[j] == Any
  {
    if i > 0 && es[i - 1].Any? {
      LeftMeans(es, i - 1, c);
    } else if i > 0 {
      assert es[i - 1] == Only(es[i - 1].component);
    }
  }

  lemma {:induction false} RightMeans(es: seq<Entry>, i: nat, c: Component)
    requires i <= |es|
    ensures RightFrom(es, i) == Some(c) <==>
            exists k :: i <= k < |es| && es[k] == Only(c) && forall j :: i <= j < k ==> es[j] == Any
    decreases |es| - i
  {
    if i < |es| && es[i].Any? {
      RightMeans(es, i + 1, c);
    } else if i < |es| {
      assert es[i] == Only(es[i].component);
    }
  }

  lemma {:induction false} SomeLeft(es: seq<Entry>, i: nat)
    requires i <= |es|
    ensures LeftOf(es, i).Some? <==> exists k :: 0 <= k < i && es[k] != Any
  {
    if i > 0 && es[i - 1].Any? { SomeLeft(es, i - 1); }
  }

  /** An ANY covers what lies above every component to its left, and below every one to its right, with only ANYs in between. */
  lemma InGapMeans(es: seq<Entry>, c: Component, i: nat)
    requires i < |es|
    ensures InGap(es, c, i) <==>
            && es[i] == Any
            && (forall k :: 0 <= k < i && es[k] != Any && (forall j :: k < j < i ==> es[j] == Any) ==>
                  CompareComponents(es[k].component, c) < 0)
            && (forall k :: i < k < |es| && es[k] != Any && (forall j :: i < j < k ==> es[j] == Any) ==>
                  CompareComponents(c, es[k].component) < 0)
  {
    if es[i].Any? {
      var left, right := LeftOf(es, i), RightFrom(es, i);
      forall k | 0 <= k < i && es[k] != Any && forall j :: k < j < i ==> es[j] == Any ensures left == Some(es[k].component) {
        LeftMeans(es, i, es[k].component);
      }
      forall k | i < k < |es| && es[k] != Any && forall j :: i < j < k ==> es[j] == Any ensures right == Some(es[k].component) {
        RightMeans(es, i, es[k].component);
      }
      if left.Some? {
        LeftMeans(es, i, left.value);
        ComponentAntisymmetry(c, left.value);
      }
      if right.Some? { RightMeans(es, i, right.value); }
    }
  }

  /** From index `i` on there are only ANYs, and a component stands somewhere before it. */
  predicate TrailingRun(es: seq<Entry>, i: nat)
    requires i <= |es|
  {
    (forall k :: i <= k < |es| ==> es[k].Any?) && LeftOf(es, i).Some?
  }

  lemma {:induction false} SameLeft(es: seq<Entry>, i: nat, j: nat)
    requires i <= j <= |es| && forall k :: i <= k < j ==> es[k].Any?
    ensures LeftOf(es, j) == LeftOf(es, i)
  {
    if i < j { SameLeft(es, i, j - 1); }
  }

  lemma {:induction false} SameRight(es: seq<Entry>, i: nat, j: nat)
    requires i <= j <= |es| && forall k :: i <= k < j ==> es[k].Any?
    ensures RightFrom(es, i) == RightFrom(es, j)
    decreases j - i
  {
    if i < j { SameRight(es, i + 1, j); }
  }

  /** The ANYs of one run have the same gap. */
  lemma SameGap(es: seq<Entry>, c: Component, i: nat, j: nat)
    requires i <= j < |es| && forall k :: i <= k <= j ==> es[k].Any?
    ensures InGap(es, c, j) == InGap(es, c, i)
  {
    SameLeft(es, i, j);
    SameRight(es, i, j);
  }

  lemma MatchesExcludeMeans(es: seq<Entry>, c: Component)
    ensures MatchesExclude(es, c) <==>
            || (exists i :: 0 <= i < |es| && (es[i] == Only(c) || InGap(es, c, i)))
            || (|es| >= 2 && es[|es| - 1] == es[|es| - 2] == Any && (exists k :: 0 <= k < |es| && es[k] != Any) &&
                CompareComponents(Component(Generic, []), c) < 0)
  {
    assert Excluded(es, c) <==> exists i :: 0 <= i < |es| && (es[i] == Only(c) || InGap(es, c, i)) by {
      if i :| 0 <= i < |es| && (es[i] == Only(c) || InGap(es, c, i)) { assert ExcludedBy(es, c, i); }
      if i :| 0 <= i < |es| && ExcludedBy(es, c, i) { assert es[i] == Only(c) || InGap(es, c, i); }
    }
    SomeLeft(es, |es|);
    ComponentAntisymmetry(Component(Generic, []), c);
  }

  /** The inner loop: the first component entry after the run of ANYs at `i`, or the end. */
  method FindUpperBound(es: seq<Entry>, i: nat) returns (upper: nat)
    requires i < |es| && es[i].Any?
    ensures i < upper <= |es| && (upper < |es| ==> es[upper].Only?)
    ensures forall k :: i <= k < upper ==> es[k].Any?
  {
    upper := i + 1;
    while upper < |es|
      invariant i < upper <= |es| && forall k :: i <= k < upper ==> es[k].Any?
    {
      if es[upper].Only? { break; }
      upper := upper + 1;
    }
  }

  /** Exclude::matches: an ANY that follows another ANY reads its lower bound from that ANY's default component. */
  method Matches(es: seq<Entry>, c: Component) returns (r: bool)
    ensures r == MatchesExclude(es, c)
    ensures r <==>
            || (exists i :: 0 <= i < |es| && (es[i] == Only(c) || InGap(es, c, i)))
            || (|es| >= 2 && es[|es| - 1] == es[|es| - 2] == Any && (exists k :: 0 <= k < |es| && es[k] != Any) &&
                CompareComponents(Component(Generic, []), c) < 0)
  {
    MatchesExcludeMeans(es, c);
    var i := 0;
    while i < |es|
      invariant i <= |es|
      invariant forall j :: 0 <= j < i ==> !ExcludedBy(es, c, j)
      invariant 0 < i < |es| && es[i - 1].Any? && es[i].Any? ==> TrailingRun(es, i)
      invariant i > 1 && es[i - 1].Any? && TrailingRun(es, i) && es[i - 2].Any? ==> !Above(c, Component(Generic, []))
    {
      if es[i].Any? {
        var upper := FindUpperBound(es, i);
        SameRight(es, i, upper);
        var covered :=
          && (i > 0 ==> Above(c, ComponentOf(es[i - 1])))
          && (upper < |es| ==> Below(c, es[upper].component));
        if i == 0 || es[i - 1].Only? {
          assert covered == InGap(es, c, i);
          assert covered ==> ExcludedBy(es, c, i);
          SameLeft(es, i, upper);
        } else {
          assert EndsInAnys(es) by { SameLeft(es, i, |es|); }
          SameGap(es, c, i - 1, i);
          assert !ExcludedBy(es, c, i - 1);
        }
        if covered { return true; }
        assert !ExcludedBy(es, c, i);
        if upper < |es| {
          forall j | i <= j < upper ensures !ExcludedBy(es, c, j) { SameGap(es, c, i, j); }
          i := upper - 1;
        }
      } else if c == es[i].component {
        assert ExcludedBy(es, c, i);
        return true;
      } else {
        assert !ExcludedBy(es, c, i);
      }
      i := i + 1;
    }
    if EndsInAnys(es) { assert TrailingRun(es, |es|); }
    return false;
  }

  /** Such a list goes wrong: it excludes a component below the bound that its ANYs state. */
  lemma TrailingAnysExample(x: Component, c: Component)
    requires Above(c, Component(Generic, [])) && Below(c, x)
    ensures var es := [Only(x), Any, Any];
            MatchesExclude(es, c) && !Excluded(es, c)
  {
    var es := [Only(x), Any, Any];
    ComponentOrder(c, x);
    ComponentAntisymmetry(c, x);
    assert LeftOf(es, 1) == LeftOf(es, 2) == LeftOf(es, 3) == Some(x);
    assert ExcludedBy(es, c, 0) ==> c == x;
  }
}
