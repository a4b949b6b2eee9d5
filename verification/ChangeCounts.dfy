/**
 * Change counts (include/ndn-ind/util/change-counter.hpp): an object counts its own changes, and for
 * each child object it keeps the count it saw last. getChangeCount walks the whole tree of children.
 */
module ChangeCounts {
  datatype Tracked<T> = Tracked(value: T, count: nat, children: seq<Child<T>>)

  /**
   * ChangeCounter: the target object and the change count of it that was recorded last. The target
   * of a SharedPointerChangeCounter may be null.
   */
  datatype Child<T> = Child(target: Tracked<T>, seen: nat) | Null

  /** The values alone: what an encoding depends on. */
  datatype Plain<T> = Plain(value: T, children: seq<Plain<T>>) | Nothing

  function Values<T>(t: Tracked<T>): Plain<T> {
    Plain(t.value, ValuesOf(t.children))
  }

  function ValuesOf<T>(cs: seq<Child<T>>): (r: seq<Plain<T>>)
    ensures |r| == |cs|
  {
    if cs == [] then [] else [ValuesIn(cs[0])] + ValuesOf(cs[1..])
  }

  function ValuesIn<T>(c: Child<T>): Plain<T> { if c.Null? then Nothing else Values(c.target) }

  /** ChangeCounter::set and the constructors: record the count that the new target reports. */
  function Watch<T>(t: Tracked<T>): Child<T> { Checked(Child(t, 0)) }

  /** ChangeCounter::checkChanged: a null target never changes. */
  predicate CheckChanged<T>(c: Child<T>) { c.Child? && Poll(c.target).count != c.seen }

  /** The child after checkChanged. */
  function Checked<T>(c: Child<T>): Child<T> {
    if c.Null? then Null else var u := Poll(c.target); Child(u, u.count)
  }

  /** getChangeCount: the object after the call; its count is what the call returns. */
  function Poll<T>(t: Tracked<T>): Tracked<T>
  {
    Tracked(t.value, if AnyChanged(t.children) then t.count + 1 else t.count, PollAll(t.children))
  }

  predicate AnyChanged<T>(cs: seq<Child<T>>) {
    cs != [] && (CheckChanged(cs[0]) || AnyChanged(cs[1..]))
  }

  function PollAll<T>(cs: seq<Child<T>>): (r: seq<Child<T>>)
    ensures |r| == |cs|
  {
    if cs == [] then [] else [Checked(cs[0])] + PollAll(cs[1..])
  }

  /**
   * The count `seen` was recorded of the object, and nothing since can hide behind it: the object has
   * counted on, or the same is true of the counts that it recorded of its children.
   */
  predicate Sound<T>(t: Tracked<T>, seen: nat) {
    seen <= t.count && (seen == t.count ==> SoundAll(t.children))
  }

  predicate SoundAll<T>(cs: seq<Child<T>>) {
    cs != [] ==> SoundChild(cs[0]) && SoundAll(cs[1..])
  }

  predicate SoundChild<T>(c: Child<T>) { c.Child? ==> Sound(c.target, c.seen) }

  // ----- What may happen to an object, directly or through a reference to one of its children -----

  datatype Op<T> =
    | Look                                                       // getChangeCount
    | Change(value: T, bump: nat, children: seq<Child<T>>)       // a setter: it adds to the change count
    | Within(index: nat, op: Op<T>)                              // one of these on a child

  predicate Changes<T>(op: Op<T>) {
    op.Change? || (op.Within? && Changes(op.op))
  }

  predicate Legal<T>(t: Tracked<T>, op: Op<T>) {
    match op
    case Look => true
    case Change(value, bump, children) => bump > 0
    case Within(i, inner) => i < |t.children| && t.children[i].Child? && Legal(t.children[i].target, inner)
  }

  function Apply<T>(t: Tracked<T>, op: Op<T>): Tracked<T>
    requires Legal(t, op)
  {
    match op
    case Look => Poll(t)
    case Change(value, bump, children) => Tracked(value, t.count + bump, children)
    case Within(i, inner) =>
      var c := t.children[i];
      t.(children := t.children[i := Child(Apply(c.target, inner), c.seen)])
  }

  predicate LegalRun<T>(t: Tracked<T>, ops: seq<Op<T>>)
    decreases ops
  {
    ops != [] ==> Legal(t, ops[0]) && LegalRun(Apply(t, ops[0]), ops[1..])
  }

  function Run<T>(t: Tracked<T>, ops: seq<Op<T>>): Tracked<T>
    requires LegalRun(t, ops)
    decreases ops
  {
    if ops == [] then t else Run(Apply(t, ops[0]), ops[1..])
  }

  // ----- Sequences of children, index by index -----

  lemma {:induction false} AnyChangedAt<T>(cs: seq<Child<T>>)
    ensures AnyChanged(cs) <==> exists i :: 0 <= i < |cs| && CheckChanged(cs[i])
  {
    if cs != [] {
      AnyChangedAt(cs[1..]);
      assert AnyChanged(cs) <==> CheckChanged(cs[0]) || AnyChanged(cs[1..]);
      assert forall i :: 1 <= i < |cs| ==> cs[i] == cs[1..][i - 1];
    }
  }

  /** getChangeCount adds one exactly when some child reports another count than the one seen last. */
  lemma PollCounts<T>(t: Tracked<T>)
    ensures Poll(t).value == t.value
    ensures Poll(t).count == t.count +
              if exists i :: 0 <= i < |t.children| && t.children[i] != Null &&
                             Poll(t.children[i].target).count != t.children[i].seen
              then 1 else 0
  {
    AnyChangedAt(t.children);
    forall i | 0 <= i < |t.children|
      ensures CheckChanged(t.children[i]) <==> t.children[i] != Null && Poll(t.children[i].target).count != t.children[i].seen { }
  }

  lemma {:induction false} SoundAllAt<T>(cs: seq<Child<T>>)
    ensures SoundAll(cs) <==> forall i :: 0 <= i < |cs| ==> SoundChild(cs[i])
  {
    if cs != [] {
      SoundAllAt(cs[1..]);
      assert forall i :: 1 <= i < |cs| ==> cs[i] == cs[1..][i - 1];
    }
  }

  lemma {:induction false} ValuesOfAt<T>(cs: seq<Child<T>>, i: nat)
    requires i < |cs|
    ensures ValuesOf(cs)[i] == ValuesIn(cs[i])
  {
    if i > 0 { ValuesOfAt(cs[1..], i - 1); }
  }

  // ----- getChangeCount leaves nothing to notice and changes no value -----

  lemma {:induction false} PollSettles<T>(t: Tracked<T>)
    ensures Poll(t).count >= t.count
    ensures Values(Poll(t)) == Values(t)
    ensures !AnyChanged(Poll(t).children) && SoundAll(Poll(t).children)
    ensures Poll(Poll(t)) == Poll(t)
  {
    PollAllSettles(t.children);
  }

  lemma {:induction false} PollAllSettles<T>(cs: seq<Child<T>>)
    ensures ValuesOf(PollAll(cs)) == ValuesOf(cs)
    ensures !AnyChanged(PollAll(cs)) && SoundAll(PollAll(cs))
    ensures PollAll(PollAll(cs)) == PollAll(cs)
  {
    if cs != [] {
      CheckedSettles(cs[0]);
      PollAllSettles(cs[1..]);
      assert PollAll(cs)[1..] == PollAll(cs[1..]);
    }
  }

  lemma {:induction false} CheckedSettles<T>(c: Child<T>)
    ensures ValuesIn(Checked(c)) == ValuesIn(c)
    ensures !CheckChanged(Checked(c)) && SoundChild(Checked(c)) && Checked(Checked(c)) == Checked(c)
  {
    if c.Child? { PollSettles(c.target); }
  }

  // ----- No change goes unnoticed -----

  lemma {:induction false} ApplySound<T>(t: Tracked<T>, op: Op<T>, seen: nat)
    requires Sound(t, seen) && Legal(t, op)
    ensures Sound(Apply(t, op), seen)
    decreases op
  {
    match op
    case Look => PollSettles(t);
    case Change(_, _, _) =>
    case Within(i, inner) =>
      if seen == t.count {
        SoundAllAt(t.children);
        ApplySound(t.children[i].target, inner, t.children[i].seen);
        SoundAllAt(Apply(t, op).children);
      }
  }

  /** After a change anywhere in the tree the next count is above the recorded one. */
  lemma {:induction false} ChangeIsNoticed<T>(t: Tracked<T>, op: Op<T>, seen: nat)
    requires Sound(t, seen) && Legal(t, op) && Changes(op)
    ensures Poll(Apply(t, op)).count > seen
    decreases op
  {
    if op.Within? && seen == t.count {
      SoundAllAt(t.children);
      var c := t.children[op.index];
      assert SoundChild(c);
      ChangeIsNoticed(c.target, op.op, c.seen);
      var cs := Apply(t, op).children;
      AnyChangedAt(cs);
      assert CheckChanged(cs[op.index]);
    }
  }

  /** An operation that changes nothing is invisible: the same next count, the same values. */
  lemma {:induction false} LookIsInvisible<T>(t: Tracked<T>, op: Op<T>)
    requires Legal(t, op) && !Changes(op)
    ensures Poll(Apply(t, op)).count == Poll(t).count && Values(Apply(t, op)) == Values(t)
    decreases op
  {
    PollSettles(t);
    if op.Within? {
      LookIsInvisible(t.children[op.index].target, op.op);
      SameChildren(t.children, Apply(t, op).children);
    }
  }

  lemma {:induction false} SameChildren<T>(cs: seq<Child<T>>, ds: seq<Child<T>>)
    requires |cs| == |ds|
    requires forall i :: 0 <= i < |cs| ==> ValuesIn(ds[i]) == ValuesIn(cs[i]) && CheckChanged(ds[i]) == CheckChanged(cs[i])
    ensures ValuesOf(ds) == ValuesOf(cs) && AnyChanged(ds) == AnyChanged(cs)
  {
    if cs != [] { SameChildren(cs[1..], ds[1..]); }
  }

  /** A later operation cannot hide an earlier change. */
  lemma {:induction false} NoticedStays<T>(t: Tracked<T>, op: Op<T>, seen: nat)
    requires Sound(t, seen) && Legal(t, op) && Poll(t).count > seen
    ensures Poll(Apply(t, op)).count > seen
    decreases op
  {
    match op
    case Look => PollSettles(t);
    case Change(_, _, _) =>
    case Within(i, inner) =>
      if seen == t.count {
        SoundAllAt(t.children);
        AnyChangedAt(t.children);
        var k :| 0 <= k < |t.children| && CheckChanged(t.children[k]);
        var c, cs := t.children[k], Apply(t, op).children;
        assert SoundChild(c);
        PollSettles(c.target);
        if k == i { NoticedStays(c.target, inner, c.seen); }
        AnyChangedAt(cs);
        assert CheckChanged(cs[k]);
      }
  }

  /** What one operation can do: be noticed by the next count, or leave that count and the values alone. */
  lemma NoticedOrInvisible<T>(t: Tracked<T>, op: Op<T>, seen: nat)
    requires Sound(t, seen) && Legal(t, op)
    ensures Sound(Apply(t, op), seen)
    ensures Poll(Apply(t, op)).count > seen ||
            (Poll(Apply(t, op)).count == Poll(t).count && Values(Apply(t, op)) == Values(t))
  {
    ApplySound(t, op, seen);
    if Changes(op) { ChangeIsNoticed(t, op, seen); } else { LookIsInvisible(t, op); }
  }

  lemma {:induction false} RunStaysNoticed<T>(t: Tracked<T>, ops: seq<Op<T>>, seen: nat)
    requires Sound(t, seen) && LegalRun(t, ops) && Poll(t).count > seen
    ensures Poll(Run(t, ops)).count > seen
    decreases ops
  {
    if ops != [] {
      ApplySound(t, ops[0], seen);
      NoticedStays(t, ops[0], seen);
      RunStaysNoticed(Apply(t, ops[0]), ops[1..], seen);
    }
  }

  predicate AnyChange<T>(ops: seq<Op<T>>) {
    exists i :: 0 <= i < |ops| && Changes(ops[i])
  }

  lemma {:induction false} RunTells<T>(t: Tracked<T>, ops: seq<Op<T>>, seen: nat)
    requires Sound(t, seen) && Poll(t).count == seen && LegalRun(t, ops)
    ensures Poll(Run(t, ops)).count == seen <==> !AnyChange(ops)
    ensures !AnyChange(ops) ==> Values(Run(t, ops)) == Values(t)
    decreases ops
  {
    if ops != [] {
      var u := Apply(t, ops[0]);
      ApplySound(t, ops[0], seen);
      assert forall i :: 1 <= i < |ops| ==> ops[i] == ops[1..][i - 1];
      if Changes(ops[0]) {
        ChangeIsNoticed(t, ops[0], seen);
        RunStaysNoticed(u, ops[1..], seen);
      } else {
        LookIsInvisible(t, ops[0]);
        RunTells(u, ops[1..], seen);
      }
    }
  }

  /**
   * From one call of getChangeCount to another, on any object, the count stays the same exactly when
   * nothing in the tree was changed, and then every value is what it was.
   */
  lemma CountTellsChanges<T>(t: Tracked<T>, ops: seq<Op<T>>)
    requires LegalRun(Poll(t), ops)
    ensures Poll(Run(Poll(t), ops)).count == Poll(t).count <==> !AnyChange(ops)
    ensures !AnyChange(ops) ==> Values(Run(Poll(t), ops)) == Values(t)
  {
    PollSettles(t);
    RunTells(Poll(t), ops, Poll(t).count);
  }

  // ----- Setting a child that keeps its own count -----

  /**
   * Interest::setForwardingHint. The assignment of a DelegationSet keeps the count of the set that is
   * assigned over, while the count recorded is that of the argument, which may be ahead of it.
   */
  function SetKeepingCount<T>(t: Tracked<T>, i: nat, u: Tracked<T>): Op<T>
    requires i < |t.children| && t.children[i].Child?
  {
    Change(t.value, 1, t.children[i := Child(Tracked(u.value, t.children[i].target.count, u.children), u.count)])
  }

  /** It is a setter like the others, though the count that it records need not be sound. */
  lemma SetKeepingCountIsLegal<T>(t: Tracked<T>, i: nat, u: Tracked<T>)
    requires i < |t.children| && t.children[i].Child?
    ensures Legal(t, SetKeepingCount(t, i, u)) && Changes(SetKeepingCount(t, i, u))
    ensures u.count > t.children[i].target.count ==> !SoundAll(Apply(t, SetKeepingCount(t, i, u)).children)
  {
    var cs := Apply(t, SetKeepingCount(t, i, u)).children;
    SoundAllAt(cs);
    assert cs[i].seen == u.count;
  }

  // ----- Assignment through a reference, where it copies the change count, as that of a Name does -----

  function AssignChild<T>(t: Tracked<T>, i: nat, u: Tracked<T>): Tracked<T>
    requires i < |t.children| && t.children[i].Child?
  {
    t.(children := t.children[i := Child(u, t.children[i].seen)])
  }

  /** The assignment is noticed exactly when the new count differs from the recorded one. */
  lemma AssignmentNoticed<T>(t: Tracked<T>, i: nat, u: Tracked<T>)
    requires !AnyChanged(t.children) && i < |t.children| && t.children[i].Child?
    ensures Poll(AssignChild(t, i, u)).count == t.count <==> Poll(u).count == t.children[i].seen
  {
    var cs := AssignChild(t, i, u).children;
    AnyChangedAt(t.children);
    AnyChangedAt(cs);
    if Poll(u).count != t.children[i].seen { assert CheckChanged(cs[i]); }
    assert forall k :: 0 <= k < |cs| && k != i ==> cs[k] == t.children[k];
  }

  /** No legal run brings the count back to `seen`. */
  ghost predicate AlwaysNoticed<T(!new)>(t: Tracked<T>, seen: nat) {
    forall ops :: LegalRun(t, ops) ==> Poll(Run(t, ops)).count != seen
  }

  /** Changes that bring the count of the assigned object up to the recorded one. */
  function HidingRun<T>(u: Tracked<T>, seen: nat, i: nat, z: T): seq<Op<T>>
    requires Poll(u).count <= seen
  {
    PollSettles(u);
    if Poll(u).count == seen then [] else [Within(i, Change(z, seen - u.count, []))]
  }

  lemma OneOp<T>(t: Tracked<T>, op: Op<T>)
    requires Legal(t, op)
    ensures LegalRun(t, [op]) && Run(t, [op]) == Apply(t, op)
  {
    var u := Apply(t, op);
    assert [op][1..] == [] && LegalRun(u, []) && Run(u, []) == u;
  }

  /** An assigned count that is not ahead of the recorded one can be made to look like it. */
  lemma AssignmentHidden<T>(t: Tracked<T>, i: nat, u: Tracked<T>, z: T)
    requires !AnyChanged(t.children) && i < |t.children| && t.children[i].Child? && Poll(u).count <= t.children[i].seen
    ensures var ops := HidingRun(u, t.children[i].seen, i, z);
            LegalRun(AssignChild(t, i, u), ops) && Poll(Run(AssignChild(t, i, u), ops)).count == t.count
  {
    var seen, v := t.children[i].seen, AssignChild(t, i, u);
    PollSettles(u);
    if Poll(u).count == seen {
      assert LegalRun(v, []) && Run(v, []) == v;
      AssignmentNoticed(t, i, u);
    } else {
      var inner := Change(z, seen - u.count, []);
      var op, w := Within(i, inner), Tracked(z, seen, []);
      assert Legal(u, inner) && Apply(u, inner) == w;
      assert Legal(v, op);
      assert Apply(v, op) == AssignChild(t, i, w);
      OneOp(v, op);
      LeafPoll(z, seen);
      AssignmentNoticed(t, i, w);
    }
  }

  /**
   * Whatever follows an assignment, it is noticed, exactly when the assigned object has counted
   * further than the count recorded of the one assigned over. A count that merely differs is not
   * enough: later changes can bring it up to the recorded one.
   */
  lemma AssignmentOverRuns<T(!new)>(t: Tracked<T>, i: nat, u: Tracked<T>)
    requires SoundAll(t.children) && !AnyChanged(t.children) && SoundAll(u.children)
    requires i < |t.children| && t.children[i].Child?
    ensures AlwaysNoticed(AssignChild(t, i, u), t.count) <==> Poll(u).count > t.children[i].seen
  {
    var seen, v := t.children[i].seen, AssignChild(t, i, u);
    if Poll(u).count > seen {
      assert Sound(v, t.count) by {
        SoundAllAt(t.children);
        SoundAllAt(v.children);
        assert forall k :: 0 <= k < |v.children| && k != i ==> v.children[k] == t.children[k];
      }
      AssignmentNoticed(t, i, u);
      PollSettles(v);
      forall ops | LegalRun(v, ops) ensures Poll(Run(v, ops)).count != t.count { RunStaysNoticed(v, ops, t.count); }
    } else {
      AssignmentHidden(t, i, u, u.value);
    }
  }

  lemma LeafPoll<T>(x: T, n: nat)
    ensures Poll(Tracked(x, n, [])) == Tracked(x, n, [])
  {
    assert PollAll<T>([]) == [];
  }

  /** A list of one child that has no children and no change to report. */
  lemma LeafChild<T>(x: T, n: nat)
    ensures var c := Child(Tracked(x, n, []), n);
            !AnyChanged([c]) && PollAll([c]) == [c] && ValuesOf([c]) == [Plain(x, [])]
  {
    var c := Child(Tracked(x, n, []), n);
    LeafPoll(x, n);
    var rest := [c][1..];
    assert rest == [];
    assert !AnyChanged(rest) && PollAll(rest) == [] && ValuesOf(rest) == [];
    assert !CheckChanged(c) && Checked(c) == c && ValuesIn(c) == Plain(x, []);
  }

  /** Two names with the same number of changes: the assignment of one to the other goes unnoticed. */
  lemma AssignmentUnnoticed<T>(own: T, x: T, y: T, n: nat)
    requires x != y
    ensures var t := Tracked(own, 0, [Watch(Tracked(x, n, []))]);
            var u := AssignChild(t, 0, Tracked(y, n, []));
            Poll(u).count == Poll(t).count && Values(u) != Values(t)
  {
    LeafPoll(x, n);
    LeafChild(x, n);
    LeafChild(y, n);
    assert Plain(x, []) != Plain(y, []);
    assert [Plain(x, [])][0] == Plain(x, []) && [Plain(y, [])][0] == Plain(y, []);
    var u := AssignChild(Tracked(own, 0, [Watch(Tracked(x, n, []))]), 0, Tracked(y, n, []));
    assert u.children == [Child(Tracked(y, n, []), n)];
  }
}
