/** The nonce of an Interest (include/ndn-ind/interest.hpp, Interest::refreshNonce, Node::expressInterest). */
module Nonces {
  import opened Bytes
  import opened ChangeCounts

  /** An Interest: its fields with their change counts, the nonce, and the count when it was last set or checked. */
  datatype State<T> = State(fields: Tracked<T>, nonce: Blob, nonceCount: nat)

  datatype Event<T> =
    | Touch(op: Op<T>)             // a setter, a change to a child, or getChangeCount
    | SetNonce(nonce: Blob)
    | GetNonce
    | RefreshNonce(drawn: Blob)    // with the random bytes that were accepted
    | Decode(change: Op<T>, nonce: Blob)    // Interest::set: all fields are set anew, and then the nonce

  function Initial<T>(fields: Tracked<T>): State<T> { State(fields, [], 0) }

  function AfterSet<T>(s: State<T>, n: Blob): State<T> {
    var t := Poll(s.fields.(count := s.fields.count + 1));
    State(t, n, t.count)
  }

  /** Interest::set stores the nonce and records the count without adding to it. */
  function AfterDecode<T>(s: State<T>, change: Op<T>, n: Blob): State<T>
    requires Legal(s.fields, change)
  {
    var t := Poll(Apply(s.fields, change));
    State(t, n, t.count)
  }

  function AfterGet<T>(s: State<T>): State<T> {
    var t := Poll(s.fields);
    if s.nonceCount != t.count then State(t, [], t.count) else s.(fields := t)
  }

  function AfterRefresh<T>(s: State<T>, drawn: Blob): State<T> {
    var g := AfterGet(s);
    if g.nonce == [] then g else AfterSet(g, drawn)
  }

  predicate LegalEvent<T>(s: State<T>, e: Event<T>) {
    match e
    case Touch(op) => Legal(s.fields, op)
    case Decode(change, _) => change.Change? && Legal(s.fields, change)
    case RefreshNonce(drawn) => AfterGet(s).nonce == [] || (|drawn| == |AfterGet(s).nonce| && drawn != AfterGet(s).nonce)
    case _ => true
  }

  function Step<T>(s: State<T>, e: Event<T>): State<T>
    requires LegalEvent(s, e)
  {
    match e
    case Touch(op) => s.(fields := Apply(s.fields, op))
    case SetNonce(n) => AfterSet(s, n)
    case GetNonce => AfterGet(s)
    case RefreshNonce(drawn) => AfterRefresh(s, drawn)
    case Decode(change, n) => AfterDecode(s, change, n)
  }

  predicate LegalEvents<T>(s: State<T>, es: seq<Event<T>>)
    decreases es
  {
    es != [] ==> LegalEvent(s, es[0]) && LegalEvents(Step(s, es[0]), es[1..])
  }

  function RunEvents<T>(s: State<T>, es: seq<Event<T>>): State<T>
    requires LegalEvents(s, es)
    decreases es
  {
    if es == [] then s else RunEvents(Step(s, es[0]), es[1..])
  }

  /** What the nonce should be after the events, when it was `n` before: a change empties it. */
  function Expected<T>(n: Blob, es: seq<Event<T>>): Blob
    decreases es
  {
    if es == [] then n else Expected(ExpectedAfter(n, es[0]), es[1..])
  }

  function ExpectedAfter<T>(n: Blob, e: Event<T>): Blob {
    match e
    case Touch(op) => if Changes(op) then [] else n
    case SetNonce(m) => m
    case GetNonce => n
    case RefreshNonce(drawn) => if n == [] then [] else drawn
    case Decode(_, m) => m
  }

  /** The state holds the nonce `n`, if only behind a count that tells that it is out of date. */
  predicate HoldsNonce<T>(s: State<T>, n: Blob) {
    && (s.nonce != [] ==> Sound(s.fields, s.nonceCount))
    && n == if s.nonceCount == Poll(s.fields).count then s.nonce else []
  }

  lemma StepHolds<T>(s: State<T>, n: Blob, e: Event<T>)
    requires HoldsNonce(s, n) && LegalEvent(s, e)
    ensures HoldsNonce(Step(s, e), ExpectedAfter(n, e))
  {
    match e
    case Touch(op) =>
      if s.nonce != [] { ApplySound(s.fields, op, s.nonceCount); }
      if !Changes(op) { LookIsInvisible(s.fields, op); }
      else if s.nonce != [] { ChangeIsNoticed(s.fields, op, s.nonceCount); }
    case SetNonce(m) => SetHolds(s, m);
    case GetNonce => PollSettles(s.fields);
    case RefreshNonce(drawn) =>
      PollSettles(s.fields);
      if AfterGet(s).nonce != [] { SetHolds(AfterGet(s), drawn); }
    case Decode(change, _) => PollSettles(Apply(s.fields, change));
  }

  lemma SetHolds<T>(s: State<T>, n: Blob)
    ensures HoldsNonce(AfterSet(s, n), n)
  {
    PollSettles(s.fields.(count := s.fields.count + 1));
  }

  lemma {:induction false} RunHolds<T>(s: State<T>, n: Blob, es: seq<Event<T>>)
    requires HoldsNonce(s, n) && LegalEvents(s, es)
    ensures HoldsNonce(RunEvents(s, es), Expected(n, es))
    decreases es
  {
    if es != [] {
      StepHolds(s, n, es[0]);
      RunHolds(Step(s, es[0]), ExpectedAfter(n, es[0]), es[1..]);
    }
  }

  /** In every run on one Interest, getNonce returns what is expected of the events so far. */
  lemma GetNonceIsExpected<T>(fields: Tracked<T>, es: seq<Event<T>>)
    requires LegalEvents(Initial(fields), es)
    ensures AfterGet(RunEvents(Initial(fields), es)).nonce == Expected([], es)
  {
    RunHolds(Initial(fields), [], es);
    PollSettles(RunEvents(Initial(fields), es).fields);
  }

  predicate QuietSince<T>(es: seq<Event<T>>) {
    forall i :: 0 <= i < |es| ==> es[i].GetNonce? || (es[i].Touch? && !Changes(es[i].op))
  }

  lemma {:induction false} ExpectedConcat<T>(n: Blob, es: seq<Event<T>>, fs: seq<Event<T>>)
    ensures Expected(n, es + fs) == Expected(Expected(n, es), fs)
    decreases es
  {
    if es == [] {
      assert es + fs == fs;
    } else {
      assert (es + fs)[1..] == es[1..] + fs;
      ExpectedConcat(ExpectedAfter(n, es[0]), es[1..], fs);
    }
  }

  lemma {:induction false} EmptyStaysEmpty<T>(es: seq<Event<T>>)
    requires forall i :: 0 <= i < |es| ==> es[i].Touch? || es[i].GetNonce?
    ensures Expected([], es) == []
  {
    if es != [] { EmptyStaysEmpty(es[1..]); }
  }

  lemma {:induction false} ExpectedSince<T>(n: Blob, es: seq<Event<T>>)
    requires forall i :: 0 <= i < |es| ==> es[i].Touch? || es[i].GetNonce?
    ensures Expected(n, es) == if QuietSince(es) then n else []
    decreases es
  {
    if es != [] {
      assert QuietSince(es) <==> QuietSince(es[..1]) && QuietSince(es[1..]) by { assert es == es[..1] + es[1..]; }
      if ExpectedAfter(n, es[0]) == n && QuietSince(es[..1]) {
        ExpectedSince(n, es[1..]);
      } else {
        EmptyStaysEmpty(es[1..]);
      }
    }
  }

  /**
   * After a nonce is set, getNonce returns it exactly when no field and no child has changed since,
   * and otherwise it returns an empty one.
   */
  lemma NonceSinceSet<T>(fields: Tracked<T>, before: seq<Event<T>>, n: Blob, since: seq<Event<T>>)
    requires LegalEvents(Initial(fields), before + [SetNonce(n)] + since)
    requires forall i :: 0 <= i < |since| ==> since[i].Touch? || since[i].GetNonce?
    ensures AfterGet(RunEvents(Initial(fields), before + [SetNonce(n)] + since)).nonce ==
            if QuietSince(since) then n else []
  {
    GetNonceIsExpected(fields, before + [SetNonce(n)] + since);
    ExpectedConcat([], before + [SetNonce(n)], since);
    ExpectedConcat([], before, [SetNonce(n)]);
    assert Expected<T>(Expected([], before), [SetNonce(n)]) == n;
    ExpectedSince(n, since);
  }

  // ----- Copies -----

  /** The last child of an Interest is its link, which a copy does not share: its count is recorded anew. */
  function Rewatched<T>(c: Child<T>): Child<T> { if c.Null? then Null else Watch(c.target) }

  function CopiedChildren<T>(cs: seq<Child<T>>): seq<Child<T>>
    requires cs != []
  {
    cs[..|cs| - 1] + [Rewatched(cs[|cs| - 1])]
  }

  /**
   * The copy constructor restarts the own count and the nonce count at zero and takes the nonce as it
   * is stored. It asks for the change count of the copy at the end, for its encoding.
   */
  function Copied<T>(s: State<T>): State<T>
    requires s.fields.children != []
  {
    State(Poll(Tracked(s.fields.value, 0, CopiedChildren(s.fields.children))), s.nonce, 0)
  }

  lemma CopyChanged<T>(cs: seq<Child<T>>)
    requires cs != []
    ensures AnyChanged(CopiedChildren(cs)) == AnyChanged(cs[..|cs| - 1])
  {
    var k := |cs| - 1;
    var ds, link := CopiedChildren(cs), Rewatched(cs[k]);
    if cs[k].Child? { CheckedSettles(Child(cs[k].target, 0)); }
    assert !CheckChanged(link);
    AnyChangedAt(ds);
    AnyChangedAt(cs[..k]);
    assert forall i :: 0 <= i < k ==> ds[i] == cs[..k][i];
  }

  /**
   * A copy forgets that an own field or the link changed. It starts with the right nonce, and so has
   * it in every later run, exactly when another child still has a change to report, the stored nonce
   * is empty, or nothing has changed at all.
   */
  lemma CopyHolds<T>(s: State<T>, n: Blob)
    requires HoldsNonce(s, n) && s.fields.children != []
    ensures var cs := s.fields.children;
            HoldsNonce(Copied(s), n) <==>
            AnyChanged(cs[..|cs| - 1]) || s.nonce == [] || s.nonceCount == Poll(s.fields).count
  {
    var cs := s.fields.children;
    CopyChanged(cs);
    PollSettles(Tracked(s.fields.value, 0, CopiedChildren(cs)));
    PollSettles(s.fields);
    if AnyChanged(cs[..|cs| - 1]) {
      AnyChangedAt(cs);
      AnyChangedAt(cs[..|cs| - 1]);
    }
  }

  /** What the first getNonce on a copy returns. */
  lemma CopyGets<T>(s: State<T>)
    requires s.fields.children != []
    ensures var cs := s.fields.children;
            AfterGet(Copied(s)).nonce == if AnyChanged(cs[..|cs| - 1]) then [] else s.nonce
  {
    CopyChanged(s.fields.children);
    PollSettles(Tracked(s.fields.value, 0, CopiedChildren(s.fields.children)));
  }

  /** The copy's own runs, when it starts right. */
  lemma CopyRuns<T>(s: State<T>, n: Blob, es: seq<Event<T>>)
    requires s.fields.children != [] && HoldsNonce(Copied(s), n) && LegalEvents(Copied(s), es)
    ensures AfterGet(RunEvents(Copied(s), es)).nonce == Expected(n, es)
  {
    RunHolds(Copied(s), n, es);
    PollSettles(RunEvents(Copied(s), es).fields);
  }

  lemma TwoEvents<T>(s: State<T>, a: Event<T>, b: Event<T>)
    requires LegalEvent(s, a) && LegalEvent(Step(s, a), b)
    ensures LegalEvents(s, [a, b]) && RunEvents(s, [a, b]) == Step(Step(s, a), b)
    ensures Expected([], [a, b]) == ExpectedAfter(ExpectedAfter([], a), b)
  {
    var t := Step(s, a);
    var u := Step(t, b);
    assert [a, b][1..] == [b] && [b][1..] == [];
    assert LegalEvents(u, []) && RunEvents(u, []) == u;
    assert LegalEvents(t, [b]) && RunEvents(t, [b]) == u;
    assert Expected<T>(ExpectedAfter(ExpectedAfter([], a), b), []) == ExpectedAfter(ExpectedAfter([], a), b);
    assert Expected<T>(ExpectedAfter([], a), [b]) == ExpectedAfter(ExpectedAfter([], a), b);
  }

  /** An Interest whose own field is set after the nonce: the nonce is gone, but its copy still has it. */
  lemma CopyAfterSetter<T>(a: T, b: T, n: Blob)
    requires n != []
    ensures var s := Initial(Tracked(a, 0, [Null]));
            var es := [SetNonce(n), Touch(Change(b, 1, [Null]))];
            && LegalEvents(s, es)
            && Expected([], es) == []
            && RunEvents(s, es).fields.children != []
            && AfterGet(Copied(RunEvents(s, es))).nonce == n
  {
    var s: State<T> := Initial(Tracked(a, 0, [Null]));
    TwoEvents(s, SetNonce(n), Touch(Change(b, 1, [Null])));
    assert !AnyChanged<T>([Null][..0]);
    CopyGets(RunEvents(s, [SetNonce(n), Touch(Change(b, 1, [Null]))]));
  }

  /** The same after a change to the link, though the link is a child like the others. */
  lemma CopyAfterLinkChange<T>(a: T, link: T, other: T, n: Blob)
    requires n != []
    ensures var s := Initial(Tracked(a, 0, [Child(Tracked(link, 0, []), 0)]));
            var es := [SetNonce(n), Touch(Within(0, Change(other, 1, [])))];
            && LegalEvents(s, es)
            && Expected([], es) == []
            && RunEvents(s, es).fields.children != []
            && AnyChanged(RunEvents(s, es).fields.children)
            && AfterGet(Copied(RunEvents(s, es))).nonce == n
  {
    var c := Child(Tracked(link, 0, []), 0);
    var s := Initial(Tracked(a, 0, [c]));
    var op := Within(0, Change(other, 1, []));
    LeafChild(link, 0);
    assert AfterSet(s, n) == State(Tracked(a, 1, [c]), n, 1);
    TwoEvents(s, SetNonce(n), Touch(op));
    var u := Child(Tracked(other, 1, []), 0);
    var t := Tracked(a, 1, [c]);
    assert Legal(c.target, op.op) && Legal(t, op) && Changes(op.op) && Changes(op);
    assert Apply(c.target, op.op) == Tracked(other, 1, []);
    assert Apply(t, op) == Tracked(a, 1, [c][0 := u]);
    assert [c][0 := u] == [u];
    assert RunEvents(s, [SetNonce(n), Touch(op)]).fields.children == [u];
    LeafPoll(other, 1);
    assert CheckChanged(u) && AnyChanged([u]);
    CopyGets(RunEvents(s, [SetNonce(n), Touch(op)]));
    assert [u][..0] == [] && !AnyChanged<T>([]);
  }

  // ----- The object -----

  class Interest<T> {
    var fields: Tracked<T>
    var nonce: Blob
    var nonceCount: nat

    ghost function Abstract(): State<T>
      reads this
    {
      State(fields, nonce, nonceCount)
    }

    constructor (fields: Tracked<T>)
      ensures Abstract() == Initial(fields)
    {
      this.fields, nonce, nonceCount := fields, [], 0;
    }

    /** The copy constructor. It asks the other Interest for its encoding, and so for its change count. */
    constructor Copy(other: Interest<T>)
      requires other.fields.children != []
      modifies other
      ensures Abstract() == Copied(old(other.Abstract()))
      ensures other.Abstract() == Step(old(other.Abstract()), Touch(Look))
    {
      var t := Tracked(other.fields.value, 0, CopiedChildren(other.fields.children));
      nonce, nonceCount := other.nonce, 0;
      fields := Poll(t);
      new;
      other.fields := Poll(other.fields);
    }

    /** setForwardingHint for the child at `i`. */
    method SetForwardingHint(i: nat, hint: Tracked<T>)
      requires i < |fields.children| && fields.children[i].Child?
      modifies this
      ensures var op := SetKeepingCount(old(fields), i, hint);
              LegalEvent(old(Abstract()), Touch(op)) && Abstract() == Step(old(Abstract()), Touch(op))
    {
      var kept := fields.children[i].target.count;
      fields := fields.(children := fields.children[i := Child(Tracked(hint.value, kept, hint.children), hint.count)]);
      fields := fields.(count := fields.count + 1);
    }

    /** Interest::set. */
    method SetFields(change: Op<T>, n: Blob)
      requires LegalEvent(Abstract(), Decode(change, n))
      modifies this
      ensures Abstract() == Step(old(Abstract()), Decode(change, n))
      ensures nonce == n && nonceCount == fields.count && fields == Poll(Apply(old(fields), change))
    {
      fields := Apply(fields, change);
      nonce := n;
      fields := Poll(fields);
      nonceCount := fields.count;
    }

    method ReadNonce() returns (r: Blob)
      modifies this
      ensures Abstract() == Step(old(Abstract()), GetNonce) && r == nonce
      ensures r == if old(nonceCount) == Poll(old(fields)).count then old(nonce) else []
      ensures nonceCount == fields.count && fields == Poll(old(fields))
    {
      PollSettles(fields);
      fields := Poll(fields);
      if nonceCount != fields.count {
        nonce := [];
        fields := Poll(fields);
        nonceCount := fields.count;
      }
      return nonce;
    }

    method WriteNonce(n: Blob)
      modifies this
      ensures Abstract() == Step(old(Abstract()), SetNonce(n))
      ensures nonce == n && nonceCount == fields.count > old(fields.count) && Values(fields) == Values(old(fields))
    {
      PollSettles(fields.(count := fields.count + 1));
      nonce := n;
      fields := Poll(fields.(count := fields.count + 1));
      nonceCount := fields.count;
    }

    /** refreshNonce: draw random bytes until they differ from the current nonce. */
    method Refresh(draws: seq<Blob>) returns (ghost drawn: Blob)
      requires AfterGet(Abstract()).nonce != [] ==>
                 && (forall d :: d in draws ==> |d| == |AfterGet(Abstract()).nonce|)
                 && exists d :: d in draws && d != AfterGet(Abstract()).nonce
      modifies this
      ensures LegalEvent(old(Abstract()), RefreshNonce(drawn))
      ensures Abstract() == Step(old(Abstract()), RefreshNonce(drawn))
      ensures old(AfterGet(Abstract()).nonce) != [] ==> drawn in draws && nonce == drawn != old(AfterGet(Abstract()).nonce)
      ensures old(AfterGet(Abstract()).nonce) == [] ==> nonce == []
    {
      var current := ReadNonce();
      if |current| == 0 { return []; }
      var i := 0;
      while draws[i] == current
        invariant 0 <= i < |draws| && Abstract() == AfterGet(old(Abstract()))
        invariant exists k :: i <= k < |draws| && draws[k] != current
        decreases |draws| - i
      {
        i := i + 1;
      }
      drawn := draws[i];
      nonce := draws[i];
      fields := Poll(fields.(count := fields.count + 1));
      nonceCount := fields.count;
    }

    /** The start of expressInterest: an Interest without a nonce gets one of four random bytes. */
    method EnsureNonce(draws: seq<Blob>)
      requires forall d :: d in draws ==> |d| == 4
      requires exists d :: d in draws && d != [0, 0, 0, 0]
      modifies this
      ensures AfterGet(Abstract()).nonce == nonce != []
      ensures old(AfterGet(Abstract()).nonce) != [] ==> nonce == old(nonce)
      ensures old(AfterGet(Abstract()).nonce) == [] ==> |nonce| == 4 && nonce != [0, 0, 0, 0]
    {
      PollSettles(fields);
      var current := ReadNonce();
      if |current| == 0 {
        ghost var s := Abstract();
        WriteNonce([0, 0, 0, 0]);
        SetHolds(s, [0, 0, 0, 0]);
        var drawn := Refresh(draws);
        SetHolds(AfterGet(AfterSet(s, [0, 0, 0, 0])), drawn);
      }
    }
  }
}
