/** Timer coverage, the order of what is sent, and the connection, in every run of Pending. */
module PendingOrder {
  import opened Bytes
  import opened Matching
  import opened Pending
  import opened PendingRuns

  // ----- Facts about the lists -----

  predicate DistinctIds(s: seq<Entry>) {
    forall i, j :: 0 <= i < j < |s| ==> s[i].id != s[j].id
  }

  lemma {:induction false} KeptMembers(s: seq<Entry>, p: Entry -> bool)
    ensures forall e :: e in Kept(s, p) <==> e in s && !p(e)
  {
    if s != [] { KeptMembers(s[1..], p); }
  }

  lemma {:induction false} KeptSnoc(s: seq<Entry>, e: Entry, p: Entry -> bool)
    ensures Kept(s + [e], p) == Kept(s, p) + if p(e) then [] else [e]
  {
    if s != [] {
      assert (s + [e])[1..] == s[1..] + [e];
      KeptSnoc(s[1..], e, p);
    }
  }

  /** Taking entries out keeps the order of those that stay. */
  lemma {:induction false} KeptConcat(s: seq<Entry>, t: seq<Entry>, p: Entry -> bool)
    ensures Kept(s + t, p) == Kept(s, p) + Kept(t, p)
  {
    if s == [] {
      assert s + t == t && [] + Kept(t, p) == Kept(t, p);
    } else {
      assert (s + t)[1..] == s[1..] + t;
      KeptConcat(s[1..], t, p);
      ThreeParts(if p(s[0]) then [] else [s[0]], Kept(s[1..], p), Kept(t, p));
    }
  }

  /** And turns the order of those that go. */
  lemma {:induction false} TakenConcat(s: seq<Entry>, t: seq<Entry>, p: Entry -> bool)
    ensures Taken(s + t, p) == Taken(t, p) + Taken(s, p)
  {
    if s == [] {
      assert s + t == t && Taken(t, p) + [] == Taken(t, p);
    } else {
      assert (s + t)[1..] == s[1..] + t;
      TakenConcat(s[1..], t, p);
      ThreeParts(Taken(t, p), Taken(s[1..], p), if p(s[0]) then [s[0]] else []);
    }
  }

  lemma ThreeParts(a: seq<Entry>, b: seq<Entry>, c: seq<Entry>)
    ensures a + (b + c) == a + b + c
  {
  }

  lemma OneEntry(e: Entry, p: Entry -> bool)
    ensures Kept([e], p) == (if p(e) then [] else [e]) && Taken([e], p) == (if p(e) then [e] else [])
  {
  }

  lemma {:induction false} KeptSame(s: seq<Entry>, p: Entry -> bool, q: Entry -> bool)
    requires forall e :: e in s ==> p(e) == q(e)
    ensures Kept(s, p) == Kept(s, q)
  {
    if s != [] {
      assert s == [s[0]] + s[1..];
      KeptSame(s[1..], p, q);
    }
  }

  lemma {:induction false} KeptDistinct(s: seq<Entry>, p: Entry -> bool)
    requires DistinctIds(s)
    ensures DistinctIds(Kept(s, p))
  {
    if s != [] {
      KeptDistinct(s[1..], p);
      KeptMembers(s[1..], p);
      assert forall e :: e in s[1..] ==> e.id != s[0].id;
    }
  }

  lemma WithoutMembers(s: seq<Entry>, i: nat)
    requires i < |s| && DistinctIds(s)
    ensures DistinctIds(Without(s, i))
    ensures forall e :: e in Without(s, i) <==> e in s && e != s[i]
  {
    assert s == s[..i] + [s[i]] + s[i + 1..];
    forall e | e in Without(s, i) ensures e in s && e != s[i] {
      var k :| 0 <= k < |Without(s, i)| && Without(s, i)[k] == e;
      assert e == if k < i then s[k] else s[k + 1];
    }
  }

  // ----- Every entry in the table that needs a timer has exactly one -----

  predicate Timed(pit: seq<Entry>, timers: seq<Entry>, handled: seq<Entry>) {
    && DistinctIds(pit)
    && DistinctIds(timers)
    && (forall e :: e in pit ==> e in handled && (NeedsTimer(e) ==> e in timers))
    && (forall e :: e in timers ==> e in handled && NeedsTimer(e))
  }

  lemma AddTimed(pit: seq<Entry>, timers: seq<Entry>, handled: seq<Entry>, e: Entry)
    requires Timed(pit, timers, handled) && !Has(handled, e.id)
    ensures Timed(pit, timers, handled + [e])
    ensures Timed(pit + [e], if NeedsTimer(e) then timers + [e] else timers, handled + [e])
  {
    assert forall x :: x in pit || x in timers ==> x.id != e.id;
  }

  lemma KeptTimed(pit: seq<Entry>, timers: seq<Entry>, handled: seq<Entry>, p: Entry -> bool)
    requires Timed(pit, timers, handled)
    ensures Timed(Kept(pit, p), timers, handled)
  {
    KeptMembers(pit, p);
    KeptDistinct(pit, p);
  }

  lemma FireTimed(s: State, i: nat)
    requires i < |s.timers| && Timed(s.pit, s.timers, s.handled)
    ensures Timed(FireStep(s, i).pit, FireStep(s, i).timers, s.handled)
  {
    var e := s.timers[i];
    WithoutMembers(s.timers, i);
    if e in s.pit {
      var k := RemoveFirstIndex(s.pit, e);
      WithoutMembers(s.pit, k);
    }
  }

  // ----- What is sent -----

  /** Everything goes out but Interests whose name starts with "local" and "timeout", of whatever component types. */
  lemma GoesOutMeans(e: Entry)
    ensures var n := e.selectors.name;
            GoesOut(e) <==> !(|n| >= 2 && n[0].value == BytesOf("local") && n[1].value == BytesOf("timeout"))
  {
    assert BytesOf("local") == TIMEOUT_PREFIX[0].value && BytesOf("timeout") == TIMEOUT_PREFIX[1].value;
  }

  /** What keeps an entry from being sent: its name, or a removal that came first. */
  function HeldBack(removed: set<nat>): Entry -> bool { (e: Entry) => e.id in removed || !GoesOut(e) }

  ghost predicate Ordered(sent: seq<Entry>, handled: seq<Entry>, requests: set<nat>, removed: set<nat>) {
    && sent == Kept(handled, HeldBack(removed))
    && forall id :: !Has(handled, id) ==> (id in requests <==> id in removed)
  }

  lemma HasSnoc(s: seq<Entry>, e: Entry, id: nat)
    ensures Has(s + [e], id) <==> Has(s, id) || e.id == id
  {
    assert e in s + [e];
  }

  lemma HelperOrdered(s: State, e: Entry)
    requires Ordered(s.sent, s.handled, s.removeRequests, s.removedFirst) && !Has(s.handled, e.id)
    ensures var t := Helper(s, e); Ordered(t.sent, t.handled, t.removeRequests, t.removedFirst)
  {
    KeptSnoc(s.handled, e, HeldBack(s.removedFirst));
    forall id ensures Has(s.handled + [e], id) <==> Has(s.handled, id) || e.id == id { HasSnoc(s.handled, e, id); }
  }

  lemma RemoveOrdered(s: State, id: nat)
    requires Ordered(s.sent, s.handled, s.removeRequests, s.removedFirst)
    requires Has(s.pit, id) ==> Has(s.handled, id)
    ensures var t := RemoveStep(s, id); Ordered(t.sent, t.handled, t.removeRequests, t.removedFirst)
  {
    if !Has(s.handled, id) {
      KeptSame(s.handled, HeldBack(s.removedFirst), HeldBack(s.removedFirst + {id}));
    }
  }

  // ----- What is taken out of the table was handled before -----

  predicate Rooted(s: State) {
    && (forall e :: e in s.pit ==> e in s.handled)
    && (forall e :: e in s.dataPending ==> e in s.handled)
  }

  lemma {:induction false} TakenMembers(s: seq<Entry>, p: Entry -> bool)
    ensures forall e :: e in Taken(s, p) <==> e in s && p(e)
  {
    if s != [] { TakenMembers(s[1..], p); }
  }

  lemma DataMembers(s: seq<Entry>, d: Packet)
    ensures forall e :: e in Taken(s, WantsData(d)) <==> e in s && Satisfies(e.selectors, d)
    ensures forall e :: e in Kept(s, WantsData(d)) <==> e in s && !Satisfies(e.selectors, d)
  {
    TakenMembers(s, WantsData(d));
    KeptMembers(s, WantsData(d));
  }

  lemma NackMembers(s: seq<Entry>, encoding: Blob)
    ensures forall e :: e in Taken(s, WantsNack(encoding)) <==> e in s && e.onNack && e.encoding == encoding
    ensures forall e :: e in Kept(s, WantsNack(encoding)) <==> e in s && !(e.onNack && e.encoding == encoding)
  {
    TakenMembers(s, WantsNack(encoding));
    KeptMembers(s, WantsNack(encoding));
  }

  lemma StepRooted(s: State, ev: Event)
    requires Rooted(s) && Legal(s, ev)
    ensures forall e :: e in Step(s, ev).dataPending ==> e in Step(s, ev).handled
  {
    match ev
    case DataIn(d) => TakenMembers(s.pit, WantsData(d));
    case _ =>
  }

  // ----- The connection -----

  predicate Linked(s: State) {
    && s.expressed == s.handled + s.queue
    && (s.queue != [] || s.flushing ==> s.status.Requested?)
    && (s.status.Requested? ==> s.async)
    && (s.async ==> s.finishing == 0 && s.connects == if s.status.Unconnected? then 0 else 1)
  }

  lemma ExpressLinked(s: State, e: Entry)
    requires Linked(s)
    ensures Linked(ExpressStep(s, e))
  {
  }

  lemma FlushLinked(s: State)
    requires Linked(s) && Legal(s, Flush)
    ensures Linked(Step(s, Flush))
  {
    assert s.queue == [s.queue[0]] + s.queue[1..];
  }

  lemma StepLinked(s: State, ev: Event)
    requires Linked(s) && Legal(s, ev)
    ensures Linked(Step(s, ev))
  {
    match ev
    case Express(e) => ExpressLinked(s, e);
    case Flush => FlushLinked(s);
    case _ =>
  }

  // ----- Every reachable state -----

  ghost predicate Invariant(s: State) {
    && (forall id :: Once(s, id))
    && Linked(s)
    && Rooted(s)
    && Timed(s.pit, s.timers, s.handled)
    && Ordered(s.sent, s.handled, s.removeRequests, s.removedFirst)
  }

  /** An entry is handed to expressInterestHelper only once. */
  lemma HandledOnce(s: State, ev: Event)
    requires Legal(s, ev) && Linked(s) && forall id :: Once(s, id)
    ensures forall e :: e in HandledBy(s, ev) ==> !Has(s.handled, e.id)
  {
    if ev.Flush? {
      var e := s.queue[0];
      assert Once(s, e.id);
      CountConcat(s.handled, s.queue, e.id);
      CountHas(s.handled, e.id);
    }
  }

  lemma HelperInvariant(s: State, e: Entry)
    requires Timed(s.pit, s.timers, s.handled) && Ordered(s.sent, s.handled, s.removeRequests, s.removedFirst)
    requires !Has(s.handled, e.id)
    ensures var t := Helper(s, e);
            Timed(t.pit, t.timers, t.handled) && Ordered(t.sent, t.handled, t.removeRequests, t.removedFirst)
  {
    AddTimed(s.pit, s.timers, s.handled, e);
    HelperOrdered(s, e);
  }

  lemma ExpressLists(s: State, e: Entry)
    requires Timed(s.pit, s.timers, s.handled) && Ordered(s.sent, s.handled, s.removeRequests, s.removedFirst)
    requires Legal(s, Express(e)) && (HandledBy(s, Express(e)) == [e] ==> !Has(s.handled, e.id))
    ensures var t := ExpressStep(s, e);
            Timed(t.pit, t.timers, t.handled) && Ordered(t.sent, t.handled, t.removeRequests, t.removedFirst)
  {
    if HandledBy(s, Express(e)) == [e] {
      var t := s.(expressed := s.expressed + [e]);
      HelperInvariant(t, e);
      HelperInvariant(t.(connects := t.connects + 1, finishing := t.finishing + 1), e);
    }
  }

  lemma StepTimed(s: State, ev: Event)
    requires Timed(s.pit, s.timers, s.handled) && Legal(s, ev) && !ev.Express? && !ev.Flush?
    ensures var t := Step(s, ev); Timed(t.pit, t.timers, t.handled)
  {
    match ev
    case DataIn(d) => KeptTimed(s.pit, s.timers, s.handled, WantsData(d));
    case NackIn(b) => KeptTimed(s.pit, s.timers, s.handled, WantsNack(b));
    case Fire(i) => FireTimed(s, i);
    case Remove(id) => KeptTimed(s.pit, s.timers, s.handled, HasId(id));
    case _ =>
  }

  lemma StepOrdered(s: State, ev: Event)
    requires Ordered(s.sent, s.handled, s.removeRequests, s.removedFirst) && Legal(s, ev) && !ev.Express? && !ev.Flush?
    requires forall e :: e in s.pit ==> e in s.handled
    ensures var t := Step(s, ev); Ordered(t.sent, t.handled, t.removeRequests, t.removedFirst)
  {
    if ev.Remove? { RemoveOrdered(s, ev.id); }
  }

  lemma StepLists(s: State, ev: Event)
    requires Invariant(s) && Legal(s, ev)
    ensures var t := Step(s, ev);
            Timed(t.pit, t.timers, t.handled) && Ordered(t.sent, t.handled, t.removeRequests, t.removedFirst)
  {
    if ev.Express? {
      HandledOnce(s, ev);
      ExpressLists(s, ev.entry);
    } else if ev.Flush? {
      HandledOnce(s, ev);
      HelperInvariant(s.(queue := s.queue[1..]), s.queue[0]);
    } else {
      StepTimed(s, ev);
      StepOrdered(s, ev);
    }
  }

  lemma StepInvariant(s: State, ev: Event)
    requires Invariant(s) && Legal(s, ev)
    ensures Invariant(Step(s, ev))
  {
    forall id ensures Once(Step(s, ev), id) { StepOnce(s, ev, id); }
    StepLinked(s, ev);
    StepRooted(s, ev);
    StepLists(s, ev);
  }

  lemma {:induction false} RunInvariant(s: State, evs: seq<Event>)
    requires Invariant(s) && LegalRun(s, evs)
    ensures Invariant(Run(s, evs))
    decreases evs
  {
    if evs != [] {
      StepInvariant(s, evs[0]);
      RunInvariant(Step(s, evs[0]), evs[1..]);
    }
  }

  lemma Reachable(async: bool, evs: seq<Event>)
    requires LegalRun(Initial(async), evs)
    ensures Invariant(Run(Initial(async), evs))
  {
    RunInvariant(Initial(async), evs);
  }

  // ----- Main results -----

  /** In every reachable state an entry in the table with an onTimeout or a lifetime has exactly one timer. */
  lemma TimerCoverage(async: bool, evs: seq<Event>, e: Entry)
    requires LegalRun(Initial(async), evs)
    requires e in Run(Initial(async), evs).pit && (e.onTimeout || e.lifetime >= 0)
    ensures e in Run(Initial(async), evs).timers && Count(Run(Initial(async), evs).timers, e.id) == 1
  {
    Reachable(async, evs);
    CountDistinct(Run(Initial(async), evs).timers, e.id);
    CountHas(Run(Initial(async), evs).timers, e.id);
  }

  lemma {:induction false} CountDistinct(s: seq<Entry>, id: nat)
    requires DistinctIds(s)
    ensures Count(s, id) <= 1
  {
    if s != [] {
      CountDistinct(s[1..], id);
      CountHas(s[1..], id);
      assert forall e :: e in s[1..] ==> e.id != s[0].id;
    }
  }

  /** Only callbacks that exist are called. */
  predicate CallbacksExist(s: State) {
    && (forall e :: e in s.nackPending ==> e.onNack)
    && (forall e :: e in s.gotNack ==> e.onNack)
    && (forall e :: e in s.gotTimeout ==> e.onTimeout)
    && (forall e :: e in s.expired ==> !e.onTimeout)
  }

  lemma StepCallbacks(s: State, ev: Event)
    requires CallbacksExist(s) && Legal(s, ev)
    ensures CallbacksExist(Step(s, ev))
  {
    match ev
    case NackIn(b) => TakenMembers(s.pit, WantsNack(b));
    case DeliverNack(i) => assert s.nackPending[i] in s.nackPending;
    case Express(e) => ExpressCallbacks(s, e);
    case Fire(i) => FireCallbacks(s, i);
    case _ =>
  }

  lemma FireCallbacks(s: State, i: nat)
    requires CallbacksExist(s) && i < |s.timers|
    ensures CallbacksExist(FireStep(s, i))
  {
  }

  lemma ExpressCallbacks(s: State, e: Entry)
    requires CallbacksExist(s)
    ensures CallbacksExist(ExpressStep(s, e))
  {
  }

  /**
   * In every run a Nack takes no entry without an onNetworkNack, which is left to time out, and an
   * entry times out without a call exactly when it has no onTimeout.
   */
  lemma {:induction false} OnlyExistingCallbacks(s: State, evs: seq<Event>)
    requires CallbacksExist(s) && LegalRun(s, evs)
    ensures CallbacksExist(Run(s, evs))
    decreases evs
  {
    if evs != [] {
      StepCallbacks(s, evs[0]);
      OnlyExistingCallbacks(Step(s, evs[0]), evs[1..]);
    }
  }

  function Timeable(): Entry -> bool { (e: Entry) => NeedsTimer(e) }

  /**
   * When all scheduled calls have fired, in whatever order their delays put them, exactly the entries
   * with neither an onTimeout nor a lifetime are left in the table.
   */
  lemma {:induction false} TimersDrain(s: State, evs: seq<Event>)
    requires Timed(s.pit, s.timers, s.handled) && LegalRun(s, evs)
    requires forall ev :: ev in evs ==> ev.Fire?
    requires Run(s, evs).timers == []
    ensures Run(s, evs).pit == Kept(s.pit, (e: Entry) => e.onTimeout || e.lifetime >= 0)
    decreases evs
  {
    if evs == [] {
      KeptAll(s.pit, (e: Entry) => e.onTimeout || e.lifetime >= 0);
    } else {
      var i := evs[0].index;
      FireTimed(s, i);
      FireKeeps(s, i);
      TimersDrain(Step(s, evs[0]), evs[1..]);
      KeptSame(s.pit, Timeable(), (e: Entry) => e.onTimeout || e.lifetime >= 0);
      KeptSame(FireStep(s, i).pit, Timeable(), (e: Entry) => e.onTimeout || e.lifetime >= 0);
    }
  }

  /** A call that fires takes nothing out that has no timer. */
  lemma FireKeeps(s: State, i: nat)
    requires i < |s.timers| && Timed(s.pit, s.timers, s.handled)
    ensures Kept(FireStep(s, i).pit, Timeable()) == Kept(s.pit, Timeable())
    ensures FireStep(s, i).handled == s.handled
  {
    var e := s.timers[i];
    if e in s.pit {
      var k := RemoveFirstIndex(s.pit, e);
      KeptWithout(s.pit, k, Timeable());
    }
  }

  /** Only expressInterestHelper adds to the table. */
  lemma StepShrinks(s: State, ev: Event)
    requires Legal(s, ev) && !ev.Express? && !ev.Flush?
    ensures forall e :: e in Step(s, ev).pit ==> e in s.pit
  {
    match ev
    case DataIn(d) => KeptMembers(s.pit, WantsData(d));
    case NackIn(b) => KeptMembers(s.pit, WantsNack(b));
    case Remove(id) => KeptMembers(s.pit, HasId(id));
    case Fire(i) =>
      if s.timers[i] in s.pit {
        var k := RemoveFirstIndex(s.pit, s.timers[i]);
        assert s.pit == s.pit[..k] + [s.pit[k]] + s.pit[k + 1..];
      }
    case _ =>
  }

  /**
   * With any other events in between, but no new Interest, an end without scheduled calls means that
   * what is left in the table was there before and has neither an onTimeout nor a lifetime.
   */
  lemma {:induction false} DrainedRun(s: State, evs: seq<Event>)
    requires Invariant(s) && LegalRun(s, evs)
    requires forall ev :: ev in evs ==> !ev.Express? && !ev.Flush?
    requires Run(s, evs).timers == []
    ensures forall e :: e in Run(s, evs).pit ==> e in s.pit && !e.onTimeout && e.lifetime < 0
    decreases evs
  {
    if evs != [] {
      StepInvariant(s, evs[0]);
      StepShrinks(s, evs[0]);
      DrainedRun(Step(s, evs[0]), evs[1..]);
    }
  }

  lemma {:induction false} KeptAll(s: seq<Entry>, p: Entry -> bool)
    requires forall e :: e in s ==> !p(e)
    ensures Kept(s, p) == s
  {
    if s != [] { KeptAll(s[1..], p); }
  }

  lemma {:induction false} KeptWithout(s: seq<Entry>, i: nat, p: Entry -> bool)
    requires i < |s| && p(s[i])
    ensures Kept(Without(s, i), p) == Kept(s, p)
  {
    if i == 0 {
      assert Without(s, 0) == s[1..];
    } else {
      assert Without(s, i)[1..] == Without(s[1..], i - 1);
      KeptWithout(s[1..], i - 1, p);
    }
  }

  /**
   * The Interests sent are the expressed ones, in order, without those that were removed before
   * their turn and those under /local/timeout. The ones still queued for the connection are to come.
   */
  lemma SentInOrder(async: bool, evs: seq<Event>)
    requires LegalRun(Initial(async), evs)
    ensures var s := Run(Initial(async), evs);
            && |s.queue| <= |s.expressed|
            && s.sent == Kept(s.expressed[..|s.expressed| - |s.queue|], HeldBack(s.removedFirst))
            && (s.status.Complete? ==> s.sent == Kept(s.expressed, HeldBack(s.removedFirst)))
  {
    Reachable(async, evs);
    var s := Run(Initial(async), evs);
    assert s.expressed[..|s.expressed| - |s.queue|] == s.handled;
    if s.queue == [] { assert s.expressed == s.handled; }
  }

  function Rank(status: Status): nat {
    match status case Unconnected => 0 case Requested => 1 case Complete => 2
  }

  /** The status only moves forward, and with an asynchronous transport it skips no step. */
  lemma StatusAdvances(s: State, ev: Event)
    requires Linked(s) && Legal(s, ev)
    ensures Rank(s.status) <= Rank(Step(s, ev).status)
    ensures s.async ==> Rank(Step(s, ev).status) <= Rank(s.status) + 1
    ensures Step(s, ev).async == s.async
  {
  }

  /** Over every run the status does not go back, and an asynchronous transport does not skip Requested. */
  lemma {:induction false} StatusOverRuns(s: State, evs: seq<Event>)
    requires Linked(s) && LegalRun(s, evs)
    ensures Rank(Run(s, evs).status) >= Rank(s.status)
    ensures s.async && s.status.Unconnected? && Run(s, evs).status.Complete? ==>
              exists i :: 0 <= i <= |evs| && PassesRequested(s, evs, i)
    decreases evs
  {
    if evs != [] {
      var t := Step(s, evs[0]);
      StepLinked(s, evs[0]);
      StatusAdvances(s, evs[0]);
      StatusOverRuns(t, evs[1..]);
      if s.async && s.status.Unconnected? && Run(s, evs).status.Complete? {
        if t.status.Requested? {
          OneStep(s, evs, 0);
        } else {
          var i :| 0 <= i <= |evs| - 1 && PassesRequested(t, evs[1..], i);
          OneStep(s, evs, i);
        }
      }
    }
  }

  /** After the first `i` events the status is Requested. */
  predicate PassesRequested(s: State, evs: seq<Event>, i: nat) {
    i <= |evs| && LegalRun(s, evs[..i]) && Run(s, evs[..i]).status.Requested?
  }

  lemma OneStep(s: State, evs: seq<Event>, i: nat)
    requires evs != [] && i < |evs| && Legal(s, evs[0]) && Step(s, evs[0]).async == s.async
    requires PassesRequested(Step(s, evs[0]), evs[1..], i) || (i == 0 && Step(s, evs[0]).status.Requested?)
    ensures PassesRequested(s, evs, i + 1)
  {
    var t, rest := Step(s, evs[0]), evs[1..][..i];
    assert evs[..i + 1][1..] == rest && evs[..i + 1][0] == evs[0];
    if i == 0 { assert rest == [] && LegalRun(t, []) && Run(t, []) == t; }
  }

  /** With an asynchronous transport a connection is requested at most once, and for the first Interest. */
  lemma ConnectsOnce(evs: seq<Event>)
    requires LegalRun(Initial(true), evs)
    ensures var s := Run(Initial(true), evs);
            && s.connects == (if s.expressed == [] then 0 else 1)
            && (s.status.Unconnected? <==> s.expressed == [])
  {
    RunConnects(Initial(true), evs);
  }

  lemma {:induction false} RunConnects(s: State, evs: seq<Event>)
    requires Linked(s) && s.async && LegalRun(s, evs) && (s.status.Unconnected? <==> s.expressed == [])
    ensures var t := Run(s, evs); Linked(t) && t.async && (t.status.Unconnected? <==> t.expressed == [])
    decreases evs
  {
    if evs != [] {
      StepLinked(s, evs[0]);
      StepStarts(s, evs[0]);
      RunConnects(Step(s, evs[0]), evs[1..]);
    }
  }

  lemma StepStarts(s: State, ev: Event)
    requires Linked(s) && s.async && Legal(s, ev) && (s.status.Unconnected? <==> s.expressed == [])
    ensures var t := Step(s, ev); t.async && (t.status.Unconnected? <==> t.expressed == [])
  {
    match ev
    case Express(e) => ExpressStarts(s, e);
    case _ => StepExpressed(s, ev);
  }

  lemma ExpressStarts(s: State, e: Entry)
    requires s.async
    ensures var t := ExpressStep(s, e); t.async && !t.status.Unconnected? && t.expressed != []
  {
  }
}
