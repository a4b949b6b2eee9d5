/** What holds in every state that Pending can reach. */
module PendingRuns {
  import opened Pending

  // ----- Conservation: whatever is counted over the places is what was counted when expressed -----

  type Measure = seq<Entry> -> nat

  ghost predicate Additive(c: Measure) {
    c([]) == 0 && forall x, y :: c(x + y) == c(x) + c(y)
  }

  function Called(s: State, c: Measure): nat { c(s.gotData) + c(s.gotNack) + c(s.gotTimeout) }

  function Extracted(s: State, c: Measure): nat { c(s.dataPending) + c(s.nackPending) }

  function Dropped(s: State, c: Measure): nat { c(s.refused) + c(s.cancelled) + c(s.expired) }

  function Total(s: State, c: Measure): nat {
    c(s.queue) + c(s.pit) + Extracted(s, c) + Called(s, c) + Dropped(s, c)
  }

  lemma {:induction false} SplitMeasure(s: seq<Entry>, p: Entry -> bool, c: Measure)
    requires Additive(c)
    ensures c(Kept(s, p)) + c(Taken(s, p)) == c(s)
  {
    if s != [] {
      SplitMeasure(s[1..], p, c);
      assert s == [s[0]] + s[1..];
    }
  }

  lemma WithoutMeasure(s: seq<Entry>, i: nat, c: Measure)
    requires Additive(c) && i < |s|
    ensures c(Without(s, i)) + c([s[i]]) == c(s)
  {
    assert s == s[..i] + ([s[i]] + s[i + 1..]);
  }

  lemma {:induction false} RemoveFirstIndex(s: seq<Entry>, e: Entry) returns (i: nat)
    requires e in s
    ensures i < |s| && s[i] == e && RemoveFirst(s, e) == Without(s, i)
  {
    if s[0] == e { return 0; }
    assert s == [s[0]] + s[1..];
    var k := RemoveFirstIndex(s[1..], e);
    return k + 1;
  }

  lemma HelperTotal(s: State, e: Entry, c: Measure)
    requires Additive(c)
    ensures Total(Helper(s, e), c) == Total(s, c) + c([e])
  {
  }

  lemma ExpressTotal(s: State, e: Entry, c: Measure)
    requires Additive(c)
    ensures Total(ExpressStep(s, e), c) == Total(s, c) + c([e])
  {
    var t := s.(expressed := s.expressed + [e]);
    HelperTotal(t, e, c);
    HelperTotal(t.(connects := t.connects + 1, finishing := t.finishing + 1), e, c);
  }

  lemma FireTotal(s: State, i: nat, c: Measure)
    requires Additive(c) && i < |s.timers|
    ensures Total(FireStep(s, i), c) == Total(s, c)
  {
    var e := s.timers[i];
    if e in s.pit {
      var k := RemoveFirstIndex(s.pit, e);
      WithoutMeasure(s.pit, k, c);
    }
  }

  lemma FlushTotal(s: State, c: Measure)
    requires Additive(c) && Legal(s, Flush)
    ensures Total(Step(s, Flush), c) == Total(s, c)
  {
    HelperTotal(s.(queue := s.queue[1..]), s.queue[0], c);
    assert s.queue == [s.queue[0]] + s.queue[1..];
  }

  lemma ExtractTotal(s: State, ev: Event, c: Measure)
    requires Additive(c) && (ev.DataIn? || ev.NackIn? || ev.Remove?)
    ensures Total(Step(s, ev), c) == Total(s, c)
  {
    match ev
    case DataIn(d) => SplitMeasure(s.pit, WantsData(d), c);
    case NackIn(b) => SplitMeasure(s.pit, WantsNack(b), c);
    case Remove(k) => SplitMeasure(s.pit, HasId(k), c);
  }

  lemma DeliverTotal(s: State, ev: Event, c: Measure)
    requires Additive(c) && Legal(s, ev) && (ev.DeliverData? || ev.DeliverNack?)
    ensures Total(Step(s, ev), c) == Total(s, c)
  {
    match ev
    case DeliverData(i) => WithoutMeasure(s.dataPending, i, c);
    case DeliverNack(i) => WithoutMeasure(s.nackPending, i, c);
  }

  lemma StepTotal(s: State, ev: Event, c: Measure)
    requires Additive(c) && Legal(s, ev)
    ensures Total(Step(s, ev), c) == Total(s, c) + if ev.Express? then c([ev.entry]) else 0
  {
    match ev
    case Express(e) => ExpressTotal(s, e, c);
    case Flush => FlushTotal(s, c);
    case DataIn(_) => ExtractTotal(s, ev, c);
    case NackIn(_) => ExtractTotal(s, ev, c);
    case Remove(_) => ExtractTotal(s, ev, c);
    case DeliverData(_) => DeliverTotal(s, ev, c);
    case DeliverNack(_) => DeliverTotal(s, ev, c);
    case Fire(i) => FireTotal(s, i, c);
    case _ =>
  }

  // ----- Counting the entries with one id -----

  function Count(s: seq<Entry>, id: nat): nat {
    if s == [] then 0 else (if s[0].id == id then 1 else 0) + Count(s[1..], id)
  }

  function Counter(id: nat): Measure { (s: seq<Entry>) => Count(s, id) }

  lemma {:induction false} CountConcat(s: seq<Entry>, t: seq<Entry>, id: nat)
    ensures Count(s + t, id) == Count(s, id) + Count(t, id)
  {
    if s == [] {
      assert s + t == t;
    } else {
      assert (s + t)[1..] == s[1..] + t;
      CountConcat(s[1..], t, id);
    }
  }

  lemma CounterAdditive(id: nat)
    ensures Additive(Counter(id))
  {
    forall x, y ensures Counter(id)(x + y) == Counter(id)(x) + Counter(id)(y) { CountConcat(x, y, id); }
  }

  lemma {:induction false} CountHas(s: seq<Entry>, id: nat)
    ensures Count(s, id) > 0 <==> Has(s, id)
  {
    if s != [] {
      assert s == [s[0]] + s[1..];
      CountHas(s[1..], id);
    }
  }

  predicate Once(s: State, id: nat) { Total(s, Counter(id)) == Count(s.expressed, id) <= 1 }

  lemma StepExpressed(s: State, ev: Event)
    requires Legal(s, ev)
    ensures Step(s, ev).expressed == if ev.Express? then s.expressed + [ev.entry] else s.expressed
  {
  }

  lemma StepOnce(s: State, ev: Event, id: nat)
    requires Once(s, id) && Legal(s, ev)
    ensures Once(Step(s, ev), id)
  {
    CounterAdditive(id);
    StepTotal(s, ev, Counter(id));
    StepExpressed(s, ev);
    if ev.Express? {
      CountConcat(s.expressed, [ev.entry], id);
      CountHas(s.expressed, id);
    }
  }

  lemma {:induction false} RunOnce(s: State, evs: seq<Event>, id: nat)
    requires Once(s, id) && LegalRun(s, evs)
    ensures Once(Run(s, evs), id)
    decreases evs
  {
    if evs != [] {
      StepOnce(s, evs[0], id);
      RunOnce(Step(s, evs[0]), evs[1..], id);
    }
  }

  /**
   * In every run, each expressed id is in exactly one place: queued, in the table, taken out,
   * called back or dropped. So at most one of its callbacks is called, at most once.
   */
  lemma ExactlyOnePlace(async: bool, evs: seq<Event>, id: nat)
    requires LegalRun(Initial(async), evs)
    ensures var s := Run(Initial(async), evs);
            && Total(s, Counter(id)) == (if Has(s.expressed, id) then 1 else 0)
            && Called(s, Counter(id)) <= 1
  {
    RunOnce(Initial(async), evs, id);
    CountHas(Run(Initial(async), evs).expressed, id);
  }

  // ----- A removed Interest is never called back -----

  /** The entries that are in the table, taken out of it or called back. */
  function Live(s: State, c: Measure): nat { c(s.pit) + Extracted(s, c) + Called(s, c) }

  /** The entry that a step hands to expressInterestHelper, if any. */
  function HandledBy(s: State, ev: Event): seq<Entry>
    requires Legal(s, ev)
  {
    if ev.Flush? then [s.queue[0]]
    else if ev.Express? && (s.status.Complete? || !s.async) then [ev.entry]
    else []
  }

  /** And whether it enters the table. */
  function AddedBy(s: State, ev: Event): seq<Entry>
    requires Legal(s, ev)
  {
    var h := HandledBy(s, ev);
    if h != [] && h[0].id in s.removeRequests then [] else h
  }

  lemma ExpressLive(s: State, e: Entry, c: Measure)
    requires Additive(c) && Legal(s, Express(e))
    ensures Live(ExpressStep(s, e), c) <= Live(s, c) + c(AddedBy(s, Express(e)))
    ensures Dropped(ExpressStep(s, e), c) >= Dropped(s, c)
    ensures Called(ExpressStep(s, e), c) == Called(s, c)
  {
  }

  lemma StepLive(s: State, ev: Event, c: Measure)
    requires Additive(c) && Legal(s, ev)
    ensures Live(Step(s, ev), c) <= Live(s, c) + c(AddedBy(s, ev))
  {
    match ev
    case Express(e) => ExpressLive(s, e, c);
    case DataIn(d) => SplitMeasure(s.pit, WantsData(d), c);
    case NackIn(b) => SplitMeasure(s.pit, WantsNack(b), c);
    case DeliverData(i) => WithoutMeasure(s.dataPending, i, c);
    case DeliverNack(i) => WithoutMeasure(s.nackPending, i, c);
    case Fire(i) =>
      if s.timers[i] in s.pit {
        var k := RemoveFirstIndex(s.pit, s.timers[i]);
        WithoutMeasure(s.pit, k, c);
      }
    case Remove(k) => SplitMeasure(s.pit, HasId(k), c);
    case _ =>
  }

  lemma StepDropped(s: State, ev: Event, c: Measure)
    requires Additive(c) && Legal(s, ev)
    ensures Dropped(Step(s, ev), c) >= Dropped(s, c)
  {
    if ev.Express? { ExpressLive(s, ev.entry, c); }
  }

  lemma StepCalled(s: State, ev: Event, c: Measure)
    requires Additive(c) && Legal(s, ev)
    ensures Called(Step(s, ev), c) >= Called(s, c)
  {
    if ev.Express? { ExpressLive(s, ev.entry, c); }
  }

  /** A remove request disappears only when it stops its entry from entering the table. */
  lemma StepRequests(s: State, ev: Event, id: nat)
    requires Legal(s, ev) && id in s.removeRequests && id !in Step(s, ev).removeRequests
    ensures exists e :: HandledBy(s, ev) == [e] && e.id == id && Step(s, ev).refused == s.refused + [e]
  {
    if ev.Flush? { assert HandledBy(s, ev) == [s.queue[0]]; }
    else if ev.Express? { assert HandledBy(s, ev) == [ev.entry]; }
  }

  predicate Gone(s: State, id: nat) {
    Live(s, Counter(id)) == 0 && (id in s.removeRequests || Dropped(s, Counter(id)) > 0)
  }

  lemma StepGone(s: State, ev: Event, id: nat)
    requires Once(s, id) && Gone(s, id) && Legal(s, ev)
    ensures Gone(Step(s, ev), id)
  {
    var c := Counter(id);
    CounterAdditive(id);
    StepLive(s, ev, c);
    StepDropped(s, ev, c);
    assert Count(AddedBy(s, ev), id) == 0 by {
      if id !in s.removeRequests { DroppedNotHandled(s, ev, id); }
    }
    if id in s.removeRequests && id !in Step(s, ev).removeRequests {
      StepRequests(s, ev, id);
      var e :| HandledBy(s, ev) == [e] && e.id == id && Step(s, ev).refused == s.refused + [e];
      CountConcat(s.refused, [e], id);
    }
  }

  lemma DroppedNotHandled(s: State, ev: Event, id: nat)
    requires Once(s, id) && Dropped(s, Counter(id)) > 0 && Legal(s, ev)
    ensures Count(HandledBy(s, ev), id) == 0
  {
    CountHas(s.expressed, id);
    if ev.Flush? { CountHas(s.queue, id); }
  }

  lemma {:induction false} RunGone(s: State, evs: seq<Event>, id: nat)
    requires Once(s, id) && Gone(s, id) && LegalRun(s, evs)
    ensures Gone(Run(s, evs), id)
    decreases evs
  {
    if evs != [] {
      StepOnce(s, evs[0], id);
      StepGone(s, evs[0], id);
      RunGone(Step(s, evs[0]), evs[1..], id);
    }
  }

  lemma {:induction false} CountTaken(s: seq<Entry>, id: nat)
    ensures Count(Kept(s, HasId(id)), id) == 0
  {
    if s != [] {
      CountTaken(s[1..], id);
      CountConcat(if s[0].id == id then [] else [s[0]], Kept(s[1..], HasId(id)), id);
    }
  }

  /**
   * Once removePendingInterest was called with an id whose entry had not been taken out of the
   * table by then, even one still queued for the connection or not yet expressed, none of its
   * callbacks is called, whatever happens before and after.
   */
  lemma RemovedIsNeverCalled(async: bool, before: seq<Event>, id: nat, after: seq<Event>)
    requires LegalRun(Initial(async), before)
    requires var s := Run(Initial(async), before);
             && Extracted(s, Counter(id)) == Called(s, Counter(id)) == 0
             && LegalRun(Step(s, Remove(id)), after)
    ensures Called(Run(Step(Run(Initial(async), before), Remove(id)), after), Counter(id)) == 0
  {
    var s := Run(Initial(async), before);
    RunOnce(Initial(async), before, id);
    StepOnce(s, Remove(id), id);
    assert Gone(Step(s, Remove(id)), id) by {
      CountTaken(s.pit, id);
      CountHas(s.pit, id);
      CounterAdditive(id);
      SplitMeasure(s.pit, HasId(id), Counter(id));
    }
    RunGone(Step(s, Remove(id)), after, id);
  }
}
