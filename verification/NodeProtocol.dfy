/** Node as a whole: pending Interests and prefix registrations together (src/node.cpp). */
module NodeProtocol {
  import opened Bytes
  import P = Pending
  import R = Registrations
  import opened PendingRuns
  import opened PendingOrder

  /** `commands` gives for each registration the id of the command Interest that asks for it. */
  datatype Node = Node(p: P.State, r: R.State, commands: map<nat, nat>)

  datatype Event =
    | Act(event: P.Event)                                          // a step that answers no registration command
    | Register(registration: R.Registration, entry: P.Entry)       // nfdRegisterPrefix
    | Respond(index: nat, ok: bool)                                // RegisterResponse is called with a Data packet
    | RemoveRegistration(id: nat)                                  // with any id at any time
    | SetFilter(filter: R.Filter)
    | UnsetFilter(id: nat)

  function Initial(async: bool): Node { Node(P.Initial(async), R.Initial(), map[]) }

  predicate Legal(n: Node, ev: Event) {
    match ev
    case Act(a) =>
      && P.Legal(n.p, a)
      && (a.Express? ==> a.entry.purpose.Application?)
      && (a.DeliverData? ==> n.p.dataPending[a.index].purpose.Application?)
    case Register(reg, e) =>
      && P.Legal(n.p, P.Express(e))
      && e.purpose == P.Command(reg) && e.onTimeout && !e.onNack
      && 0 < reg.id <= n.p.lastId && reg.id !in n.commands
    case Respond(i, ok) => i < |n.p.dataPending| && n.p.dataPending[i].purpose.Command?
    case SetFilter(f) => f.origin.None? && 0 < f.id <= n.p.lastId && f.id !in n.r.made
    case _ => true
  }

  /** The registration whose command times out in this step, if any. */
  predicate TimesOut(s: P.State, a: P.Event)
    requires P.Legal(s, a)
  {
    a.Fire? && var e := s.timers[a.index]; e in s.pit && e.onTimeout && e.purpose.Command?
  }

  function RespondStep(n: Node, i: nat, ok: bool): Node
    requires i < |n.p.dataPending| && n.p.dataPending[i].purpose.Command?
  {
    var reg := n.p.dataPending[i].purpose.registration;
    var p := P.Step(n.p, P.DeliverData(i));
    if !ok then n.(p := p, r := R.Fail(n.r, reg.id))
    else n.(p := if reg.onInterest then p.(lastId := p.lastId + 1) else p, r := R.Succeed(n.r, reg, p.lastId + 1))
  }

  function Step(n: Node, ev: Event): Node
    requires Legal(n, ev)
  {
    match ev
    case Act(a) =>
      n.(p := P.Step(n.p, a),
         r := if TimesOut(n.p, a) then R.Fail(n.r, n.p.timers[a.index].purpose.registration.id) else n.r)
    case Register(reg, e) => n.(p := P.Step(n.p, P.Express(e)), commands := n.commands[reg.id := e.id])
    case Respond(i, ok) => RespondStep(n, i, ok)
    case RemoveRegistration(id) => n.(r := R.RemoveRegistered(n.r, id))
    case SetFilter(f) => n.(r := R.SetFilter(n.r, f))
    case UnsetFilter(id) => n.(r := R.UnsetFilter(n.r, id))
  }

  predicate LegalRun(n: Node, evs: seq<Event>)
    decreases evs
  {
    evs != [] ==> Legal(n, evs[0]) && LegalRun(Step(n, evs[0]), evs[1..])
  }

  function Run(n: Node, evs: seq<Event>): Node
    requires LegalRun(n, evs)
    decreases evs
  {
    if evs == [] then n else Run(Step(n, evs[0]), evs[1..])
  }

  // ----- A registration is answered at most once -----

  predicate Linked(n: Node) {
    && (forall e :: e in n.p.expressed && e.purpose.Command? ==>
          var o := e.purpose.registration.id; o > 0 && o in n.commands && n.commands[o] == e.id)
    && (forall o :: o in n.r.answered ==> o in n.commands && Called(n.p, Counter(n.commands[o])) > 0)
  }

  ghost predicate Invariant(n: Node) {
    PendingOrder.Invariant(n.p) && Linked(n) && R.Valid(n.r, n.p.lastId)
  }

  /** The command of a registration that was answered is neither in the table nor waiting for its callback. */
  lemma NotAnswered(n: Node, e: P.Entry)
    requires Invariant(n) && (e in n.p.pit || e in n.p.dataPending) && e.purpose.Command?
    ensures e.purpose.registration.id !in n.r.answered
  {
    assert e in n.p.handled && e in n.p.expressed;
    assert Once(n.p, e.id);
    CountHas(n.p.pit, e.id);
    CountHas(n.p.dataPending, e.id);
  }

  lemma CallCounts(s: P.State, a: P.Event, e: P.Entry)
    requires P.Legal(s, a)
    requires (a.DeliverData? && e == s.dataPending[a.index]) || (TimesOut(s, a) && e == s.timers[a.index])
    ensures Called(P.Step(s, a), Counter(e.id)) > 0
  {
    CountConcat(s.gotData, [e], e.id);
    CountConcat(s.gotTimeout, [e], e.id);
  }

  lemma ActLinked(n: Node, a: P.Event)
    requires Linked(n) && P.Legal(n.p, a) && !a.Express?
    ensures Linked(n.(p := P.Step(n.p, a)))
  {
    StepExpressed(n.p, a);
    forall o | o in n.r.answered ensures Called(P.Step(n.p, a), Counter(n.commands[o])) > 0 {
      CounterAdditive(n.commands[o]);
      StepCalled(n.p, a, Counter(n.commands[o]));
    }
  }

  lemma ExpressLinked(n: Node, e: P.Entry, commands: map<nat, nat>)
    requires Linked(n) && P.Legal(n.p, P.Express(e))
    requires forall o :: o in n.commands ==> o in commands && commands[o] == n.commands[o]
    requires e.purpose.Command? ==> var o := e.purpose.registration.id; o > 0 && o in commands && commands[o] == e.id
    ensures Linked(n.(p := P.Step(n.p, P.Express(e)), commands := commands))
  {
    StepExpressed(n.p, P.Express(e));
    forall o | o in n.r.answered ensures Called(P.Step(n.p, P.Express(e)), Counter(commands[o])) > 0 {
      CounterAdditive(commands[o]);
      StepCalled(n.p, P.Express(e), Counter(commands[o]));
    }
  }

  /** Answering one more registration whose command is called back in the same step. */
  lemma AnswerLinked(n: Node, e: P.Entry, r: R.State)
    requires Linked(n) && e in n.p.expressed && e.purpose.Command? && Called(n.p, Counter(e.id)) > 0
    requires r.answered == n.r.answered + {e.purpose.registration.id}
    ensures Linked(n.(r := r))
  {
  }

  lemma LastIdGrows(s: P.State, a: P.Event)
    requires P.Legal(s, a)
    ensures P.Step(s, a).lastId == s.lastId + if a.TakeId? then 1 else 0
  {
  }

  lemma ActInvariant(n: Node, a: P.Event)
    requires Invariant(n) && Legal(n, Act(a))
    ensures Invariant(Step(n, Act(a)))
  {
    StepInvariant(n.p, a);
    LastIdGrows(n.p, a);
    if a.Express? { ExpressLinked(n, a.entry, n.commands); } else { ActLinked(n, a); }
    if TimesOut(n.p, a) {
      var e := n.p.timers[a.index];
      NotAnswered(n, e);
      R.FailValid(n.r, e.purpose.registration.id, n.p.lastId);
      CallCounts(n.p, a, e);
      StepExpressed(n.p, a);
      AnswerLinked(n.(p := P.Step(n.p, a)), e, R.Fail(n.r, e.purpose.registration.id));
    }
  }

  /** What both kinds of response share. */
  lemma DeliverCommand(n: Node, i: nat, r: R.State)
    requires Invariant(n) && Legal(n, Respond(i, true))
    requires r.answered == n.r.answered + {n.p.dataPending[i].purpose.registration.id}
    ensures var p := P.Step(n.p, P.DeliverData(i));
            PendingOrder.Invariant(p) && p.lastId == n.p.lastId && Linked(n.(p := p, r := r))
    ensures n.p.dataPending[i].purpose.registration.id !in n.r.answered
  {
    var a, e := P.DeliverData(i), n.p.dataPending[i];
    StepInvariant(n.p, a);
    LastIdGrows(n.p, a);
    NotAnswered(n, e);
    ActLinked(n, a);
    CallCounts(n.p, a, e);
    StepExpressed(n.p, a);
    AnswerLinked(n.(p := P.Step(n.p, a)), e, r);
  }

  lemma FailInvariant(n: Node, i: nat)
    requires Invariant(n) && Legal(n, Respond(i, false))
    ensures Invariant(RespondStep(n, i, false))
  {
    var reg := n.p.dataPending[i].purpose.registration;
    DeliverCommand(n, i, R.Fail(n.r, reg.id));
    R.FailValid(n.r, reg.id, n.p.lastId);
  }

  function Answered(n: Node, i: nat): R.State
    requires Legal(n, Respond(i, true))
  {
    R.Succeed(n.r, n.p.dataPending[i].purpose.registration, n.p.lastId + 1)
  }

  function LastIdAfter(n: Node, i: nat): nat
    requires Legal(n, Respond(i, true))
  {
    if n.p.dataPending[i].purpose.registration.onInterest then n.p.lastId + 1 else n.p.lastId
  }

  lemma AnsweredValid(n: Node, i: nat)
    requires R.Valid(n.r, n.p.lastId) && Legal(n, Respond(i, true))
    requires n.p.dataPending[i].purpose.registration.id !in n.r.answered
    ensures R.Valid(Answered(n, i), LastIdAfter(n, i))
  {
    R.SucceedValid(n.r, n.p.dataPending[i].purpose.registration, n.p.lastId);
  }

  lemma AnsweredOnce(n: Node, i: nat)
    requires Legal(n, Respond(i, true))
    ensures Answered(n, i).answered == n.r.answered + {n.p.dataPending[i].purpose.registration.id}
  {
  }

  lemma RespondForm(n: Node, i: nat)
    requires Legal(n, Respond(i, true))
    ensures RespondStep(n, i, true) ==
            n.(p := P.Step(n.p, P.DeliverData(i)).(lastId := LastIdAfter(n, i)), r := Answered(n, i))
  {
    LastIdGrows(n.p, P.DeliverData(i));
  }

  lemma SucceedInvariant(n: Node, i: nat)
    requires Invariant(n) && Legal(n, Respond(i, true))
    ensures Invariant(RespondStep(n, i, true))
  {
    NotAnswered(n, n.p.dataPending[i]);
    AnsweredValid(n, i);
    AnsweredOnce(n, i);
    AddAnswer(n, i, Answered(n, i), LastIdAfter(n, i));
    RespondForm(n, i);
  }

  lemma AddAnswer(n: Node, i: nat, r: R.State, lastId: nat)
    requires Invariant(n) && Legal(n, Respond(i, true))
    requires r.answered == n.r.answered + {n.p.dataPending[i].purpose.registration.id} && R.Valid(r, lastId)
    ensures Invariant(n.(p := P.Step(n.p, P.DeliverData(i)).(lastId := lastId), r := r))
  {
    DeliverCommand(n, i, r);
    var p := P.Step(n.p, P.DeliverData(i));
    NewIdInvariant(p, lastId);
    NewIdLinked(n.(p := p, r := r), lastId);
  }

  lemma NewIdLinked(n: Node, lastId: nat)
    requires Linked(n)
    ensures Linked(n.(p := n.p.(lastId := lastId)))
  {
  }

  lemma NewIdInvariant(s: P.State, lastId: nat)
    requires PendingOrder.Invariant(s)
    ensures PendingOrder.Invariant(s.(lastId := lastId))
  {
    forall id: nat ensures Once(s.(lastId := lastId), id) { assert Once(s, id); }
  }

  lemma StepNode(n: Node, ev: Event)
    requires Invariant(n) && Legal(n, ev)
    ensures Invariant(Step(n, ev))
  {
    match ev
    case Act(a) => ActInvariant(n, a);
    case Register(reg, e) =>
      StepInvariant(n.p, P.Express(e));
      LastIdGrows(n.p, P.Express(e));
      ExpressLinked(n, e, n.commands[reg.id := e.id]);
    case Respond(i, ok) => if ok { SucceedInvariant(n, i); } else { FailInvariant(n, i); }
    case RemoveRegistration(id) => R.RemoveRegisteredValid(n.r, id, n.p.lastId);
    case SetFilter(f) => R.SetFilterValid(n.r, f, n.p.lastId);
    case UnsetFilter(id) => R.UnsetFilterValid(n.r, id, n.p.lastId);
  }

  lemma {:induction false} RunNode(n: Node, evs: seq<Event>)
    requires Invariant(n) && LegalRun(n, evs)
    ensures Invariant(Run(n, evs))
    decreases evs
  {
    if evs != [] {
      StepNode(n, evs[0]);
      RunNode(Step(n, evs[0]), evs[1..]);
    }
  }

  lemma Starts(async: bool)
    ensures Invariant(Initial(async))
  {
  }

  lemma Reachable(async: bool, evs: seq<Event>)
    requires LegalRun(Initial(async), evs)
    ensures Invariant(Run(Initial(async), evs))
  {
    Starts(async);
    RunNode(Initial(async), evs);
  }

  // ----- Main results -----

  /**
   * In every reachable state the filter of a registration is in the filter table exactly when the
   * registration succeeded with an onInterest callback, was not removed, and the filter was not
   * unset, whichever of the removal and the response came first.
   */
  lemma FilterOfRegistration(async: bool, evs: seq<Event>, o: nat)
    requires LegalRun(Initial(async), evs)
    ensures var r := Run(Initial(async), evs).r;
            R.HasFilter(r, o) <==>
            o in r.succeeded && r.succeeded[o] > 0 && o !in r.removed && r.succeeded[o] !in r.unset
  {
    Reachable(async, evs);
    var r := Run(Initial(async), evs).r;
    if R.HasFilter(r, o) {
      var f :| f in r.filters && f.origin == Some(o);
      assert R.FilterStands(r, f);
    }
  }

  /** At most one of onRegisterSuccess and onRegisterFailed is called per registration, at most once. */
  lemma AtMostOneOutcome(async: bool, evs: seq<Event>, i: nat, j: nat)
    requires LegalRun(Initial(async), evs)
    requires i < j < |Run(Initial(async), evs).r.outcomes|
    ensures Run(Initial(async), evs).r.outcomes[i].id != Run(Initial(async), evs).r.outcomes[j].id
  {
    Reachable(async, evs);
  }

  /** Removed before the response: in every continuation there is no filter, no table entry and no success. */
  lemma RemovedRegistrationStaysOut(async: bool, evs: seq<Event>, o: nat, after: seq<Event>)
    requires LegalRun(Initial(async), evs)
    requires var n := Run(Initial(async), evs);
             o !in n.r.answered && LegalRun(Step(n, RemoveRegistration(o)), after)
    ensures NotThere(Run(Step(Run(Initial(async), evs), RemoveRegistration(o)), after).r, o)
  {
    Reachable(async, evs);
    RemovedStaysOut(Run(Initial(async), evs), o, after);
  }

  lemma RemovedStaysOut(n: Node, o: nat, after: seq<Event>)
    requires Invariant(n) && o !in n.r.answered && LegalRun(Step(n, RemoveRegistration(o)), after)
    ensures NotThere(Run(Step(n, RemoveRegistration(o)), after).r, o)
  {
    var m := Step(n, RemoveRegistration(o));
    StepNode(n, RemoveRegistration(o));
    assert o in m.r.removed && o !in m.r.succeeded;
    StaysOut(m, o, after);
    RemovedNotThere(Run(m, after).r, o, Run(m, after).p.lastId);
  }

  predicate NotThere(r: R.State, o: nat) {
    !R.HasFilter(r, o) && !R.HasRegistered(r.registered, o) && R.Outcome(o, true) !in r.outcomes
  }

  lemma RemovedNotThere(r: R.State, o: nat, lastId: nat)
    requires R.Valid(r, lastId) && o in r.removed && o !in r.succeeded
    ensures NotThere(r, o)
  {
  }

  lemma {:induction false} StaysOut(n: Node, o: nat, evs: seq<Event>)
    requires Invariant(n) && o in n.r.removed && o !in n.r.succeeded && LegalRun(n, evs)
    ensures var m := Run(n, evs); Invariant(m) && o in m.r.removed && o !in m.r.succeeded
    decreases evs
  {
    if evs != [] {
      StepNode(n, evs[0]);
      OutStep(n, o, evs[0]);
      StaysOut(Step(n, evs[0]), o, evs[1..]);
    }
  }

  lemma OutStep(n: Node, o: nat, ev: Event)
    requires Invariant(n) && o in n.r.removed && o !in n.r.succeeded && Legal(n, ev)
    ensures o in Step(n, ev).r.removed && o !in Step(n, ev).r.succeeded
  {
    if ev.Respond? { NotAnswered(n, n.p.dataPending[ev.index]); }
  }

  // ----- A run of the node is a run of its pending Interests -----

  /** The steps that an event takes on the pending Interests. */
  function Projected(n: Node, ev: Event): seq<P.Event>
    requires Legal(n, ev)
  {
    match ev
    case Act(a) => [a]
    case Register(reg, e) => [P.Express(e)]
    case Respond(i, ok) =>
      [P.DeliverData(i)] + if ok && n.p.dataPending[i].purpose.registration.onInterest then [P.TakeId] else []
    case _ => []
  }

  lemma StepProjects(n: Node, ev: Event)
    requires Legal(n, ev)
    ensures P.LegalRun(n.p, Projected(n, ev)) && P.Run(n.p, Projected(n, ev)) == Step(n, ev).p
  {
    match ev
    case Act(a) => OneEvent(n.p, a);
    case Register(reg, e) => OneEvent(n.p, P.Express(e));
    case Respond(i, ok) =>
      var a := P.DeliverData(i);
      OneEvent(n.p, a);
      OneEvent(P.Step(n.p, a), P.TakeId);
      RunConcat(n.p, [a], [P.TakeId]);
      assert [a] + [] == [a];
    case _ =>
  }

  lemma OneEvent(s: P.State, a: P.Event)
    requires P.Legal(s, a)
    ensures P.LegalRun(s, [a]) && P.Run(s, [a]) == P.Step(s, a)
  {
    var t := P.Step(s, a);
    assert [a][1..] == [] && P.LegalRun(t, []) && P.Run(t, []) == t;
  }

  lemma {:induction false} RunConcat(s: P.State, a: seq<P.Event>, b: seq<P.Event>)
    requires P.LegalRun(s, a) && P.LegalRun(P.Run(s, a), b)
    ensures P.LegalRun(s, a + b) && P.Run(s, a + b) == P.Run(P.Run(s, a), b)
    decreases a
  {
    if a == [] {
      assert a + b == b;
    } else {
      assert (a + b)[1..] == a[1..] + b;
      RunConcat(P.Step(s, a[0]), a[1..], b);
    }
  }

  /** So what Pending guarantees for every run holds for the node: callbacks, removals, timers and order. */
  lemma {:induction false} RunProjects(n: Node, evs: seq<Event>) returns (acts: seq<P.Event>)
    requires LegalRun(n, evs)
    ensures P.LegalRun(n.p, acts) && P.Run(n.p, acts) == Run(n, evs).p
    decreases evs
  {
    if evs == [] { return []; }
    StepProjects(n, evs[0]);
    var rest := RunProjects(Step(n, evs[0]), evs[1..]);
    RunConcat(n.p, Projected(n, evs[0]), rest);
    return Projected(n, evs[0]) + rest;
  }
}
