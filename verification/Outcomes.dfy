/** Which callback of a prefix registration is called, over all runs of the node (registerPrefix in src/node.cpp). */
module Outcomes {
  import P = Pending
  import R = Registrations
  import opened NP = NodeProtocol

  /** What a step answers to registrations: true for a positive response, false for any other and for a timeout. */
  function Reply(n: Node, ev: Event): map<nat, bool>
    requires Legal(n, ev)
  {
    match ev
    case Respond(i, ok) => map[n.p.dataPending[i].purpose.registration.id := ok]
    case Act(a) => if TimesOut(n.p, a) then map[n.p.timers[a.index].purpose.registration.id := false] else map[]
    case _ => map[]
  }

  /** The replies before a run and those that it adds. */
  function Replies(n: Node, evs: seq<Event>, before: map<nat, bool>): map<nat, bool>
    requires LegalRun(n, evs)
    decreases evs
  {
    if evs == [] then before else Replies(Step(n, evs[0]), evs[1..], before + Reply(n, evs[0]))
  }

  /** The response handler has been called for the command. */
  predicate Done(s: P.State, e: P.Entry) { (e in s.gotData || e in s.gotTimeout) && e.purpose.Command? }

  /** The callbacks called for a registration that was answered. */
  predicate Fits(r: R.State, reg: R.Registration, ok: bool) {
    && reg.id in r.answered
    && (reg.id in r.succeeded ==> ok)
    && (ok && reg.id !in r.succeeded ==> reg.id in r.removed)
    && (R.Outcome(reg.id, true) in r.outcomes <==> reg.id in r.succeeded && reg.onSuccess)
    && (R.Outcome(reg.id, false) in r.outcomes <==> !ok)
  }

  ghost predicate AllFit(n: Node, replies: map<nat, bool>) {
    forall e :: Done(n.p, e) ==>
      e.purpose.registration.id in replies && Fits(n.r, e.purpose.registration, replies[e.purpose.registration.id])
  }

  // ----- The registrations -----

  /** A step that answers at most the registration `id`. */
  lemma FitsStays(r: R.State, t: R.State, reg: R.Registration, ok: bool)
    requires Fits(r, reg, ok) && reg.id in t.answered && r.removed <= t.removed
    requires reg.id in t.succeeded <==> reg.id in r.succeeded
    requires forall x :: x in t.outcomes && x.id == reg.id ==> x in r.outcomes
    requires forall x :: x in r.outcomes ==> x in t.outcomes
    ensures Fits(t, reg, ok)
  {
  }

  lemma FailOthers(r: R.State, id: nat, reg: R.Registration, ok: bool)
    requires Fits(r, reg, ok) && reg.id != id
    ensures Fits(R.Fail(r, id), reg, ok)
  {
    FitsStays(r, R.Fail(r, id), reg, ok);
  }

  lemma SucceedOthers(r: R.State, answer: R.Registration, next: nat, reg: R.Registration, ok: bool)
    requires Fits(r, reg, ok) && reg.id != answer.id
    ensures Fits(R.Succeed(r, answer, next), reg, ok)
  {
    FitsStays(r, R.Succeed(r, answer, next), reg, ok);
  }

  lemma NoOutcomeYet(r: R.State, id: nat)
    requires R.OutcomesOnce(r) && id !in r.answered
    ensures forall x :: x in r.outcomes ==> x.id != id
  {
  }

  lemma FailFits(r: R.State, reg: R.Registration)
    requires R.OutcomesOnce(r) && R.RequestsStand(r) && reg.id !in r.answered
    ensures Fits(R.Fail(r, reg.id), reg, false)
  {
    NoOutcomeYet(r, reg.id);
    assert R.Fail(r, reg.id).outcomes[|r.outcomes|] == R.Outcome(reg.id, false);
  }

  lemma SucceedFits(r: R.State, reg: R.Registration, next: nat)
    requires R.OutcomesOnce(r) && R.RequestsStand(r) && reg.id !in r.answered
    ensures Fits(R.Succeed(r, reg, next), reg, true)
  {
    NoOutcomeYet(r, reg.id);
    if reg.id !in r.removeRequests && reg.onSuccess {
      assert R.Succeed(r, reg, next).outcomes[|r.outcomes|] == R.Outcome(reg.id, true);
    }
  }

  // ----- The steps of the node -----

  /** A step on the pending Interests calls at most one response handler. */
  lemma NewlyDone(s: P.State, a: P.Event, e: P.Entry)
    requires P.Legal(s, a) && Done(P.Step(s, a), e)
    ensures Done(s, e) || (a.DeliverData? && e == s.dataPending[a.index]) || (TimesOut(s, a) && e == s.timers[a.index])
  {
  }

  lemma ActFits(n: Node, a: P.Event, replies: map<nat, bool>)
    requires Invariant(n) && AllFit(n, replies) && Legal(n, Act(a))
    ensures AllFit(Step(n, Act(a)), replies + Reply(n, Act(a)))
  {
    var m, more := Step(n, Act(a)), replies + Reply(n, Act(a));
    forall e | Done(m.p, e)
      ensures e.purpose.registration.id in more && Fits(m.r, e.purpose.registration, more[e.purpose.registration.id])
    {
      NewlyDone(n.p, a, e);
      if TimesOut(n.p, a) { TimeoutFits(n, a, replies, e); }
    }
  }

  lemma TimeoutFits(n: Node, a: P.Event, replies: map<nat, bool>, e: P.Entry)
    requires Invariant(n) && AllFit(n, replies) && P.Legal(n.p, a) && TimesOut(n.p, a)
    requires Done(n.p, e) || e == n.p.timers[a.index]
    ensures var t, more := n.p.timers[a.index].purpose.registration.id, replies + Reply(n, Act(a));
            e.purpose.registration.id in more && Fits(R.Fail(n.r, t), e.purpose.registration, more[e.purpose.registration.id])
  {
    var t := n.p.timers[a.index];
    NotAnswered(n, t);
    if Done(n.p, e) {
      FailOthers(n.r, t.purpose.registration.id, e.purpose.registration, replies[e.purpose.registration.id]);
    } else {
      FailFits(n.r, e.purpose.registration);
    }
  }

  /** The registrations after a response. */
  function After(r: R.State, reg: R.Registration, ok: bool, next: nat): R.State {
    if ok then R.Succeed(r, reg, next) else R.Fail(r, reg.id)
  }

  lemma AnswerFits(n: Node, i: nat, ok: bool, replies: map<nat, bool>, e: P.Entry)
    requires Invariant(n) && AllFit(n, replies) && Legal(n, Respond(i, ok))
    requires Done(n.p, e) || e == n.p.dataPending[i]
    ensures var more := replies + Reply(n, Respond(i, ok));
            && e.purpose.registration.id in more
            && Fits(After(n.r, n.p.dataPending[i].purpose.registration, ok, n.p.lastId + 1),
                    e.purpose.registration, more[e.purpose.registration.id])
  {
    var answer, next := n.p.dataPending[i].purpose.registration, n.p.lastId + 1;
    NotAnswered(n, n.p.dataPending[i]);
    var reg := e.purpose.registration;
    if Done(n.p, e) {
      if ok { SucceedOthers(n.r, answer, next, reg, replies[reg.id]); } else { FailOthers(n.r, answer.id, reg, replies[reg.id]); }
    } else {
      if ok { SucceedFits(n.r, reg, next); } else { FailFits(n.r, reg); }
    }
  }

  lemma RespondFits(n: Node, i: nat, ok: bool, replies: map<nat, bool>)
    requires Invariant(n) && AllFit(n, replies) && Legal(n, Respond(i, ok))
    ensures AllFit(Step(n, Respond(i, ok)), replies + Reply(n, Respond(i, ok)))
  {
    var m, more := Step(n, Respond(i, ok)), replies + Reply(n, Respond(i, ok));
    forall e | Done(m.p, e)
      ensures e.purpose.registration.id in more && Fits(m.r, e.purpose.registration, more[e.purpose.registration.id])
    {
      NewlyDone(n.p, P.DeliverData(i), e);
      AnswerFits(n, i, ok, replies, e);
    }
  }

  lemma RegisterFits(n: Node, reg: R.Registration, e: P.Entry, replies: map<nat, bool>)
    requires AllFit(n, replies) && Legal(n, Register(reg, e))
    ensures AllFit(Step(n, Register(reg, e)), replies)
  {
    forall d | Done(P.Step(n.p, P.Express(e)), d) ensures Done(n.p, d) { NewlyDone(n.p, P.Express(e), d); }
  }

  lemma TablesFit(n: Node, t: R.State, replies: map<nat, bool>)
    requires AllFit(n, replies)
    requires t.answered == n.r.answered && t.succeeded == n.r.succeeded && t.outcomes == n.r.outcomes
    requires n.r.removed <= t.removed
    ensures AllFit(n.(r := t), replies)
  {
  }

  lemma StepFits(n: Node, ev: Event, replies: map<nat, bool>)
    requires Invariant(n) && AllFit(n, replies) && Legal(n, ev)
    ensures AllFit(Step(n, ev), replies + Reply(n, ev))
  {
    assert replies + map[] == replies;
    match ev
    case Act(a) => ActFits(n, a, replies);
    case Register(reg, e) => RegisterFits(n, reg, e, replies);
    case Respond(i, ok) => RespondFits(n, i, ok, replies);
    case _ => TablesFit(n, Step(n, ev).r, replies);
  }

  lemma {:induction false} RunFits(n: Node, evs: seq<Event>, replies: map<nat, bool>)
    requires Invariant(n) && AllFit(n, replies) && LegalRun(n, evs)
    ensures AllFit(Run(n, evs), Replies(n, evs, replies))
    decreases evs
  {
    if evs != [] {
      StepFits(n, evs[0], replies);
      StepNode(n, evs[0]);
      RunFits(Step(n, evs[0]), evs[1..], replies + Reply(n, evs[0]));
    }
  }

  /** Exactly one place of the list holds an outcome of the registration. */
  predicate ExactlyOne(outcomes: seq<R.Outcome>, o: nat) {
    exists i :: 0 <= i < |outcomes| && outcomes[i].id == o &&
                forall j :: 0 <= j < |outcomes| && j != i ==> outcomes[j].id != o
  }

  lemma OnlyOne(r: R.State, x: R.Outcome)
    requires R.OutcomesOnce(r) && x in r.outcomes
    ensures ExactlyOne(r.outcomes, x.id)
  {
    var i :| 0 <= i < |r.outcomes| && r.outcomes[i] == x;
    forall j | 0 <= j < |r.outcomes| && j != i ensures r.outcomes[j].id != x.id {
      if j < i { assert r.outcomes[j].id != r.outcomes[i].id; }
    }
  }

  /**
   * Every registration whose command was answered or timed out has exactly one callback called,
   * onRegisterSuccess if it was added and onRegisterFailed otherwise; and none at all exactly when the
   * response was positive and either onRegisterSuccess is empty or the registration was removed first.
   */
  lemma OutcomeOfCommand(async: bool, evs: seq<Event>, e: P.Entry)
    requires LegalRun(Initial(async), evs) && Done(Run(Initial(async), evs).p, e)
    ensures var r, replies, reg := Run(Initial(async), evs).r, Replies(Initial(async), evs, map[]), e.purpose.registration;
            && reg.id in replies
            && (reg.id in r.succeeded ==> replies[reg.id])
            && (replies[reg.id] && reg.id !in r.succeeded ==> reg.id in r.removed)
            && (forall x :: x in r.outcomes && x.id == reg.id ==> (x.success <==> reg.id in r.succeeded))
            && ((exists x :: x in r.outcomes && x.id == reg.id) <==>
                !replies[reg.id] || (reg.id in r.succeeded && reg.onSuccess))
            && ((exists x :: x in r.outcomes && x.id == reg.id) ==> ExactlyOne(r.outcomes, reg.id))
  {
    Reachable(async, evs);
    Starts(async);
    RunFits(Initial(async), evs, map[]);
    var r := Run(Initial(async), evs).r;
    forall x | x in r.outcomes && x.id == e.purpose.registration.id ensures ExactlyOne(r.outcomes, x.id) { OnlyOne(r, x); }
    OutcomeCases(r, e.purpose.registration, Replies(Initial(async), evs, map[])[e.purpose.registration.id]);
  }

  lemma OutcomeCases(r: R.State, reg: R.Registration, ok: bool)
    requires R.OutcomesOnce(r) && Fits(r, reg, ok)
    ensures forall x :: x in r.outcomes && x.id == reg.id ==> (x.success <==> reg.id in r.succeeded)
    ensures (exists x :: x in r.outcomes && x.id == reg.id) <==> !ok || (reg.id in r.succeeded && reg.onSuccess)
  {
    forall x | x in r.outcomes && x.id == reg.id ensures x == R.Outcome(reg.id, reg.id in r.succeeded) {
      var i :| 0 <= i < |r.outcomes| && r.outcomes[i] == x;
      assert r.outcomes[i].success <==> r.outcomes[i].id in r.succeeded;
    }
  }
}
