/** Reachable states of NodeProtocol, and each of its steps written out. */
module NodeSteps {
  import opened Bytes
  import opened Matching
  import P = Pending
  import R = Registrations
  import opened NodeProtocol

  // ----- States that lead to others -----

  predicate Follows(m: Node, n: Node, ev: Event) { Legal(m, ev) && Step(m, ev) == n }

  /** The states that a run goes through, with its events. */
  predicate Path(ns: seq<Node>, evs: seq<Event>) {
    |ns| == |evs| + 1 && forall i :: 0 <= i < |evs| ==> StepAt(ns, evs, i)
  }

  predicate StepAt(ns: seq<Node>, evs: seq<Event>, i: nat)
    requires i < |evs| < |ns|
  {
    Follows(ns[i], ns[i + 1], evs[i])
  }

  /** Some legal run goes from the one state to the other. */
  ghost predicate Leads(m: Node, n: Node) {
    exists ns, evs :: Path(ns, evs) && ns[0] == m && ns[|evs|] == n
  }

  lemma LeadsToItself(n: Node)
    ensures Leads(n, n)
  {
    assert Path([n], []);
  }

  lemma LeadsOn(m: Node, n: Node, ev: Event)
    requires Leads(m, n) && Legal(n, ev)
    ensures Leads(m, Step(n, ev))
  {
    var ns, evs :| Path(ns, evs) && ns[0] == m && ns[|evs|] == n;
    var t := Step(n, ev);
    assert Follows(n, t, ev);
    AppendPath(ns, evs, t, ev);
  }

  lemma AppendPath(ns: seq<Node>, evs: seq<Event>, t: Node, ev: Event)
    requires Path(ns, evs) && Follows(ns[|evs|], t, ev)
    ensures Path(ns + [t], evs + [ev]) && (ns + [t])[0] == ns[0] && (ns + [t])[|evs| + 1] == t
  {
    var ms, fs := ns + [t], evs + [ev];
    forall i | 0 <= i < |fs| ensures StepAt(ms, fs, i) {
      if i < |evs| { assert StepAt(ns, evs, i); }
    }
  }

  /** A path is a run in the sense of NodeProtocol. */
  lemma {:induction false} PathIsRun(ns: seq<Node>, evs: seq<Event>)
    requires Path(ns, evs)
    ensures LegalRun(ns[0], evs) && Run(ns[0], evs) == ns[|evs|]
    decreases evs
  {
    if evs != [] {
      assert StepAt(ns, evs, 0);
      assert Path(ns[1..], evs[1..]) by {
        forall i | 0 <= i < |evs| - 1 ensures StepAt(ns[1..], evs[1..], i) {
          assert StepAt(ns, evs, i + 1);
        }
      }
      PathIsRun(ns[1..], evs[1..]);
    }
  }

  lemma LeadsByRun(m: Node, n: Node)
    requires Leads(m, n)
    ensures exists evs :: LegalRun(m, evs) && Run(m, evs) == n
  {
    var ns, evs :| Path(ns, evs) && ns[0] == m && ns[|evs|] == n;
    PathIsRun(ns, evs);
  }

  lemma LeadsKeeps(m: Node, n: Node)
    requires Invariant(m) && Leads(m, n)
    ensures Invariant(n)
  {
    LeadsByRun(m, n);
    var evs :| LegalRun(m, evs) && Run(m, evs) == n;
    RunNode(m, evs);
  }

  ghost predicate Reached(n: Node) { Leads(Initial(n.p.async), n) }

  lemma StartReached(async: bool)
    ensures Reached(Initial(async))
  {
    LeadsToItself(Initial(async));
  }

  lemma ReachedInvariant(n: Node)
    requires Reached(n)
    ensures Invariant(n)
  {
    Starts(n.p.async);
    LeadsKeeps(Initial(n.p.async), n);
  }

  lemma SameTransport(n: Node, ev: Event)
    requires Legal(n, ev)
    ensures Step(n, ev).p.async == n.p.async
  {
    match ev
    case Act(a) => SameAsync(n.p, a);
    case Register(reg, e) => SameAsync(n.p, P.Express(e));
    case Respond(i, ok) => SameAsync(n.p, P.DeliverData(i));
    case _ =>
  }

  lemma SameAsync(s: P.State, a: P.Event)
    requires P.Legal(s, a)
    ensures P.Step(s, a).async == s.async
  {
  }

  /** A step from a reached state leads on, from the start and from any state that led there. */
  lemma Next(m: Node, n: Node, ev: Event)
    requires Leads(m, n) && Reached(n) && Legal(n, ev)
    ensures Leads(m, Step(n, ev)) && Reached(Step(n, ev))
  {
    LeadsOn(m, n, ev);
    LeadsOn(Initial(n.p.async), n, ev);
    SameTransport(n, ev);
  }

  // ----- Each step written out -----

  lemma NextId(m: Node, n: Node)
    requires Leads(m, n) && Reached(n)
    ensures var t := n.(p := n.p.(lastId := n.p.lastId + 1)); Leads(m, t) && Reached(t)
  {
    Next(m, n, Act(P.TakeId));
  }

  lemma NextRemove(m: Node, n: Node, id: nat)
    requires Leads(m, n) && Reached(n)
    ensures var t := n.(p := P.RemoveStep(n.p, id)); Leads(m, t) && Reached(t)
  {
    Next(m, n, Act(P.Remove(id)));
  }

  lemma NextExpress(m: Node, n: Node, e: P.Entry)
    requires Leads(m, n) && Reached(n) && Legal(n, Act(P.Express(e)))
    ensures var t := n.(p := P.ExpressStep(n.p, e)); Leads(m, t) && Reached(t)
  {
    Next(m, n, Act(P.Express(e)));
  }

  lemma NextRegister(m: Node, n: Node, reg: R.Registration, e: P.Entry)
    requires Leads(m, n) && Reached(n) && Legal(n, Register(reg, e))
    ensures var t := n.(p := P.ExpressStep(n.p, e), commands := n.commands[reg.id := e.id]); Leads(m, t) && Reached(t)
  {
    Next(m, n, Register(reg, e));
  }

  lemma NextFinishSync(m: Node, n: Node)
    requires Leads(m, n) && Reached(n) && n.p.finishing > 0
    ensures var t := n.(p := n.p.(finishing := n.p.finishing - 1, status := P.Complete)); Leads(m, t) && Reached(t)
  {
    Next(m, n, Act(P.FinishSync));
  }

  lemma NextConnected(m: Node, n: Node)
    requires Leads(m, n) && Reached(n) && n.p.async && n.p.status.Requested? && !n.p.flushing
    ensures var t := n.(p := n.p.(flushing := true)); Leads(m, t) && Reached(t)
  {
    Next(m, n, Act(P.Connected));
  }

  lemma NextFlush(m: Node, n: Node)
    requires Leads(m, n) && Reached(n) && n.p.flushing && n.p.queue != []
    ensures var t := n.(p := P.Helper(n.p.(queue := n.p.queue[1..]), n.p.queue[0])); Leads(m, t) && Reached(t)
  {
    Next(m, n, Act(P.Flush));
  }

  lemma NextFinishConnected(m: Node, n: Node)
    requires Leads(m, n) && Reached(n) && n.p.flushing && n.p.queue == []
    ensures var t := n.(p := n.p.(flushing := false, status := P.Complete)); Leads(m, t) && Reached(t)
  {
    Next(m, n, Act(P.FinishConnected));
  }

  lemma NextDataIn(m: Node, n: Node, d: Packet)
    requires Leads(m, n) && Reached(n)
    ensures var t := n.(p := n.p.(pit := P.Kept(n.p.pit, P.WantsData(d)),
                                  dataPending := n.p.dataPending + P.Taken(n.p.pit, P.WantsData(d))));
            Leads(m, t) && Reached(t)
  {
    Next(m, n, Act(P.DataIn(d)));
  }

  lemma NextNackIn(m: Node, n: Node, encoding: Blob)
    requires Leads(m, n) && Reached(n)
    ensures var t := n.(p := n.p.(pit := P.Kept(n.p.pit, P.WantsNack(encoding)),
                                  nackPending := n.p.nackPending + P.Taken(n.p.pit, P.WantsNack(encoding))));
            Leads(m, t) && Reached(t)
  {
    Next(m, n, Act(P.NackIn(encoding)));
  }

  /** The first entry of a non-empty list is done. */
  lemma RestOf(s: seq<P.Entry>)
    requires s != []
    ensures P.Without(s, 0) == s[1..]
  {
  }

  lemma NextDeliverData(m: Node, n: Node)
    requires Leads(m, n) && Reached(n) && n.p.dataPending != [] && n.p.dataPending[0].purpose.Application?
    ensures var t := n.(p := Delivered(n.p)); Leads(m, t) && Reached(t)
  {
    RestOf(n.p.dataPending);
    Next(m, n, Act(P.DeliverData(0)));
  }

  function Delivered(s: P.State): P.State
    requires s.dataPending != []
  {
    s.(dataPending := s.dataPending[1..], gotData := s.gotData + [s.dataPending[0]])
  }

  lemma CommandHasId(n: Node, e: P.Entry)
    requires Reached(n) && e in n.p.dataPending && e.purpose.Command?
    ensures e.purpose.registration.id > 0
  {
    ReachedInvariant(n);
    assert e in n.p.handled && e in n.p.expressed;
  }

  lemma NextRespond(m: Node, n: Node, ok: bool)
    requires Leads(m, n) && Reached(n) && n.p.dataPending != [] && n.p.dataPending[0].purpose.Command?
    ensures var reg := n.p.dataPending[0].purpose.registration;
            var t := n.(p := Delivered(n.p).(lastId := if ok && reg.onInterest then n.p.lastId + 1 else n.p.lastId),
                        r := if ok then R.Succeed(n.r, reg, n.p.lastId + 1) else R.Fail(n.r, reg.id));
            Leads(m, t) && Reached(t)
  {
    RestOf(n.p.dataPending);
    Next(m, n, Respond(0, ok));
  }

  lemma NextDeliverNack(m: Node, n: Node)
    requires Leads(m, n) && Reached(n) && n.p.nackPending != []
    ensures var t := n.(p := n.p.(nackPending := n.p.nackPending[1..], gotNack := n.p.gotNack + [n.p.nackPending[0]]));
            Leads(m, t) && Reached(t)
  {
    RestOf(n.p.nackPending);
    Next(m, n, Act(P.DeliverNack(0)));
  }

  lemma NextFire(m: Node, n: Node, i: nat)
    requires Leads(m, n) && Reached(n) && i < |n.p.timers|
    ensures var t := n.(p := P.FireStep(n.p, i),
                        r := if TimesOut(n.p, P.Fire(i)) then R.Fail(n.r, n.p.timers[i].purpose.registration.id) else n.r);
            Leads(m, t) && Reached(t)
  {
    Next(m, n, Act(P.Fire(i)));
  }

  lemma NextRemoveRegistration(m: Node, n: Node, id: nat)
    requires Leads(m, n) && Reached(n)
    ensures var t := n.(r := R.RemoveRegistered(n.r, id)); Leads(m, t) && Reached(t)
  {
    Next(m, n, RemoveRegistration(id));
  }

  lemma NextSetFilter(m: Node, n: Node, f: R.Filter)
    requires Leads(m, n) && Reached(n) && Legal(n, SetFilter(f))
    ensures var t := n.(r := R.SetFilter(n.r, f)); Leads(m, t) && Reached(t)
  {
    Next(m, n, SetFilter(f));
  }

  lemma NextUnsetFilter(m: Node, n: Node, id: nat)
    requires Leads(m, n) && Reached(n)
    ensures var t := n.(r := R.UnsetFilter(n.r, id)); Leads(m, t) && Reached(t)
  {
    Next(m, n, UnsetFilter(id));
  }
}
