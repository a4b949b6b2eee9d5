/** Node (src/node.cpp, src/node.hpp): each method is a run of the protocol in NodeProtocol. */
module NodeObject {
  import opened Bytes
  import opened Names
  import opened Matching
  import opened Tables
  import P = Pending
  import R = Registrations
  import NP = NodeProtocol
  import PendingRuns
  import PendingOrder
  import NodeSteps

  /** An Interest that may be expressed has not been handled. */
  lemma NotHandled(n: NP.Node, e: P.Entry)
    requires NodeSteps.Reached(n) && P.Legal(n.p, P.Express(e))
    ensures !P.Has(n.p.handled, e.id)
  {
    NodeSteps.ReachedInvariant(n);
  }

  lemma QueuedNotHandled(n: NP.Node)
    requires NodeSteps.Reached(n) && n.p.queue != [] && n.p.flushing
    ensures !P.Has(n.p.handled, n.p.queue[0].id)
  {
    NodeSteps.ReachedInvariant(n);
    PendingOrder.HandledOnce(n.p, P.Flush);
  }

  lemma RemoveKeeps(s: P.State, id: nat)
    ensures P.RemoveStep(s, id).pit == P.Kept(s.pit, P.HasId(id))
  {
    if !P.Has(s.pit, id) { PendingOrder.KeptAll(s.pit, P.HasId(id)); }
  }

  /** Without a registered prefix of that id, removing it touches neither table. */
  lemma NoneRelated(r: R.State, id: nat)
    ensures R.RemoveRegistered(r, id).registered == R.RegisteredWithout(r.registered, id)
    ensures R.RemoveRegistered(r, id).filters == R.UnsetRelated(r.filters, r.registered, id)
  {
    if !R.HasRegistered(r.registered, id) {
      NothingLeaves(r.registered, id);
      NothingUnset(r.filters, r.registered, id);
    }
  }

  lemma {:induction false} NothingLeaves(xs: seq<R.Registered>, id: nat)
    requires !R.HasRegistered(xs, id)
    ensures R.RegisteredWithout(xs, id) == xs
  {
    if xs != [] {
      assert xs[0] in xs;
      NothingLeaves(xs[1..], id);
    }
  }

  lemma {:induction false} NothingUnset(fs: seq<R.Filter>, xs: seq<R.Registered>, id: nat)
    requires !R.HasRegistered(xs, id)
    ensures R.UnsetRelated(fs, xs, id) == fs
    decreases |xs|
  {
    if xs != [] {
      assert xs[|xs| - 1] in xs;
      NothingUnset(fs, xs[..|xs| - 1], id);
    }
  }

  lemma BlockingForm(s: P.State, e: P.Entry)
    requires !s.async && !s.status.Complete? && s.finishing == 0
    ensures Expressed(s, e) ==
            P.Helper(s.(expressed := s.expressed + [e], connects := s.connects + 1), e).(status := P.Complete)
  {
  }

  /** The table after a timeout of the entry. */
  function Remaining(pit: seq<P.Entry>, e: P.Entry): seq<P.Entry> {
    if e in pit then P.RemoveFirst(pit, e) else pit
  }

  lemma InfosWithout(s: seq<TableEntry>, i: nat)
    requires i < |s|
    ensures Infos(s[..i] + s[i + 1..]) == P.Without(Infos(s), i)
  {
  }

  lemma FireForm(s: P.State, i: nat)
    requires i < |s.timers|
    ensures var e, t := s.timers[i], P.FireStep(s, i);
            && t.timers == P.Without(s.timers, i)
            && t.pit == Remaining(s.pit, e)
            && t == s.(timers := t.timers, pit := t.pit, gotTimeout := t.gotTimeout, expired := t.expired)
  {
  }

  /** The table finds an entry by identity exactly when the protocol finds it by value. */
  lemma SameEntry(table: seq<TableEntry>, owner: map<nat, TableEntry>, entry: TableEntry)
    requires entry.info.id in owner && owner[entry.info.id] == entry
    requires forall m :: m in table ==> m.info.id in owner && owner[m.info.id] == m
    ensures entry in table <==> entry.info in Infos(table)
  {
    if entry.info in Infos(table) {
      var j :| 0 <= j < |table| && Infos(table)[j] == entry.info;
      assert table[j] in table;
    }
    if entry in table {
      var k :| 0 <= k < |table| && table[k] == entry;
      assert Infos(table)[k] == entry.info;
    }
  }

  /** And takes it out of the same place. */
  lemma SamePlace(table: seq<TableEntry>, owner: map<nat, TableEntry>, k: nat)
    requires Distinct(table) && k < |table|
    requires forall m :: m in table ==> m.info.id in owner && owner[m.info.id] == m
    ensures Infos(table[..k] + table[k + 1..]) == P.RemoveFirst(Infos(table), table[k].info)
  {
    var e := table[k].info;
    var j := PendingRuns.RemoveFirstIndex(Infos(table), e);
    assert table[j] in table && table[k] in table;
    assert j == k;
    assert Infos(table[..k] + table[k + 1..]) == P.Without(Infos(table), k);
  }

  /** The registrations after a Data packet was delivered to the entry. */
  function Answer(r: R.State, e: P.Entry, ok: bool, next: nat): R.State {
    if e.purpose.Application? then r
    else if ok then R.Succeed(r, e.purpose.registration, next)
    else R.Fail(r, e.purpose.registration.id)
  }

  /** What expressInterest does to each part of the state: it waits for the connection, is refused, or is handled. */
  lemma ExpressedFields(s: P.State, e: P.Entry)
    requires s.finishing == 0
    ensures var t := Expressed(s, e);
            && t.status == (if s.async && !s.status.Complete? then P.Requested else P.Complete)
            && t.connects == s.connects + (if s.status.Complete? || (s.async && s.status.Requested?) then 0 else 1)
            && t.queue == s.queue + (if s.async && !s.status.Complete? then [e] else [])
    ensures (s.async && !s.status.Complete?) || e.id in s.removeRequests ==>
              var t := Expressed(s, e); t.pit == s.pit && t.sent == s.sent && t.timers == s.timers
    ensures s.async && !s.status.Complete? ==> Expressed(s, e).removeRequests == s.removeRequests
    ensures !s.async || s.status.Complete? ==> Expressed(s, e).removeRequests == s.removeRequests - {e.id}
    ensures (!s.async || s.status.Complete?) && e.id !in s.removeRequests ==>
              var t := Expressed(s, e);
              && t.pit == s.pit + [e]
              && t.timers == s.timers + (if e.onTimeout || e.lifetime >= 0 then [e] else [])
              && t.sent == s.sent + (if P.GoesOut(e) then [e] else [])
  {
  }

  class Node {
    const async: bool
    var status: P.Status
    var connects: nat
    var loopbackEnabled: bool
    var dispatched: seq<(P.Entry, seq<R.Filter>)>    // expressed Interests given to the node's own filters
    var outcomes: seq<R.Outcome>                     // calls of onRegisterSuccess and onRegisterFailed
    const rx: R.Regex
    var callbacks: seq<P.Entry>      // onConnectedCallbacks_
    var lastEntryId: nat
    var sent: seq<P.Entry>
    var timers: seq<TableEntry>      // delayed calls of processInterestTimeout
    const pit: PendingInterestTable
    const filters: InterestFilterTable
    const registered: RegisteredPrefixTable
    ghost var state: NP.Node
    ghost var owner: map<nat, TableEntry>

    /** The fields hold what a protocol state says. */
    ghost predicate AgreesWith(n: NP.Node)
      reads this`status, this`connects, this`lastEntryId, this`sent, this`timers, this`outcomes,
            pit`table, pit`removeRequests, filters, registered
    {
      && ConnectionIs(n.p)
      && InterestsAre(n.p)
      && RegistrationsAre(n.r)
    }

    ghost predicate ConnectionIs(p: P.State)
      reads this`status, this`connects, this`lastEntryId
    {
      p.async == async && p.status == status && p.connects == connects && p.lastId == lastEntryId
    }

    ghost predicate InterestsAre(p: P.State)
      reads this`sent, this`timers, pit`table, pit`removeRequests
    {
      && p.sent == sent
      && p.timers == Infos(timers)
      && p.pit == pit.Contents()
      && p.removeRequests == pit.Requests()
    }

    ghost predicate RegistrationsAre(r: R.State)
      reads this`outcomes, filters, registered
    {
      && r.filters == filters.table
      && r.registered == registered.table
      && r.removeRequests == registered.Requests()
      && r.outcomes == outcomes
    }

    ghost predicate Agrees()
      reads this, pit, filters, registered
    {
      AgreesWith(state)
    }

    ghost predicate Entries()
      reads this, pit, pit.made, registered
    {
      EntriesIn(state.p.handled)
    }

    ghost predicate EntriesIn(handled: seq<P.Entry>)
      reads this`timers, this`owner, pit, pit.made, registered
    {
      && registered.filters == filters
      && Distinct(registered.removeRequests)
      && pit.Valid()
      && Owned(handled)
    }

    /** Every table entry was handled, and there is one object per id. */
    ghost predicate Owned(handled: seq<P.Entry>)
      reads this`timers, this`owner, pit`made
    {
      && (forall t :: t in timers ==> t in pit.made)
      && (forall m :: m in pit.made ==> m.info in handled && m.info.id in owner && owner[m.info.id] == m)
    }

    /** The state is one that the protocol reaches. Callbacks may still have to be called. */
    ghost predicate Working()
      reads this, pit, pit.made, filters, registered
    {
      Agrees() && Entries() && NodeSteps.Reached(state) && state.p.finishing == 0
    }

    /** Between two calls: nothing is half done. */
    ghost predicate Valid()
      reads this, pit, pit.made, filters, registered
    {
      && Working()
      && state.p.queue == callbacks
      && !state.p.flushing
      && state.p.dataPending == []
      && state.p.nackPending == []
    }

    /** The protocol catches up with the fields. */
    ghost method MoveTo(next: NP.Node, was: NP.Node)
      requires NodeSteps.Leads(was, next) && NodeSteps.Reached(next) && next.p.finishing == 0
      requires AgreesWith(next) && EntriesIn(next.p.handled)
      modifies this`state
      ensures state == next && Working() && NodeSteps.Leads(was, state)
    {
      state := next;
    }

    constructor (async: bool, rx: R.Regex)
      ensures Valid() && state == NP.Initial(async) && this.rx == rx
    {
      this.async, this.rx := async, rx;
      status, connects, callbacks, lastEntryId, sent, timers := P.Unconnected, 0, [], 0, [], [];
      loopbackEnabled, dispatched, outcomes := false, [], [];
      pit := new PendingInterestTable();
      var fs := new InterestFilterTable();
      filters := fs;
      registered := new RegisteredPrefixTable(fs);
      state, owner := NP.Initial(async), map[];
      new;
      NodeSteps.StartReached(async);
    }

    method SetInterestLoopbackEnabled(enabled: bool)
      requires Valid()
      modifies this`loopbackEnabled
      ensures Valid() && loopbackEnabled == enabled
    {
      loopbackEnabled := enabled;
    }

    method GetNextEntryId() returns (id: nat)
      requires Valid()
      modifies this`lastEntryId, this`state
      ensures Valid() && NodeSteps.Leads(old(state), state) && id == lastEntryId == old(lastEntryId) + 1
    {
      NodeSteps.LeadsToItself(state);
      NodeSteps.NextId(state, state);
      lastEntryId := lastEntryId + 1;
      state := state.(p := state.p.(lastId := lastEntryId));
      return lastEntryId;
    }

    method RemovePendingInterest(id: nat)
      requires Valid()
      modifies this`state, pit, pit.made
      ensures Valid() && NodeSteps.Leads(old(state), state)
      ensures state == old(state).(p := P.RemoveStep(old(state.p), id))
      ensures forall e :: e in pit.Contents() <==> e in old(pit.Contents()) && e.id != id
    {
      ghost var was := state.p.pit;
      NodeSteps.LeadsToItself(state);
      NodeSteps.NextRemove(state, state, id);
      RemoveKeeps(state.p, id);
      pit.RemovePendingInterest(id);
      state := state.(p := P.RemoveStep(state.p, id));
      PendingOrder.KeptMembers(was, P.HasId(id));
    }

    // ----- Expressing -----

    /** expressInterestHelper. */
    method ExpressInterestHelper(e: P.Entry)
      requires InterestsAre(state.p) && pit.Valid() && Owned(state.p.handled) && !P.Has(state.p.handled, e.id)
      modifies this`sent, this`timers, this`dispatched, this`state, this`owner, pit
      ensures InterestsAre(state.p) && pit.Valid() && Owned(state.p.handled)
      ensures state == old(state).(p := P.Helper(old(state.p), e))
      ensures dispatched == old(dispatched) + if e.id in old(state.p.removeRequests) then [] else LoopedBack(e)
    {
      Handle(e);
      NoteHandled(e);
    }

    /** What the helper does to the fields. */
    method Handle(e: P.Entry)
      requires InterestsAre(state.p) && pit.Valid() && Owned(state.p.handled) && !P.Has(state.p.handled, e.id)
      modifies this`sent, this`timers, this`dispatched, this`owner, pit
      ensures pit.Valid() && Owned(state.p.handled + [e]) && Handled(e)
      ensures dispatched == old(dispatched) + if e.id in state.p.removeRequests then [] else LoopedBack(e)
    {
      var entry := AddEntry(e, state.p.handled);
      if entry != null { SendOut(entry, state.p.handled + [e]); }
    }

    /** The timeout and the transport. */
    method SendOut(entry: TableEntry, ghost handled: seq<P.Entry>)
      requires Owned(handled) && entry in pit.made
      modifies this`timers, this`sent, this`dispatched
      ensures Owned(handled)
      ensures Infos(timers) == if P.NeedsTimer(entry.info) then Infos(old(timers)) + [entry.info] else Infos(old(timers))
      ensures sent == if P.GoesOut(entry.info) then old(sent) + [entry.info] else old(sent)
      ensures dispatched == old(dispatched) + LoopedBack(entry.info)
    {
      CallLater(entry);
      Send(entry.info);
    }

    ghost predicate Handled(e: P.Entry)
      reads this`state, this`timers, this`sent, pit`table, pit`removeRequests
    {
      var p := state.p;
      if e.id in p.removeRequests then
        && pit.Contents() == p.pit && pit.Requests() == p.removeRequests - {e.id}
        && Infos(timers) == p.timers && sent == p.sent
      else
        && pit.Contents() == p.pit + [e] && pit.Requests() == p.removeRequests
        && Infos(timers) == (if P.NeedsTimer(e) then p.timers + [e] else p.timers)
        && sent == (if P.GoesOut(e) then p.sent + [e] else p.sent)
    }

    ghost method NoteHandled(e: P.Entry)
      requires Owned(state.p.handled + [e]) && Handled(e)
      modifies this`state
      ensures InterestsAre(state.p) && Owned(state.p.handled)
      ensures state == old(state).(p := P.Helper(old(state.p), e))
    {
      state := state.(p := P.Helper(state.p, e));
    }

    method AddEntry(e: P.Entry, ghost handled: seq<P.Entry>) returns (entry: TableEntry?)
      requires pit.Valid() && Owned(handled) && !P.Has(handled, e.id)
      modifies this`owner, pit
      ensures pit.Valid() && Owned(handled + [e])
      ensures entry == null <==> e.id in old(pit.Requests())
      ensures pit.Requests() == if entry == null then old(pit.Requests()) - {e.id} else old(pit.Requests())
      ensures pit.Contents() == if entry == null then old(pit.Contents()) else old(pit.Contents()) + [e]
      ensures entry != null ==> entry in pit.made && entry.info == e
    {
      entry := pit.Add(e);
      if entry != null { owner := owner[e.id := entry]; }
    }

    /** Set up the timeout, if the Interest has a lifetime or someone waits for it. */
    method CallLater(entry: TableEntry)
      modifies this`timers
      ensures timers == if P.NeedsTimer(entry.info) then old(timers) + [entry] else old(timers)
      ensures Infos(timers) == if P.NeedsTimer(entry.info) then Infos(old(timers)) + [entry.info] else Infos(old(timers))
    {
      if entry.info.onTimeout || entry.info.lifetime >= 0 { timers := timers + [entry]; }
    }

    /** The filters that an Interest which goes out is dispatched to as well. */
    function LoopedBack(e: P.Entry): seq<(P.Entry, seq<R.Filter>)>
      reads this`loopbackEnabled, filters
    {
      if P.GoesOut(e) && loopbackEnabled then [(e, R.Matched(filters.table, e.selectors.name, rx))] else []
    }

    /** Interests under /local/timeout are not sent, nor looped back. */
    method Send(e: P.Entry)
      modifies this`sent, this`dispatched
      ensures sent == if P.GoesOut(e) then old(sent) + [e] else old(sent)
      ensures dispatched == old(dispatched) + LoopedBack(e)
      ensures var n := e.selectors.name;
              var local := |n| >= 2 && n[0].value == BytesOf("local") && n[1].value == BytesOf("timeout");
              && sent == (if local then old(sent) else old(sent) + [e])
              && dispatched == old(dispatched) +
                   (if loopbackEnabled && !local then [(e, R.Matched(filters.table, n, rx))] else [])
    {
      PendingOrder.GoesOutMeans(e);
      var local := Match(P.TIMEOUT_PREFIX, e.selectors.name);
      if !local {
        sent := sent + [e];
        if loopbackEnabled {
          var matched := filters.GetMatchedFilters(e.selectors.name, rx);
          dispatched := dispatched + [(e, matched)];
        }
      }
    }

    /**
     * expressInterest, without callbacks that re-enter: send at once, or connect and send, or ask
     * for the connection once and queue.
     */
    method ExpressInterest(e: P.Entry)
      requires Valid() && NP.Legal(state, NP.Act(P.Express(e)))
      modifies this, pit
      ensures Valid() && NodeSteps.Leads(old(state), state)
      ensures state == old(state).(p := Expressed(old(state.p), e))
      ensures dispatched == old(dispatched) + old(Loops(e))
      ensures status == if async && !old(status).Complete? then P.Requested else P.Complete
      ensures connects == old(connects) + if old(status).Complete? || (async && old(status).Requested?) then 0 else 1
      ensures callbacks == old(callbacks) + if async && !old(status).Complete? then [e] else []
      ensures (async && !old(status).Complete?) || e.id in old(pit.Requests()) ==>
                pit.Contents() == old(pit.Contents()) && sent == old(sent) && Infos(timers) == Infos(old(timers))
      ensures async && !old(status).Complete? ==> pit.Requests() == old(pit.Requests())
      ensures !async || old(status).Complete? ==> pit.Requests() == old(pit.Requests()) - {e.id}
      ensures (!async || old(status).Complete?) && e.id !in old(pit.Requests()) ==>
                && pit.Contents() == old(pit.Contents()) + [e]
                && Infos(timers) == Infos(old(timers)) + (if e.onTimeout || e.lifetime >= 0 then [e] else [])
                && sent == old(sent) + (if P.GoesOut(e) then [e] else [])
    {
      NodeSteps.LeadsToItself(state);
      NodeSteps.NextExpress(state, state, e);
      ghost var was, next := state, state.(p := P.ExpressStep(state.p, e));
      ExpressedFields(state.p, e);
      Express(e);
      if next.p.finishing > 0 { NodeSteps.NextFinishSync(was, next); }
    }

    /** nfdRegisterPrefix: the registration is an Interest whose callbacks are the response handler. */
    method RegisterPrefix(reg: R.Registration, e: P.Entry)
      requires Valid() && NP.Legal(state, NP.Register(reg, e))
      modifies this, pit
      ensures Valid() && NodeSteps.Leads(old(state), state)
      ensures state == old(state).(p := Expressed(old(state.p), e), commands := old(state.commands)[reg.id := e.id])
    {
      NodeSteps.LeadsToItself(state);
      NodeSteps.NextRegister(state, state, reg, e);
      ghost var was := state;
      ghost var next := state.(p := P.ExpressStep(state.p, e), commands := state.commands[reg.id := e.id]);
      Express(e);
      state := state.(commands := state.commands[reg.id := e.id]);
      if next.p.finishing > 0 { NodeSteps.NextFinishSync(was, next); }
    }

    /** What expressInterest dispatches at once: nothing when the Interest is queued or was removed already. */
    ghost function Loops(e: P.Entry): seq<(P.Entry, seq<R.Filter>)>
      reads this`status, this`state, this`loopbackEnabled, filters
    {
      if (async && !status.Complete?) || e.id in state.p.removeRequests then [] else LoopedBack(e)
    }

    method Express(e: P.Entry)
      requires Valid() && P.Legal(state.p, P.Express(e))
      modifies this, pit
      ensures Agrees() && Entries() && state.p.queue == callbacks
      ensures state == old(state).(p := Expressed(old(state.p), e))
      ensures dispatched == old(dispatched) + old(Loops(e))
    {
      NotHandled(state, e);
      if status.Complete? {
        ExpressNow(e);
      } else if !async {
        ConnectAndExpress(e);
      } else {
        QueueForConnection(e);
      }
    }

    method ExpressNow(e: P.Entry)
      requires Agrees() && Entries() && !P.Has(state.p.handled, e.id)
      requires state.p.finishing == 0 && status.Complete?
      modifies this`sent, this`timers, this`dispatched, this`state, this`owner, pit
      ensures Agrees() && Entries() && state == old(state).(p := Expressed(old(state.p), e))
      ensures dispatched == old(dispatched) + old(Loops(e))
    {
      state := state.(p := state.p.(expressed := state.p.expressed + [e]));
      ExpressInterestHelper(e);
    }

    method ConnectAndExpress(e: P.Entry)
      requires Agrees() && Entries() && !P.Has(state.p.handled, e.id)
      requires state.p.finishing == 0 && !async && !status.Complete?
      modifies this`connects, this`status, this`sent, this`timers, this`dispatched, this`state, this`owner, pit
      ensures Agrees() && Entries() && state == old(state).(p := Expressed(old(state.p), e))
      ensures dispatched == old(dispatched) + old(Loops(e))
    {
      ghost var was := state.p;
      Connect(e);
      ExpressInterestHelper(e);
      BlockingForm(was, e);
      Complete();
    }

    method Connect(e: P.Entry)
      requires Agrees() && Entries()
      modifies this`connects, this`state
      ensures Agrees() && Entries()
      ensures state == old(state).(p := old(state.p).(expressed := old(state.p.expressed) + [e], connects := old(connects) + 1))
    {
      connects := connects + 1;
      state := state.(p := state.p.(expressed := state.p.expressed + [e], connects := connects));
    }

    method Complete()
      requires Agrees() && Entries()
      modifies this`status, this`state
      ensures Agrees() && Entries() && state == old(state).(p := old(state.p).(status := P.Complete))
    {
      status := P.Complete;
      state := state.(p := state.p.(status := P.Complete));
    }

    method QueueForConnection(e: P.Entry)
      requires Agrees() && Entries() && state.p.queue == callbacks
      requires state.p.finishing == 0 && async && !status.Complete?
      modifies this`connects, this`status, this`callbacks, this`state
      ensures Agrees() && Entries() && state.p.queue == callbacks
      ensures state == old(state).(p := Expressed(old(state.p), e))
    {
      state := state.(p := P.ExpressStep(state.p, e));
      callbacks := callbacks + [e];
      if status.Unconnected? {
        status := P.Requested;
        connects := connects + 1;
      }
    }

    /** onConnected: call what was queued, in order, and only then report the connection as complete. */
    method OnConnected()
      requires Valid() && async && status.Requested?
      modifies this, pit
      ensures Valid() && NodeSteps.Leads(old(state), state) && callbacks == [] && status.Complete?
      ensures state.p.handled == old(state.p.handled) + old(callbacks)
    {
      ghost var was := state;
      BeginFlushing();
      CallAllQueued(was);
      FinishFlushing(was);
    }

    ghost method BeginFlushing()
      requires Valid() && async && status.Requested?
      modifies this`state
      ensures Working() && NodeSteps.Leads(old(state), state)
      ensures state == old(state).(p := old(state.p).(flushing := true))
    {
      NodeSteps.LeadsToItself(state);
      NodeSteps.NextConnected(state, state);
      MoveTo(state.(p := state.p.(flushing := true)), state);
    }

    /** The loop of onConnected. */
    method CallAllQueued(ghost was: NP.Node)
      requires Working() && NodeSteps.Leads(was, state) && state.p.flushing && state.p.queue == callbacks
      modifies this`sent, this`timers, this`dispatched, this`state, this`owner, pit
      ensures Working() && NodeSteps.Leads(was, state) && state.p.flushing && state.p.queue == []
      ensures state.p.handled == old(state.p.handled) + callbacks
      ensures state.p.dataPending == old(state.p.dataPending) && state.p.nackPending == old(state.p.nackPending)
    {
      for i := 0 to |callbacks|
        invariant Working() && NodeSteps.Leads(was, state)
        invariant state.p.flushing && state.p.queue == callbacks[i..]
        invariant state.p.handled == old(state.p.handled) + callbacks[..i]
        invariant state.p.dataPending == old(state.p.dataPending) && state.p.nackPending == old(state.p.nackPending)
      {
        CallQueued(callbacks[i], was);
      }
    }

    /** One queued callback. */
    method CallQueued(e: P.Entry, ghost was: NP.Node)
      requires Working() && NodeSteps.Leads(was, state)
      requires state.p.flushing && state.p.queue != [] && state.p.queue[0] == e
      modifies this`sent, this`timers, this`dispatched, this`state, this`owner, pit
      ensures Working() && NodeSteps.Leads(was, state)
      ensures state.p.flushing && state.p.queue == old(state.p.queue)[1..]
      ensures state.p.handled == old(state.p.handled) + [e]
      ensures state.p.dataPending == old(state.p.dataPending) && state.p.nackPending == old(state.p.nackPending)
    {
      NodeSteps.NextFlush(was, state);
      QueuedNotHandled(state);
      state := state.(p := state.p.(queue := state.p.queue[1..]));
      ExpressInterestHelper(e);
    }

    method FinishFlushing(ghost was: NP.Node)
      requires Working() && NodeSteps.Leads(was, state) && state.p.flushing && state.p.queue == []
      requires state.p.dataPending == state.p.nackPending == []
      modifies this`callbacks, this`status, this`state
      ensures Valid() && NodeSteps.Leads(was, state) && callbacks == []
      ensures status.Complete? && state.p.handled == old(state.p.handled)
    {
      NodeSteps.NextFinishConnected(was, state);
      callbacks := [];
      status := P.Complete;
      state := state.(p := state.p.(flushing := false, status := P.Complete));
    }

    // ----- Receiving -----

    /**
     * satisfyPendingInterests: every matching entry leaves the table before the first callback is
     * called. `ok` tells whether the packet reports a registration as accepted.
     */
    method SatisfyPendingInterests(d: Packet, ok: bool) returns (called: seq<P.Entry>)
      requires Valid()
      modifies this, pit, pit.made, filters, registered
      ensures Valid() && NodeSteps.Leads(old(state), state)
      ensures called == P.Taken(old(state.p.pit), P.WantsData(d))
      ensures forall e :: e in called <==> e in old(pit.Contents()) && Satisfies(e.selectors, d)
      ensures forall e :: e in pit.Contents() <==> e in old(pit.Contents()) && !Satisfies(e.selectors, d)
      ensures state.p == old(state.p).(
                pit := P.Kept(old(state.p.pit), P.WantsData(d)),
                gotData := old(state.p.gotData) + called,
                lastId := lastEntryId)
    {
      ghost var was := state;
      var entries := TakeForData(d);
      CallAllOnData(entries, ok, was);
      called := Infos(entries);
      PendingOrder.DataMembers(was.p.pit, d);
    }

    /** putData: with loopback, a packet that satisfies a pending Interest of this node is not sent to the forwarder. */
    method PutData(d: Packet, ok: bool) returns (toForwarder: bool)
      requires Valid()
      modifies this, pit, pit.made, filters, registered
      ensures Valid() && NodeSteps.Leads(old(state), state)
      ensures toForwarder <==> !old(loopbackEnabled) || forall e :: e in old(pit.Contents()) ==> !Satisfies(e.selectors, d)
      ensures !old(loopbackEnabled) ==> state == old(state)
    {
      NodeSteps.LeadsToItself(state);
      if loopbackEnabled {
        var called := SatisfyPendingInterests(d, ok);
        if |called| > 0 {
          assert called[0] in called;
          return false;
        }
        assert forall e :: e !in called;
      }
      return true;
    }

    /** dispatchInterest: the filters whose onInterest is called. */
    method DispatchInterest(name: Name) returns (matched: seq<R.Filter>)
      requires Valid()
      ensures matched == R.Matched(state.r.filters, name, rx)
    {
      matched := filters.GetMatchedFilters(name, rx);
    }

    method CallAllOnData(entries: seq<TableEntry>, ok: bool, ghost was: NP.Node)
      requires Working() && NodeSteps.Leads(was, state) && state.p.dataPending == Infos(entries)
      modifies this`lastEntryId, this`outcomes, this`state, filters, registered
      ensures Working() && NodeSteps.Leads(was, state)
      ensures state.p == old(state.p).(
                dataPending := [], gotData := old(state.p.gotData) + Infos(entries), lastId := lastEntryId)
    {
      ghost var start := state.p;
      for i := 0 to |entries|
        invariant Working() && NodeSteps.Leads(was, state)
        invariant state.p == start.(
                    dataPending := Infos(entries[i..]), gotData := start.gotData + Infos(entries[..i]), lastId := lastEntryId)
      {
        CallOnData(entries[i].info, ok, was);
        assert Infos(entries[i..])[1..] == Infos(entries[i + 1..]);
        assert Infos(entries[..i]) + [entries[i].info] == Infos(entries[..i + 1]);
      }
      assert entries[..|entries|] == entries;
    }

    method TakeForData(d: Packet) returns (entries: seq<TableEntry>)
      requires Valid()
      modifies this`state, pit, pit.made
      ensures Working() && NodeSteps.Leads(old(state), state)
      ensures Infos(entries) == P.Taken(old(state.p.pit), P.WantsData(d))
      ensures state == old(state).(p := old(state.p).(
                pit := P.Kept(old(state.p.pit), P.WantsData(d)), dataPending := Infos(entries)))
    {
      NodeSteps.LeadsToItself(state);
      NodeSteps.NextDataIn(state, state, d);
      entries := pit.ExtractEntriesForExpressedInterest(d);
      assert [] + Infos(entries) == Infos(entries);
      MoveTo(state.(p := state.p.(pit := pit.Contents(), dataPending := Infos(entries))), state);
    }

    method CallOnData(e: P.Entry, ok: bool, ghost was: NP.Node)
      requires Working() && NodeSteps.Leads(was, state)
      requires state.p.dataPending != [] && state.p.dataPending[0] == e
      modifies this`lastEntryId, this`outcomes, this`state, filters, registered
      ensures Working() && NodeSteps.Leads(was, state)
      ensures state.p == NodeSteps.Delivered(old(state.p)).(lastId := lastEntryId)
      ensures state.r == Answer(old(state.r), e, ok, old(lastEntryId) + 1)
    {
      if e.purpose.Command? {
        CallRegisterResponse(e, ok, was);
      } else {
        CallApplication(e, was);
      }
    }

    method CallRegisterResponse(e: P.Entry, ok: bool, ghost was: NP.Node)
      requires Working() && NodeSteps.Leads(was, state) && e.purpose.Command?
      requires state.p.dataPending != [] && state.p.dataPending[0] == e
      modifies this`lastEntryId, this`outcomes, this`state, filters, registered
      ensures Working() && NodeSteps.Leads(was, state)
      ensures state.p == NodeSteps.Delivered(old(state.p)).(lastId := lastEntryId)
      ensures state.r == Answer(old(state.r), e, ok, old(lastEntryId) + 1)
    {
      NodeSteps.CommandHasId(state, e);
      NodeSteps.NextRespond(was, state, ok);
      ghost var p, r := NodeSteps.Delivered(state.p), Answer(state.r, e, ok, lastEntryId + 1);
      RegisterResponse(e.purpose.registration, ok, state.r);
      MoveTo(state.(p := p.(lastId := lastEntryId), r := r), was);
    }

    ghost method CallApplication(e: P.Entry, was: NP.Node)
      requires Working() && NodeSteps.Leads(was, state) && e.purpose.Application?
      requires state.p.dataPending != [] && state.p.dataPending[0] == e
      modifies this`state
      ensures Working() && NodeSteps.Leads(was, state)
      ensures state == old(state).(p := NodeSteps.Delivered(old(state.p)))
    {
      NodeSteps.NextDeliverData(was, state);
      state := state.(p := NodeSteps.Delivered(state.p));
    }

    /** RegisterResponse called with a Data packet: the filter is set first and taken back if the registration was removed. */
    method RegisterResponse(reg: R.Registration, ok: bool, ghost r: R.State)
      requires registered.filters == filters && Distinct(registered.removeRequests) && r.outcomes == outcomes
      requires r.filters == filters.table && r.registered == registered.table && r.removeRequests == registered.Requests()
      modifies this`lastEntryId, this`outcomes, filters, registered
      ensures Distinct(registered.removeRequests)
      ensures lastEntryId == old(lastEntryId) + if ok && reg.id > 0 && reg.onInterest then 1 else 0
      ensures !ok || reg.id > 0 ==>
                var t := if ok then R.Succeed(r, reg, old(lastEntryId) + 1) else R.Fail(r, reg.id);
                && t.filters == filters.table
                && t.registered == registered.table
                && t.removeRequests == registered.Requests()
                && t.outcomes == outcomes
      ensures ok && reg.id == 0 ==>
                && r.filters == filters.table && r.registered == registered.table
                && r.removeRequests == registered.Requests()
                && outcomes == r.outcomes + if reg.onSuccess then [R.Outcome(0, true)] else []
      ensures !ok ==> outcomes == old(outcomes) + [R.Outcome(reg.id, false)]
      ensures ok && (reg.id == 0 || reg.id !in old(registered.Requests())) ==>
                outcomes == old(outcomes) + if reg.onSuccess then [R.Outcome(reg.id, true)] else []
      ensures ok && reg.id > 0 && reg.id in old(registered.Requests()) ==>
                outcomes == old(outcomes) && registered.table == old(registered.table)
      ensures ok && reg.id > 0 && reg.id !in old(registered.Requests()) ==>
                var next := old(lastEntryId) + 1;
                && filters.table == old(filters.table) +
                     (if reg.onInterest then [R.Filter(next, reg.prefix, None, Some(reg.id))] else [])
                && registered.table == old(registered.table) +
                     [R.Registered(reg.id, reg.prefix, if reg.onInterest then next else 0)]
      ensures !ok || reg.id == 0 ==> filters.table == old(filters.table) && registered.table == old(registered.table)
    {
      if !ok {
        outcomes := outcomes + [R.Outcome(reg.id, false)];
        return;
      }
      if reg.id != 0 {
        var added := AddRegistration(reg);
        if !added { return; }
      }
      if reg.onSuccess { outcomes := outcomes + [R.Outcome(reg.id, true)]; }
    }

    method AddRegistration(reg: R.Registration) returns (added: bool)
      requires registered.filters == filters && Distinct(registered.removeRequests)
      modifies this`lastEntryId, filters, registered
      ensures Distinct(registered.removeRequests) && added == (reg.id !in old(registered.Requests()))
      ensures registered.Requests() == old(registered.Requests()) - {reg.id}
      ensures lastEntryId == old(lastEntryId) + if reg.onInterest then 1 else 0
      ensures var f := R.Filter(old(lastEntryId) + 1, reg.prefix, None, Some(reg.id));
              filters.table == if !reg.onInterest then old(filters.table)
                               else if added then old(filters.table) + [f]
                               else R.FiltersWithout(old(filters.table) + [f], f.id)
      ensures registered.table == if !added then old(registered.table)
                else old(registered.table) + [R.Registered(reg.id, reg.prefix, if reg.onInterest then old(lastEntryId) + 1 else 0)]
    {
      var filterId := 0;
      if reg.onInterest {
        lastEntryId := lastEntryId + 1;
        filterId := lastEntryId;
        filters.SetInterestFilter(R.Filter(filterId, reg.prefix, None, Some(reg.id)));
      }
      added := registered.Add(R.Registered(reg.id, reg.prefix, filterId));
      if !added && filterId > 0 { filters.UnsetInterestFilter(filterId); }
    }

    /** A network Nack: only entries with an onNetworkNack callback are taken. */
    method OnNack(encoding: Blob) returns (called: seq<P.Entry>)
      requires Valid()
      modifies this`state, pit, pit.made
      ensures Valid() && NodeSteps.Leads(old(state), state)
      ensures called == P.Taken(old(state.p.pit), P.WantsNack(encoding))
      ensures forall e :: e in called <==> e in old(pit.Contents()) && e.onNack && e.encoding == encoding
      ensures forall e :: e in pit.Contents() <==> e in old(pit.Contents()) && !(e.onNack && e.encoding == encoding)
      ensures state == old(state).(p := old(state.p).(
                pit := P.Kept(old(state.p.pit), P.WantsNack(encoding)), gotNack := old(state.p.gotNack) + called))
    {
      ghost var was := state;
      var entries := TakeForNack(encoding);
      CallAllOnNack(entries, was);
      called := Infos(entries);
      PendingOrder.NackMembers(was.p.pit, encoding);
    }

    method CallAllOnNack(entries: seq<TableEntry>, ghost was: NP.Node)
      requires Working() && NodeSteps.Leads(was, state) && state.p.nackPending == Infos(entries)
      modifies this`state
      ensures Working() && NodeSteps.Leads(was, state)
      ensures state == old(state).(p := old(state.p).(nackPending := [], gotNack := old(state.p.gotNack) + Infos(entries)))
    {
      ghost var start := state;
      for i := 0 to |entries|
        invariant Working() && NodeSteps.Leads(was, state)
        invariant state == start.(p := start.p.(
                    nackPending := Infos(entries[i..]), gotNack := start.p.gotNack + Infos(entries[..i])))
      {
        CallOnNack(entries[i].info, was);
        assert Infos(entries[i..])[1..] == Infos(entries[i + 1..]);
        assert Infos(entries[..i]) + [entries[i].info] == Infos(entries[..i + 1]);
      }
      assert entries[..|entries|] == entries;
    }

    ghost method CallOnNack(e: P.Entry, was: NP.Node)
      requires Working() && NodeSteps.Leads(was, state) && state.p.nackPending != [] && state.p.nackPending[0] == e
      modifies this`state
      ensures Working() && NodeSteps.Leads(was, state)
      ensures state == old(state).(p := old(state.p).(
                nackPending := old(state.p.nackPending)[1..], gotNack := old(state.p.gotNack) + [e]))
    {
      NodeSteps.NextDeliverNack(was, state);
      state := state.(p := state.p.(nackPending := state.p.nackPending[1..], gotNack := state.p.gotNack + [e]));
    }

    method TakeForNack(encoding: Blob) returns (entries: seq<TableEntry>)
      requires Valid()
      modifies this`state, pit, pit.made
      ensures Working() && NodeSteps.Leads(old(state), state)
      ensures Infos(entries) == P.Taken(old(state.p.pit), P.WantsNack(encoding))
      ensures state == old(state).(p := old(state.p).(
                pit := P.Kept(old(state.p.pit), P.WantsNack(encoding)), nackPending := Infos(entries)))
    {
      NodeSteps.LeadsToItself(state);
      NodeSteps.NextNackIn(state, state, encoding);
      entries := pit.ExtractEntriesForNackInterest(encoding);
      assert [] + Infos(entries) == Infos(entries);
      MoveTo(state.(p := state.p.(pit := pit.Contents(), nackPending := Infos(entries))), state);
    }

    /** A scheduled call of processInterestTimeout fires; it returns whether a callback was called. */
    method ProcessInterestTimeout(i: nat) returns (called: bool)
      requires Valid() && i < |timers|
      modifies this`timers, this`outcomes, this`state, pit`table, timers[i]
      ensures Valid() && NodeSteps.Leads(old(state), state)
      ensures state.p == P.FireStep(old(state.p), i)
      ensures state.p.gotTimeout == old(state.p.gotTimeout) + if called then [old(timers)[i].info] else []
      ensures pit.Contents() == Remaining(old(pit.Contents()), old(timers)[i].info)
      ensures Infos(timers) == P.Without(Infos(old(timers)), i)
      ensures var e := old(timers)[i].info;
              state.r == if called && e.purpose.Command? then R.Fail(old(state.r), e.purpose.registration.id) else old(state.r)
      ensures called <==> old(timers)[i].info in old(state.p.pit) && old(timers)[i].info.onTimeout
      ensures var e := old(timers)[i].info;
              outcomes == old(outcomes) + if called && e.purpose.Command? then [R.Outcome(e.purpose.registration.id, false)] else []
    {
      var entry := timers[i];
      NodeSteps.LeadsToItself(state);
      NodeSteps.NextFire(state, state, i);
      FireForm(state.p, i);
      called := TimeOut(i);
      ghost var r := state.r;
      if called && entry.info.purpose.Command? {
        outcomes := outcomes + [R.Outcome(entry.info.purpose.registration.id, false)];
        r := R.Fail(r, entry.info.purpose.registration.id);
      }
      MoveTo(state.(p := P.FireStep(state.p, i), r := r), state);
    }

    /** The timer and the table entry go. */
    method TimeOut(i: nat) returns (called: bool)
      requires InterestsAre(state.p) && Entries() && i < |timers|
      modifies this`timers, pit`table, timers[i]
      ensures Entries() && pit.Requests() == state.p.removeRequests
      ensures Infos(timers) == P.Without(state.p.timers, i)
      ensures pit.Contents() == Remaining(state.p.pit, state.p.timers[i])
      ensures called <==> state.p.timers[i] in state.p.pit && state.p.timers[i].onTimeout
    {
      var entry := timers[i];
      var removed := TakeTimedOut(entry);
      InfosWithout(timers, i);
      timers := timers[..i] + timers[i + 1..];
      return removed && entry.info.onTimeout;
    }

    method TakeTimedOut(entry: TableEntry) returns (removed: bool)
      requires InterestsAre(state.p) && Entries() && entry in pit.made
      modifies pit`table, entry
      ensures Entries() && removed == (entry.info in state.p.pit)
      ensures pit.Contents() == Remaining(state.p.pit, entry.info)
    {
      ghost var was := pit.table;
      assert forall m :: m in was ==> m in pit.made;
      SameEntry(was, owner, entry);
      removed := pit.RemoveEntry(entry);
      if removed {
        ghost var k :| 0 <= k < |was| && was[k] == entry && pit.table == was[..k] + was[k + 1..];
        SamePlace(was, owner, k);
      }
    }

    // ----- Filters and registrations -----

    method RemoveRegisteredPrefix(id: nat)
      requires Valid()
      modifies this`state, registered, filters
      ensures Valid() && NodeSteps.Leads(old(state), state)
      ensures state == old(state).(r := R.RemoveRegistered(old(state.r), id))
    {
      NodeSteps.LeadsToItself(state);
      NodeSteps.NextRemoveRegistration(state, state, id);
      NoneRelated(state.r, id);
      registered.RemoveRegisteredPrefix(id);
      state := state.(r := R.RemoveRegistered(state.r, id));
    }

    method SetInterestFilter(f: R.Filter)
      requires Valid() && NP.Legal(state, NP.SetFilter(f))
      modifies this`state, filters
      ensures Valid() && NodeSteps.Leads(old(state), state)
      ensures state == old(state).(r := R.SetFilter(old(state.r), f))
    {
      NodeSteps.LeadsToItself(state);
      NodeSteps.NextSetFilter(state, state, f);
      filters.SetInterestFilter(f);
      state := state.(r := R.SetFilter(state.r, f));
    }

    method UnsetInterestFilter(id: nat)
      requires Valid()
      modifies this`state, filters
      ensures Valid() && NodeSteps.Leads(old(state), state)
      ensures state == old(state).(r := R.UnsetFilter(old(state.r), id))
    {
      NodeSteps.LeadsToItself(state);
      NodeSteps.NextUnsetFilter(state, state, id);
      filters.UnsetInterestFilter(id);
      state := state.(r := R.UnsetFilter(state.r, id));
    }
  }

  /** What expressInterest does in all: a blocking transport is connected when it returns. */
  function Expressed(s: P.State, e: P.Entry): P.State {
    var t := P.ExpressStep(s, e);
    if t.finishing > 0 then t.(finishing := t.finishing - 1, status := P.Complete) else t
  }
}
