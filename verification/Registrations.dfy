/**
 * Prefix registrations and interest filters in Node (RegisterResponse in src/node.cpp,
 * src/impl/registered-prefix-table.cpp, src/impl/interest-filter-table.cpp).
 */
module Registrations {
  import opened Bytes
  import opened Names

  /** What registerPrefix is given: the id, the prefix, and which callbacks are not empty. */
  datatype Registration = Registration(id: nat, prefix: Name, onInterest: bool, onSuccess: bool)

  /** An interest filter, with its regular expression and the registration that made it, if there are such. */
  datatype Filter = Filter(id: nat, prefix: Name, regex: Option<Text>, origin: Option<nat>)

  /** What the regular expression library answers for a pattern and the components behind the prefix. */
  type Regex = (Text, Name) -> bool

  /** InterestFilter::doesMatch. */
  predicate DoesMatch(f: Filter, name: Name, rx: Regex) {
    ValuePrefix(f.prefix, name) && (f.regex.Some? ==> rx(f.regex.value, name[|f.prefix|..]))
  }

  /** A registered prefix and its related filter, 0 if it has none. */
  datatype Registered = Registered(id: nat, prefix: Name, filterId: nat)

  /** A call of onRegisterSuccess or onRegisterFailed. */
  datatype Outcome = Outcome(id: nat, success: bool)

  datatype State = State(
    filters: seq<Filter>,
    registered: seq<Registered>,
    removeRequests: set<nat>,
    // What has happened:
    answered: set<nat>,            // registrations whose response has arrived or timed out
    succeeded: map<nat, nat>,      // registrations that were added to the table, with their filter ids
    removed: set<nat>,             // ids that removeRegisteredPrefix was called with
    made: set<nat>,                // ids of all the filters that were ever set
    unset: set<nat>,               // ids of set filters that unsetInterestFilter was called with
    outcomes: seq<Outcome>)

  function Initial(): State { State([], [], {}, {}, map[], {}, {}, {}, []) }

  function FiltersWithout(fs: seq<Filter>, id: nat): seq<Filter> {
    if fs == [] then [] else (if fs[0].id == id then [] else [fs[0]]) + FiltersWithout(fs[1..], id)
  }

  function RegisteredWithout(xs: seq<Registered>, id: nat): seq<Registered> {
    if xs == [] then [] else (if xs[0].id == id then [] else [xs[0]]) + RegisteredWithout(xs[1..], id)
  }

  /** The filters that stay when the registered prefixes with the id go, taken from the back. */
  function UnsetRelated(fs: seq<Filter>, xs: seq<Registered>, id: nat): seq<Filter>
    decreases |xs|
  {
    if xs == [] then fs
    else
      var x := xs[|xs| - 1];
      UnsetRelated(if x.id == id && x.filterId > 0 then FiltersWithout(fs, x.filterId) else fs, xs[..|xs| - 1], id)
  }

  /** The filters that match the name of an Interest, in order. */
  function Matched(fs: seq<Filter>, name: Name, rx: Regex): seq<Filter> {
    if fs == [] then [] else (if DoesMatch(fs[0], name, rx) then [fs[0]] else []) + Matched(fs[1..], name, rx)
  }

  predicate HasRegistered(xs: seq<Registered>, id: nat) { exists x :: x in xs && x.id == id }

  // ----- Steps -----

  function SetFilter(s: State, f: Filter): State {
    s.(filters := s.filters + [f], made := s.made + {f.id})
  }

  function UnsetFilter(s: State, id: nat): State {
    s.(filters := FiltersWithout(s.filters, id), unset := if id in s.made then s.unset + {id} else s.unset)
  }

  /** removeRegisteredPrefix, with any id at any time. */
  function RemoveRegistered(s: State, id: nat): State {
    var s := s.(removed := s.removed + {id});
    if HasRegistered(s.registered, id) then
      s.(filters := UnsetRelated(s.filters, s.registered, id), registered := RegisteredWithout(s.registered, id))
    else
      s.(removeRequests := s.removeRequests + {id})
  }

  /** The response reports a failure, cannot be decoded, or timed out. */
  function Fail(s: State, id: nat): State {
    s.(answered := s.answered + {id}, outcomes := s.outcomes + [Outcome(id, false)])
  }

  /** The response reports success; `next` is the next entry id. */
  function Succeed(s: State, reg: Registration, next: nat): State {
    var id := reg.id;
    var filterId := if reg.onInterest then next else 0;
    var s := s.(answered := s.answered + {id});
    var t := if reg.onInterest then SetFilter(s, Filter(next, reg.prefix, None, Some(id))) else s;
    if id in s.removeRequests then
      var u := t.(removeRequests := t.removeRequests - {id});
      if filterId > 0 then u.(filters := FiltersWithout(u.filters, filterId)) else u
    else
      t.(registered := t.registered + [Registered(id, reg.prefix, filterId)],
         succeeded := t.succeeded[id := filterId],
         outcomes := if reg.onSuccess then t.outcomes + [Outcome(id, true)] else t.outcomes)
  }

  // ----- The members of the lists -----

  lemma {:induction false} FiltersWithoutMembers(fs: seq<Filter>, id: nat)
    ensures forall f :: f in FiltersWithout(fs, id) <==> f in fs && f.id != id
  {
    if fs != [] {
      assert fs == [fs[0]] + fs[1..];
      FiltersWithoutMembers(fs[1..], id);
    }
  }

  lemma {:induction false} MatchedMembers(fs: seq<Filter>, name: Name, rx: Regex)
    ensures forall f :: f in Matched(fs, name, rx) <==>
              && f in fs && |f.prefix| <= |name|
              && (forall i :: 0 <= i < |f.prefix| ==> f.prefix[i].value == name[i].value)
              && (f.regex.Some? ==> rx(f.regex.value, name[|f.prefix|..]))
  {
    if fs != [] {
      assert fs == [fs[0]] + fs[1..];
      MatchedMembers(fs[1..], name, rx);
    }
  }

  /** The filters that stay keep their order. */
  lemma {:induction false} FiltersInOrder(fs: seq<Filter>, gs: seq<Filter>, id: nat)
    ensures FiltersWithout(fs + gs, id) == FiltersWithout(fs, id) + FiltersWithout(gs, id)
  {
    if fs == [] {
      assert fs + gs == gs && [] + FiltersWithout(gs, id) == FiltersWithout(gs, id);
    } else {
      assert (fs + gs)[1..] == fs[1..] + gs;
      FiltersInOrder(fs[1..], gs, id);
      Assoc(if fs[0].id == id then [] else [fs[0]], FiltersWithout(fs[1..], id), FiltersWithout(gs, id));
    }
  }

  /** And so do those that match. */
  lemma {:induction false} MatchedInOrder(fs: seq<Filter>, gs: seq<Filter>, name: Name, rx: Regex)
    ensures Matched(fs + gs, name, rx) == Matched(fs, name, rx) + Matched(gs, name, rx)
  {
    if fs == [] {
      assert fs + gs == gs && [] + Matched(gs, name, rx) == Matched(gs, name, rx);
    } else {
      assert (fs + gs)[1..] == fs[1..] + gs;
      MatchedInOrder(fs[1..], gs, name, rx);
      Assoc(if DoesMatch(fs[0], name, rx) then [fs[0]] else [], Matched(fs[1..], name, rx), Matched(gs, name, rx));
    }
  }

  lemma Assoc(a: seq<Filter>, b: seq<Filter>, c: seq<Filter>)
    ensures a + (b + c) == a + b + c
  {
  }

  lemma {:induction false} RegisteredInOrder(xs: seq<Registered>, ys: seq<Registered>, id: nat)
    ensures RegisteredWithout(xs + ys, id) == RegisteredWithout(xs, id) + RegisteredWithout(ys, id)
  {
    if xs == [] {
      assert xs + ys == ys;
    } else {
      assert (xs + ys)[1..] == xs[1..] + ys;
      RegisteredInOrder(xs[1..], ys, id);
    }
  }

  lemma {:induction false} RegisteredWithoutMembers(xs: seq<Registered>, id: nat)
    ensures forall x :: x in RegisteredWithout(xs, id) <==> x in xs && x.id != id
    ensures |RegisteredWithout(xs, id)| <= |xs|
    ensures |RegisteredWithout(xs, id)| < |xs| <==> HasRegistered(xs, id)
  {
    if xs != [] {
      assert xs == [xs[0]] + xs[1..];
      RegisteredWithoutMembers(xs[1..], id);
    }
  }

  lemma {:induction false} UnsetRelatedMembers(fs: seq<Filter>, xs: seq<Registered>, id: nat)
    ensures forall f :: f in UnsetRelated(fs, xs, id) <==>
              f in fs && forall x :: x in xs && x.id == id && x.filterId > 0 ==> x.filterId != f.id
    decreases |xs|
  {
    if xs != [] {
      var x := xs[|xs| - 1];
      var gs := if x.id == id && x.filterId > 0 then FiltersWithout(fs, x.filterId) else fs;
      assert xs == xs[..|xs| - 1] + [x];
      FiltersWithoutMembers(fs, x.filterId);
      UnsetRelatedMembers(gs, xs[..|xs| - 1], id);
    }
  }

  // ----- What every step keeps -----

  /** A filter in the table was made, was not unset, and is there for a registration that stands. */
  predicate FilterStands(s: State, f: Filter) {
    && f.id in s.made
    && f.id !in s.unset
    && match f.origin
       case Some(o) => o in s.succeeded && s.succeeded[o] == f.id && o !in s.removed
       case None => forall o :: o in s.succeeded ==> s.succeeded[o] != f.id
  }

  predicate FiltersStand(s: State) { forall f :: f in s.filters ==> FilterStands(s, f) }

  /** The registered prefix table holds exactly the registrations that succeeded and were not removed. */
  predicate TableAgrees(s: State) {
    && (forall x :: x in s.registered ==> x.id in s.succeeded && s.succeeded[x.id] == x.filterId && x.id !in s.removed)
    && (forall o :: o in s.succeeded && o !in s.removed ==> HasRegistered(s.registered, o))
  }

  predicate HasFilter(s: State, o: nat) { exists f :: f in s.filters && f.origin == Some(o) }

  predicate FiltersThere(s: State) {
    forall o :: o in s.succeeded && o !in s.removed && s.succeeded[o] > 0 && s.succeeded[o] !in s.unset ==> HasFilter(s, o)
  }

  predicate IdsUnique(s: State, lastId: nat) {
    && (forall i :: i in s.made ==> 0 < i <= lastId)
    && (forall i :: i in s.unset ==> i in s.made)
    && (forall o :: o in s.succeeded && s.succeeded[o] > 0 ==> s.succeeded[o] in s.made)
    && (forall o, p :: o in s.succeeded && p in s.succeeded && o != p && s.succeeded[o] > 0 ==> s.succeeded[o] != s.succeeded[p])
  }

  ghost predicate RequestsStand(s: State) {
    && (forall o :: o !in s.answered ==> (o in s.removed <==> o in s.removeRequests))
    && (forall o :: o in s.succeeded ==> o in s.answered)
  }

  predicate OutcomesOnce(s: State) {
    && (forall i :: 0 <= i < |s.outcomes| ==> s.outcomes[i].id in s.answered)
    && (forall i :: 0 <= i < |s.outcomes| ==> (s.outcomes[i].success <==> s.outcomes[i].id in s.succeeded))
    && (forall i, j :: 0 <= i < j < |s.outcomes| ==> s.outcomes[i].id != s.outcomes[j].id)
  }

  ghost predicate Valid(s: State, lastId: nat) {
    && FiltersStand(s)
    && TableAgrees(s)
    && FiltersThere(s)
    && IdsUnique(s, lastId)
    && RequestsStand(s)
    && OutcomesOnce(s)
  }

  lemma SetFilterValid(s: State, f: Filter, lastId: nat)
    requires Valid(s, lastId) && f.origin.None? && 0 < f.id <= lastId && f.id !in s.made
    ensures Valid(SetFilter(s, f), lastId)
  {
    var t := SetFilter(s, f);
    assert FiltersThere(t) by {
      forall o: nat | HasFilter(s, o) ensures HasFilter(t, o) {
        var g :| g in s.filters && g.origin == Some(o);
        assert g in t.filters;
      }
    }
  }

  lemma UnsetFilterValid(s: State, id: nat, lastId: nat)
    requires Valid(s, lastId)
    ensures Valid(UnsetFilter(s, id), lastId)
  {
    var t := UnsetFilter(s, id);
    FiltersWithoutMembers(s.filters, id);
    assert FiltersThere(t) by {
      forall o: nat | HasFilter(s, o) && o in s.succeeded && s.succeeded[o] !in t.unset ensures HasFilter(t, o) {
        var g :| g in s.filters && g.origin == Some(o);
        assert FilterStands(s, g);
        assert g in t.filters;
      }
    }
  }

  lemma RemoveFilters(s: State, id: nat, lastId: nat)
    requires Valid(s, lastId) && HasRegistered(s.registered, id)
    ensures FiltersStand(RemoveRegistered(s, id)) && FiltersThere(RemoveRegistered(s, id))
  {
    var t := RemoveRegistered(s, id);
    UnsetRelatedMembers(s.filters, s.registered, id);
    var x :| x in s.registered && x.id == id;
    assert s.succeeded[id] == x.filterId;
    forall f | f in t.filters ensures FilterStands(t, f) { assert FilterStands(s, f); }
    forall o: nat | HasFilter(s, o) && o in s.succeeded && o != id ensures HasFilter(t, o) {
      var g :| g in s.filters && g.origin == Some(o);
      assert FilterStands(s, g);
      assert g in t.filters;
    }
  }

  lemma RemoveTable(s: State, id: nat, lastId: nat)
    requires Valid(s, lastId) && HasRegistered(s.registered, id)
    ensures TableAgrees(RemoveRegistered(s, id)) && RequestsStand(RemoveRegistered(s, id))
  {
    var t := RemoveRegistered(s, id);
    RegisteredWithoutMembers(s.registered, id);
    forall o: nat | HasRegistered(s.registered, o) && o != id ensures HasRegistered(t.registered, o) {
      var y :| y in s.registered && y.id == o;
      assert y in t.registered;
    }
    var x :| x in s.registered && x.id == id;
    assert id in s.succeeded;
  }

  lemma RequestRemoval(s: State, id: nat, lastId: nat)
    requires Valid(s, lastId) && !HasRegistered(s.registered, id)
    ensures Valid(RemoveRegistered(s, id), lastId)
  {
    var t := RemoveRegistered(s, id);
    assert FiltersStand(t) by {
      forall f | f in t.filters ensures FilterStands(t, f) { assert FilterStands(s, f); }
    }
    assert FiltersThere(t) by {
      forall o: nat | HasFilter(s, o) ensures HasFilter(t, o) { }
    }
  }

  lemma RemoveRegisteredValid(s: State, id: nat, lastId: nat)
    requires Valid(s, lastId)
    ensures Valid(RemoveRegistered(s, id), lastId)
  {
    if HasRegistered(s.registered, id) {
      RemoveFilters(s, id, lastId);
      RemoveTable(s, id, lastId);
    } else {
      RequestRemoval(s, id, lastId);
    }
  }

  lemma FailValid(s: State, id: nat, lastId: nat)
    requires Valid(s, lastId) && id !in s.answered
    ensures Valid(Fail(s, id), lastId)
  {
    var t := Fail(s, id);
    assert FiltersStand(t) by {
      forall f | f in t.filters ensures FilterStands(t, f) { assert FilterStands(s, f); }
    }
    assert FiltersThere(t) by {
      forall o: nat | HasFilter(s, o) ensures HasFilter(t, o) { }
    }
  }

  function Made(s: State, reg: Registration, next: nat): set<nat> {
    if reg.onInterest then s.made + {next} else s.made
  }

  /** The response comes after a removal: the filter that was just set goes again, and no callback is called. */
  lemma Refused(s: State, reg: Registration, next: nat)
    requires reg.id in s.removeRequests && next > 0 && forall f :: f in s.filters ==> f.id != next
    ensures Succeed(s, reg, next) ==
            s.(answered := s.answered + {reg.id}, removeRequests := s.removeRequests - {reg.id}, made := Made(s, reg, next))
  {
    if reg.onInterest {
      DropsLast(s.filters, Filter(next, reg.prefix, None, Some(reg.id)));
    }
  }

  lemma {:induction false} DropsLast(fs: seq<Filter>, f: Filter)
    requires forall g :: g in fs ==> g.id != f.id
    ensures FiltersWithout(fs + [f], f.id) == fs
  {
    if fs != [] {
      assert (fs + [f])[1..] == fs[1..] + [f];
      DropsLast(fs[1..], f);
    }
  }

  lemma OldFilters(s: State, lastId: nat)
    requires FiltersStand(s) && IdsUnique(s, lastId)
    ensures forall f :: f in s.filters ==> 0 < f.id <= lastId
  {
    forall f | f in s.filters ensures 0 < f.id <= lastId { assert FilterStands(s, f); }
  }

  lemma RefusedValid(s: State, reg: Registration, lastId: nat)
    requires Valid(s, lastId) && reg.id !in s.answered && reg.id in s.removeRequests
    ensures Valid(Succeed(s, reg, lastId + 1), lastId + 1)
  {
    OldFilters(s, lastId);
    Refused(s, reg, lastId + 1);
    KeepsValid(s, reg.id, s.removeRequests - {reg.id}, Made(s, reg, lastId + 1), lastId + 1);
  }

  lemma KeepsValid(s: State, id: nat, requests: set<nat>, made: set<nat>, lastId: nat)
    requires Valid(s, lastId) && id !in s.answered && requests == s.removeRequests - {id}
    requires s.made <= made && forall i :: i in made ==> 0 < i <= lastId
    ensures Valid(s.(answered := s.answered + {id}, removeRequests := requests, made := made), lastId)
  {
    var t := s.(answered := s.answered + {id}, removeRequests := requests, made := made);
    assert FiltersStand(t) by {
      forall f | f in t.filters ensures FilterStands(t, f) { assert FilterStands(s, f); }
    }
    assert FiltersThere(t) by {
      forall o: nat | HasFilter(s, o) ensures HasFilter(t, o) { }
    }
  }

  lemma AddedFilters(s: State, reg: Registration, lastId: nat)
    requires Valid(s, lastId) && reg.id !in s.answered && reg.id !in s.removeRequests
    ensures FiltersStand(Succeed(s, reg, lastId + 1)) && FiltersThere(Succeed(s, reg, lastId + 1))
  {
    var t := Succeed(s, reg, lastId + 1);
    assert reg.id !in s.succeeded && reg.id !in s.removed;
    forall f | f in t.filters ensures FilterStands(t, f) {
      if f in s.filters { assert FilterStands(s, f); }
    }
    forall o: nat | HasFilter(s, o) ensures HasFilter(t, o) {
      var g :| g in s.filters && g.origin == Some(o);
      assert g in t.filters;
    }
    if reg.onInterest {
      assert Filter(lastId + 1, reg.prefix, None, Some(reg.id)) in t.filters;
    }
  }

  lemma AddedTable(s: State, reg: Registration, lastId: nat)
    requires Valid(s, lastId) && reg.id !in s.answered && reg.id !in s.removeRequests
    ensures TableAgrees(Succeed(s, reg, lastId + 1))
  {
    var t := Succeed(s, reg, lastId + 1);
    assert reg.id !in s.succeeded && reg.id !in s.removed;
    forall o: nat | HasRegistered(s.registered, o) ensures HasRegistered(t.registered, o) {
      var y :| y in s.registered && y.id == o;
      assert y in t.registered;
    }
    assert t.registered[|s.registered|].id == reg.id;
  }

  lemma AddedValid(s: State, reg: Registration, lastId: nat)
    requires Valid(s, lastId) && reg.id !in s.answered && reg.id !in s.removeRequests
    ensures Valid(Succeed(s, reg, lastId + 1), lastId + 1)
  {
    AddedFilters(s, reg, lastId);
    AddedTable(s, reg, lastId);
  }

  /** The first answer to a registration keeps the tables in agreement, whichever of removal and answer comes first. */
  lemma SucceedValid(s: State, reg: Registration, lastId: nat)
    requires Valid(s, lastId) && reg.id !in s.answered
    ensures Valid(Succeed(s, reg, lastId + 1), if reg.onInterest then lastId + 1 else lastId)
  {
    if reg.id in s.removeRequests { RefusedValid(s, reg, lastId); } else { AddedValid(s, reg, lastId); }
    if !reg.onInterest { assert Succeed(s, reg, lastId + 1).made == s.made; }
  }
}
