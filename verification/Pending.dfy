/**
 * The life of expressed Interests in Node (src/node.cpp, src/impl/pending-interest-table.cpp) as a
 * transition system. A callback may call back into the node, so taking entries out of the pending
 * interest table and calling their callbacks are separate steps, with any steps in between.
 */
module Pending {
  import opened Bytes
  import opened Names
  import opened Matching
  import Registrations

  /** Who waits for the answer: the application, or the response handler of a prefix registration. */
  datatype Purpose = Application | Command(registration: Registrations.Registration)

  /** What expressInterest is given. A negative lifetime means that it is not specified. */
  datatype Entry = Entry(
    id: nat, selectors: Selectors, encoding: Blob, lifetime: int, onTimeout: bool, onNack: bool, purpose: Purpose)

  /** The name /local/timeout. */
  const TIMEOUT_PREFIX: Name := [
    Component(Generic, [0x6c, 0x6f, 0x63, 0x61, 0x6c]),
    Component(Generic, [0x74, 0x69, 0x6d, 0x65, 0x6f, 0x75, 0x74])]

  predicate NeedsTimer(e: Entry) { e.onTimeout || e.lifetime >= 0 }
  predicate GoesOut(e: Entry) { !ValuePrefix(TIMEOUT_PREFIX, e.selectors.name) }

  datatype Status = Unconnected | Requested | Complete

  datatype State = State(
    async: bool,               // transport_->isAsync()
    status: Status,
    connects: nat,             // how often transport_->connect was called
    flushing: bool,            // inside onConnected
    finishing: nat,            // blocking expressInterest calls that have not set the status yet
    lastId: nat,
    removeRequests: set<nat>,
    timers: seq<Entry>,        // scheduled calls of processInterestTimeout
    // The places where an entry can be:
    queue: seq<Entry>,         // onConnectedCallbacks_ still to call
    pit: seq<Entry>,
    dataPending: seq<Entry>,   // extracted, onData not called yet
    nackPending: seq<Entry>,
    gotData: seq<Entry>,       // callback called
    gotNack: seq<Entry>,
    gotTimeout: seq<Entry>,
    refused: seq<Entry>,       // not added to the table because of a remove request
    cancelled: seq<Entry>,     // taken out by removePendingInterest
    expired: seq<Entry>,       // timed out without an onTimeout callback
    // What has happened:
    expressed: seq<Entry>,
    handled: seq<Entry>,       // passed to expressInterestHelper
    sent: seq<Entry>,
    removedFirst: set<nat>)    // ids that removePendingInterest was called with before they were handled

  datatype Event =
    | TakeId                   // getNextEntryId
    | Express(entry: Entry)
    | Connected                // onConnected starts
    | Flush                    // it calls the next callback
    | FinishConnected
    | FinishSync               // a blocking expressInterest sets the status
    | DataIn(data: Packet)
    | NackIn(encoding: Blob)
    | DeliverData(index: nat)
    | DeliverNack(index: nat)
    | Fire(index: nat)
    | Remove(id: nat)          // removePendingInterest, with any id at any time

  function Initial(async: bool): State {
    State(async, Unconnected, 0, false, 0, 0, {}, [], [], [], [], [], [], [], [], [], [], [], [], [], [], {})
  }

  // ----- Lists of entries -----

  predicate Has(s: seq<Entry>, id: nat) { exists e :: e in s && e.id == id }

  /** The entries that do not meet the condition, in order. */
  function Kept(s: seq<Entry>, p: Entry -> bool): seq<Entry> {
    if s == [] then [] else (if p(s[0]) then [] else [s[0]]) + Kept(s[1..], p)
  }

  /** The entries that do, from the back: the loops over the table go backwards. */
  function Taken(s: seq<Entry>, p: Entry -> bool): seq<Entry> {
    if s == [] then [] else Taken(s[1..], p) + (if p(s[0]) then [s[0]] else [])
  }

  function Without(s: seq<Entry>, i: nat): seq<Entry>
    requires i < |s|
  {
    s[..i] + s[i + 1..]
  }

  /** The list without the first occurrence of the entry: what the search of removeEntry takes out. */
  function RemoveFirst(s: seq<Entry>, e: Entry): seq<Entry> {
    if s == [] then [] else if s[0] == e then s[1..] else [s[0]] + RemoveFirst(s[1..], e)
  }

  function HasId(id: nat): Entry -> bool { (e: Entry) => e.id == id }
  function WantsData(d: Packet): Entry -> bool { (e: Entry) => Satisfies(e.selectors, d) }
  function WantsNack(encoding: Blob): Entry -> bool { (e: Entry) => e.onNack && e.encoding == encoding }

  // ----- Steps -----

  predicate Legal(s: State, ev: Event) {
    match ev
    case Express(e) => 0 < e.id <= s.lastId && !Has(s.expressed, e.id)
    case Connected => s.async && s.status.Requested? && !s.flushing
    case Flush => s.flushing && s.queue != []
    case FinishConnected => s.flushing && s.queue == []
    case FinishSync => s.finishing > 0
    case DeliverData(i) => i < |s.dataPending|
    case DeliverNack(i) => i < |s.nackPending|
    case Fire(i) => i < |s.timers|
    case _ => true
  }

  /** expressInterestHelper. */
  function Helper(s: State, e: Entry): State {
    if e.id in s.removeRequests then
      s.(removeRequests := s.removeRequests - {e.id}, refused := s.refused + [e], handled := s.handled + [e])
    else
      s.(pit := s.pit + [e],
         timers := if NeedsTimer(e) then s.timers + [e] else s.timers,
         sent := if GoesOut(e) then s.sent + [e] else s.sent,
         handled := s.handled + [e])
  }

  function ExpressStep(s: State, e: Entry): State {
    var s := s.(expressed := s.expressed + [e]);
    if s.status.Complete? then Helper(s, e)
    else if !s.async then Helper(s.(connects := s.connects + 1, finishing := s.finishing + 1), e)
    else if s.status.Unconnected? then s.(status := Requested, queue := s.queue + [e], connects := s.connects + 1)
    else s.(queue := s.queue + [e])
  }

  /** processInterestTimeout for the entry that the timer was set for. */
  function FireStep(s: State, i: nat): State
    requires i < |s.timers|
  {
    var e := s.timers[i];
    var s := s.(timers := Without(s.timers, i));
    if e !in s.pit then s
    else
      var s := s.(pit := RemoveFirst(s.pit, e));
      if e.onTimeout then s.(gotTimeout := s.gotTimeout + [e]) else s.(expired := s.expired + [e])
  }

  function RemoveStep(s: State, id: nat): State {
    var s := s.(removedFirst := if Has(s.handled, id) then s.removedFirst else s.removedFirst + {id});
    if Has(s.pit, id) then
      s.(pit := Kept(s.pit, HasId(id)), cancelled := s.cancelled + Taken(s.pit, HasId(id)))
    else
      s.(removeRequests := s.removeRequests + {id})
  }

  function Step(s: State, ev: Event): State
    requires Legal(s, ev)
  {
    match ev
    case TakeId => s.(lastId := s.lastId + 1)
    case Express(e) => ExpressStep(s, e)
    case Connected => s.(flushing := true)
    case Flush => Helper(s.(queue := s.queue[1..]), s.queue[0])
    case FinishConnected => s.(flushing := false, status := Complete)
    case FinishSync => s.(finishing := s.finishing - 1, status := Complete)
    case DataIn(d) =>
      s.(pit := Kept(s.pit, WantsData(d)), dataPending := s.dataPending + Taken(s.pit, WantsData(d)))
    case NackIn(b) =>
      s.(pit := Kept(s.pit, WantsNack(b)), nackPending := s.nackPending + Taken(s.pit, WantsNack(b)))
    case DeliverData(i) =>
      s.(dataPending := Without(s.dataPending, i), gotData := s.gotData + [s.dataPending[i]])
    case DeliverNack(i) =>
      s.(nackPending := Without(s.nackPending, i), gotNack := s.gotNack + [s.nackPending[i]])
    case Fire(i) => FireStep(s, i)
    case Remove(id) => RemoveStep(s, id)
  }

  predicate LegalRun(s: State, evs: seq<Event>)
    decreases evs
  {
    evs != [] ==> Legal(s, evs[0]) && LegalRun(Step(s, evs[0]), evs[1..])
  }

  function Run(s: State, evs: seq<Event>): State
    requires LegalRun(s, evs)
    decreases evs
  {
    if evs == [] then s else Run(Step(s, evs[0]), evs[1..])
  }
}
