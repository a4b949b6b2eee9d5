# NDN-IND core, modelled and verified in Dafny

This project models the hard core of the NDN-IND client library and proves properties of it.

- **Node** (`Pending`, `PendingRuns`, `PendingOrder`, `Registrations`, `NodeProtocol`, `Outcomes`, `NodeSteps`,
  `Tables`, `NodeObject`). The life of an expressed Interest and of a prefix registration is a transition system.
  Extraction from the pending interest table and the callbacks are separate steps, so that any other step may come
  between them, as it does when a callback calls back into the node. The results hold for every legal run. The tables
  and the node itself are classes; each of their methods is proved to move the object along such a run.
- **Names** (`Bytes`, `Names`, `Order`, `Successor`, `UriText`, `UriForms`, `UriRoundTrip`, `UriIo`). The canonical
  order, successors, number components, and the URI printer and parser. The loops of the source are methods proved
  against declarative functions; the round trip and the form of the texts are proved of these functions.
- **Matching** (`Exclude`, `Matching`). The index-skipping loops equal short declarative conditions.
- **Version counters** (`ChangeCounts`, `WireFormats`, `DataPacket`, `Delegations`, `Nonces`). Objects form a tree
  of change counts. One theorem about the tree carries the encoding caches and the nonce.
- **Codecs** (`Words`, `MurmurHash`, `HashVectors`, `Base64`, `Base64Io`). 32-bit words are integers with explicit
  wrap-around.

`dafny verify dfyconfig.toml` checks everything.

Where the code and its documentation differ, the model follows the code:

- `Exclude::matches` on a list ending in two or more ANYs after a component (`Exclude.TrailingAnysExample`).
- `toUri` prints type codes in hexadecimal after a digest (`UriRoundTrip.DigestThenOtherCode`).
- `Name::compare` ignores a negative `iOtherStartComponent` (`Order.CompareFromTheEnd`), and `getSubName` wraps for
  huge counts (`Order.GetSubNameWraps`).
- `Name::getSuccessor` is the end of the prefix range, not the next name (`Successor.BetweenNameAndSuccessor`).
- Assigning to the reference that `Data::getName()` returns can leave a stale encoding (`DataPacket.StaleEncoding`,
  `DataPacket.StaleAfterEdits`), and so can assigning a `Data` whose cache is outdated (`DataPacket.StaleAssignment`).
- `Data::getFullName` can return the full name of an older content (`DataPacket.StaleFullName`).
- A copied Interest can show an outdated nonce (`Nonces.CopyAfterSetter`, `Nonces.CopyAfterLinkChange`).

## Model

| member | source | states |
|---|---|---|
| `PendingRuns.ExactlyOnePlace` | src/node.cpp:63-555 | in every run, with callbacks that may re-enter at any point, an expressed id is in exactly one of: queue, table, extracted, called back, dropped; so at most one of onData, onTimeout and onNetworkNack is called for it, at most once |
| `PendingRuns.StepTotal` | src/node.cpp:511-555 | conservation: every additive measure summed over the places changes only by what is expressed |
| `PendingRuns.RemovedIsNeverCalled` | src/impl/pending-interest-table.cpp:59-149 | once removePendingInterest was called with an id not yet extracted, even queued for the connection or not yet expressed, no callback is called in any continuation |
| `PendingRuns.StepRequests` | src/impl/pending-interest-table.cpp:65-72 | a remove request is used up only by refusing its own entry |
| `PendingOrder.TimerCoverage` | src/node.cpp:518-534 | in every reachable state a table entry with an onTimeout or a non-negative lifetime has exactly one scheduled timeout |
| `PendingOrder.TimersDrain` | src/node.cpp:549-555 | when every scheduled call has fired, in any order, exactly the entries with neither onTimeout nor lifetime are left in the table, in their old order |
| `PendingOrder.DrainedRun` | src/node.cpp:518-555 | with any events in between except new Interests, an end without scheduled calls leaves only entries that were there before and have neither onTimeout nor lifetime |
| `PendingOrder.OnlyExistingCallbacks` | include/ndn-ind/face.hpp:158-163 | in every run a Nack takes no entry whose onNetworkNack is empty, and an entry that times out has its onTimeout called exactly if it has one |
| `PendingOrder.SentInOrder` | src/node.cpp:76-133 | what is sent is exactly what was expressed, in order, without what was removed before its turn and what is under /local/timeout; what still waits for the connection is to come |
| `PendingOrder.GoesOutMeans` | src/node.cpp:536-537 | what is held back are exactly the names whose first two component values are the bytes of local and timeout |
| `PendingOrder.StatusOverRuns` | src/node.cpp:76-133 | over every run the connect status never goes back, and with an async transport a run from unconnected to complete passes through requested |
| `PendingOrder.ConnectsOnce` | src/node.cpp:96-117 | with an async transport the connection is requested at most once, by the first expressed Interest |
| `PendingOrder.StepInvariant` | src/node.cpp:63-555 | every step keeps placement, connection, timer and order invariants together |
| `PendingOrder.KeptConcat` | src/impl/pending-interest-table.cpp:80-95 | the entries that stay keep their order |
| `PendingOrder.TakenConcat` | src/impl/pending-interest-table.cpp:80-95 | the entries taken out come in the opposite order |
| `NodeProtocol.FilterOfRegistration` | src/node.cpp:269-354 | in every reachable state a registration's filter is in the filter table exactly when the registration succeeded with an onInterest, was not removed and the filter was not unset, whichever of removal and response comes first |
| `NodeProtocol.AtMostOneOutcome` | src/node.cpp:269-354 | at most one of onRegisterSuccess and onRegisterFailed is called per registration, at most once |
| `Outcomes.OutcomeOfCommand` | src/node.cpp:269-354 | over all runs: a registration whose command was answered or timed out has exactly one callback called, onRegisterSuccess if it was added to the table and onRegisterFailed if not; none exactly when the response was positive and either onRegisterSuccess is empty or the registration was removed first |
| `NodeProtocol.RemovedRegistrationStaysOut` | src/impl/registered-prefix-table.cpp:44-97 | a registration removed before its response never gets a filter, a table entry or a success call, in any continuation |
| `NodeProtocol.StepNode` | src/node.cpp:269-412 | every step of the node keeps the joint invariant of pending Interests and registrations |
| `NodeProtocol.RunProjects` | src/node.cpp:402-412 | every run of the node is a run of its pending Interests, so the results above hold for registration commands too |
| `Registrations.SucceedValid` | src/node.cpp:308-330 | a first positive response keeps filter table, registered prefixes and remove requests in agreement, with and without an earlier removal |
| `Registrations.Refused` | src/node.cpp:319-327 | a response after a removal leaves the filters as they were and calls nothing |
| `Registrations.RemoveRegisteredValid` | src/impl/registered-prefix-table.cpp:64-97 | removing a registration removes its own filter and no other |
| `Registrations.FiltersInOrder` | src/impl/interest-filter-table.cpp:55-70 | the filters that stay keep their order |
| `Registrations.MatchedInOrder` | src/impl/interest-filter-table.cpp:43-53 | and so do those that match |
| `NodeSteps.LeadsByRun` | src/node.cpp:63-555 | the states that the object's methods lead to are those of legal runs |
| `NodeSteps.ReachedInvariant` | src/node.cpp:63-555 | every state that a node object can be in has all the invariants |
| `Tables.PendingInterestTable.Add` | src/impl/pending-interest-table.cpp:59-78 | appends a new entry, or refuses it and uses up the remove request |
| `Tables.PendingInterestTable.Extract` | src/impl/pending-interest-table.cpp:80-137 | the backward loops take out exactly the matching entries, last first, keep the order of the others, and mark as removed exactly what is not in the table |
| `Tables.PendingInterestTable.ExtractEntriesForExpressedInterest` | src/impl/pending-interest-table.cpp:80-95 | the entries whose Interest the Data satisfies |
| `Tables.PendingInterestTable.ExtractEntriesForNackInterest` | src/impl/pending-interest-table.cpp:97-119 | the entries with an onNetworkNack and the same encoding; the others wait on |
| `Tables.PendingInterestTable.RemovePendingInterest` | src/impl/pending-interest-table.cpp:121-149 | all entries with the id leave; with none, the request is kept once |
| `Tables.PendingInterestTable.RemoveEntry` | src/impl/pending-interest-table.cpp:151-171 | the isRemoved shortcut answers exactly as the search by identity would, and only that entry leaves |
| `Tables.InterestFilterTable.SetInterestFilter` | src/impl/interest-filter-table.hpp:124-132 | appends the filter |
| `Tables.InterestFilterTable.UnsetInterestFilter` | src/impl/interest-filter-table.cpp:55-70 | all filters with the id leave, the others keep their order |
| `Tables.InterestFilterTable.GetMatchedFilters` | src/impl/interest-filter-table.cpp:43-53 | the filters that match the name, in order |
| `Tables.DoesMatch` | src/interest-filter.cpp:84-108 | prefix by component values, and the regular expression on the components behind it if there is one |
| `Tables.RegisteredPrefixTable.Add` | src/impl/registered-prefix-table.cpp:44-62 | appends, or refuses and uses up the remove request |
| `Tables.RegisteredPrefixTable.Erase` | src/impl/registered-prefix-table.cpp:64-82 | the entries with the id leave and their related filters are unset |
| `Tables.RegisteredPrefixTable.RemoveRegisteredPrefix` | src/impl/registered-prefix-table.cpp:64-97 | as Erase; with no entry the request is kept once |
| `NodeObject.Node.ExpressInterest` | src/node.cpp:63-118 | the object's fields follow the protocol, each written out: sent at once, connected and sent, or queued with one connect request; the table, the timers, the remove requests and what is sent in each case; and which filters it is looped back to |
| `NodeObject.Node.ExpressInterestHelper` | src/node.cpp:511-547 | one run of the helper: refused, or added, timed and sent, and with loopback given to the matching filters exactly when it is sent |
| `NodeObject.Node.OnConnected` | src/node.cpp:120-133 | all queued Interests are handled, in order, before the status becomes complete |
| `NodeObject.Node.GetNextEntryId` | src/node.cpp:201-206 | ids go up by one |
| `NodeObject.Node.RemovePendingInterest` | src/node.hpp:121-125 | the protocol's removal step |
| `NodeObject.Node.SatisfyPendingInterests` | src/node.cpp:229-267 | exactly the entries whose Interest the Data satisfies, last first, leave the table before any callback and are called back once |
| `NodeObject.Node.PutData` | src/node.cpp:152-177 | with loopback, Data goes to the forwarder only if it satisfies no pending Interest |
| `NodeObject.Node.SetInterestLoopbackEnabled` | src/node.hpp:73-77 | only the switch changes |
| `NodeObject.Node.DispatchInterest` | src/node.cpp:208-227 | the matching filters, in order |
| `NodeObject.Node.OnNack` | src/node.cpp:470-495 | exactly the entries with an onNetworkNack and the same encoding are taken and called back |
| `NodeObject.Node.ProcessInterestTimeout` | src/node.cpp:549-555 | a timer takes its entry out and calls onTimeout exactly when the entry is still in the table and has one; for a command that is onRegisterFailed, once |
| `NodeObject.Node.RegisterPrefix` | src/node.cpp:356-413 | a registration is expressed as a command Interest with the response handler as callbacks |
| `NodeObject.Node.RegisterResponse` | src/node.cpp:269-341 | the two tables, the ids and the callback called: onRegisterFailed for any response but a positive one; the filter, the table entry and onRegisterSuccess, if it is set, for a positive one; nothing after a removal; a registration with id 0 touches no table |
| `NodeObject.Node.AddRegistration` | src/node.cpp:307-329 | the filter is set before the registration is added, and unset again if that is refused |
| `NodeObject.Node.RemoveRegisteredPrefix` | src/node.hpp:215-219 | the protocol's step on both tables |
| `NodeObject.Node.SetInterestFilter` | src/node.hpp:238-246 | the protocol's step |
| `NodeObject.Node.UnsetInterestFilter` | src/node.hpp:255-259 | the protocol's step |
| `UriRoundTrip.UriRoundTrips` | src/name.cpp:367-523 | parsing toUri, with or without the scheme, gives the same types and values if and only if digests are 32 bytes, no OTHER_CODE repeats a recognised type and none of ten or more follows a non-empty digest |
| `UriRoundTrip.ComponentRoundTrip` | src/name.cpp:233-254 | one printed component parses back exactly under that condition |
| `UriRoundTrip.PathRoundTrip` | src/name.cpp:438-472 | the printed components parse back one by one, through the change of stream base |
| `UriRoundTrip.ValueRoundTrip` | src/name.cpp:598-662 | every byte string comes back from its escaped form, also empty and all-period ones |
| `UriRoundTrip.EscapeRoundTrip` | src/name.cpp:112-136 | percent escapes are undone for all bytes |
| `UriRoundTrip.HexRoundTrip` | src/common.cpp:45-58 | hexadecimal digests are undone for all bytes |
| `UriRoundTrip.TypeRoundTrip` | src/name.cpp:417-436 | a printed decimal type code is read as that code if and only if it is not one of the recognised types |
| `UriRoundTrip.DigestThenOtherCode` | src/common.cpp:51-51 | a digest followed by OTHER_CODE 16 does not come back, since the stream is left in hexadecimal; in the other order it does |
| `UriIo.SetUri` | src/name.cpp:367-472 | the parsing loop computes the declarative parse of scheme, authority and segments, errors included |
| `UriIo.StripToPath` | src/name.cpp:372-404 | trimming and dropping scheme and authority |
| `UriIo.StripScheme` | src/name.cpp:376-386 | the text behind a colon that no other colon and no slash precedes, trimmed; any text without one is left alone |
| `UriIo.StripAuthority` | src/name.cpp:388-404 | by position: text without a leading slash stays, one slash goes, and behind two everything up to and with the next slash, or all of it |
| `UriIo.NextComponent` | src/name.cpp:406-470 | one pass of the loop reads one segment |
| `UriIo.ReadComponent` | src/name.cpp:410-460 | the digest prefixes, the typed form and the plain form |
| `UriIo.ReadEscapedComponent` | src/name.cpp:425-460 | a segment with or without a decimal type |
| `UriIo.ReadHex` | src/name.cpp:78-102 | hexadecimal text, ignoring trailing odd digits as the code does |
| `UriIo.ReadEscaped` | src/name.cpp:111-136 | unescape in one pass |
| `UriRoundTrip.EscapedStringMeans` | src/name.cpp:598-616 | for every text: the one value that unescapes to it when three periods are put before a value of periods only, and nothing exactly for fewer than three periods |
| `UriIo.PrintUri` | src/name.cpp:508-523 | the printing loop writes the declarative URI; for generic components that is every escaped value behind a slash, and for values of letters, digits and + - . _ that are not all periods the characters themselves |
| `UriIo.OutStream.WriteComponent` | src/name.cpp:233-254 | the text of a component and the base the stream is left in |
| `UriIo.OutStream.WriteEscaped` | src/name.cpp:624-662 | the escaped value, which for such a value is its characters; the stream base is restored |
| `UriIo.OutStream.WriteHex` | src/common.cpp:45-58 | two digits per byte; the stream is left in hexadecimal if anything was written |
| `UriForms.EscapedByteText` | src/name.cpp:644-657 | letters, digits and + - . _ are written as they are, every other byte as a percent sign and two digits of 0-9A-F |
| `UriForms.EscapeConcat` | src/name.cpp:644-657 | a value is escaped byte by byte |
| `UriForms.ValueText` | src/name.cpp:627-660 | a value of n periods is written as n + 3 periods, any other is escaped |
| `UriForms.PlainValue` | src/name.cpp:627-660 | a value of such characters that is not all periods is written without a change |
| `UriForms.HexText` | src/common.cpp:45-58 | two lower-case digits for a byte |
| `UriForms.NumeralForm` | src/name.cpp:233-254 | how a type code is written in base ten, and in base sixteen after a digest |
| `UriForms.ComponentText` | src/name.cpp:233-254 | the prefixes of the two digest types, and the type code before an equals sign |
| `UriForms.GenericUri` | src/name.cpp:508-523 | the URI of a name of generic components, with and without the scheme, and of the empty name |
| `UriForms.PlainUri` | src/name.cpp:508-523 | with plain values it is these values behind slashes |
| `UriForms.KnownEmptyUris` | src/name.cpp:508-523 | the texts / and ndn:/ and /... |
| `UriForms.KnownUri` | src/name.cpp:508-523 | the text /foo |
| `UriForms.KnownEscape` | src/name.cpp:508-523 | the text /%2F |
| `UriForms.KnownTypeCode` | src/name.cpp:508-523 | the text /120=a |
| `UriForms.DigitValues` | src/name.cpp:51-62 | the values of the hexadecimal digits of both cases; other characters have none |
| `UriForms.UnescapeText` | src/name.cpp:117-129 | a percent sign with two digits is a byte; with anything else all three characters are kept |
| `UriForms.UnescapeOther` | src/name.cpp:117-132 | any other character is kept |
| `UriForms.FromHexSkips` | src/name.cpp:82-88 | a space before a pair and a lone last character are ignored |
| `UriForms.FromHexText` | src/name.cpp:90-100 | two digits are a byte, and a pair with anything else makes the whole text an error |
| `UriForms.Trims` | src/common.cpp:74-109 | exactly the white space at both ends goes |
| `UriForms.TypeOfCode` | src/name.cpp:437-457 | 1, 2 and 8 name the recognised types, other codes stand for themselves, and those beyond an int are errors |
| `UriForms.AtoiText` | src/name.cpp:442-442 | white space and a sign may come before the digits, and what follows them is ignored |
| `UriForms.TypeErrors` | src/name.cpp:439-446 | text without a number is an error, as is a negative code |
| `UriForms.DigestText` | src/name.cpp:418-429 | behind a digest prefix there must be 32 bytes in hexadecimal |
| `UriForms.PathSplit` | src/name.cpp:406-470 | the first slash ends a segment |
| `UriForms.Prepends` | src/name.cpp:464-470 | the first error decides, an ignored segment adds nothing, any other one component |
| `Bytes.MemCompare` | src/c/util/ndn_memory.c:36-48 | the loop gives the lexicographic comparison |
| `Bytes.CompareIsNumeric` | src/c/util/ndn_memory.c:36-48 | for equal lengths it is the order of the base-256 values |
| `Order.ComponentOrder` | src/name.cpp:272-293 | compare orders by type code, length and numeric value, and is 0 exactly for the same type code and value |
| `Order.ComponentAntisymmetry` | src/name.cpp:272-293 | the sign turns when the arguments are exchanged |
| `Order.ComponentTransitivity` | src/name.cpp:272-293 | transitive, and strict if either step is |
| `Order.NameZero` | src/name.cpp:690-723 | 0 exactly when type codes and values agree componentwise |
| `Order.NameLess` | src/name.cpp:690-723 | after equal components, a lesser one or the end of the name makes the name less |
| `Order.FirstDifference` | src/name.cpp:690-723 | and a lesser name always has such a place |
| `Order.NameAntisymmetry` | src/name.cpp:690-723 | the sign turns when the arguments are exchanged |
| `Order.NameTransitivity` | src/name.cpp:690-723 | transitive, and strict if either step is |
| `Order.GetSubName` | src/name.cpp:525-538 | for every start that an int can hold: the documented slice, element by element, which is empty for a start outside the name, if and only if the start is outside or the end index does not wrap in size_t |
| `Order.CompareSubranges` | src/name.cpp:690-723 | for every start that an int can hold: inside the names the comparison of the two slices, except that a negative iOtherStartComponent with something to compare reads out of range; outside them an access out of range or a comparison of counts |
| `Order.GetSubNameWraps` | src/name.cpp:533-533 | start 1 with a count of 2^64 - 1 gives an empty name |
| `Order.CompareFromTheEnd` | src/name.cpp:697-698 | a name compared with its own last component reads out of range |
| `Order.DocumentedOutcome` | src/name.cpp:690-723 | what the computed indexes amount to for documented starts |
| `Names.Equals` | src/name.cpp:540-553 | same length and component values, types ignored |
| `Names.Match` | src/name.cpp:564-581 | prefix by component values, types ignored |
| `Names.TypeCodes` | include/ndn-ind/c/name-types.h:37-42 | the type codes 1, 2 and 8 of the recognised types |
| `Successor.GetComponentSuccessor` | src/name.cpp:319-346 | the carry loop keeps the type and gives the next number of the same length, or one byte more of zeros when all bytes are 255 |
| `Successor.IncrementAddsOne` | src/name.cpp:319-346 | the bytes plus one as a number, with the carry out |
| `Successor.SuccessorIsNext` | src/name.cpp:319-346 | it is the immediate next component: a < b exactly when the successor of a is at most b |
| `Successor.PrefixRange` | src/name.cpp:555-562 | for non-empty X and any Z, X <= Z < successor of X exactly when X is a prefix of Z |
| `Successor.BetweenNameAndSuccessor` | include/ndn-ind/name.hpp:1395-1410 | the names strictly between X and its successor are the proper extensions of X, so the documented absence of such names fails |
| `Successor.BetweenEmptyNameAndSuccessor` | src/name.cpp:555-562 | what lies between the empty name and its successor |
| `Successor.FromNumberWithPrefix` | src/name.cpp:205-220 | a generic component of the prefix and the number in big-endian form without leading zero |
| `Successor.NumberBytesAreMinimal` | src/name.cpp:205-220 | the bytes are the one big-endian form without leading zero whose value is the number |
| `Successor.NumberOrder` | src/name.cpp:205-220 | behind one prefix, a smaller number gives a smaller component |
| `Exclude.Matches` | src/exclude.cpp:77-130 | true exactly when an entry equals the component or an ANY covers it between its nearest components, or the list ends in two or more ANYs after a component and the component is above the empty generic one |
| `Exclude.InGapMeans` | src/exclude.cpp:85-117 | an ANY covers exactly what lies strictly above the next component to its left and below the next to its right; a side without a component is open |
| `Exclude.MatchesExcludeMeans` | src/exclude.cpp:77-130 | the answer in terms of the entries, over all lists |
| `Exclude.FindUpperBound` | src/exclude.cpp:88-96 | the first component after a run of ANYs |
| `Exclude.TrailingAnysExample` | src/exclude.cpp:113-116 | after a component, two trailing ANYs exclude a component below it |
| `Matching.MatchesName` | src/interest.cpp:244-263 | value prefix, suffix count with the digest counted, next component not excluded |
| `Matching.MatchesData` | src/interest.cpp:265-333 | value prefix, suffix count, next component not excluded over the full name, and the key locator; an Interest as long as the full name is satisfied exactly if all its values are those of the full name, its last component is a digest and it asks for no further component; for a shorter Interest name right whatever full name is cached, and out of range exactly when a cached full name is too short |
| `Matching.KeyLocatorEquals` | src/key-locator.cpp:98-114 | same type, and same name values or same key data as the type says |
| `Matching.DataImpliesName` | src/interest.cpp:244-333 | Data that matches has a name that matches, if and only if the Interest name is no longer than the Data name; otherwise it ends in the digest |
| `Matching.FullNameIsAccepted` | src/interest.cpp:287-332 | an Interest for the full name of a Data packet is satisfied by it, unless it asks for more components or another key |
| `Matching.NameImpliesData` | src/interest.cpp:244-333 | for a matching name, only the excluded digest and the key locator are left to decide |
| `Delegations.RunAgreesWithMap` | src/delegation-set.cpp:77-131 | after any run of add, remove and clear the list goes by rising preference, and by canonical name order where preferences are equal; it has no two equal names, and find agrees with a map from name values to the delegation added last |
| `Delegations.CompareOrder` | src/delegation-set.cpp:48-57 | antisymmetric, transitive, and 0 only for equal names |
| `Delegations.DelegationSet.Add` | src/delegation-set.cpp:77-94 | the list becomes the sorted insertion after removal of the name, with exactly the other names and the new delegation in it; the cache stays coherent |
| `Delegations.DelegationSet.FindPlace` | src/delegation-set.cpp:83-90 | the place behind all delegations that are less by preference and name, and before the rest |
| `Delegations.DelegationSet.Remove` | src/delegation-set.cpp:96-111 | every delegation with the name leaves; the answer tells whether one did, and only then the change count moves |
| `Delegations.DelegationSet.Find` | src/delegation-set.cpp:122-131 | the first index with that name, or -1 when there is none |
| `Delegations.DelegationSet.AddUnsorted` | include/ndn-ind/delegation-set.hpp:156-161 | appended; coherent |
| `Delegations.DelegationSet.Clear` | include/ndn-ind/delegation-set.hpp:174-179 | empty; coherent |
| `Delegations.DelegationSet.GetDefaultWireEncoding` | include/ndn-ind/delegation-set.hpp:268-283 | the cached encoding only if nothing changed since, and it decodes to the list |
| `Delegations.DelegationSet.SetDefaultWireEncoding` | include/ndn-ind/delegation-set.hpp:299-309 | recorded with the current count |
| `Delegations.DelegationSet.WireEncode` | src/delegation-set.cpp:133-148 | what is returned decodes to the current list: never stale |
| `Delegations.DelegationSet.WireDecode` | src/delegation-set.cpp:150-176 | the list read, complete or up to the error; the cache is the input only when complete and in the default format |
| `Delegations.DelegationSet.Copy` | include/ndn-ind/delegation-set.hpp:64-72 | same list and encoding, both coherent |
| `Delegations.DelegationSet.Assign` | src/delegation-set.cpp:66-75 | same list, both coherent |
| `ChangeCounts.CountTellsChanges` | include/ndn-ind/util/change-counter.hpp:54-202 | on any object and over any run of setters, child changes at any depth and polls, the change count is the same as at an earlier poll exactly when nothing was changed, and then all values are the same |
| `ChangeCounts.PollCounts` | include/ndn-ind/util/change-counter.hpp:54-202 | one call of getChangeCount adds one exactly when some child reports another count than the one seen last |
| `ChangeCounts.ChangeIsNoticed` | include/ndn-ind/util/change-counter.hpp:103-114 | a change anywhere in the tree raises the next count above the recorded one |
| `ChangeCounts.NoticedStays` | include/ndn-ind/util/change-counter.hpp:103-114 | no later operation hides a change from the count that was recorded before it |
| `ChangeCounts.LookIsInvisible` | include/ndn-ind/util/change-counter.hpp:103-114 | polling a child directly does not disturb what the parent sees |
| `ChangeCounts.SetKeepingCountIsLegal` | include/ndn-ind/interest.hpp:574-580 | setForwardingHint is a setter to which the above applies, though it can record a count ahead of its target's, since DelegationSet::operator= keeps the target's |
| `ChangeCounts.AssignmentNoticed` | include/ndn-ind/data.hpp:153-154 | a poll directly after an assignment through a reference, where that copies the change count, notices it if and only if the new count differs from the recorded one |
| `ChangeCounts.AssignmentOverRuns` | include/ndn-ind/data.hpp:153-154 | every legal run after such an assignment is noticed if and only if the new count is above the recorded one |
| `ChangeCounts.AssignmentHidden` | include/ndn-ind/data.hpp:153-154 | a new count at or below the recorded one: the run of at most one change that hides the assignment |
| `ChangeCounts.AssignmentUnnoticed` | include/ndn-ind/data.hpp:153-154 | two names with equal counts: the assignment goes unnoticed |
| `DataPacket.Data.GetChangeCount` | include/ndn-ind/data.hpp:294-307 | the tree is polled as ChangeCounts says, and the count goes up by one at most; no value changes |
| `DataPacket.Data.GetDefaultWireEncoding` | include/ndn-ind/data.hpp:193-206 | the cached encoding only if nothing changed since; it decodes to the current fields |
| `DataPacket.Data.SetDefaultWireEncoding` | include/ndn-ind/data.hpp:310-320 | coherent if and only if the encoding decodes to the current fields |
| `DataPacket.Data.WireEncode` | src/data.cpp:189-206 | from a coherent state, what is returned decodes to the current fields: never stale |
| `DataPacket.Data.WireDecode` | src/data.cpp:208-222 | the fields are the decoded ones, or untouched on failure; coherent |
| `DataPacket.Data.Copy` | src/data.cpp:68-81 | same fields and encoding, both coherent |
| `DataPacket.Data.Assign` | src/data.cpp:87-101 | same fields, also on itself; coherent if and only if the other has no cached encoding, nothing in it was changed since its encoding was recorded, or its fields are back to what the encoding shows |
| `DataPacket.Data.SetSignature` | include/ndn-ind/data.hpp:221-227 | only the signature changes; coherent |
| `DataPacket.Data.SetName` | src/data.cpp:181-187 | only the name changes; coherent |
| `DataPacket.Data.SetMetaInfo` | include/ndn-ind/data.hpp:242-248 | only the meta info changes; coherent |
| `DataPacket.Data.SetContent` | include/ndn-ind/data.hpp:267-273 | only the content changes; coherent |
| `DataPacket.Data.EditChild` | include/ndn-ind/data.hpp:144-159 | any operation through getName, getMetaInfo or getSignature, at any depth, keeps a coherent cache coherent |
| `DataPacket.Data.AssignName` | include/ndn-ind/data.hpp:153-154 | the name is replaced with its count; the cache stays coherent if and only if there is none, it was out of date already, or the count is not below the recorded one and the next poll notices a change or finds the encoded fields; a count above the recorded one is enough |
| `DataPacket.StaleEncoding` | include/ndn-ind/data.hpp:153-154 | after such an assignment wireEncode returns the encoding of the old name |
| `DataPacket.StaleAfterEdits` | include/ndn-ind/data.hpp:153-154 | also with a count that differs at first: an empty name assigned and then built up to the old count gives the encoding of the old name |
| `DataPacket.StaleAssignment` | src/data.cpp:97-98 | after the assignment of a changed packet wireEncode returns the encoding of its old name |
| `DataPacket.Data.GetFullName` | src/data.cpp:123-146 | the Data name and the digest as last component, or the stored full name whenever an encoding is cached; right if and only if no encoding in the format is cached, no full name is stored, or it was made from an encoding with the same digest and name |
| `DataPacket.StaleFullName` | src/data.cpp:123-146 | after getFullName, setContent and wireEncode, getFullName returns the digest of the old content |
| `Nonces.GetNonceIsExpected` | include/ndn-ind/interest.hpp:298-309 | in every run of setters, child changes, setNonce, refreshNonce and decoding, getNonce returns what the events so far call for |
| `Nonces.NonceSinceSet` | include/ndn-ind/interest.hpp:522-530 | after setNonce, getNonce returns that nonce exactly when no field or child changed since, and otherwise an empty one |
| `Nonces.CopyHolds` | include/ndn-ind/interest.hpp:79-100 | a copy starts with the right nonce if and only if a child other than the link has an unreported change, the stored nonce is empty, or nothing changed since it was set |
| `Nonces.CopyRuns` | include/ndn-ind/interest.hpp:79-100 | a copy that starts right returns the expected nonce in every later run |
| `Nonces.CopyGets` | include/ndn-ind/interest.hpp:79-100 | what the first getNonce on any copy returns |
| `Nonces.CopyAfterSetter` | include/ndn-ind/interest.hpp:79-100 | setNonce, a setter, copy: the copy has the outdated nonce |
| `Nonces.CopyAfterLinkChange` | include/ndn-ind/interest.hpp:95-96 | setNonce, a change to the link, copy: the copy has the outdated nonce, since the link's count is recorded anew |
| `Nonces.Interest.Copy` | include/ndn-ind/interest.hpp:79-100 | the copy constructor is Copied, and polls the other Interest |
| `Nonces.Interest.SetForwardingHint` | include/ndn-ind/interest.hpp:574-580 | setForwardingHint is the step SetKeepingCount, one of the setters of every run |
| `Nonces.Interest.SetFields` | src/interest.cpp:116-151 | Interest::set is the decoding step, which stores the nonce and records the count without adding to it |
| `Nonces.Interest.ReadNonce` | include/ndn-ind/interest.hpp:298-309 | getNonce is the protocol's step: the stored nonce if the count is the one recorded with it, and otherwise an empty one |
| `Nonces.Interest.WriteNonce` | include/ndn-ind/interest.hpp:522-530 | setNonce is the protocol's step: the nonce is stored and the count goes up |
| `Nonces.Interest.Refresh` | src/interest.cpp:382-406 | the loop stops at drawn bytes that differ from the current nonce and stores them; an empty nonce stays empty, with any draws |
| `Nonces.Interest.EnsureNonce` | src/node.cpp:70-74 | every Interest passed on has a non-empty nonce that getNonce returns; an existing one is kept |
| `MurmurHash.MurmurHash3` | contrib/murmur-hash/murmur-hash.c:15-75 | blocks, tail switch and finalisation compute Hash |
| `MurmurHash.MixBlocks` | contrib/murmur-hash/murmur-hash.c:31-47 | the loop over blocks indexed backwards from the end is the left fold over the data |
| `MurmurHash.WordIsValue` | contrib/murmur-hash/murmur-hash.c:38-38 | the first byte of a block is the lowest |
| `HashVectors.HashOfTest` | contrib/murmur-hash/murmur-hash.c:15-75 | the bytes of test with seed 0 hash to 0xba6bd213 |
| `HashVectors.HashOfFourBytes` | contrib/murmur-hash/murmur-hash.c:15-75 | the bytes 21 43 65 87 with seed 0 hash to 0xf55b516b |
| `HashVectors.HashOfThreeBytes` | contrib/murmur-hash/murmur-hash.c:15-75 | the bytes 21 43 65 with seed 0 hash to 0x7e4a8634 |
| `HashVectors.HashOfEmpty` | contrib/murmur-hash/murmur-hash.c:15-75 | no bytes with seed 1 hash to 0x514e28b7 |
| `HashVectors.HashOfTwoBlocks` | contrib/murmur-hash/murmur-hash.c:15-75 | test twice: blocks are mixed from left to right |
| `MurmurHash.SeedBijection` | contrib/murmur-hash/murmur-hash.c:15-75 | for every byte string the hash is a bijection from 32-bit seeds to 32-bit hashes, with the inverse given |
| `MurmurHash.BlockDecides` | contrib/murmur-hash/murmur-hash.c:31-47 | inputs that differ in exactly one 4-byte block hash differently |
| `MurmurHash.TailDecides` | contrib/murmur-hash/murmur-hash.c:49-63 | inputs of equal length that differ only in the tail hash differently |
| `MurmurHash.BodyUndone` | contrib/murmur-hash/murmur-hash.c:31-47 | all block steps are undone in reverse |
| `MurmurHash.FinishUndone` | contrib/murmur-hash/murmur-hash.c:49-74 | tail and finalisation are undone, both ways |
| `Words.Rotations13And19` | contrib/murmur-hash/murmur-hash.c:9-13 | rotation by 19 undoes rotation by 13, both ways |
| `Words.Rotations15And17` | contrib/murmur-hash/murmur-hash.c:9-13 | rotation by 17 undoes rotation by 15, both ways |
| `Words.LowMask` | contrib/apache/apr_base64.c:244-249 | and with a mask of low bits is the remainder |
| `Words.HighMask` | contrib/apache/apr_base64.c:245-248 | and with a mask of high bits, shifted down, is the mask of what was shifted |
| `Base64.DecodeEncode` | contrib/apache/apr_base64.c:144-267 | decoding the encoding of any byte string gives it back |
| `Base64.EncodeDecode` | contrib/apache/apr_base64.c:144-267 | encoding the decoding of a text gives the text back if and only if it is canonical: padded, and with zero unused bits |
| `Base64.AnnouncedLengths` | contrib/apache/apr_base64.c:109-195 | the encoding with its terminator is exactly encode_len; the decoding of any text is one to four bytes below decode_len |
| `Base64.EncodedIsCanonical` | contrib/apache/apr_base64.c:236-267 | every encoding is canonical |
| `Base64.Alphabet` | contrib/apache/apr_base64.c:189-190 | the letters are those of table 1 of RFC 4648, in its order |
| `Base64.LetterNumbers` | contrib/apache/apr_base64.c:28-48 | each letter has its place in that table as its number, and no other character has one |
| `Base64.SameBits` | contrib/apache/apr_base64.c:243-250 | three bytes and their four letters are the same 24 bits |
| `Base64.ShortGroups` | contrib/apache/apr_base64.c:172-183 | what one to three last letters decode to, whatever their unused bits are |
| `Base64.TestVectors` | contrib/apache/apr_base64.c:236-267 | the first vectors of section 10 of RFC 4648 |
| `Base64Io.EncodeBinary` | contrib/apache/apr_base64.c:236-267 | writes exactly the encoding and its terminator, returns its size, touches nothing else |
| `Base64Io.Second` | contrib/apache/apr_base64.c:245-246 | the masks, shifts and or of the second character are the arithmetic of the group |
| `Base64Io.Third` | contrib/apache/apr_base64.c:247-248 | the same for the third |
| `Base64Io.SecondByte` | contrib/apache/apr_base64.c:163-164 | the shifts and or of the second byte, cut to eight bits, are the arithmetic of the group |
| `Base64Io.ThirdByte` | contrib/apache/apr_base64.c:165-166 | the same for the third |
| `Base64Io.FourLetters` | contrib/apache/apr_base64.c:243-250 | one pass of the encoding loop at bit level |
| `Base64Io.LastLetters` | contrib/apache/apr_base64.c:251-263 | the last one or two bytes at bit level, with padding |
| `Base64Io.ThreePlain` | contrib/apache/apr_base64.c:160-166 | one pass of the decoding loop at bit level |
| `Base64Io.EncodeGroups` | contrib/apache/apr_base64.c:243-250 | the loop over full groups |
| `Base64Io.DecodeBinary` | contrib/apache/apr_base64.c:144-187 | writes exactly the decoding, returns its size, touches nothing else, for every text |
| `Base64Io.DecodeGroups` | contrib/apache/apr_base64.c:157-169 | the loop over groups, which keeps the last one back |
| `Base64Io.ScanPrefix` | contrib/apache/apr_base64.c:152-154 | the letters before the first other character |
| `Base64Io.CountDecoded` | contrib/apache/apr_base64.c:155-186 | the returned count, computed with the mask, is the number of decoded bytes |
| `Base64Io.WriteLast` | contrib/apache/apr_base64.c:172-183 | the last one to four letters |
| `Base64Io.DecodeText` | contrib/apache/apr_base64.c:124-139 | adds a terminator inside the announced length |

## Left out

- Transports, sockets, event loops, the thread-safe face, logging and exceptions: outside calls. A callback may do anything the protocol allows, but an exception in a callback or in the middle of a step is not modelled.
- TLV encoding and decoding: a wire format is a pair of functions with decode(encode(x)) = x as the only law. Oversized packets are not modelled.
- SHA-256, signing and the KeyChain: a digest is a given byte string and command Interests are given.
- Face and command signing around registerPrefix. Runs of the protocol have no registration with id 0, which Face never issues.
- Clock and order of the delayed call table: a scheduled call may fire at any time, which includes all orders the table can give.
- Re-entry inside the methods of NodeObject.Node: the object is followed between complete calls; the interleavings of re-entering callbacks are covered by the transition system that its states belong to.
- NodeObject.Node.RegisterResponse: the result of decoding the response, and the status code 200, are one flag of the packet.
- Matching.MatchesData: the key locator of the signature is given as an option; which signature classes hold one is not modelled.
- The regular expression library: what a pattern matches is a given function.
- UriIo.SetUri: a type code beyond the range of int, where atoi is undefined, is an error; text after a NUL is not part of a URI.
- Names of 2^31 or more components, and the start index INT_MIN, whose negation is undefined.
- Nonces.Interest.Refresh: the random source is a list of draws; for a nonce that is not empty one of them differs from it.
- Interest encodings, the decoding of a link on the first getLink, and the Interest assignment operator.
- Wrap-around of 64-bit change counts and entry ids: counters are unbounded.
- Hash codes of Name and Component, ISO time strings, floating-point milliseconds, ControlParameters, EBCDIC machines.
- In C, MurmurHash reads blocks as native 32-bit words; the model reads them in little-endian order. The loop index `-(int)nblocks` is not exact for inputs of 2^33 bytes or more; the model's is.
- The memory of `onConnectedCallbacks_`: an expressInterest that re-enters from onConnected pushes onto the vector whose element is being called (src/node.cpp:127-128), which may move it. In the model the queue only grows.
- Assignment through the references of an Interest is no event of the nonce runs; ChangeCounts.AssignmentOverRuns says when it goes unnoticed.
