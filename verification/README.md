# Verified model of a User Plane Function

A Dafny model of the parts of a 5G User Plane Function whose correctness depends on state, runs or
arithmetic: its Internet checksum, the BPF map index of its PFCP sessions, its session manager, its
PFCP transactions, its timers, its GTP-U formats, its framed routes, its transmit batch and the
placement of its threads. `dafny verify dfyconfig.toml` checks the whole project.

Code that changes objects, maps or buffers step by step is modelled by classes, arrays and loops.
Each such method is proved equal to a function of the old state, and the promises of the source are
proved about those functions, for all inputs and over all runs. Byte order, 16-, 32- and 64-bit
wrap-around and truncation are written out.

| file | what it models |
|---|---|
| OnesComplement | ones-complement arithmetic and the 16-bit checksum of section 1 of RFC 1071 |
| Checksum | the 64-bit-lane sum on a little-endian host, and the three functions that set a checksum field in place |
| Options | a value that may be absent |
| PfcpRules | PDRs, FARs, QERs and the other rules of a session, and the chains between them |
| RuleIndex | the rule, SDF filter, PDR array and session type maps as functions of the sessions passed to the pipeline, whether it returns or throws |
| RuleEntries | the same maps read off the sessions, however rules were looked up |
| UeIpIndex | the UE address map and the keys tracked per SEID; one function per section that holds the mutex |
| SessionProgramManager | the object that keeps those maps, with its loops, refining the two files above |
| StoredAddresses | which address and TEIDs a pipeline call stores, and its stores as sections |
| EnforcementPrograms | the QER programs of a session, the locked sections that change them and every overlap of calls; the enabled-stage flags |
| RuleLists | lists of rules found by id, patched and erased, for every kind of rule |
| SharedRules | rule objects that several session objects hold at once |
| SessionModification | a modification request as a sequence of steps and of pipeline calls, on one session object or on two that share rules |
| UpdatedFields | what a request makes of each field of each rule |
| SessionLists | the uplink and downlink lists derived from a session, of values and of objects |
| SessionManager | the registry (vector and map) of session objects, the N4 operations, and the log of pipeline calls they make |
| StaleLists | a run after which derived lists stay wrong |
| PfcpStack | the PFCP transaction layer, its four maps, and the object that keeps them |
| PfcpExchange | two stacks and the request and response types between them |
| PfcpRuns | runs of that layer with the timer service, untimed and with on-time timers |
| IttiTimers | the timer set, its critical sections, and the object that keeps it |
| IttiRuns | every interleaving of the timer thread with callers |
| GtpuPacket | the walk over a received GTP-U header and the headers written in front of a packet |
| GtpuMessage | the stream codec of GTP-U signalling messages |
| FramedRouteText | the text parser of framed routes |
| FramedRouteReading | the numbers, shifts and lengths of that parser, told from the text |
| FramedRouting | the framed-route map and its longest-prefix probe |
| TxBatch | the transmit batch with its reused slots |
| CpuSpread | the control-plane CPU, the datapath CPUs, and the sockets of the receive threads |

Numeric values of PFCP message types are those of Table 7.3-1 of TS 29.244, and of GTP-U message,
extension header and information element types those of TS 29.281; the generated headers
3gpp_29.244.h and 3gpp_29.281.h are not part of this model.

## What the proofs found

- An SDF filter stored under QFI 0 is never taken for stale: removing a session clears all its
  filters exactly when none of its calls ever stored one under QFI 0 (`RuleIndex.NeverUnderZeroIff`, with a
  history in `RuleIndex.ZeroFilterStays`).
- CreatePipeline does not prune: called again for a known SEID it leaves the index in agreement with
  the new session exactly when nothing of the old one has become stale (`RuleIndex.CreateAgreesIff`).
- A pipeline call that throws leaves the PDRs it has installed so far. The next one that returns sets the
  index right exactly when each of those is known to it or to the session before
  (`RuleIndex.HealedIff`).
- When a session is established, the F-TEID of a second PDR is taken for the downlink too, and the
  modification that brings the gNB's TEID then no longer replaces it
  (`UeIpIndex.DownlinkOpenIff`, `UeIpIndex.ModificationSetsDownlinkIff`).
- A session whose pipeline cannot be built stays in the registry (`SessionManager.SessionManager.CreateSession`).
- UpdateSession replaces the session object in the map only; the vector keeps the one it had
  (`SessionManager.SessionManager.UpdateSession`).
- After QER updates the pipeline is called with lists derived again but not sorted
  (`SessionManager.SessionManager.HandleQerUpdates`). They are right exactly when the PDRs of each
  interface come in order of precedence in the session (`SessionLists.JustDerivedRightIff`; two that
  do not: `SessionLists.NotInOrder`).
- The switch passes ModifySession a copy of the session, which shares the rule objects but not the lists
  with the registered one. Updates patch the shared objects, removals act on the registered lists,
  and in the end the copy is registered. So what the request removes comes back in the last pipeline
  call (`SessionManager.RemovedStays`), and a removal can meet a PDR without a FAR although the copy has
  a FAR for each, as when the request points a PDR at a FAR that only the copy has yet
  (`SessionModification.CopyFails`; exactly when: `SessionModification.ApartReturnsIff`).
- A modification that throws after moving a shared PDR to the other interface leaves the registered session
  with lists that no longer hold the PDRs of their interface. The lists of the registered sessions stay
  right exactly when no update of the request moves a PDR that is shared with a session other than the one
  passed and, unless an update throws, the one it replaces
  (`SessionManager.SessionManager.ModifySession`), and a RemovePdr that returns normally does not repair them (`SessionManager.SessionManager.RemovePdr`; a run:
  `StaleLists.RemovePdrKeepsStaleLists`).
- A QER program is set up outside the lock. The traffic classes stay right all along a run exactly when no
  call with a program to set up enters while another call of its session is between its two locked
  sections (`EnforcementPrograms.EveryRunIsSoundIff`). After any such entry the calls can go on to set one
  program up on top of the other (`EnforcementPrograms.BreachCollides`), and do unless a third section of
  the session comes between (`EnforcementPrograms.OverlapCollides`, `EnforcementPrograms.RemovalBetween`).
- A session removed while a call of it is between its sections, and only then, can have its program again
  though nothing enters any more (`EnforcementPrograms.ComesBackIff`, with a run in
  `EnforcementPrograms.RemovedComesBack`). CreateSession, ModifySession, DeleteSession and the public Remove
  entry points hold sessions_mutex_ across the pipeline call (src/upf_app/control/SessionManager.cpp:74, 421,
  268, 651), so such overlaps need the public UpdateSession, which does not (lines 181-185), or a caller
  that goes to SessionProgramManager directly.
- The pool of datapath CPUs is taken once, but control_cpu looks at the affinity mask each time it is asked. If the
  mask changes in between, the control-plane CPU can be one of the pool.
- A PFCP sequence number that is drawn while still pending loses the new procedure; its retry
  timer then dereferences a missing message exactly when the procedure found there was begun by a
  peer (`PfcpRuns.RetryCrashesIff`, with a run in `PfcpRuns.RetryCrashes`).
- An answer to a transaction whose procedure has expired removes the procedure of another
  transaction exactly when that one has taken its sequence number (`PfcpRuns.AnswerErasesAnotherIff`,
  with a run in `PfcpRuns.LateAnswer`).
- A deleting answer leaves a retry timer behind exactly when it meets a procedure whose retry timer is set,
  that is, a local one under the number of an expired transaction (`PfcpRuns.StrayIff`, with a run in
  `PfcpRuns.StrayTimer`). The timer then does nothing when it fires, unless a peer's request has
  come under its number: then it dereferences a missing message (`PfcpRuns.StrayFires`).
- Stopping a cleanup timer erases from the map of retry timers, so the entry of the cleanup timer stays
  (`PfcpRuns.CleanupEntryStays`).
- A node or session report response that comes when its procedure is gone counts as a request and begins a
  transaction of its own (`PfcpExchange.FirstHandedUpIff`, `PfcpExchange.LateReportResponse`).
- An interval that is not a whole number of seconds lasts too short: the milliseconds left over are passed
  on as microseconds (`PfcpRuns.IntervalIff`).
- Version-not-supported is handed up as often as it arrives (`PfcpRuns.VersionNotSupportedTwice`).
- timer_remove reports success on a timer whose time-out was sent, if it was the last one
  (`IttiRuns.RemovalSucceedsIff`), and fails on one whose set-up is still under way, which then fires.
- A timer removed after its deadline has passed, but before its time-out is built, has a time-out built all the
  same, under the id of no timer (`IttiRuns.NullTimeOut`). One removed just before the thread looks at
  it leaves the thread waiting for a wake-up (`IttiRuns.RemovedBeforeCheck`).
- Two timers with the same deadline collapse into one; the other is lost (`IttiRuns.MarkRight`).
- The length field of a GTP-U signalling message exceeds the octets that follow the first eight by one
  for each private extension or peer address, because an element header is counted as four octets
  and takes three (`GtpuMessage.LengthFieldExcess`).
- A signalling message without elements is read on its own only at the end of the stream
  (`GtpuMessage.ReadsOnIff`).
- Recovery and TEID Data I elements, which have no length octets, end the reader's loop; an IPv6 peer
  address is read back as 0.0.0.0 (`GtpuMessage.Received`, `GtpuMessage.RoundTrip`).
- A framed route of length 0, or of 33 to 99, shifts a 32-bit word by a number of places C++ leaves undefined;
  one of three digits is taken for 32 (`FramedRouteReading.PrintedLength`).
- The checksum that tcp_csum_set leaves verifies if the sum covers its field once: if the segment reaches past it, or,
  for a header length of 0, which puts the field into the pseudo-header, if the segment ends before it.
  Otherwise the sum is that of the field, as often as it is covered, and of what was summed
  (`Checksum.TcpCsumSet`). That of ip_csum_set verifies if the header reaches past the field.

## Model

| member | source | states |
|---|---|---|
| OnesComplement.Swap16Add | src/upf_app/simpleswitch/csum.hpp:31-36 | ones-complement addition commutes with swapping bytes, both zeros told apart, so the host's byte order cancels |
| OnesComplement.LaneIsWords | src/upf_app/simpleswitch/csum.hpp:42-65 | a wide little-endian lane is worth its 16-bit words |
| OnesComplement.HostSumIsRfc1071 | src/upf_app/simpleswitch/csum.hpp:31-37 | the byte-swapped host sum of any bytes is the 16-bit network-order sum of RFC 1071, including which zero |
| OnesComplement.Rfc1071Concat | src/upf_app/simpleswitch/csum.hpp:92-98 | summing in consecutive pieces of even length is summing the whole |
| Checksum.CsumPartial | src/upf_app/simpleswitch/csum.hpp:38-74 | for every length and starting sum the result folds to the RFC 1071 sum; the carry is never lost |
| Checksum.CsumFold | src/upf_app/simpleswitch/csum.hpp:76-79 | folds 32 bits to the complement of the ones-complement value |
| Checksum.FoldOfPartialIsRfc1071 | src/upf_app/simpleswitch/csum.hpp:38-79 | folding a partial sum gives exactly the RFC 1071 checksum of the data with the starting sum's bytes in front |
| Checksum.PiecewiseSum | src/upf_app/simpleswitch/csum.hpp:91-98 | continuing over the next piece equals one sum when what precedes has even length |
| Checksum.FieldCompletes | src/upf_app/simpleswitch/csum.hpp:82-85 | data whose zeroed even-offset field receives the checksum sums to zero |
| Checksum.IpCsumSet | src/upf_app/simpleswitch/csum.hpp:82-85 | writes the header's checksum, changes no other byte; a header that covers the field then verifies, a shorter one still has the checksum written |
| Checksum.PseudoHeaderWords | src/upf_app/simpleswitch/csum.hpp:92-97 | the pseudo-header adds up to the words of section 9.1 of RFC 9293 in network order: both addresses, 6, and the length modulo 2^16 |
| Checksum.TcpCsumSet | src/upf_app/simpleswitch/csum.hpp:88-100 | stores the complement of the sum of these words and of the segment, and changes no other byte; words and segment then sum to all ones if they cover the field once, else the sum is what was summed and the field as often as it is covered |
| Checksum.PartialCompletes | src/upf_app/simpleswitch/csum.hpp:105-121 | a field holding the pseudo-header sum, summed as data and replaced by the complement, completes the checksum |
| Checksum.VnetCompleteCsum | src/upf_app/simpleswitch/csum.hpp:115-122 | leaves a malformed packet alone; else changes two bytes only, and packet and pseudo-header then verify |
| PfcpRules.FindFarIff | src/upf_app/control/SessionProgramManager.cpp:2597-2606 | a PDR's FAR is found exactly when some FAR of the session has its id |
| PfcpRules.FarIsFirst | src/upf_app/control/SessionProgramManager.cpp:2597-2606 | the FAR found is in the session, has the id asked for, and is the first that does |
| PfcpRules.QerIsFirst | src/upf_app/control/SessionProgramManager.cpp:2618-2624 | the same for a QER |
| PfcpRules.RuleIsFirst | src/upf_app/control/SessionProgramManager.cpp:2022-2085 | the same for a URR, BAR or MAR, none without an id |
| RuleIndex.WrittenAgreesIff | src/upf_app/control/SessionProgramManager.cpp:1334-1507 | writing a session's rules makes the index agree with it exactly when nothing stale of it was there |
| RuleIndex.WrittenThenPruned | src/upf_app/control/SessionProgramManager.cpp:1493-1507 | writing and then pruning what the old array records and the new session lacks makes the index agree |
| RuleIndex.ArrayRecords | src/upf_app/control/SessionProgramManager.cpp:748-774 | the PDR array gives back the ids and non-zero QFIs of the session it was written for |
| RuleIndex.ModifyAgrees | src/upf_app/control/SessionProgramManager.cpp:1206-1210 | after a modification rule keys are exactly the PDR ids, each bound to the rules its PDR references; filter QFIs are current; other sessions untouched |
| RuleIndex.CreateAgreesIff | src/upf_app/control/SessionProgramManager.cpp:845-1123 | an establishment does so exactly when nothing of the SEID is stale |
| RuleIndex.RemoveAgrees | src/upf_app/control/SessionProgramManager.cpp:159-175 | a removed SEID has no rule, PDR array or non-zero-QFI filter left, and no other session changes |
| RuleIndex.FiltersClearedIff | src/upf_app/control/SessionProgramManager.cpp:162-170 | all its filters are gone exactly when the index has none under QFI 0 |
| RuleIndex.ZeroFilterIff | src/upf_app/control/SessionProgramManager.cpp:698-740 | a filter is there under QFI 0 exactly when some call, returned or thrown, has ever stored one |
| RuleIndex.NeverUnderZeroIff | src/upf_app/control/SessionProgramManager.cpp:162-170 | a removal clears all filters of a session exactly when none of its calls stored one under QFI 0 |
| RuleIndex.ZeroFilterStays | src/upf_app/control/SessionProgramManager.cpp:162-170 | a session established and removed whose filter stays |
| RuleIndex.CallAgrees | src/upf_app/control/SessionProgramManager.cpp:845-1520 | each pipeline call keeps the agreement of index and live sessions |
| RuleIndex.RunAgrees | src/upf_app/control/SessionProgramManager.cpp:845-1540 | over every run of create, modify and remove the index says exactly what the live sessions, as last passed, say |
| RuleEntries.AgreedReads | src/upf_app/control/SessionProgramManager.cpp:1334-1507 | an index that agrees with a session holds for each PDR the first FAR, QER, URR and MAR of the ids it names and the BAR that FAR names, each exactly if there is one; its array and filters carry the QFI of the PDI, or else of that QER |
| RuleEntries.RunReads | src/upf_app/control/SessionProgramManager.cpp:845-1540 | so it is for every live session after every run of pipeline calls |
| RuleIndex.AfterElsewhere | src/upf_app/control/SessionProgramManager.cpp:845-1540 | no call, returned or thrown, changes an entry of another session |
| RuleIndex.HistoryAgreesAt | src/upf_app/control/SessionProgramManager.cpp:845-1540 | whatever other sessions go through, thrown calls included, the index says of each session whose calls returned exactly what it, as last passed, says |
| RuleEntries.HistoryReads | src/upf_app/control/SessionProgramManager.cpp:845-1540 | so it is after every history for a session whose calls returned, under the PDU session type it had when it came alive |
| RuleEntries.Detected | src/upf_app/control/SessionProgramManager.cpp:592-620 | the type is IP exactly if there is no PDR or one with a UE address other than 0 |
| RuleIndex.ModifyHealsIff | src/upf_app/control/SessionProgramManager.cpp:1493-1507 | a modification of any index agrees with its session exactly when every leftover is recorded in the PDR array |
| RuleIndex.HealedIff | src/upf_app/control/SessionProgramManager.cpp:1158-1520 | after a modification that threw, one that returns restores the agreement exactly when the PDRs and filter QFIs the first one installed are known to the second or to the session before |
| UeIpIndex.HtonlReverses | src/upf_app/control/SessionProgramManager.cpp:304-309 | the key of an address, and a stored TEID, has its octets in reverse, and reversing twice gives it back |
| UeIpIndex.HtonlInjective | src/upf_app/control/SessionProgramManager.cpp:304-309 | different addresses have different keys |
| UeIpIndex.EveryRunTracksHolders | src/upf_app/control/SessionProgramManager.cpp:296-391 | in every interleaving each entry is tracked, and the entry of each address names the holder that the history of that address alone determines |
| UeIpIndex.EveryRunShowsClaims | src/upf_app/control/SessionProgramManager.cpp:296-391 | in every interleaving the entry of each address holds, in network order, the TEIDs its history says: those of the claim, missing ones filled in later, from the other direction if need be |
| UeIpIndex.EveryRunTracks | src/upf_app/control/SessionProgramManager.cpp:360-361 | the keys tracked for a session are those of the addresses it stored since it last moved, none once it is removed |
| UeIpIndex.EstablishedTeids | src/upf_app/control/SessionProgramManager.cpp:318-345 | an establishment leaves its first non-zero F-TEID for the uplink and the first behind the first PDR for the downlink |
| UeIpIndex.SectionsOf | src/upf_app/control/SessionProgramManager.cpp:1290-1310 | a modification leaves the session exactly one address, a removal none, and neither deletes one a newer session reclaimed |
| UeIpIndex.DownlinkOpenIff | src/upf_app/control/SessionProgramManager.cpp:318-345 | the downlink TEID is left open by an establishment exactly when no PDR after the first carries an F-TEID |
| UeIpIndex.ModificationSetsDownlinkIff | src/upf_app/control/SessionProgramManager.cpp:318-345 | a modification's downlink TEID lands exactly when the slot is open or holds it already |
| SessionProgramManager.SessionProgramManager.StorePduSessionInMap | src/upf_app/control/SessionProgramManager.cpp:296-362 | in place, what UeIpIndex.Store says of entry, TEIDs and tracking |
| SessionProgramManager.SessionProgramManager.RemoveUeIpMappingIfOwned | src/upf_app/control/SessionProgramManager.cpp:380-391 | deletes the entry only if it still names the SEID |
| SessionProgramManager.SessionProgramManager.RemoveOwnedMappings | src/upf_app/control/SessionProgramManager.cpp:178-183 | the same for a set of keys |
| SessionProgramManager.SessionProgramManager.ParseAndStoreSdfFilter | src/upf_app/control/SessionProgramManager.cpp:698-740 | stores a filter under SEID and QFI only for a PDR with a QER and a filter |
| SessionProgramManager.SessionProgramManager.GetTrackedPdrQfis | src/upf_app/control/SessionProgramManager.cpp:748-774 | returns the ids the array records, each with the QFI of its last slot |
| SessionProgramManager.SessionProgramManager.PruneStaleRuleEntries | src/upf_app/control/SessionProgramManager.cpp:776-808 | removes exactly the stale rule and filter keys of the session |
| SessionProgramManager.SessionProgramManager.CreatePipeline | src/upf_app/control/SessionProgramManager.cpp:845-1123 | returns exactly when every PDR has a source interface and a FAR and they fit; whether it returns or throws, the index is then as RuleIndex.After says and the addresses are those of the PDRs it got to |
| SessionProgramManager.SessionProgramManager.ModifyPipeline | src/upf_app/control/SessionProgramManager.cpp:1158-1520 | returns exactly when every PDR has a FAR and they fit; whether it returns or throws, the index is then as RuleIndex.After says, and the addresses as the address section says, or untouched if the PDRs do not fit |
| SessionProgramManager.SessionProgramManager.UpdateUeIpMapping | src/upf_app/control/SessionProgramManager.cpp:1268-1332 | stores the current address and drops the ones it replaces, only if there is a TEID |
| StoredAddresses.UplinkTeidIsPrimary | src/upf_app/control/SessionProgramManager.cpp:1263-1268 | with right lists the uplink TEID stored is that of an ACCESS PDR no other with an F-TEID precedes, 0 if none has one |
| StoredAddresses.DownlinkTeidIsPrimary | src/upf_app/control/SessionProgramManager.cpp:1270-1277 | the downlink TEID is the one the FAR of such a CORE PDR points at |
| StoredAddresses.UeIpIsRetrieved | src/upf_app/control/SessionProgramManager.cpp:2568-2583 | the address is that of the first PDR that has one |
| StoredAddresses.ModifyIsSection | src/upf_app/control/SessionProgramManager.cpp:1282-1310 | a modification of a session with right lists is one section with these, none for an Ethernet session or without a TEID |
| StoredAddresses.CreateIsSections | src/upf_app/control/SessionProgramManager.cpp:930-956 | an establishment is one section for each PDR it gets to, with that PDR's address and F-TEID |
| StoredAddresses.StoredIs | src/upf_app/control/SessionProgramManager.cpp:918-965 | it gets as far as sources and FARs go: the last PDR stored may lack its FAR, and one without a source is not stored |
| SessionProgramManager.SessionProgramManager.RemoveSession | src/upf_app/control/SessionProgramManager.cpp:112-201 | clears the session from every modelled map |
| EnforcementPrograms.Logged | src/upf_app/control/SessionProgramManager.cpp:638-664 | a program is set up only where there is none and torn down only where it is |
| EnforcementPrograms.TornDownBetween | src/upf_app/control/SessionProgramManager.cpp:638-652 | between two set-ups of a session its first program is torn down |
| EnforcementPrograms.StepIsSoundIff | src/upf_app/control/SessionProgramManager.cpp:638-664 | each section, locked or not, keeps the traffic classes those of the stored programs and of the calls past their set-up exactly unless it is the entry of a call with a program to set up within another call of its session |
| EnforcementPrograms.EveryRunIsSoundIff | src/upf_app/control/SessionProgramManager.cpp:638-664 | in every interleaving of calls and removals they stay so all along exactly when no such entry occurs; no program is then set up while its session has one, and with no call under way the programs in place are those in the map |
| EnforcementPrograms.BreachCollides | src/upf_app/control/SessionProgramManager.cpp:638-664 | every such entry has a continuation in which a program is set up while its session has one |
| EnforcementPrograms.OverlapCollides | src/upf_app/control/SessionProgramManager.cpp:638-664 | so it is in either order of the two set-ups if no third section of the session comes between |
| EnforcementPrograms.RemovalBetween | src/upf_app/control/SessionProgramManager.cpp:118-124 | a run with such an entry in which a removal averts it |
| EnforcementPrograms.ComesBackIff | src/upf_app/control/SessionProgramManager.cpp:118-124 | a session that was removed, or left without a program by a call, can have one again without another call entering exactly when a call of it was between its sections |
| EnforcementPrograms.RemovedComesBack | src/upf_app/control/SessionProgramManager.cpp:118-124 | a run in which a removed session does |
| EnforcementPrograms.EnforcementPrograms.SetupSessionEnforcementPrograms | src/upf_app/control/SessionProgramManager.cpp:627-664 | its sections one after the other, with nothing between: leaves the program just set up, or none if QERs are off or absent |
| EnforcementPrograms.EnforcementPrograms.RemoveSession | src/upf_app/control/SessionProgramManager.cpp:118-124 | tears the session's program down |
| EnforcementPrograms.EnforcementPrograms.RemoveAllSessions | src/upf_app/control/SessionProgramManager.cpp:212-224 | tears every program down |
| EnforcementPrograms.ComputeRulesEnabledFlags | src/upf_app/control/SessionProgramManager.cpp:477-525 | a stage is enabled exactly when configured and asked for by some rule |
| SessionModification.CallsReturnIff | src/upf_app/control/SessionManager.cpp:457-510 | of a request on the registered object itself: none of its pipeline calls meets a PDR without a FAR exactly when neither the first nor the last does |
| SessionModification.ResolvedCallsReturn | src/upf_app/control/SessionManager.cpp:457-510 | so it is if every PDR resolves after the updates and every surviving PDR among the surviving FARs |
| SessionModification.FirstDecides | src/upf_app/control/SessionManager.cpp:457-465 | while updates run and PDRs go, the first call decides |
| SessionModification.LastDecides | src/upf_app/control/SessionManager.cpp:465-470 | while FARs and other rules go, the last call decides |
| SessionModification.UpdateCallsReturn | src/upf_app/control/SessionManager.cpp:457-462 | the calls of the updates all return if the updated session resolves |
| SessionModification.RemovalCallsReturnIff | src/upf_app/control/SessionManager.cpp:465-470 | the calls of the removals all return exactly when the first and the last do |
| SessionModification.ApartReturnsIff | src/upf_app/control/SessionManager.cpp:457-510 | of a request through a copy: none of its calls meets a PDR without a FAR exactly when the copy, updated, has a FAR for every PDR and so has the registered object, patched through the copy, after the first and after the last removal |
| SessionModification.CopyFails | src/upf_app/simpleswitch/pfcp_switch.cpp:1663-1667 | a request through a copy that creates a FAR, points a shared PDR at it and removes another PDR: the copy resolves throughout and the removal throws |
| UpdatedFields.UpdatesSettle | src/upf_app/control/SessionManager.cpp:457-462 | after the updates of a request each field of the first rule of its id is what the last update of that id that carries the IE gives, and else what it was; other rules are unchanged |
| UpdatedFields.CallsInOrder | src/upf_app/control/SessionManager.cpp:457-462 | the pipeline calls of updates of every kind: PDRs, FARs, QERs, URRs, BAR, MARs, each with everything updated so far |
| UpdatedFields.RemovalsReduce | src/upf_app/control/SessionManager.cpp:465-470 | the removals of a request take out every rule of an id named and no other, and no MAR |
| UpdatedFields.RemovalsInOrder | src/upf_app/control/SessionManager.cpp:465-470 | the calls of one removal of each kind: PDR, FAR, QER, URR, BAR, each with everything removed so far |
| UpdatedFields.ModifiedIsSettled | src/upf_app/control/SessionManager.cpp:408-538 | the session ModifySession registers, unless an update throws, is settled so, and reduced so if it is the registered object itself |
| SharedRules.SeenChanged | src/upf_app/simpleswitch/pfcp_session.hpp:237-251 | a copy shares the rule objects: the registered list shows what was patched through the copy, and nothing else |
| RuleLists.Turn | src/upf_app/control/SessionManager.cpp:1236-1415 | each update that names a rule is applied to the first one of that id |
| RuleLists.WithoutElements | src/upf_app/control/SessionManager.cpp:668-679 | erasing leaves exactly the rules of other ids |
| SharedRules.Patch | src/upf_app/control/SessionManager.cpp:1236-1415 | in place, the updates one by one on the first object of the id; a hit is reported exactly if there was one |
| SessionLists.SortPdrs | src/upf_app/control/SessionManager.cpp:1157-1170 | a permutation in order of precedence |
| SessionLists.ErasedListIff | src/upf_app/control/SessionManager.cpp:668-683 | erasing a PDR from session and derived list leaves the derived list of the rest exactly when the other PDRs were listed right |
| SessionLists.JustDerivedRightIff | src/upf_app/control/SessionManager.cpp:1648-1652 | lists derived but not sorted are right exactly when the PDRs of each interface come in order of precedence |
| SessionLists.NotInOrder | src/upf_app/control/SessionManager.cpp:1648-1652 | a session for which they are not |
| SessionManager.SameSeids | src/upf_app/control/SessionManager.cpp:87-89 | vector and map hold the same SEIDs, each once |
| SessionManager.SessionManager.CategorizePdrs | src/upf_app/control/SessionManager.cpp:1101-1154 | the lists are the ACCESS and CORE PDRs and their QERs, in order |
| SessionLists.QersFromAre | src/upf_app/control/SessionManager.cpp:1101-1154 | the QER lists hold just the QERs that PDRs of the interface name |
| SessionManager.SessionManager.CreateSession | src/upf_app/control/SessionManager.cpp:60-168 | succeeds exactly for a new SEID whose pipeline returns; registers the session in both containers either way; lists sorted; registry kept |
| SessionManager.SessionManager.UpdateSession | src/upf_app/control/SessionManager.cpp:171-263 | succeeds exactly for a known SEID whose pipeline returns; lists sorted; one pipeline call |
| SessionManager.SessionManager.DeleteSession | src/upf_app/control/SessionManager.cpp:266-356 | removes the SEID from both containers and the pipeline, if known |
| SessionManager.SessionManager.RemoveUnlocked | src/upf_app/control/SessionManager.cpp:659-694 | takes the rule out of the registered session, with one pipeline call whose outcome is the result; lists are sorted again after a PDR, and hold what they should exactly if the other PDRs were listed right |
| SessionManager.SessionManager.EraseQer | src/upf_app/control/SessionManager.cpp:932-945 | takes the QER out of all lists |
| SessionManager.SessionManager.HandlePdrUpdates | src/upf_app/control/SessionManager.cpp:1230-1422 | applies the updates and calls the pipeline once, exactly if one of them hit, with lists derived again and sorted |
| SessionManager.SessionManager.HandleFarUpdates | src/upf_app/control/SessionManager.cpp:1425-1592 | the same for FARs |
| SessionManager.SessionManager.HandleQerUpdates | src/upf_app/control/SessionManager.cpp:1595-1657 | the same for QERs, with lists derived again and not sorted |
| SessionManager.SessionManager.HandleUrrUpdates | src/upf_app/control/SessionManager.cpp:2083-2162 | the same for URRs |
| SessionManager.SessionManager.HandleBarUpdates | src/upf_app/control/SessionManager.cpp:2165-2226 | the same for the BAR |
| SessionManager.SessionManager.HandleMarUpdates | src/upf_app/control/SessionManager.cpp:2229-2345 | the same for MARs |
| SessionManager.SessionManager.HandleRemoval | src/upf_app/control/SessionManager.cpp:1176-1227 | one removal from the registered session and one call for each id, failed calls passed over |
| SessionManager.SessionManager.ModifySession | src/upf_app/control/SessionManager.cpp:408-538 | for the registered object and for any other that shares rules with it: stops at the update whose call throws; else makes exactly the calls of the updates on the object passed and of the removals on the registered one, registers the object passed with sorted lists, and succeeds if the last call returns; the lists of all registered sessions stay derived exactly when, told from request and sessions before the call, no session that stays registered beside the one passed shares a PDR that the updates move to another interface |
| SessionManager.SessionManager.RemovePdr | src/upf_app/control/SessionManager.cpp:650-653 | returns normally exactly if the SEID is known and the pipeline call returns; the lists are then sorted, and permutations of the remaining PDRs of their interface exactly if those were listed right before |
| StaleLists.RemovePdrKeepsStaleLists | src/upf_app/control/SessionManager.cpp:650-653 | a run in which they were not: it returns normally and leaves a PDR in the wrong list |
| SessionManager.DerivedKeptIff | src/upf_app/control/SessionManager.cpp:1101-1154 | lists that are not derived again stay right exactly when no PDR changes sides |
| SessionManager.ModifiedAgrees | src/upf_app/control/SessionManager.cpp:408-538 | after a ModifySession all of whose calls returned, the maps agree with the session it registered, whatever other sessions went through |
| SessionManager.RemovedStays | src/upf_app/simpleswitch/pfcp_switch.cpp:1663-1667 | after such a ModifySession through a copy, the PDRs with rules in the maps are those of the copy, removed or not |
| SessionManager.SessionManager.EveryRunAgreesAt | src/upf_app/control/SessionManager.cpp:60-538 | over every run of the operations the maps say of each session none of whose calls threw exactly what it, as last passed, says, and nothing of a session that is not registered |
| PfcpStack.PfcpL4Stack.GetNextSeqNum | src/pfcp/pfcp.cpp:40-46 | the next number, below 2^31 |
| PfcpStack.NextSeqNum | src/pfcp/pfcp.cpp:40-46 | counts modulo 2^31 |
| PfcpStack.PfcpL4Stack.HandleReceiveMessage | src/pfcp/pfcp.cpp:150-233 | the four maps and the verdict are as Receive says |
| PfcpExchange.FirstHandedUpIff | src/pfcp/pfcp.cpp:55-73 | a message whose number is not pending is handed up under a new transaction exactly if it is one of the ten requests of Table 7.3-1 with a response, or a node or session report response |
| PfcpExchange.AnswerAcceptedIff | src/pfcp/pfcp.cpp:76-97 | for a pending one of these requests its response is handed up under its transaction, and nothing else is |
| PfcpExchange.Exchange | src/pfcp/pfcp.cpp:150-267 | whichever of these requests one stack sends, a peer on which the number is not pending hands it up, and its answer is handed up by the sender under the transaction of the request |
| PfcpExchange.LateReportResponse | src/pfcp/pfcp.cpp:55-73 | a session report response without a procedure begins one |
| PfcpStack.PfcpL4Stack.Request | src/pfcp/pfcp.cpp:236-267 | a sent request fills the four maps under its new sequence number |
| PfcpStack.PfcpL4Stack.Respond | src/pfcp/pfcp.cpp:606-637 | a response carries its transaction's sequence number; deleting ends transaction and procedure |
| PfcpStack.PfcpL4Stack.TimeOutEvent | src/pfcp/pfcp.cpp:854-904 | a retry, an abort, a cleanup, or nothing, as TimeOut says |
| PfcpRuns.StepIsSound | src/pfcp/pfcp.cpp:150-267 | every event keeps all of EveryRunIsSound |
| PfcpRuns.EveryRunIsSound | src/pfcp/pfcp.cpp:150-267 | in every run each pending procedure's transaction maps back to its sequence number, so pending transactions are distinct; answers carry their request's number, none follows a deleting one; no message type is handed up twice for a transaction but version-not-supported |
| PfcpRuns.ResponseHandedUpOnce | src/pfcp/pfcp.cpp:203-222 | the matching response is handed up once, under the transaction its request was sent with |
| PfcpRuns.AcceptsIff | src/pfcp/pfcp.cpp:76-97 | a pending procedure accepts exactly the response of its request, and afterwards only version-not-supported |
| PfcpRuns.RetransmissionDiscarded | src/pfcp/pfcp.cpp:203-232 | a retransmitted request is discarded while its procedure is pending |
| PfcpRuns.EveryRunSendsAtMost | src/pfcp/pfcp.cpp:236-267 | in every run, timers on time or not, a request is transmitted at most 1 + N1 times, and what a timer transmits again is the request of its transaction |
| PfcpRuns.RetriedOrAborted | src/pfcp/pfcp.cpp:854-886 | a firing retry timer sends the request again if it was sent at most three times, and else reports the transaction as failed |
| PfcpRuns.Durations | src/pfcp/pfcp.hpp:61-64 | retries are one second apart, cleanup is due after five |
| PfcpRuns.IntervalIff | src/pfcp/pfcp.cpp:99-105 | an interval lasts as long as asked for exactly if it is a whole number of seconds |
| PfcpRuns.CleanupIsLast | src/pfcp/pfcp.hpp:61-64 | when a cleanup timer fires no retry timer is left for its procedure |
| PfcpRuns.StepIsPunctual | src/pfcp/pfcp.cpp:99-146 | every on-time event keeps all of EveryPunctualRun, and no retry lacks its message |
| PfcpRuns.EveryPunctualRun | src/pfcp/pfcp.cpp:854-904 | with on-time timers no procedure is dropped while a retry timer refers to it, each retry timer is that of its procedure, and cleanup is due strictly later |
| PfcpRuns.RetryCrashesIff | src/pfcp/pfcp.cpp:862-886 | when a drawn number is pending, its retry fails exactly for a procedure a peer began |
| PfcpRuns.RetryCrashes | src/pfcp/pfcp.cpp:862-886 | a run in which it fails |
| PfcpRuns.StrayIff | src/pfcp/pfcp.cpp:622-630 | a deleting answer leaves a retry timer without its procedure exactly when it meets a procedure whose retry timer is set |
| PfcpRuns.StrayTimer | src/pfcp/pfcp.cpp:622-630 | a run, on time until then, in which one does |
| PfcpRuns.StrayFires | src/pfcp/pfcp.cpp:854-886 | that timer sends nothing and is gone; after a message under its number it meets a missing message exactly if that was a request |
| PfcpRuns.CleanupEntryStays | src/pfcp/pfcp.cpp:606-637 | stopping the cleanup timer of a deleted procedure leaves its entry among the cleanup timers |
| PfcpRuns.AnswerErasesAnotherIff | src/pfcp/pfcp.cpp:622-630 | an answer removes another transaction's procedure exactly when that one holds its sequence number |
| PfcpRuns.LateAnswer | src/pfcp/pfcp.cpp:888-901 | a run in which that happens |
| PfcpRuns.VersionNotSupportedTwice | src/pfcp/pfcp.cpp:76-97 | version-not-supported is handed up each time |
| IttiTimers.InsertElements | src/itti/itti.hpp:67-71 | the set stays ordered, and takes a timer exactly when none has its deadline |
| IttiTimers.IttiMw.NewTimer | src/itti/itti.hpp:36-42 | a new id, due after the given interval |
| IttiTimers.IttiMw.InsertTimer | src/itti/itti.cpp:327-328 | in place, insertion into the ordered set |
| IttiTimers.IttiMw.TimerRemove | src/itti/itti.cpp:340-362 | clears the thread's timer or erases the one in the set; error if neither |
| IttiTimers.TakesEarliest | src/itti/itti.cpp:42-44 | the timer taken is due strictly before every timer left, and nothing is lost |
| IttiTimers.IttiMw.TakeNext | src/itti/itti.cpp:42-44 | the earliest timer moves from the set to the thread |
| IttiTimers.IttiMw.Reinsert | src/itti/itti.cpp:67-71 | the thread's timer, if still there, goes back |
| IttiRuns.StepIsSound | src/itti/itti.cpp:33-85 | every critical section and every unguarded read keeps all of EveryRunIsSound |
| IttiRuns.EveryRunIsSound | src/itti/itti.cpp:33-85 | in every interleaving, with spurious and lost wake-ups, a time-out is built at most once, not before its deadline, not after a removal; no timer vanishes otherwise than by time-out, removal or an equal deadline |
| IttiRuns.EarliestInHand | src/itti/itti.cpp:33-85 | in every interleaving, until the thread is done with the timer it took, no other that was in the set then and still is is due before it |
| IttiRuns.NeverEarly | src/itti/itti.cpp:318-330 | a time-out is built no earlier than the seconds and microseconds its set-up was given |
| IttiRuns.OneTurn | src/itti/itti.cpp:47-53 | a timer that is due is built in the same turn, one that is not is waited for until its deadline |
| IttiRuns.RemovedBeforeCheck | src/itti/itti.cpp:47-53 | a timer removed between take and check leaves the thread waiting for a wake-up |
| IttiRuns.NullTimeOut | src/itti/itti.cpp:340-362 | one removed after its deadline but before its time-out is built has one built under the id of no timer |
| IttiRuns.RemovedIsNeverSent | src/itti/itti.cpp:340-362 | once timer_remove succeeds on a timer not yet built, no later step builds it |
| IttiRuns.RemovalSucceedsIff | src/itti/itti.cpp:340-362 | exactly when timer_remove succeeds, and exactly when it does so too late |
| GtpuPacket.GtpuInner | src/upf_app/simpleswitch/gtpu_walk.hpp:39-62 | within bounds on every buffer, true exactly when a whole header is followed by a packet, which is then what it returns |
| GtpuPacket.HeaderLength | src/upf_app/simpleswitch/gtpu_walk.hpp:16-19 | a buffer has at most one header |
| GtpuPacket.OptionalOctets | src/upf_app/simpleswitch/gtpu_walk.hpp:43-60 | a header has four more octets exactly if E, S or PN is set, any of them alone included, and extension headers exactly if E is |
| GtpuPacket.EncodedChain | src/upf_app/simpleswitch/gtpu_walk.hpp:51-57 | every list of extension headers is read back from its encoding |
| GtpuPacket.DecodedChain | src/upf_app/simpleswitch/gtpu_walk.hpp:51-57 | every chain is the encoding of what is read from it |
| GtpuPacket.EncodedPacket | src/upf_app/simpleswitch/gtpu_walk.hpp:39-62 | whatever flags, fields and extension headers, the packet found is the packet that was put there |
| GtpuPacket.SendGPdu | src/gtpv1u/gtpv1u.cpp:140-197 | writes exactly the header in front of the payload, for both layouts; payload and all other bytes untouched |
| GtpuPacket.SentIsRead | src/gtpv1u/gtpv1u.cpp:140-197 | the walk over what is sent finds exactly the payload |
| GtpuPacket.SentFields | src/gtpv1u/gtpv1u.cpp:153-190 | version 1, PT set, E with the extension header only, S and PN clear; length counts what follows the first eight octets modulo 2^16; type and TEID in place; one PDU session container with the QFI |
| GtpuMessage.NewIeFromStream | src/gtpv1u/3gpp_29.281.cpp:12-51 | reads one element as LoadIe says, however short the stream |
| GtpuMessage.Gtpv1uMsg.SetSequenceNumber | src/gtpv1u/3gpp_29.281.hpp:262-269 | counts the optional fields once however often it is called |
| GtpuMessage.Gtpv1uMsg.AddIe | src/gtpv1u/3gpp_29.281.hpp:364-372 | keeps the length field the count of optional fields and elements |
| GtpuMessage.Gtpv1uMsg.DumpTo | src/gtpv1u/3gpp_29.281.hpp:400-405 | writes header and elements in order |
| GtpuMessage.Gtpv1uMsg.LoadFrom | src/gtpv1u/3gpp_29.281.hpp:406-433 | the reader's loop ends on every stream with the outcome Load says |
| GtpuMessage.IeRoundTrip | src/gtpv1u/3gpp_29.281.hpp:585-680 | an element with a length is read back, and reading stops right behind it |
| GtpuMessage.HeaderRoundTrip | src/gtpv1u/3gpp_29.281.hpp:273-327 | the header is read back, spare bit aside |
| GtpuMessage.HeaderOctets | src/gtpv1u/3gpp_29.281.hpp:273-300 | each header field is at its place on the wire, in network order |
| GtpuMessage.IeOctets | src/gtpv1u/3gpp_29.281.hpp:585-680 | so is each element, its length field counting the octets that follow |
| GtpuMessage.HasLengthIff | src/gtpv1u/3gpp_29.281.hpp:49 | a type is followed by a length exactly if its top bit is set |
| GtpuMessage.BadPeerAddress | src/gtpv1u/3gpp_29.281.cpp:12-51 | a peer address of a length other than 0, 4 and 16 is an error |
| GtpuMessage.ReceivedIff | src/gtpv1u/3gpp_29.281.cpp:12-51 | a list arrives unchanged exactly when it holds private extensions and IPv4 peer addresses only |
| GtpuMessage.RoundTrip | src/gtpv1u/3gpp_29.281.hpp:400-433 | load_from undoes dump_to exactly for such lists, and stops right behind the last element |
| GtpuMessage.ReadsOn | src/gtpv1u/3gpp_29.281.hpp:417-432 | a message without elements followed by an element is rejected |
| GtpuMessage.ReadsOnIff | src/gtpv1u/3gpp_29.281.hpp:417-425 | without elements the rest of the stream is left alone exactly when there is none |
| GtpuMessage.LengthFieldExcess | src/gtpv1u/3gpp_29.281.hpp:364-372 | by how much the length field differs from the octets that follow the first eight |
| FramedRouteText.FramedIPToUeIP | src/upf_app/framed_routing/FramedRouting.hpp:34-48 | the loop computes what Scan says, errors included |
| FramedRouteText.FrameSubnetToUInt | src/upf_app/framed_routing/FramedRouting.hpp:50-59 | reads the reversed length text, 32 if it is longer than two characters |
| FramedRouteReading.StoiReads | src/upf_app/framed_routing/FramedRouting.hpp:41 | a number is read behind blanks and one sign, up to the first other character, if it fits into 32 bits |
| FramedRouteReading.StoiThrows | src/upf_app/framed_routing/FramedRouting.hpp:41 | without a digit there it throws |
| FramedRouteReading.ShiftedBits | src/upf_app/framed_routing/FramedRouting.hpp:41 | a number is or-ed in bit by bit at its shift, and cut off at 32 bits |
| FramedRouteText.ReversedLengthText | src/upf_app/framed_routing/FramedRouting.cpp:85-88 | searching the reversed text backwards finds what follows the first slash |
| FramedRouteText.ExtractIPCidr | src/upf_app/framed_routing/FramedRouting.cpp:74-90 | address and length of one network, or the error |
| FramedRouteReading.LinesAre | src/upf_app/framed_routing/FramedRouting.cpp:18-23 | the text is cut at every blank, empty pieces included, but for a last one |
| FramedRouteReading.PrintedLength | src/upf_app/framed_routing/FramedRouting.cpp:74-98 | lengths 1 to 32 are read as they are, those of three digits as 32, any other makes the shift undefined |
| FramedRouteText.QuadRoundTrip | src/upf_app/framed_routing/FramedRouting.hpp:34-48 | every address, printed, is read back |
| FramedRouteText.TextRoundTrip | src/upf_app/framed_routing/FramedRouting.cpp:18-23 | every list of networks, printed, is read back exactly, a missing length as 32 |
| FramedRouting.KeyIs | src/upf_app/framed_routing/FramedRouting.cpp:92-98 | shift and mask give the network's first address and its size |
| FramedRouting.KeyEqual | src/upf_app/framed_routing/FramedRouting.cpp:92-98 | a probe key equals a prefix's key exactly when the lengths agree and the prefix contains the address |
| FramedRouting.ProbeIsLinearScan | src/upf_app/framed_routing/FramedRouting.cpp:33-45 | the hash probe finds what a linear scan of the prefixes finds |
| FramedRouting.LinearScanIsLongest | src/upf_app/framed_routing/FramedRouting.cpp:33-45 | that is the longest containing prefix, the first added among equals |
| FramedRouting.RemovalIsWithout | src/upf_app/framed_routing/FramedRouting.cpp:63-72 | erasing every key of an address deletes exactly the prefixes that contain it |
| FramedRouting.FramedRouting.AddFramedRoute | src/upf_app/framed_routing/FramedRouting.cpp:18-31 | adds the networks of the text up to the first that cannot be read |
| FramedRouting.PrefixesStop | src/upf_app/framed_routing/FramedRouting.cpp:18-31 | these are the networks of the lines, in order, before the first that cannot be read |
| FramedRouting.FramedRouting.RetrieveUEIp | src/upf_app/framed_routing/FramedRouting.cpp:33-45 | the UE of the longest added prefix containing the destination, or 0 |
| FramedRouting.FramedRouting.RemoveEntry | src/upf_app/framed_routing/FramedRouting.cpp:63-72 | exactly the prefixes containing the address are gone |
| TxBatch.UdpServer.BeginTxBatch | src/udp/udp.cpp:56-65 | loses nothing exactly when the batch was empty; the batch goes out on the socket of the queue number, counted round |
| TxBatch.UdpServer.FlushTxBatch | src/udp/udp.cpp:70-79 | hands the queued datagrams over, once, on the socket of the thread, and empties the batch |
| TxBatch.UdpServer.QueueTx | src/udp/udp.hpp:224-247 | what was handed over and what is queued is what was submitted, in order, once each; the index stays below 64 |
| TxBatch.UdpServer.FillSlot | src/udp/udp.hpp:227-245 | a reused slot shows its new address, length and ToS only, and no other slot changes |
| CpuSpread.ControlCpu | src/udp/udp.cpp:328-353 | the lowest slow core if there is one, else the lowest core |
| CpuSpread.SlowIff | src/udp/udp.cpp:325-346 | a core is slow if it is known to run below 85 percent of the fastest |
| CpuSpread.OneControl | src/udp/udp.cpp:344-352 | the choice is unique |
| CpuSpread.Pool | src/udp/udp.cpp:371-380 | every allowed CPU but the control plane's, in order |
| CpuSpread.OnePool | src/udp/udp.cpp:371-380 | a host has one such list, so the answers do not depend on who asks |
| CpuSpread.DatapathPool.DatapathCpus | src/udp/udp.cpp:356-396 | the pool over and over, empty if there is no CPU to spare; the pool is taken by the first call that finds one and stays |
| CpuSpread.EveryAnswerIsPrefix | src/udp/udp.cpp:370-383 | of any two calls of a process the one that asks for no more CPUs gets a prefix of the answer to the other, whatever comes between, unless that one alone was answered before there was a pool, which an unchanged mask rules out |
| CpuSpread.ControlIsSpared | src/udp/udp.cpp:377-379 | no answer names the control-plane CPU of the host the pool was taken from |
| CpuSpread.SpreadIsEven | src/udp/udp.cpp:382-383 | any two pool CPUs are used equally often but one |
| CpuSpread.StartReceive | src/udp/udp.cpp:399-442 | between 1 and 16 readers, never fewer than sockets, even after a failed clone |
| CpuSpread.EverySocketIsRead | src/udp/udp.cpp:436-441 | every socket has a reader, and loads differ by at most one |

## Left out

- Sockets, BPF system calls, thread creation, logging, ARP, NRF registration, HTTP and configuration: maps, logs, parameters or events stand for them.
- BPF map updates that fail and a missing XDP program.
- The Ethernet PDU mapping map, which RemoveSession does not clear, and the URR, BAR and MAR configuration maps.
- Removal of MARs in a modification: RemoveMar takes a mutex its caller holds.
- The Add and Update entry points for single rules (AddPdr, UpdateFar and the like), which differ from the modelled steps by the public lock; UpdateQer and AddQer leave the derived lists unsorted until the next RemovePdr or UpdateSession.
- SdfFilterParser: a filter's text is data, and so is whether it parses.
- Fields of PFCP rules that are only copied are one number per rule; conversion to the BPF structures is not modelled.
- SessionManager.SessionManager.ModifySession: asks that no rule object stands twice in one list of the session passed, as none does in a session the switch builds.
- What the switch itself does to its session between the calls of one request, and the creation of rules: the sessions passed are arbitrary.
- RemoveAllSessions of SessionProgramManager, which clears tracking and caches at shutdown, apart from the QER programs.
- SessionManager.ModifiedAgrees: speaks of distinct non-zero PDR ids, which the index needs to tell PDRs apart; so does SessionManager.SessionManager.EveryRunAgreesAt.
- PfcpRuns.EveryRunIsSound: transaction and timer ids are drawn fresh; the generator is not modelled.
- PfcpRuns.EveryPunctualRun: assumes timers fire when due, a drawn sequence number is not pending, and a deleting answer does not meet a procedure whose retry timer is set; PfcpRuns.RetryCrashesIff and PfcpRuns.StrayIff say what happens otherwise.
- EnforcementPrograms.EnforcementPrograms.RemoveAllSessions: stated with no call under way; with one it is a row of removals, of which EnforcementPrograms.ComesBackIff speaks.
- The encoding of PFCP messages and the remote endpoint of a procedure: a message is its type and its sequence number.
- IttiRuns.EveryRunIsSound: fewer than 2^32 timers are set up, the clock does not go back, and drawing an id and each unguarded read of the shared timer is one step; that a timer fires at all is not claimed.
- The queues and tasks the time-out message is sent to, and the end of the timer thread.
- GtpuPacket.SendGPdu: the IPv4 overload only; the IPv6 one sends four octets between header and payload that it neither sets nor counts.
- GtpuMessage.RoundTrip: needs a total length below 2^16; octets that do not arrive read as 0, where the source leaves a value unset.
- FramedRouting.FramedRouting.RemoveEntry: the kernel route deletion, which reads the map entry after erasing it, and the addition of routes and source NAT are not modelled; nor is the lookup by framed-route text.
- FramedRouteText.FramedIPToUeIP: a negative number, or one that its shift carries past 32 bits, such as 256 in the first place, wraps around in the model; C++ before C++20 leaves that shift undefined.
- TxBatch.UdpServer.FlushTxBatch: what the kernel does with a batch it sends only in part is not modelled.
- CpuSpread.DatapathPool.DatapathCpus: mask and core speeds do not change within one call; a mask that cannot be read is an empty one.
