# A verified model of the PVmapper name server

PVmapper answers Channel Access name searches. Clients ask for process variables (PVs) by UDP;
what it does not know it searches for on the IOC networks with a backoff, caches the IOCs'
replies, and watches every IOC it has cached a PV of over a TCP heartbeat, so that a cached reply
is given out only while its IOC is reachable. This project models that logic in Dafny and proves
what the parts promise, and what they promise together.

Two layers run through the project. The *objects* (`Searcher`, `IocGuard`, `Dispatcher`, and the
codec's array methods) have the source's fields, loops and in-place updates. Each of their methods
is proved against a *value* (`Wheel`, `Guard`, `System`, a list of frames). The laws are lemmas
about those values, mostly about whole runs of them.

| file | what it holds |
|---|---|
| `Prelude` | bytes, machine words, addresses, time |
| `Framing` | the frames of a buffer: the walk that all five buffer loops make |
| `ChannelAccess`, `CodecLaws` | the codec's loops; round trips, packing, patching, replies |
| `Rebalance` | how purged bins are filled again |
| `SearchWheel`, `Searcher` | the timing wheel as a value; the searcher object |
| `ChannelIds` | the renumbering allocator of channel ids |
| `Modular`, `Schedule`, `SearchRuns` | the wheel refines a map from PV to due tick; laws of whole runs |
| `LostReplies` | the replies that the lookup never accepts |
| `Heartbeat`, `IocGuard` | the guard as a timed state machine; the guard object |
| `NameServer`, `Asked`, `CacheLaws` | the server as one value; invariants; lazy invalidation is eager deletion |
| `Lockstep` | how far the searchers can drift apart |
| `AccessControl` | access rules and field stripping |
| `ServerLaws`, `Attribution` | searcher and guard runs inside the server; where cached replies come from |
| `Traces` | what a run sends to clients and to IOCs |
| `Reactor`, `Dispatcher` | one turn of the main loop; the dispatcher object |
| `History`, `Detection`, `Promptness` | the whole life of a server: what clients are told; how soon a silent IOC is given up; how soon a request is sent and a reply served |
| `Intake` | which events the received datagrams amount to; from an IOC's datagram to later requests |
| `Clockwork` | what the clock decides: ticks, purges, how long a name is searched for |
| `FailingInputs` | inputs on which the server does not do what it is meant to do |

## What came out

- **The reply lookup misses a bin.** The probe index `(m_currentBin+i-1) % size` wraps in 64-bit
  unsigned arithmetic when the wheel stands at bin 0. It reaches every bin exactly when the wheel
  is off bin 0 or the bin count divides 2^64; otherwise the last bin is never looked at. The default
  configuration has 3000 bins and is affected (`Schedule.ProbeIsPermutation`,
  `Schedule.DefaultHidesLastBin`). A PV that has settled in the last bin is asked for at every turn
  of the wheel, and every reply that comes before the next tick is ignored
  (`LostReplies.LastBinIsDeaf`); `LostReplies.AnswerIsLost` gives a run from a new searcher. All
  later laws carry this exception explicitly: a reply under a searched PV's own id is accepted if and
  only if the PV is not in the hidden bin (`SearchRuns.AcceptedExactly`).
- **The rate limit acts once.** The comment in `processOutgoing` promises at most ten rounds a
  second, but the reference time is never renewed: after the first 99 ms every call is a tick
  (`Searchers.Searcher.RateLimitIsOnce`), two of them at one instant included
  (`FailingInputs.TwoSearchesAtOnce`). Time in the schedule laws is therefore counted in ticks.
- **An interval is realised modulo the wheel**, exactly when it is between 1 and the bin count
  (`Schedule.GapFormula`); configured intervals that never exceed the last one are safe
  (`SearchRuns.ConfiguredFits`).
- **A name survives the codec exactly when it does not end in NUL** (`CodecLaws.PacketRoundTripExact`).
- **A VERSION message with a payload spoils the reply behind it.** The extracted reply keeps the
  header but not the payload, so the client cannot parse it. The final reply decodes if and only if
  the header announces no payload (`CodecLaws.FinalReplyExact`); `FailingInputs.AnswerCanBeSpoiled`
  gives such a datagram. The laws about clients hold all the same, for each reply by itself: an answer
  decodes rightly or to nothing (`History.EveryAnswerIsEarned`).
- **The rebalancer may overload the last bin**; the surplus has a closed form, and is nothing for
  at most one PV to a bin or more than eight (`Rebalance.RebalanceBound`, `Rebalance.NoLeftover`).
- **A guard that cannot be created costs one search.** The searcher that got the reply has already
  dropped the PV, the others still search for it (`CacheLaws.FailureLosesOne`, with an input in
  `FailingInputs.GuardCanFail`). So an event leaves the searchers in step exactly if no creation fails
  in it or there is only one searcher (`CacheLaws.InStepExactly`). After any run the searchers differ
  at most in the names lost so and neither asked for nor found since (`Lockstep.RunDrift`); the next
  client that asks for a lost name heals it, whatever has happened in between (`Lockstep.FailureHeals`).

## Model

| member | source | states |
|---|---|---|
| `Framing.OffsetWalk` | src/proto_ca.cpp:128-140 | the walk by offsets, as every buffer loop makes it, visits the frames of the buffer |
| `Framing.FramesPartitionBuffer` | src/proto_ca.cpp:81-89 | the frames and fewer than 16 residual bytes are the buffer, for every byte string |
| `Framing.FramesOfConcat` | src/proto_ca.cpp:128-140 | frames as long as their headers say are found again in their concatenation |
| `Framing.HeaderFields` | src/proto_ca.cpp:39-59 | each header field reads back what was written into it |
| `ChannelAccess.CopyStr` | src/proto_ca.cpp:118-126 | the loop returns the longest prefix that does not end in NUL |
| `ChannelAccess.ParseSearchRequest` | src/proto_ca.cpp:113-143 | returns the id and name of every complete search frame, in order |
| `ChannelAccess.ParseSearchResponse` | src/proto_ca.cpp:145-177 | returns every complete reply frame with the latest VERSION header before it |
| `ChannelAccess.ParseIocAddr` | src/proto_ca.cpp:179-197 | returns the port of the first reply frame, or the failure value if there is none |
| `ChannelAccess.WriteId` | src/proto_ca.cpp:82-87 | writes the id into the header in place if it is a search header, and nothing else |
| `ChannelAccess.WriteAddr` | src/proto_ca.cpp:100-106 | writes port and address into the header in place if it is a search header, and nothing else |
| `ChannelAccess.UpdateReplyId` | src/proto_ca.cpp:76-92 | the buffer ends up with every search frame's id replaced; true iff there was one |
| `ChannelAccess.UpdateReplyAddr` | src/proto_ca.cpp:94-111 | the buffer ends up with every search frame's address replaced; true iff there was one |
| `ChannelAccess.CreateSearchRequest` | src/proto_ca.cpp:36-74 | packs a prefix of the list: each frame but the last leaves at most 1000 bytes, and all of the list or more than 1000 bytes are used |
| `CodecLaws.PacketLayout` | src/proto_ca.cpp:36-74 | a packet is one empty VERSION message, then exactly one aligned, NUL-terminated search message for each request, and nothing behind |
| `CodecLaws.PacketRoundTrip` | src/proto_ca.cpp:36-74 | parsing a packet gives the packed requests back, names without trailing NULs |
| `CodecLaws.PacketRoundTripExact` | src/proto_ca.cpp:113-143 | the round trip is the identity if and only if no name ends in NUL |
| `CodecLaws.PackingBounds` | src/proto_ca.cpp:47-71 | a packet takes between 1 and 42 requests and is at most 1016 bytes plus its last padded name |
| `CodecLaws.SendRequests` | src/searcher.cpp:185-198 | the send loop ends, and its packets decode in order to the whole list of the tick |
| `CodecLaws.EditedFields` | src/proto_ca.cpp:84-87 | an edit changes only its own fields of a search header |
| `CodecLaws.PatchKeepsFraming` | src/proto_ca.cpp:76-111 | patching keeps framing and residue and edits each frame by itself |
| `CodecLaws.PatchesCommute` | src/proto_ca.cpp:76-111 | the two overloads can be applied in either order, on every buffer |
| `CodecLaws.RepliesAreExtracted` | src/proto_ca.cpp:156-170 | every extracted reply is a 24-byte reply frame, or one behind a VERSION header |
| `CodecLaws.RepliesAreCanonical` | src/proto_ca.cpp:156-170 | if VERSION messages carry no payload, no extracted reply announces one |
| `CodecLaws.ReplyRoundTrip` | src/proto_ca.cpp:145-177 | an extracted reply parses to itself alone iff its VERSION header announces no payload, and to nothing otherwise |
| `CodecLaws.PortOfFirstReply` | src/proto_ca.cpp:179-197 | the address extractor succeeds iff the reply parser finds a reply, and then gives the first one's port |
| `CodecLaws.PatchedReply` | src/searcher.cpp:124-127 | a patched reply is again a reply, under the new id and with the new address |
| `CodecLaws.PatchesAnswer` | src/listener.cpp:67-70 | the searcher's and the listener's patches together make a reply that answers the client for the IOC |
| `CodecLaws.AnswerDecodes` | src/listener.cpp:67-70 | the client's own parser gets exactly one reply, to its id, with the IOC's port |
| `CodecLaws.FinalReplyExact` | src/listener.cpp:67-70 | what reaches the client decodes iff the VERSION header in front announces no payload |
| `CodecLaws.FinalAnswer` | src/listener.cpp:67-70 | whatever an IOC has sent, a client's parser gets from a cached reply exactly one reply, to its id and for that IOC, or, if the VERSION header announced a payload, nothing |
| `FailingInputs.AnswerCanBeSpoiled` | src/proto_ca.cpp:156-170 | the failing input: a datagram whose VERSION message has 8 bytes of payload; the next client is sent a packet that holds no reply for its parser |
| `Rebalance.DealConserves` | src/searcher.cpp:226-238 | dealing keeps every PV once and in order |
| `Rebalance.BalancedConserves` | src/searcher.cpp:224-244 | the refilled bins in order are the list of survivors |
| `Rebalance.DealLeftoverSkipping` | src/searcher.cpp:228-236 | the number of undealt PVs when bins are skipped, in closed form |
| `Rebalance.DealLeftoverFull` | src/searcher.cpp:224-238 | with ten or more PVs to a bin nothing is left undealt |
| `Rebalance.RebalanceBound` | src/searcher.cpp:224-244 | every bin but the last gets at most max(10, p) PVs; the exact surplus of the last |
| `Rebalance.NoLeftover` | src/searcher.cpp:240-244 | no surplus for at most one PV to a bin or more than eight |
| `Rebalance.FullContents` | src/searcher.cpp:224-238 | with p >= 10 PVs to a bin, bin b holds exactly the survivors from position b*p to before (b+1)*p |
| `Rebalance.SkippingContents` | src/searcher.cpp:224-244 | with 1 <= p < 10, each bin q*(10-p) holds the q-th ten of the survivors, the bins between are empty, and the undealt rest stands at the end of the last bin |
| `Rebalance.SurvivorBin` | src/searcher.cpp:224-244 | the survivor at position x goes to bin x/p if p >= 10, and otherwise to bin x/10*(10-p) if there is one and to the last bin if not |
| `Searchers.Searcher.constructor` | src/searcher.cpp:40-54 | a new searcher has the configured steps times ten behind 1 and 2, as many empty bins as the last step, and starts its clock |
| `Searchers.Searcher.IndexIn` | src/searcher.cpp:134-135 | the walk through a bin stops at the first PV that matches, or at the end if none does |
| `Searchers.Searcher.AddPV` | src/searcher.cpp:71-92 | a searched name is only touched; a new one goes to the front of the current bin with the next id |
| `Searchers.Searcher.RemovePV` | src/searcher.cpp:94-104 | the first entry of that name is erased, all else stays |
| `Searchers.Searcher.ResolveReply` | src/searcher.cpp:129-147 | the first entry with that id in probe order is erased and its name returned |
| `Searchers.Searcher.MoveSent` | src/searcher.cpp:174-181 | splicing during iteration places the PV, also into the very bin that is iterated, and goes on with the next one |
| `Searchers.Searcher.SweepBin` | src/searcher.cpp:164-183 | one tick: every PV of the bin is collected once and placed once, and the wheel turns |
| `Searchers.Searcher.ProcessOutgoing` | src/searcher.cpp:153-199 | a call past the limit makes one tick, and its packets decode to exactly that tick's requests; an earlier call does nothing |
| `Searchers.Searcher.RateLimitIsOnce` | src/searcher.cpp:155-160 | the limit is over 99 ms after construction and never comes back |
| `FailingInputs.TwoSearchesAtOnce` | src/searcher.cpp:155-160 | the failing input: two calls at one instant, 99 ms after construction or later, send two requests for the same name |
| `Searchers.Searcher.PurgeBin` | src/searcher.cpp:205-216 | erasing during iteration leaves exactly the recently requested PVs, in order, and counts the others |
| `Searchers.Searcher.Deal` | src/searcher.cpp:224-244 | the splicing loop with its skips fills the bins as `Rebalance.Balanced` says, whose contents `Rebalance.FullContents` and `Rebalance.SkippingContents` give |
| `Searchers.Searcher.PurgePVs` | src/searcher.cpp:201-249 | survivors of all bins are dealt out again, the wheel goes to bin 0; purged and remaining are counted |
| `Searchers.Searcher.GetNextChanId` | src/searcher.cpp:57-69 | the allocator, with its renumbering loops, computes `ChannelIds.NextChanId` |
| `ChannelIds.RenumberedFlat` | src/searcher.cpp:60-66 | renumbering numbers all PVs through, bin after bin |
| `ChannelIds.ChanIdsStayDistinct` | src/searcher.cpp:57-69 | with fewer than INT32_MAX PVs every call gives an id that no PV holds, and ids stay distinct and below the limit, also across a renumbering |
| `ChannelIds.NextChanIdExactly` | src/searcher.cpp:57-69 | short of INT32_MAX the counter goes up by one and nothing else changes; at it all PVs are numbered from 0 in bin order and the next number is given |
| `Schedule.AddRefines` | src/searcher.cpp:71-92 | adding a PV to the wheel is adding it to the map, due now, unless it is there |
| `Schedule.RemoveRefines` | src/searcher.cpp:94-104 | removing a PV is removing it from the map |
| `Schedule.ResolveRefines` | src/searcher.cpp:129-147 | an accepted reply takes the PV with its id; a rejected one changes nothing, and the id's PV, if any, is in the hidden bin |
| `SearchRuns.AcceptedExactly` | src/searcher.cpp:129-147 | a reply under the id that a searched PV owns is accepted for it if and only if the PV is not in the hidden bin |
| `Schedule.ProbeIndexIs` | src/searcher.cpp:133 | the index in unsigned arithmetic is the intended one but for the first probe at bin 0 |
| `Schedule.ProbeCoverage` | src/searcher.cpp:130-133 | a bin is probed if and only if it is not the hidden one |
| `Schedule.ProbeIsPermutation` | src/searcher.cpp:130-133 | all bins are probed iff the wheel is off bin 0 or the count divides 2^64, and then each once, in the intended order |
| `Schedule.DefaultHidesLastBin` | src/searcher.cpp:133 | with the default intervals the last of 3000 bins is not probed at bin 0 |
| `Schedule.GapFormula` | src/searcher.cpp:174-178 | an interval is realised modulo the bin count, and exactly iff it is within 1..count |
| `Schedule.TickRefines` | src/searcher.cpp:164-183 | a tick sends exactly the PVs due now, each once, and gives each its next due tick |
| `Schedule.DueWithinTurn` | src/searcher.cpp:164-183 | every searched PV is due within one turn |
| `Schedule.PurgeRefines` | src/searcher.cpp:201-249 | a purge keeps exactly the recently requested PVs, each with everything but its due tick |
| `Schedule.SurvivorDue` | src/searcher.cpp:201-249 | after a purge each survivor is due at the distance of the bin that its position among the survivors gives |
| `SearchWheel.PurgeConserves` | src/searcher.cpp:201-249 | a purge keeps every recently requested PV as often and in the order it was there and drops all others; the returned counts add up to the old total |
| `SearchRuns.FreshRefines` | src/searcher.cpp:40-54 | a new searcher starts from the empty map |
| `SearchRuns.FreshExactly` | src/searcher.cpp:40-52 | a new searcher has the steps 1, 2 and ten times each configured interval in 32 bits, as many empty bins as the last step, and starts at bin 0 with id 0 |
| `SearchRuns.RunRefines` | src/searcher.cpp:71-249 | over every run the wheel behaves as the due-tick map: same events, same outputs |
| `SearchRuns.SendTimes` | src/searcher.cpp:164-183 | over every run without a purge a PV that stays is sent at exactly the ticks its remaining steps give |
| `SearchRuns.SendGaps` | src/searcher.cpp:44-52 | a new PV is sent at once, then after exactly the configured steps in turn, then after the last one for ever |
| `SearchRuns.ConfiguredFits` | src/searcher.cpp:40-52 | configured intervals of at least 1 and at most the last one give exact steps 1, 2 and ten times each |
| `SearchRuns.FairAcrossPurges` | src/searcher.cpp:164-249 | with purges at least a turn apart, a PV that stays never waits two turns, over any number of purges |
| `SearchRuns.FairWithoutPurge` | src/searcher.cpp:164-183 | without a purge it never waits longer than one turn |
| `SearchRuns.SentSoonAfterPurge` | src/searcher.cpp:224-246 | after a purge every survivor is sent within one turn |
| `SearchRuns.RepliesAreAttributed` | src/searcher.cpp:84-148 | with fewer than 2^32 additions, all requests of a run carry their name's own id, and an accepted reply resolves the PV that was sent with that id |
| `SearchRuns.AcceptedIsRetired` | src/searcher.cpp:135-138 | an accepted reply retires its id |
| `SearchRuns.LateRepliesAreIgnored` | src/searcher.cpp:123-148 | after any further run a reply to a retired id finds nothing and changes nothing |
| `SearchRuns.SuffixesKept` | src/searcher.cpp:174-178 | each event keeps what is left of every PV's backoff a non-empty suffix of the searcher's list |
| `SearchRuns.RemainingIsSuffix` | src/searcher.cpp:174-178 | after every run of a new searcher what is left of any PV's backoff is a non-empty suffix of the configured list |
| `LostReplies.HiddenIsDeaf` | src/searcher.cpp:129-147 | while the wheel stands, no reply for a PV in the hidden bin is accepted, whatever else happens |
| `LostReplies.LastBinIsDeaf` | src/searcher.cpp:129-183 | a PV on its last interval in the last bin is sent, and every reply before the next tick is ignored, for any bin count that does not divide 2^64 |
| `LostReplies.AnswerIsLost` | src/searcher.cpp:129-147 | the failing input: with one interval of 1 s, a name added at tick 6 is sent at tick 9 and the reply to that is ignored |
| `IocGuards.IocGuard.constructor` | src/iocguard.cpp:9-42 | a new guard is alive, not yet connected, and has sent nothing |
| `IocGuards.IocGuard.ProcessIncoming` | src/iocguard.cpp:51-71 | data counts as an answer, anything else closes the guard and fires the callback |
| `IocGuards.IocGuard.CheckConnection` | src/iocguard.cpp:84-110 | a pending connect succeeds when writable and is given up after five full seconds |
| `IocGuards.IocGuard.SendHeartBeat` | src/iocguard.cpp:112-130 | a request is sent if the last one was answered; otherwise, or if sending fails, the guard closes |
| `IocGuards.IocGuard.ProcessOutgoing` | src/iocguard.cpp:73-82 | a connected guard beats after ten full seconds |
| `Heartbeat.DropsOnce` | src/iocguard.cpp:51-130 | over every run the callback fires once if the guard dies in it and never otherwise; a dead guard stays as it is |
| `Heartbeat.VersionUntilHeard` | src/iocguard.cpp:112-119 | a heartbeat carries VERSION if and only if nothing has been heard from the IOC before |
| `Heartbeat.BeatNeedsAnswer` | src/iocguard.cpp:112-130 | after an unanswered request no other is sent before an answer |
| `Heartbeat.HeartbeatSpacing` | src/iocguard.cpp:73-130 | two requests are at least 11 s apart and have an answer between them |
| `Heartbeat.KeptIffResponsive` | src/iocguard.cpp:51-130 | from any state a guard survives a run if and only if each step finds the IOC and the network doing what is asked of them |
| `Heartbeat.KeptIffWell` | src/iocguard.cpp:51-130 | a new guard survives a run if and only if, on what is seen from outside, only data came in, the connect came up within 6 s, and at every poll 11 s or more after the last heartbeat that one had been answered later than it was sent and the next could be sent |
| `Heartbeat.SilentIocIsDropped` | src/iocguard.cpp:73-130 | polled at least every d, a silent IOC is dropped within 22 s + 2d of its last message |
| `Heartbeat.DeadConnectIsDropped` | src/iocguard.cpp:84-102 | a connect that never becomes writable is given up within 6 s + d |
| `Heartbeat.SilentGuardDies` | src/iocguard.cpp:73-130 | in whatever state, a guard that hears nothing is dead after 22 s + d, or 28 s + 2d if it was still connecting |
| `CacheLaws.GuardForKeeps` | src/dispatcher.cpp:39-54 | reusing or making a guard keeps at most one live guard to an address |
| `CacheLaws.PvFoundKeeps` | src/dispatcher.cpp:37-63 | a found PV is cached with a live guard at its address and leaves all searchers; without a guard nothing changes |
| `CacheLaws.PvSearchedKeeps` | src/dispatcher.cpp:65-90 | a live entry is answered unchanged; after a miss the name is in every searcher with the time of the request |
| `CacheLaws.ReplyKeeps` | src/searcher.cpp:129-147 | a reply moves one name from being searched to being cached live; if no guard can be had, it changes the one searcher only |
| `CacheLaws.ReplyMakesGuard` | src/iocguard.cpp:9-42 | a reply from an address without a guard makes one, under the next handle, whose connect clock starts at that reply's time; no other guard changes |
| `CacheLaws.PurgeKeeps` | src/dispatcher.cpp:130-134 | a purge leaves each searcher exactly the names asked for within the delay, with their request times, and keeps the invariant |
| `CacheLaws.GuardStepKeeps` | src/dispatcher.cpp:29-35 | a dying guard removes its own table entry and no other |
| `CacheLaws.RunKeepsInv` | src/dispatcher.cpp:29-90 | in every reachable state table and live guards are in bijection, names cached live are searched nowhere, names are unique in each searcher, and no connection is listed twice |
| `CacheLaws.LiveGuardIsUnique` | src/dispatcher.cpp:39-54 | there is at most one live guard to an address |
| `CacheLaws.MissIsSearchedEverywhere` | src/dispatcher.cpp:65-90 | after a miss every searcher is asked for the name |
| `CacheLaws.RunKeepsInStep` | src/dispatcher.cpp:56-58 | while no guard creation fails all searchers hold the same names with the same request times |
| `CacheLaws.InStepExactly` | src/dispatcher.cpp:45-58 | searchers in step stay so through an event if and only if no guard creation fails in it or there is no other searcher |
| `CacheLaws.RunInStepExactly` | src/dispatcher.cpp:37-90 | several searchers stay in step throughout a run if and only if no guard creation fails in it |
| `CacheLaws.FailureLosesOne` | src/dispatcher.cpp:45-52 | a failed creation takes the name out of the searcher that got the reply and changes nothing else |
| `Lockstep.StepActs` | src/dispatcher.cpp:56-90 | every event does the same to what all searchers ask for, but a failed guard creation touches one only |
| `Lockstep.RunDrift` | src/dispatcher.cpp:37-90 | after any run at all the searchers differ at most in the names lost by failed creations and neither asked for nor found since |
| `Lockstep.FailureHeals` | src/dispatcher.cpp:78-90 | after any run in which creations fail for one name only, the next request for it, hit or miss, has all searchers in step |
| `FailingInputs.GuardCanFail` | src/dispatcher.cpp:45-52 | the failing input: two searchers, one request and one reply without a guard; then the searchers are out of step |
| `CacheLaws.StepRefinesEager` | src/dispatcher.cpp:65-76 | each event changes the live part of the cache as eager deletion would, and answers as it would |
| `CacheLaws.RunRefinesEager` | src/dispatcher.cpp:29-90 | over every run lazy invalidation refines the cache that deletes all PVs of an IOC on its disconnect |
| `CacheLaws.NoRevival` | src/dispatcher.cpp:60-62 | a name that is not cached stays a miss until it is found again |
| `CacheLaws.DisconnectForgets` | src/dispatcher.cpp:29-76 | from the drop of a guard on, its PVs are misses until found again, also when the IOC reconnects |
| `AccessControl.StripField` | src/listener.cpp:59-64 | cuts the name before its first dot |
| `AccessControl.StripLastField` | src/listener.cpp:81-87 | cuts the name before its last dot, if it has one |
| `AccessControl.FirstMatch` | src/listener.cpp:89-103 | the least position of a matching rule, or none if no rule matches |
| `AccessControl.CheckAccessControl` | src/listener.cpp:79-122 | true iff for the PV rules, on the name cut at its last dot, and for the client rules, on the address, either no rule matches or the first that matches is an ALLOW |
| `AccessControl.RulesSeeTheRecord` | src/listener.cpp:59-66 | the rules see the record name that is searched for |
| `ServerLaws.SearchersRun` | src/dispatcher.cpp:56-90 | inside the server every searcher goes through a run of its own, so the laws of runs hold of it |
| `ServerLaws.GuardsRun` | src/dispatcher.cpp:29-63 | likewise for every guard |
| `ServerLaws.SilentIocIsForgotten` | src/dispatcher.cpp:65-76 | in a run whose events for a connected guard are polls at most d apart, a PV cached on it is a miss 22 s + d after its last message |
| `ServerLaws.DatagramIsReal` | src/searcher.cpp:117-127 | every reply of any datagram is delivered as extracted and patched; all answer for the sender if the VERSION messages carry no payload |
| `ServerLaws.RunKeepsAnswers` | src/dispatcher.cpp:60-62 | over every run of replies from datagrams each cached reply is an extracted one, patched with the address of the IOC its guard watches |
| `ServerLaws.ClientGetsLiveIoc` | src/listener.cpp:66-70 | a client is sent something exactly if the name is cached live; it decodes to one reply, to the client's id, naming the IOC of that name's own guard, which is up, if that IOC's reply came without a VERSION payload, and to nothing if not |
| `Attribution.CachedIsEarned` | src/searcher.cpp:123-148 | in a run from the start with fewer than 2^32 additions in each searcher, what is cached for a name is a reply that came under the channel id which the name owns in that searcher |
| `ServerLaws.StartIsSound` | src/dispatcher.cpp:5-27 | a new server satisfies all invariants |
| `Reactor.DispatchByIndex` | src/connmgr.cpp:39-45 | while callbacks append connections, slot i still names the connection polled at slot i |
| `Reactor.DispatchIsRun` | src/connmgr.cpp:38-45 | the inputs are taken one after the other, as one run of events |
| `Reactor.WantedExactly` | src/listener.cpp:56-66 | of the requests in a datagram exactly those whose record name the rules admit are served, once each and in order |
| `Reactor.SweepFilters` | src/connmgr.cpp:47-57 | erasing during iteration leaves the order-preserving filter of the live connections |
| `Reactor.ReactorIsConsistent` | src/connmgr.cpp:47-57 | after the sweep the guards in the list are exactly the values of the IOC table |
| `Reactor.TurnKeepsInv` | src/dispatcher.cpp:122-138 | every turn of the main loop is the run of its events and keeps the invariant; of the old connections exactly the live ones stay |
| `Dispatchers.Dispatcher.constructor` | src/dispatcher.cpp:5-27 | a new dispatcher is the value `NameServer.Start` with the given rules and delay, and every searcher's clock starts now |
| `Dispatchers.Dispatcher.IocDisconnected` | src/dispatcher.cpp:29-35 | only the table entry of that address goes |
| `Dispatchers.Dispatcher.CaPvFound` | src/dispatcher.cpp:37-63 | the object does what `NameServer.PvFound` says |
| `Dispatchers.Dispatcher.CaPvSearched` | src/dispatcher.cpp:65-90 | the object does and answers what `NameServer.PvSearched` says |
| `Dispatchers.Dispatcher.HandleReply` | src/searcher.cpp:123-147 | a reply is patched in place, looked up and announced, callback included |
| `Dispatchers.Dispatcher.ReceiveReplies` | src/searcher.cpp:117-148 | a datagram from an IOC amounts to one event for each reply, all under the first reply's port |
| `Dispatchers.Dispatcher.ReceiveRequests` | src/listener.cpp:56-73 | a datagram from a client amounts to a search for each allowed record name; the packets sent back are exactly the patched cached replies |
| `Dispatchers.Dispatcher.GuardIncoming` | src/iocguard.cpp:51-71 | a guard that closes takes its table entry along |
| `Dispatchers.Dispatcher.GuardOutgoing` | src/iocguard.cpp:73-130 | likewise on the sending side |
| `Dispatchers.Dispatcher.Dispatch` | src/connmgr.cpp:38-45 | the loop by index over a growing list gives each polled connection its own input, and sends the answers in order; which events those are is in `Intake.RepliesArrive`, `Intake.RequestsArrive` and `Intake.GuardsHear` |
| `Dispatchers.Dispatcher.PollOne` | src/connmgr.cpp:50 | polling one connection is its events: a searcher ticks iff it was built 99 ms ago or earlier, and its packets decode to exactly the requests of the tick; a heartbeat is sent as its guard says |
| `Dispatchers.Dispatcher.Sweep` | src/connmgr.cpp:47-57 | the loop that erases while it iterates makes the run of the sweep, and returns the search packets and heartbeats of that run in order |
| `Dispatchers.Dispatcher.PurgeSearchers` | src/dispatcher.cpp:130-134 | all searchers are purged, nothing else changes |
| `Dispatchers.Dispatcher.RunOnce` | src/dispatcher.cpp:122-138 | one call is one turn: dispatch, sweep, and a purge iff now is `lastPurge` plus the delay plus one second or later, which then becomes `lastPurge`; each searcher ticks iff it was built 99 ms ago or earlier; it returns the answers to that turn's requests and the packets to IOCs, in order |
| `History.HistoryIsSound` | src/dispatcher.cpp:122-138 | after any number of turns from the start the invariant holds, the list matches the table, and every cached reply is an IOC's own, patched with the address its guard watches |
| `History.HistoryIsRun` | src/dispatcher.cpp:122-138 | the first k turns are one run of events, put together from the turns' own events |
| `History.AsksAreRequests` | src/listener.cpp:56-73 | the requests behind the events of a dispatch are exactly those that came in and are allowed |
| `History.RunAnswersInOrder` | src/listener.cpp:66-70 | over a run the packets go out in the order of the requests that they answer, one for each that has an answer |
| `History.TurnIsHonest` | src/listener.cpp:56-73 | a packet is sent in a turn if and only if it answers one of its requests, in the state that the turn's own run has reached at that request: under its id, with the reply cached for its name, whose IOC's guard is up; it decodes to that, or to nothing if that reply had a VERSION payload; one packet for each request that has an answer, in the order of the requests |
| `History.EveryAnswerIsEarned` | src/dispatcher.cpp:122-138 | over the whole life of a server, and whatever arrives, each packet sent to a client is such an answer, and with fewer than 2^32 additions its IOC has sent it under the requested name's own channel id |
| `Detection.TurnPollsEach` | src/connmgr.cpp:47-57 | a turn polls each guard listed after the dispatch exactly once, behind all that it received, and no other; all guards that are up then are listed |
| `Detection.TurnPollsOnce` | src/connmgr.cpp:47-57 | for a guard that was there before a turn and hears nothing in it, the turn is one poll if it is up and nothing if it is dead |
| `Detection.HistoryIsTimely` | src/iocguard.cpp:51-130 | with a clock that does not run backwards no time that a guard records ever lies in the future |
| `Detection.SilenceIsDetected` | src/dispatcher.cpp:65-138 | with turns at most d apart, a guard that hears nothing is dead, and its PVs are misses, 22 s + d later, or 28 s + 2d later if it was still connecting |
| `Promptness.RequestIsSent` | src/searcher.cpp:83-89 | a request that misses goes out in the packets of the very same turn, from every listed searcher that ticks and was not asked for the name before, unless a reply finds the name in that turn; `Clockwork.RequestLeaves` has this with the clock's condition |
| `Promptness.NewlyAskedIsSent` | src/searcher.cpp:83-89 | whatever a turn has newly put into a searcher and not found, it sends in its sweep if it ticks |
| `Promptness.TurnSends` | src/connmgr.cpp:47-57 | all that a turn sends to IOCs, in the order of the list: the requests of the current bin of each searcher that ticks, and each heartbeat that is due |
| `Promptness.ListedAtStart` | src/dispatcher.cpp:5-27 | a new server lists its listeners, in order, then its searchers, and nothing else |
| `Promptness.StaysListed` | src/connmgr.cpp:47-57 | every listener and every searcher stays in the connection list in all turns |
| `Promptness.OwnReplyIsServed` | src/searcher.cpp:129-147 | a reply under the id of a searched name, outside the hidden bin and with a guard to be had, is served to every later request until its IOC disconnects |
| `Intake.RepliesArrive` | src/searcher.cpp:111-149 | a searcher gets every reply of every datagram that it reads in a turn, once and in order, patched with the sender's address and the first reply's port, and no other reply |
| `Intake.GuardsHear` | src/connmgr.cpp:39-45 | what is read on a guard's socket in a turn is one event of that guard at the turn's time, and without input there is none |
| `Intake.RequestsArrive` | src/listener.cpp:56-73 | each admitted request of each datagram that listeners read is served once, in order, and no other |
| `Intake.RequestedExactly` | src/listener.cpp:56-73 | a request is served iff some client made it to some listener and the rules let its record name and its address through |
| `Intake.SearchesAreAsked` | src/listener.cpp:56-73 | a turn looks up a name only for a client's request, and each request is a lookup |
| `Intake.DeniedIsIgnored` | src/listener.cpp:79-122 | a name that the rules admit for no client of a turn is neither searched for nor answered in it |
| `Intake.ReplyIsServed` | src/searcher.cpp:123-148 | over any number of turns, an accepted reply with a guard to be had answers every later request for its name until its IOC disconnects |
| `Intake.DatagramIsServed` | src/searcher.cpp:111-148 | each reply of a datagram that a searcher reads is an event of that turn; if it is accepted and its IOC stays, every request after the last of the turns is answered with it |
| `Clockwork.PurgesApart` | src/dispatcher.cpp:122-138 | two purges are at least the delay plus one second apart |
| `Clockwork.PurgeSurvivors` | src/searcher.cpp:205-216 | a purge keeps a name in a searcher iff it was asked for less than the delay plus one second ago, with its request time |
| `Clockwork.UnaskedIsForgotten` | src/dispatcher.cpp:122-138 | a name that nobody asks for is out of every searcher after the first purge that comes the delay plus one second later, and so after any turn that comes twice that later |
| `Clockwork.RequestIsKept` | src/dispatcher.cpp:122-138 | a name that a searcher was asked for at some time or later stays with it through all turns in which no reply finds it, as long as the last purge came less than the delay plus one second after that time |
| `Clockwork.RequestLeaves` | src/searcher.cpp:153-199 | over the life of a server: a request that misses goes out in the very same turn from every searcher that was built 99 ms ago or earlier and was not asked for the name before, unless a reply finds the name in that turn |

## Left out

- Sockets: what `poll`, `recv` and `send` return is an input of a step; the failure paths of constructors are the inputs `created`, `sock` and the counts of opened sockets.
- Clocks: one reading for each step or turn, in nanoseconds; `duration_cast` truncates.
- The rate limit of the searcher is in `Searchers.Searcher.Ticks`; the run laws count ticks, not seconds.
- Configuration files and regular expressions: intervals and rules are inputs, a rule's pattern is any predicate.
- `DnsCache` and logging: they only write text.
- `inet_aton` and `inet_ntop`: an IPv4 address is its four bytes.
- The bytes of `createEchoRequest`: only whether a request was sent and whether it carries VERSION.
- `ConnectionsManager::remove`: it is never called. The global connection list is a field of the dispatcher object.
- The floating-point `ceil` of the rebalancer is integer ceiling division.
- Searchers.Searcher.AddPV: takes names of at most 65527 bytes, as do `Request` and `ShortName`, because the 16-bit payload length cannot hold longer ones; names come out of receive buffers of 4096 bytes.
- Dispatchers.Dispatcher.CaPvSearched: takes names of at most 65527 bytes, for the same reason.
- Searchers.Searcher.constructor: asks that the last configured one times ten is not 0 modulo 2^32, since without bins the source divides by zero.
- Callbacks are direct calls; `std::shared_ptr` identity is a guard's handle, the position at which it was created.
- Copies of a searcher's list nodes: bins are sequences in the object's field, so splices are shown by content and order, not by node identity.
- CacheLaws.RunKeepsInStep: assumes that no guard creation fails in the run, because a failed one leaves the name in all searchers but one; `CacheLaws.RunInStepExactly` shows that this is needed.
- SearchRuns.FairAcrossPurges: asks for purges a turn apart; the purge delay is configured in seconds and the source does not tie it to the wheel.
