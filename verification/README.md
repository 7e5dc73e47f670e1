# Verification of go-dispatch-proxy

A Dafny model of the three stateful parts of the repository, with proofs:

* **The dispatch engine** (`dispatcher/dispatcher.go`, `dispatcher/health.go`, `dispatcher/family.go`): a weighted
  round-robin scheduler with one shared cursor, health state per link, a retry loop for tunnel mode, and a link list
  that is replaced while connections hold pointers into the old one. Around it: ratios from measured speeds
  (`dispatcher/speedtest.go`), the text form of a link, and automatic reconfiguration (`gui/automode.go`).
* **The SOCKS5 handshake** (RFC 1928, sections 3 to 6), both ends (`dispatcher/socks.go`, `dispatcher/proxytest.go`,
  `dispatcher/server_response.go`), over a transport that may cut the bytes anywhere.
* **The takeover of the system proxy** (`gui/app.go`, `gui/settings.go`, `gui/sysproxy_windows.go`): a write-ahead
  record, three registry values written one at a time, and recovery at the next start.

`dafny verify dfyconfig.toml` checks everything.

## How it is built

*Engine.* `Engine` is a state machine on values: a heap of link records, the live list of object numbers, the cursor
and the settings. Each event is one critical section under the dispatcher's mutex, or one atomic addition, so every
interleaving of connections, probes, manual changes and swaps is a sequence of events. `Dispatching` holds the classes
with the original's fields and methods, updating objects in place; every method is proved to take exactly its event's
step (`Abs() == Step(old(Abs()), ...)`). What the repository promises is then proved about `Step` and `Run`:
quantities in `Rotation` (a queue whose head is served), `Fairness`, `Fallbacks` and `Conservation`, histories in
`History` and `Traffic`, replaced lists in `Swaps`, probing passes in `Probes`, destination faults in `DialErrors`.

*Handshake.* `Streams` models a stream as the deliveries its reader will meet, with single reads and full reads as
methods of a connection. `Socks` has the messages and what the server makes of a stream; `SocksServer` and
`SocksClient` have the methods; `ServerResponse` has the answer a dispatcher gives; `SocksSession` runs client, server
and dispatcher against each other.

*Takeover.* `SystemProxy` has the writes and what a stop between any two leaves, `SystemProxyRuns` whole runs with
crashes, failing writes and recoveries, `SystemProxyApp` the methods that perform them on a machine whose writes stop
getting through at any chosen point.

`Witnesses` has small cases in which the hypotheses of the longest theorems hold together.

What the environment decides is an input: the outcome of dials, probes, lookups and measurements, the steps of other
connections, how bytes are cut, how many writes get through, and the library's reading of IP literals. The health
callback is modelled by what a method would have called it with, as a result.

## Where the code and its comments disagree

* `dispatcher/health.go:86-87` says the result of `noteFailure` tells whether this call excluded the link. A link that
  has already been reported in this spell is excluded with result false and without an alert.
  `Dispatching.Dispatcher.NoteFailure` states the result exactly, `History.ExclusionIsSilentIff` after which runs it
  happens, and `Witnesses.SilentAfterSwitch` and `Witnesses.SilentAfterProbe` are two of them.
* `gui/sysproxy_windows.go:103-104` says disabling first keeps a partial restore from pointing at a proxy that is gone.
  `SystemProxyRuns.RestorePointsAtIff` says exactly when it does. If no write gets through, nothing is disabled. If one
  does, it puts back the saved value, so it disables only for a user who had the proxy off. From the second write on
  the address is the user's own. `SystemProxyRuns.StopLeavesDeadProxyIff` draws the consequence for `StopProxy`, which
  closes the listener whatever became of the restore.
* `gui/app.go:267-268` leaves the record for the next launch after a failed restore. A start before that overwrites it
  with our own address (`SystemProxyRuns.SecondTakeoverIff`, `SystemProxyRuns.SecondTakeoverLosesOriginal`).
* `gui/sysproxy_windows.go:37-38` says the settings can be put back exactly as they were. A missing enable value comes
  back as zero, and one wider than 32 bits cut (`SystemProxy.CapturedComesBack`).
* Fairness is per destination family. Alternating families starve a link (`Conservation.MixedFamiliesStarve`).
* `dispatcher/socks.go` does not look at the greeting's version or methods, and closes the connection for a bad request
  but not for a bad greeting or a choice it cannot send: `SocksServer.HandleSocksConnection` states exactly when.
* `dispatcher/socks.go:70-111` reads IPv4 addresses, names and ports with single reads, so a request cut inside one of
  them is refused (`Socks.SegmentationSafety` says exactly when).
* A printed destination whose name contains a colon or bracket does not split back (`Destinations.PrintedSplitsBack`).

## Model

| member | source | states |
|---|---|---|
| `Rotation.Fair` | dispatcher/dispatcher.go:221-249 | over any m picks of the weighted queue, total weight times a link's picks stays within ratio times (weight - ratio) of m times its ratio |
| `Rotation.Periodic` | dispatcher/dispatcher.go:221-249 | from a clean queue, weight many picks serve each link exactly its ratio and restore the whole queue |
| `Rotation.Settles` | dispatcher/dispatcher.go:227-249 | from any leftovers, exactly the picks still owed reset every counter and keep the order |
| `Rotation.WaitIsExact` | dispatcher/dispatcher.go:227-249 | a link is not served during what the slots before it are owed, and is served by the very next pick |
| `Scheduling.ChoiceIsNearest` | dispatcher/dispatcher.go:221-268 | a pick is the nearest eligible link in cyclic order; an excluded one only when all usable ones are excluded; an error exactly when no family matches |
| `Scheduling.PickIsTurn` | dispatcher/dispatcher.go:227-249 | the cursor scan refines the queue: one pick is one turn of the queue of eligible links, from its head |
| `Scheduling.FallbackVisitsEachOnce` | dispatcher/dispatcher.go:251-263 | while every usable link is excluded, k consecutive picks over k usable links are each of them once |
| `TunnelScheduling.TunnelChoiceIsNearest` | dispatcher/dispatcher.go:177-205 | the skip loop stops at the first untried link from the cursor and leaves the other untried counters alone |
| `TunnelScheduling.TunnelPickCounts` | dispatcher/dispatcher.go:177-204 | for any bitset: the chosen link counts one connection and keeps the cursor until its counter equals its ratio, the links passed over lose their turns, every other link stays as it was |
| `TunnelScheduling.SchedulersAgree` | dispatcher/dispatcher.go:157-249 | with every link eligible and short of its ratio, both schedulers pick the same link and leave the same state, equality test or not |
| `TunnelScheduling.TunnelPickIsTurn` | dispatcher/dispatcher.go:192-204 | on an in-turn list a pick without a bitset is one turn of the queue of all links |
| `TunnelScheduling.RetryPickIsTurn` | dispatcher/dispatcher.go:177-204 | for any bitset on an in-turn list, the slots passed over go to the back of the queue reset, and then the queue takes one turn, serving the chosen link |
| `TunnelScheduling.SchedulersPartPastTheRatio` | dispatcher/dispatcher.go:196-202 | without that invariant they part: a counter at or past its ratio is never reset by the equality test |
| `Engine.RequestStep` | dispatcher/dispatcher.go:221-268 | a request writes at most the chosen link and the cursor; without a matching family nothing at all |
| `Engine.RunStaysBalanced` | dispatcher/dispatcher.go:192-249 | over every run on parsed lists each live counter stays from 0 to below its ratio |
| `Fairness.RunIsRotation` | dispatcher/dispatcher.go:192-249 | over a whole run, by family or in tunnel mode, the picks are what the queue serves and the queue ends as after as many turns |
| `Fairness.ExactFairness` | dispatcher/dispatcher.go:221-249 | with a constant eligible set, S times the picks of a link is within r(S - r) of m times r, whatever else is interleaved; the same for picks of tunnel mode that have tried nothing |
| `Fairness.FairInEveryWindow` | dispatcher/dispatcher.go:221-249 | the same bound for every stretch of a steady run, not only from its start |
| `Fairness.ExactCycle` | dispatcher/dispatcher.go:221-249 | every S requests give each eligible link exactly its ratio and bring counters and order back |
| `Fairness.SettlesAfterOwed` | dispatcher/dispatcher.go:227-249 | from any counters, after exactly the owed number of requests every eligible counter is zero |
| `Fairness.BoundedWait` | dispatcher/dispatcher.go:227-249 | from any counters, a link is picked once the requests outnumber what the other eligible links are owed |
| `Fallbacks.EachOncePerRound` | dispatcher/dispatcher.go:251-263 | over any run in which every usable link stays excluded, k requests for k usable links are served by each of them once, and the next k again |
| `Conservation.PicksAreConserved` | dispatcher/dispatcher.go:177-262 | with any families, exclusions and bitsets, picks in rotation are ratio times completed turns plus what retries made the link give up plus the change of the counter; fallback picks count in neither |
| `Conservation.NothingGivenUp` | dispatcher/dispatcher.go:177-190 | without a bitset no pick makes a link give anything up |
| `Conservation.MixedFamiliesStarve` | dispatcher/dispatcher.go:231-249 | alternating families pick the link with the highest ratio once and never again, for every length of run |
| `History.HealthStep` | dispatcher/health.go:79-178 | what any single event does to the streak, exclusion, reason and reported flag of any link object |
| `History.StreakIsHistory` | dispatcher/health.go:79-126 | a link's streak is the number of failures noted on its record since its last reset, followed across swaps by address |
| `History.ExclusionNeedsStreak` | dispatcher/health.go:88-126 | a failure excludes if and only if auto-exclusion is on and that streak reaches the threshold, 3 by default; it alerts if and only if the streak does and the spell is unreported, with the address, whether the link is out now, and the reason |
| `History.ExcludedHasCulprit` | dispatcher/health.go:106-178 | a link is excluded if and only if its record has an excluding event that nothing restored since |
| `History.ReasonIsHistory` | dispatcher/health.go:106-178 | the reason shown is that of the event that put the link out and was not undone since, the manual one or the error of the failure; none for a link in rotation |
| `History.OffMeansManual` | dispatcher/health.go:42-56 | with auto-exclusion off and no SetAutoExclude(false) half done, every excluded live link was put out by SetExcluded, in every interleaving |
| `History.ReportedIsHistory` | dispatcher/health.go:79-104 | an object is marked reported if and only if it alerted since its last success, whatever was restored, set by hand or swapped |
| `History.ExclusionIsSilentIff` | dispatcher/health.go:86-126 | after any run a failure excludes without an alert if and only if auto-exclusion is on, the link was in, the streak reaches the threshold and the object alerted since its last success |
| `Witnesses.SilentAfterSwitch` | dispatcher/health.go:86-126 | a run after which a failure excludes silently: an alert while auto-exclusion was off, then on |
| `Witnesses.SilentAfterProbe` | dispatcher/health.go:226-234 | another: excluded, restored by a probe, and failing again |
| `History.OneAlertPerSpell` | dispatcher/health.go:98-125 | the threshold alerts about one object number at most one more than its successes |
| `History.IdentityStep` | dispatcher/dispatcher.go:286-308 | no event changes the address, interface, ratio or family of an object, and only an error noted on it its last error |
| `History.LastErrorIsHistory` | dispatcher/dispatcher.go:590-597 | the last error shown is the latest one noted on the record, followed across swaps by address |
| `Traffic.TrafficIsHistory` | dispatcher/dispatcher.go:286-308 | counters are the 64-bit remainders of everything counted on the record, carried across swaps, and of nothing else |
| `Swaps.SwapConserves` | dispatcher/dispatcher.go:527-549 | a swap keeps each surviving address's counters and health but `reported`, takes the rest from the new list, and leaves every old object as it was |
| `Swaps.StaleConnectionsDoNotInterfere` | dispatcher/dispatcher.go:516-518 | deleting from any run all steps on replaced link objects leaves the live list and the cursor the same, and a possible run |
| `Swaps.RestoreHitsOnlyTheProbed` | dispatcher/health.go:226-234 | after any interference a restore changes at most the live link at its position, and only if it has the probed address |
| `Swaps.ProbePassRestoresAnswering` | dispatcher/health.go:202-239 | an undisturbed pass restores exactly the excluded links that answered and changes nothing else |
| `Probes.RestoreOfPass` | dispatcher/health.go:217-234 | each restore of a pass, however disturbed, changes nothing or the live link at its position, at the address of a link that was excluded when the pass began |
| `Probes.PassStaysWithProbed` | dispatcher/health.go:202-239 | a whole pass with anything in between, swaps included, leaves the health of every link at another address as the same run without the pass |
| `Probes.QuietPassRestores` | dispatcher/health.go:217-239 | an undisturbed pass cancelled at a candidate restores exactly the answering excluded links before it |
| `Probes.CandidatesAreExact` | dispatcher/health.go:208-215 | the candidates of a pass are exactly the excluded links, in list order |
| `Probes.AlertsTell` | dispatcher/health.go:222-238 | one event for each candidate reached that answers, in order, with its address |
| `DialErrors.CauseDecides` | dispatcher/dispatcher.go:607-614 | an error, wrapped and joined to any depth, is the destination's fault exactly when one of its original causes is a name or address error |
| `DialErrors.DestinationErrorsInvisible` | dispatcher/dispatcher.go:616-632 | erasing all destination faults from any run changes no link, no cursor and no alert |
| `Bitset.SetBitIsExact` | dispatcher/dispatcher.go:330 | setting a bit sets that one and no other |
| `Bitset.MaskedIsFull` | dispatcher/dispatcher.go:331-332 | masking with 2^n - 1 gives the mask exactly when bits 0 to n - 1 are all set |
| `TunnelRetry.TriedIsExact` | dispatcher/dispatcher.go:324-330 | the bitset marks exactly the links dialled so far |
| `TunnelRetry.CompleteWhenAllTried` | dispatcher/dispatcher.go:329-333 | the completeness test succeeds exactly when all n links were dialled; before that one is left for the skip loop |
| `TunnelRetry.QuietTunnelRun` | dispatcher/dispatcher.go:310-348 | event by event, what a connection does when nobody else does anything: picks, errors with their messages, and one more connection counted if it ends well |
| `Dispatching.Dispatcher.AdvanceLocked` | dispatcher/dispatcher.go:207-213 | the cursor moves to the next cyclic position |
| `Dispatching.Dispatcher.ScanRotation` | dispatcher/dispatcher.go:225-249 | the first pass stops at the nearest eligible link, or comes full circle knowing whether any family matched |
| `Dispatching.Dispatcher.ScanFallback` | dispatcher/dispatcher.go:251-264 | the second pass stops at the nearest usable link, just past it |
| `Dispatching.Dispatcher.GetLoadBalancerFor` | dispatcher/dispatcher.go:221-268 | picks the specified choice, takes exactly the request's step, and never runs out of alternatives with a usable link |
| `Dispatching.Dispatcher.SkipTried` | dispatcher/dispatcher.go:177-190 | ends at the first untried link, having given up exactly the turns it skipped |
| `Dispatching.Dispatcher.GetLoadBalancer` | dispatcher/dispatcher.go:157-205 | picks the nearest untried link, or the one under the cursor when there is no usable bitset, and takes exactly its step |
| `Dispatching.Dispatcher.HandleTunnelConnection` | dispatcher/dispatcher.go:310-348 | with anything else interleaved, dials pairwise distinct links, each the nearest to the cursor of those left in the state its own pick finds, gives up only when all n failed, and leaves exactly the trace of its own and the others' sections |
| `Dispatching.Dispatcher.NoteSuccess` | dispatcher/health.go:79-84 | takes exactly the success step |
| `Dispatching.Dispatcher.NoteFailure` | dispatcher/health.go:86-126 | takes exactly the failure step, raises exactly its alerts, and returns true exactly when it excluded an unreported link |
| `Dispatching.Dispatcher.SetLastError` | dispatcher/dispatcher.go:590-597 | changes the last error of one object and nothing else |
| `Dispatching.Dispatcher.RecordDialFailure` | dispatcher/dispatcher.go:616-632 | a link fault becomes the last error, lengthens the streak by one and raises exactly the failure's alert; a destination fault changes nothing at all |
| `Dispatching.Dispatcher.RecordDialSuccess` | dispatcher/dispatcher.go:634-637 | takes exactly the success step |
| `Dispatching.Dispatcher.SetAutoExclude` | dispatcher/health.go:42-56 | one section when turning on, two when turning off, with one event for each link put back |
| `Dispatching.Dispatcher.IncludeAll` | dispatcher/health.go:128-149 | restores exactly the excluded links, with one event for each in order |
| `Dispatching.IncludeAlertsTell` | dispatcher/health.go:143-148 | the events are one for each excluded link, in order, saying that it is back |
| `Dispatching.Dispatcher.SetExcluded` | dispatcher/health.go:151-178 | sets the first link at the address by hand, or reports that there is none and changes nothing |
| `Dispatching.Dispatcher.SnapshotExcluded` | dispatcher/health.go:208-215 | collects position and address of exactly the excluded links |
| `Dispatching.Dispatcher.RestoreCandidate` | dispatcher/health.go:226-234 | restores the link at the position only if it still has the address |
| `Dispatching.Dispatcher.ProbeExcluded` | dispatcher/health.go:202-239 | with anything done by others meanwhile and cancelled anywhere, takes exactly the steps of the answering candidates it reached and announces each |
| `Dispatching.Dispatcher.CountConnection` | dispatcher/dispatcher.go:345 | one more connection handled, wrapping at 64 bits |
| `Dispatching.Dispatcher.CountAll` | dispatcher/dispatcher.go:288-307 | adds traffic to one object, wrapping at 64 bits |
| `Dispatching.Dispatcher.IndexByAddress` | dispatcher/dispatcher.go:527-530 | maps each address to its last object |
| `Dispatching.Dispatcher.UpdateLoadBalancers` | dispatcher/dispatcher.go:511-549 | takes exactly the swap's step on fresh objects, touching no old one, and refuses an empty list |
| `Streams.WholeIffNoCut` | dispatcher/socks.go:17 | a single read gets a whole field exactly when it was sent and no delivery ends strictly inside it |
| `Streams.Conn.Read` | dispatcher/socks.go:17-28 | a single read takes a prefix, at most one delivery |
| `Streams.Conn.ReadFull` | dispatcher/socks.go:116-122 | a full read succeeds exactly when the bytes are there, however cut |
| `Socks.AcceptedIsEncoded` | dispatcher/socks.go:40-138 | what the server accepts is an encoding of the destination it returns, and exactly those bytes are consumed |
| `Socks.SegmentationSafety` | dispatcher/socks.go:40-138 | for every way of cutting an encoded request the server decodes that destination and consumes exactly it, or refuses; it refuses exactly when a single-read field is cut |
| `Socks.RefusalByHeader` | dispatcher/socks.go:40-68 | a header that is cut, short or of another version is refused with status 1, another command with 7, another address type with 8, in this order; anything else that is refused, with 1 |
| `Socks.RequestOnTheWire` | dispatcher/proxytest.go:90-102 | a request byte by byte as in section 4 of RFC 1928, the port with its high byte first |
| `Socks.MessagesOnTheWire` | dispatcher/socks.go:33-60 | greeting, choice and replies byte by byte, and the status codes |
| `SocksServer.ClientGreeting` | dispatcher/socks.go:14-31 | succeeds exactly when both fields are read whole, returns what the bytes encode and consumes them |
| `SocksServer.ServersChoice` | dispatcher/socks.go:33-38 | sends version 5 without authentication, or reports that it could not |
| `SocksServer.ClientConnectionRequest` | dispatcher/socks.go:40-138 | returns the destination decided on and consumes its bytes, or sends exactly the reply for the fault and closes |
| `SocksServer.HandleSocksConnection` | dispatcher/socks.go:140-157 | greeting, choice and request in order, with what is written and left in every case; without a destination it hangs up exactly if it got as far as the request |
| `SocksServer.HandshakeSegmented` | dispatcher/socks.go:14-157 | for every way of cutting greeting, request and payload the server ends with that destination and exactly the payload left, or with none; with it exactly when no single-read field is cut |
| `SocksClient.RequestIsEncoded` | dispatcher/proxytest.go:87-102 | within range the client's request is the RFC 1928 encoding of its destination |
| `SocksClient.DecodedAsMeantIffItFits` | dispatcher/proxytest.go:39-45 | the server decodes what the client meant exactly when name and port fit their fields |
| `SocksClient.EstablishedIffSuccess` | dispatcher/proxytest.go:76-141 | the client succeeds exactly when both its messages get through and the stream starts with the no-authentication choice and one success reply of any address form, and takes exactly those bytes |
| `SocksClient.OutcomeByBytes` | dispatcher/proxytest.go:72-114 | which failure the client reports, by the bytes received and the writes that get through, in the order in which it looks |
| `SocksClient.RequestFollowsChoice` | dispatcher/proxytest.go:71-105 | the request is sent only after the choice of version 5 without authentication |
| `SocksClient.InRangeIff` | dispatcher/proxytest.go:39-45 | the range checks turn down exactly port 0, what does not fit the request, and a text longer than a name may be |
| `SocksClient.DiscardBoundAddr` | dispatcher/proxytest.go:120-141 | skips exactly the bound address and port of the reply |
| `SocksClient.Socks5Handshake` | dispatcher/proxytest.go:69-118 | the outcome depends on the bytes received and not on how they were cut, with each of its two writes failing or not; what is sent; the stream left at the payload |
| `SocksClient.Socks5Dial` | dispatcher/proxytest.go:34-67 | a destination out of range is refused before anything is written; a failed handshake closes |
| `SocksSession.Session` | dispatcher/proxytest.go:70-118 | end to end with a dispatcher: the server decodes exactly the client's destination, the link chosen fits that destination, the client succeeds exactly when there is one and its dial succeeds, and no handshake byte is left on either side |
| `SocksSession.EndsAgree` | dispatcher/socks.go:140-157 | for any status, the two original functions, run over all they were sent, write what the other reads, and the client succeeds exactly on SUCCESS with the payload left |
| `ServerResponse.DestinationFamilies` | dispatcher/family.go:35-63 | a literal has exactly its family, IPv4 as the first flag and IPv6 as the second; a name has each family that one of its addresses has; no addresses is an error |
| `ServerResponse.LinkFits` | dispatcher/dispatcher.go:270-284 | a link is chosen for a destination only if the destination has an address of the link's family, and none only if no link of the list fits it |
| `ServerResponse.AnswerRequest` | dispatcher/dispatcher.go:270-284 | the same from the printed destination, on a link that fits it; one that does not split is unreachable and changes nothing |
| `ServerResponse.Respond` | dispatcher/server_response.go:13-35 | the scheduler's choice is dialled and recorded on that link only; SUCCESS exactly when a link was found and reached the destination |
| `ServerResponse.AnswerRecorded` | dispatcher/server_response.go:13-35 | an answer writes only the link chosen: a success clears its streak and counts one connection, its own failure becomes its last error and lengthens the streak, a destination's failure leaves no mark |
| `Destinations.PrintedSplitsBack` | dispatcher/socks.go:83-130 | a printed destination splits back into host and port exactly when its name has no separator in it |
| `Destinations.DottedReadsBack` | dispatcher/socks.go:83-87 | the four octets are printed in order: split at the dots they read back |
| `SystemProxy.RestoredIffCaptured` | gui/sysproxy_windows.go:95-127 | restoring makes the registry read as saved exactly when the saved enable value fits 32 bits |
| `SystemProxy.CapturedComesBack` | gui/sysproxy_windows.go:49-127 | capturing and restoring gives server and bypass list back, missing or not, and the enable value cut to 32 bits or zero if it was missing; the user's setup is in effect again exactly if the cut loses nothing, and then the system points where it did |
| `SystemProxy.EnableIsSafe` | gui/app.go:222-252 | a takeover stopped between any two writes leaves the user's settings in effect or recorded |
| `SystemProxy.DisableIsSafe` | gui/app.go:254-277 | a restore stopped anywhere keeps the record; carried through, the settings are back and the record is cleared |
| `SystemProxyRuns.StepStaysProtected` | gui/app.go:194-277 | every operation of the app, stopped anywhere, keeps that invariant unless it takes over on top of a recorded takeover |
| `SystemProxyRuns.RunStaysProtected` | gui/app.go:194-277 | the same over every run |
| `SystemProxyRuns.CrashesAloneAreSafe` | gui/app.go:389-408 | if only crashes interrupt restores, that exception never arises, and an open app without a listener has the user's settings in effect and the system pointing where they say |
| `SystemProxyRuns.RecoveryRestores` | gui/app.go:53-61 | after any run and any number of crashes, a recovery carried through leaves the user's server, bypass list and enable value, a missing one as zero, the system pointing exactly where it did before, and no record |
| `SystemProxyRuns.SecondTakeoverIff` | gui/app.go:227-237 | a takeover on top of a recorded one is safe exactly when the registry holds the user's settings, a missing enable value counting as zero |
| `SystemProxyRuns.SecondTakeoverLosesOriginal` | gui/app.go:227-237 | start, a stop whose restore fails, start again: the record holds our own address |
| `SystemProxyRuns.TakeoverPointsAtIff` | gui/sysproxy_windows.go:73-93 | for every number of writes of a takeover that get through, whether the system points at our address, exactly |
| `SystemProxyRuns.RestorePointsAtIff` | gui/sysproxy_windows.go:95-127 | for every number of restoring writes that get through, whether the system points at our address, exactly |
| `SystemProxyRuns.StopLeavesDeadProxyIff` | gui/app.go:389-408 | a stop leaves the system pointing at the closed port exactly when no restoring write got through, or one did and the user's own proxy was on, or the user's own settings were that address |
| `SystemProxyApp.Machine.ReadSystemProxy` | gui/sysproxy_windows.go:49-71 | captures a missing enable value as off and the other two with whether they exist, or nothing if the key cannot be opened |
| `SystemProxyApp.Machine.ApplySystemProxy` | gui/sysproxy_windows.go:73-93 | server, bypass list and enable in this order, as many as get through |
| `SystemProxyApp.Machine.RestoreSystemProxy` | gui/sysproxy_windows.go:95-127 | enable, server and bypass list in this order, deleting what did not exist, as many as get through |
| `SystemProxyApp.App.EnableSystemProxy` | gui/app.go:220-252 | records before it applies; the state after any number of writes, unchanged if nothing could be captured |
| `SystemProxyApp.App.DisableSystemProxy` | gui/app.go:254-277 | restores before it clears the record; the state after any number of writes |
| `SystemProxyApp.App.Startup` | gui/app.go:48-61 | a launch takes exactly its step, repairing what is recorded |
| `SystemProxyApp.App.StartProxy` | gui/app.go:191-218 | refused while running or without a listener; otherwise keeps the configuration and takes over last |
| `SystemProxyApp.App.StopProxy` | gui/app.go:389-408 | gives the settings back before the listener goes |
| `SystemProxyApp.App.PersistConfig` | gui/app.go:365-374 | saves the configuration in the settings file and leaves the recovery record and the registry alone |
| `Ratios.SuggestRatios` | dispatcher/speedtest.go:235-273 | every address tested gets the ratio of its last result, from 1 to 10 |
| `Ratios.MinSpeedIsSlowest` | dispatcher/speedtest.go:243-248 | the speed divided by is that of a slowest working link |
| `Ratios.RatioFollowsSpeed` | dispatcher/speedtest.go:258-271 | ratios lie in 1..10, the slowest gets 1, each is speed over slowest rounded to the nearest with halves up, as far as ten, and 10 beyond |
| `Ratios.IdleGetsOne` | dispatcher/speedtest.go:250-262 | a link with an error or no throughput gets 1, and so does every link when none worked |
| `Ratios.FasterIsNotSmaller` | dispatcher/speedtest.go:258-271 | a faster link never gets a smaller ratio |
| `Texts.AtoiOfItoa` | dispatcher/dispatcher.go:125 | printing an integer and reading it back is the identity if it fits 64 bits, and refused otherwise |
| `Texts.SplitOfJoined` | dispatcher/dispatcher.go:93 | parts without a separator, joined, split back |
| `Texts.SplitIsExact` | dispatcher/dispatcher.go:93 | splitting cuts at every separator and loses nothing else |
| `Texts.SplitOfJoin` | gui/automode.go:215-230 | joining host and port and splitting again is the identity for a host without brackets |
| `Parsing.ParseLoadBalancers` | dispatcher/dispatcher.go:81-152 | every entry's link in order, without history and with a ratio of at least 1, or the first entry's error |
| `Parsing.InterfaceEntryParses` | dispatcher/dispatcher.go:92-149 | an entry for an interface with or without a ratio: its error, in the order of the checks, or its address, port 0 and ratio, 1 unless given; what follows a second @ is ignored |
| `Parsing.TunnelEntryParses` | dispatcher/dispatcher.go:92-149 | "host:port" with or without a ratio: refused for a port outside 1 to 65535 or a ratio that is not positive, otherwise that host and port with that ratio or 1, and no interface |
| `Parsing.TunnelEntryRefused` | dispatcher/dispatcher.go:99-111 | an endpoint that does not split, or whose port is not a number, is refused as such |
| `Parsing.FormattedParsesBack` | gui/automode.go:187-196 | "ip@ratio" parses back to that ratio on that address exactly when the ratio is a positive 64-bit number and the address is an interface's |
| `Parsing.AddressesDistinct` | dispatcher/dispatcher.go:139-141 | different interfaces have different addresses |
| `AutoMode.DiffSets` | gui/automode.go:232-254 | exactly the entries of each list that the other lacks, in order |
| `AutoMode.WithoutOverConcat` | gui/automode.go:243-252 | what is reported keeps the order and the repetitions of its list |
| `AutoMode.NoChangeIffSameSet` | gui/automode.go:136-141 | no change is seen exactly when both lists have the same members |
| `AutoMode.AddressesToIPs` | gui/automode.go:215-230 | the host part of each address, or all of it if it does not split |
| `AutoMode.Reconfigure` | gui/automode.go:157-213 | swaps in a parsed link for every working result with its suggested ratio exactly when something worked on addresses that all have interfaces; otherwise reports why, the first such address included, and leaves the dispatcher as it was |
| `AutoMode.AppliesIff` | gui/automode.go:167-200 | the entries all parse exactly when every address that worked is a literal with an interface; otherwise the error is about the first that is not |
| `AutoMode.Rebuild` | gui/automode.go:164-200 | the new list, or that nothing worked, or the error of the first entry that does not parse |
| `AutoMode.RebuiltRatios` | gui/automode.go:187-200 | each link of the new list has the ratio suggested for its own measurement |
| `AutoMode.MeasuredSpeedToPicks` | gui/automode.go:157-205 | over the first S picks on the new list each link in use is picked as often as its measured speed suggested |
| `AutoMode.QuietAfterRebuild` | gui/automode.go:127-141 | once everything tested works and is applied, the next check sees no change |

## Left out

- Real sockets, binding to an interface, name resolution, timers and the prober goroutine: their outcomes are inputs.
- Relaying of payload, HTTP requests and WebSockets (`dispatcher/httpproxy.go`): mostly library input and output.
- Measuring latency and speed; the model starts from the measured numbers.
- Snapshots (`Stats`, `Health`, `Addresses`), listeners and `Stop`, logging, command line, frontend, notifications, autostart: easy members.
- Text forms of IPv6 addresses and the parsing of IP literals belong to the library: they are functions given to the model.
- Values of the wrong registry type are treated as missing, and the refresh notification has no effect on the model.
- A settings file that cannot be read: the model's reads succeed. Overlapping operations of the app are not modelled, since the code does not serialise them.
- Dispatching.Dispatcher.HandleTunnelConnection: the list is not swapped during the retries, since automatic reconfiguration never runs in tunnel mode; everything else may be interleaved.
- Dispatching.Dispatcher.NoteFailure: the streak is an unbounded integer, the original's could wrap after 2^63 failures in a row.
- Ratios.SuggestRatios: real numbers for floats, so neither rounding of the quotient nor infinite speeds are modelled.
- SocksSession.Session: the client's own writes arrive whole; requests cut in any other way are covered by `Socks.SegmentationSafety`.
- SocksServer.HandleSocksConnection: the destination is kept structured; printing it is `Destinations.PrintedSplitsBack`.
- Streams.Conn.Write: a connection that failed to write once fails from then on.
- Streams.Conn.Read: a read that returns both bytes and an error is not modelled; deadlines are an end of the deliveries.
