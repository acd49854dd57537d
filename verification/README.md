# A verified model of free-proxy's stateful cores

free-proxy keeps a pool of OpenVPN nodes, probes and ranks them, routes traffic through one of them,
and serves the result as a local proxy. Most of it is orchestration. This project models the parts that
keep state or decode bytes and proves, for every input or every run, what their comments and their callers
rely on. `dafny verify dfyconfig.toml` checks all of it.

| module | models |
|---|---|
| CredentialCache | the single-flight table of password verdicts, as a class for the locked regions and as a step system with any number of callers |
| LogTail | the backward, chunked log reader, with failing reads |
| Timestamps, ByteOrder | the text form of instants, the byte order SQL compares it with, and going back by whole days |
| NodeStore | the node table: every SQL statement is one transition, runs carry a history of probes, dials and listings |
| Liveness | the sweep over it: dialling, recording, and the rule that says which nodes are gone |
| StableSort, ProbeRotation | the stable sort by its promise; which nodes a maintenance cycle probes, over cycles |
| Ranking, AutoSwitch | filters, orders and the smart score over real arithmetic; choosing and switching nodes, the reconnect backoff |
| Naming, PolicyRouter | device names; the router's rules, routes and rp_filter values on a small host on which any command may fail, with a log of what ran |
| LikePattern, SearchQuery | LIKE with an escape character; the WHERE clause of the node list, its text read back character by character as SQL reads it |
| AttemptLimiter | the fixed-window limiter of login attempts |
| TunAllocator | the pool of probe devices and the configuration that keeps it clear of the tunnel |
| Coordinator | the operation semaphore, as a step system and as a class |
| Lines, EnvFile | splitting and joining lines; loading, migrating and pruning the environment file |
| Socks5, HealthCheck | the two sides of the SOCKS5 handshake (RFC 1928, RFC 1929) |

Code that changes things step by step is a class or a method with its loops; each is proved against a
specification function or predicate, and the properties are proved about that. What a rule or a test means
(who owns a device, which node leads, what status a row deserves, what a line or a clause says) is spelled out
once more beside the function that decides it, and the results are stated in that form. Where callers interleave,
each region under a lock, each channel operation and each call made outside the lock is one step.

Results of the system that the model cannot compute are parameters: clock readings, the keyed hash, the
password derivation, decoding a log line, country tables, IP text, dial results, and which commands, reads,
writes and statements fail.

## Where the code does less than its words

Each of these is proved, most of them with the exact condition under which the words hold.

- "their waiters still find a verdict" (internal/security/proxyauth.go:171-172): an entry is protected only
  until its verdict is stored. Every burst of n credentials shorter than the time-to-live costs one derivation
  per credential exactly when n is at most the cap (`BurstsCostOnceExactly`); above it, whatever the cap, there
  is a run in which a woken caller finds nothing and derives again (`WokenWaiterMayFindNothing`).
- "walks the whole pool within a day" (internal/services/maintenance.go:177-181): eight cycles do, whatever the
  order of the rows, exactly when the pool has at most 1600 nodes (`WholePoolWithinADay`). No number of cycles is
  sure to cover more than the 5000 rows of one read (`CoverageExact`).
- A failed read of the first chunk leaves the reader on a torn line, which it decodes as a whole one
  (`TornReadExact`; internal/logging/logging.go:161-181). A file of entries is safe from that with a decoder that
  accepts no proper suffix of an entry (`RejectedFragmentsDoNoHarm`), and it takes both (`TornNonEntryBecomesOne`).
- Text timestamps with trimmed fractions invert inside one second, exactly when one fraction is a prefix of the
  other (`OrderWithinSecond`). A node whose latest probe failed can thus come back as ready (`ProofExact`,
  `FailureCanRestoreReady`).
- A cleanup whose route listing fails takes the table for its own and flushes it
  (internal/netx/routing.go:179-184). Over any setups and cleanups other programs' routes stay exactly when no
  flush ran on a table they share, and one is sent only right after a listing that failed (`Router.AnySequence`,
  `FailedListingTakesForeignRoutes`).
- A cleanup whose commands all run can leave rules of the router's in place when the host prints the table by a name
  other than its number and the alias registered for it, or when the interface is called "oif"
  (internal/netx/routing.go:308-341): whatever the rules, nothing is left exactly when neither is so
  (`Router.AlwaysAttributedExactly`, `Router.Cleanup`). With another name every setup leaves one more
  (`UnseenRulesPileUp`). An operator who chooses the id of a table that already has a name is in that case.
- The original rp_filter value of a device is lost in exactly two ways: overwritten, unread, with another, or not
  written back by the cleanup that forgets it (`Router.AnySequence`, `FailedRestoreLosesTheValue`;
  internal/netx/routing.go:151-156, 193-196).
- A window admits up to 2 * limit - 1 attempts, and that many are reached (`RateBound`, `BoundIsReached`). The
  clock is read before the lock is taken, so readings can reach the table out of order. Over all runs whose
  readings lag at most d behind an earlier one, that is the bound exactly when d is 0
  (`BoundNeedsOrderExactly`). Within one run two things are enough: no attempt inside the interval meets a window
  begun after it, and a client whose window another's attempt purged does not open one before its end. Neither
  can be dropped (`LateReadingsExceedTheBound`, `PurgedWindowsExceedTheBound`).
- Credentials or a host longer than 255 bytes do not survive their length byte (`CredentialsSurviveExactly`,
  `HostSurvivesExactly`).
- A caller refused by the coordinator reads the name after it was refused. It is told an empty one exactly when
  by then the slot is free, taken but not recorded, or cleared but not given back, and each of the three happens
  (`RefusedIsToldWhatIsShown`, `RefusedMayBeToldNobody`); it may also be told of an operation that was not in its
  way (`RefusedMayBeToldAnother`).
- Exclusion rests on contexts that stay inside Run, in two ways: a context used after its operation, and a release
  while the operation's function runs, each let two operations overlap (`KeptContextBreaksExclusion`,
  `EarlyReleaseBreaksExclusion`).
- A sweep counts an id twice if it appears twice across two batches (`RepeatedIdIsCountedTwice`); dialling hands
  over distinct ids (`Liveness.DialAll`).

## Model

| member | source | states |
|---|---|---|
| CredentialCache.Cache.EvictLocked | internal/security/proxyauth.go:173-190 | below the cap nothing goes; otherwise every expired entry goes, then settled ones only as far as needed for one more; an in-flight entry never goes |
| CredentialCache.Cache.LookUp | internal/security/proxyauth.go:139-157 | a caller joins a derivation in flight, reuses a live verdict, or claims the key after an eviction; it claims exactly when the key is absent or its verdict has expired |
| CredentialCache.Cache.Publish | internal/security/proxyauth.go:161-163 | the verdict replaces whatever entry the key has, with a fresh expiry |
| CredentialCache.ClaimedEntries | internal/security/proxyauth.go:154-156 | after a claim each entry is the caller's own in-flight one or one that was there before, and every other in-flight entry is still there |
| CredentialCache.BigEndianInjective | internal/security/proxyauth.go:196-198 | the fixed-width length prefix determines the length |
| CredentialCache.DigestInputInjective | internal/security/proxyauth.go:194-202 | the hashed text of a password and a stored hash determines both, so keys collide only when the keyed hash does |
| CredentialCache.RunsKeepFlight | internal/security/proxyauth.go:133-190 | over every interleaving, in-flight entries and live derivers correspond one to one, channels are owned by one call, and waiters wait on a channel that is closed or owned |
| CredentialCache.OneDerivationPerKey | internal/security/proxyauth.go:133-167 | at most one derivation per key is in flight, and it is the one its entry names |
| CredentialCache.InFlightEntryHasOneDeriver | internal/security/proxyauth.go:154-163 | every in-flight entry belongs to exactly one live deriver, so none is left behind |
| CredentialCache.CloseFindsItsChannelOpen | internal/security/proxyauth.go:159-165 | the close at the end of a derivation finds its channel open |
| CredentialCache.ChannelsCloseExactlyOnce | internal/security/proxyauth.go:154-165 | a channel is closed at most once and is open exactly while some call is yet to close it |
| CredentialCache.NoStrandedWaiter | internal/security/proxyauth.go:141-149 | a parked caller can wake now, or another call for its key, not parked itself, will close its channel |
| CredentialCache.EveryVerdictIsTheDerivation | internal/security/proxyauth.go:133-167 | every verdict returned, derived, awaited or reused, is the derivation's for that password and hash, given no hash collision |
| CredentialCache.TableStaysBounded | internal/security/proxyauth.go:154-190 | the table never holds more than the larger of its cap and the greatest number of derivations in flight at once |
| CredentialCache.BurstDerivesOncePerCredential | internal/security/proxyauth.go:141-165 | a burst shorter than the time-to-live with no more credentials than the cap costs one derivation per credential under every interleaving |
| CredentialCache.WokenWaiterMayFindNothing | internal/security/proxyauth.go:141-149 | for every cap and any keyed configuration with one credential more than the cap, a run in which a waiter's verdict is evicted before it looks again, and it derives anew |
| CredentialCache.BurstsCostOnceExactly | internal/security/proxyauth.go:133-190 | every burst of at most n credentials shorter than the time-to-live derives each once exactly when n is at most the cap |
| LogTail.ReadTail | internal/logging/logging.go:139-187 | for every content, chunk size, filter, decoder and limit the result is the last `limit` entries, in file order, of the lines the reads that succeed make visible |
| LogTail.ScanBack | internal/logging/logging.go:156-178 | the backward scan collects, newest first, exactly those entries, whatever read fails |
| LogTail.LastIndexByte | internal/logging/logging.go:168-168 | the last position of a newline, or none |
| LogTail.Reverse | internal/logging/logging.go:183-185 | the in-place reversal puts the entries in file order |
| LogTail.ReadsWholeFile | internal/logging/logging.go:139-187 | when no read fails, the visible lines are the file split on newlines, so the reader equals split, decode, filter, take last |
| LogTail.DamageLosesOnlyOlderEntries | internal/logging/logging.go:161-181 | a failed read above the first chunk loses older entries and nothing else |
| LogTail.WholeLinesOnly | internal/logging/logging.go:161-181 | when no fragment is taken for a line, every entry returned is one the file holds, in place |
| LogTail.FragmentShowsThrough | internal/logging/logging.go:161-181 | otherwise some decoder yields an entry the file does not hold |
| LogTail.TornReadExact | internal/logging/logging.go:161-181 | whatever the decoder, the filter and the limit, what is returned ends what the file holds, exactly when the failed read left no fragment, which the bytes around the first one read decide |
| LogTail.RejectedFragmentsDoNoHarm | internal/logging/logging.go:161-181 | a file of entries, read with a decoder that accepts no proper suffix of an entry, yields nothing invented, whichever read fails |
| LogTail.TornNonEntryBecomesOne | internal/logging/logging.go:161-181 | without lines that are all entries such a decoder may still be given a fragment it accepts |
| LogTail.Read | internal/logging/logging.go:94-126 | the date and limit defaults select the file and how many entries; an entry is kept exactly when its level is the one asked for and the text asked for stands at some position of its module's name, in lower case; a bad date or a missing file gives none |
| LogTail.ContainsExactly | internal/logging/logging.go:120-120 | the search succeeds exactly when the text stands at some position |
| Timestamps.TstrInjective | internal/store/repo.go:49-49 | two instants have the same text only if they are the same instant |
| Timestamps.OrderAcrossSeconds | internal/store/repo.go:49-49 | texts of instants in different seconds compare as the instants do (years 0 to 9999) |
| Timestamps.OrderWithinSecond | internal/store/repo.go:49-49 | inside one second the text of the later instant sorts below exactly when the earlier fraction is a prefix of the later |
| Timestamps.HeadOrder | internal/store/repo.go:49-49 | the part down to the second orders as the seconds do |
| Timestamps.TailOrder | internal/store/repo.go:49-49 | the fraction and the closing Z order as the nanoseconds do, except for prefixes |
| Timestamps.CutoffExactToTheSecond | internal/store/repo_ext.go:290-301 | a row found older than a cutoff by text is older by time or lies in the cutoff's second |
| Timestamps.DaysAgo | internal/services/liveness.go:155-162 | 24 hours times a number of days before an instant is exactly that many seconds earlier, across months, years and leap days |
| ByteOrder.LessExactly | internal/store/repo_ext.go:75-82 | one text is below another exactly when it is a proper prefix of it or smaller where they first differ |
| NodeStore.NodeRepository.UpsertDiscovered | internal/store/repo_ext.go:25-46 | a rediscovery updates the row that holds the identity and keeps its verdicts; the batch stops at the first failing insert and keeps what came before |
| NodeStore.RediscoveryExact | internal/store/repo_ext.go:25-46 | a listing of an identity some row holds refreshes that row's listing, whatever id it came with, touches nothing probes and sweeps left, and makes its own id an alias unless it is one already |
| NodeStore.NewDiscoveryExact | internal/store/gen/nodes.sql.go:114-140 | a new identity becomes a new row without a history; if its id is taken the insert fails and nothing changes |
| NodeStore.DiscoveryKeepsIdentities | internal/store/gen/nodes.sql.go:114-140 | at most one row holds a provider's identity after a discovery |
| NodeStore.NodeRepository.MarkProviderSnapshot | internal/store/repo_ext.go:57-71 | a snapshot changes nothing but which of a provider's nodes are listed |
| NodeStore.NodeRepository.ClearExpiredBlacklist | internal/store/repo_ext.go:117-152 | exactly the cooldowns that are over go; each of their nodes becomes discovered if it has no probe stamp, ready if its last success is not before its last probe, unavailable otherwise, and keeps every other field; every other row stays |
| NodeStore.ExpiryFollowsTheLog | internal/store/repo_ext.go:73-152 | in every run a cooldown that is over leaves its node discovered exactly when no handshake with it was recorded, ready exactly when the latest success is the latest handshake or, for handshakes in order, shares its second on an inverted text, and unavailable otherwise; nothing else about it changes |
| NodeStore.NodeRepository.ActiveBlacklistIDs | internal/store/repo_ext.go:86-115 | the ids returned are exactly those whose cooldown lies ahead, and the ones left in the table |
| NodeStore.NodeRepository.PurgeStaleNodes | internal/store/repo_ext.go:156-171 | exactly the unlisted rows last seen before the cutoff that are no favourite, not cooling down and not fixed are removed, and counted |
| NodeStore.NodeRepository.ExecInChunks | internal/store/repo_ext.go:250-269 | the batches together update what one statement over all ids in batches would; the call stops exactly at the first batch that fails |
| NodeStore.ChunksTouchOnce | internal/store/repo_ext.go:250-269 | with distinct ids, a row is changed exactly once if its id is among them and it qualifies, else not at all |
| NodeStore.NodeRepository.RecordLiveness | internal/store/repo_ext.go:205-246 | all four updates take effect exactly when there is nothing to record or no call of the transaction fails, from its beginning to the commit; otherwise none does |
| NodeStore.SweepTouchesOnce | internal/store/repo_ext.go:205-246 | each swept id is counted once whichever batch carries it: an answer resets the counter and brings back what a probe had proved, a refusal advances it and takes a ready node down, except the one carrying the traffic; every other field, row and table is as it was |
| NodeStore.RepeatedIdIsCountedTwice | internal/store/repo_ext.go:250-269 | an id repeated across two batches is counted twice |
| NodeStore.NodeRepository.DeleteDeadNodes | internal/store/repo_ext.go:290-308 | exactly the rows with as many failures in a row as the rule asks, last listed before its cutoff, not kept and not protected are removed, and counted |
| NodeStore.NodeRepository.Blacklist | internal/store/repo_ext.go:311-324 | a cooldown row and the node's status are set together, through the node's alias, and no other row or field changes |
| NodeStore.NodeRepository.SetProbing | internal/store/repo_ext.go:327-330 | only the status of the one node changes |
| NodeStore.NodeRepository.SetUnavailable | internal/store/repo_ext.go:333-339 | the one node is marked down and its failure counters advance; its stamps and every other row stay |
| NodeStore.NodeRepository.UpdateProbeResult | internal/store/repo_ext.go:342-357 | the verdict, stamps and counters of a probe replace the node's, blacklisted or not; a failure keeps the stamp of the last success, and no other row changes |
| NodeStore.StepKeepsFaith | internal/store/repo_ext.go:57-357 | every transition keeps a row in agreement with its history: stamps, both counters, last listing, and what ready rests on |
| NodeStore.RunsKeepFaith | internal/store/repo_ext.go:57-357 | so does every mix of discovery, probing, cooldowns, expiry, sweeps, purges and deletions |
| NodeStore.ReadyRestsOnAProbe | internal/store/repo_ext.go:73-82 | in every reachable state a ready row has been probed and last succeeded no earlier than it was last probed |
| NodeStore.CounterCountsRefusals | internal/store/repo_ext.go:205-246 | the liveness counter is how many of the last dials, without a gap, were refused; the failure counter how many of the last verdicts were no success |
| NodeStore.ProofExact | internal/store/repo_ext.go:342-357 | with probes in order, the stamps prove a row ready exactly when its latest probe succeeded or failed in the second of its last success on an inverted text |
| NodeStore.ReadyMeansLatestProbeSucceeded | internal/store/repo_ext.go:342-357 | a ready node's latest probe succeeded, if its probes are in order and never share a second |
| NodeStore.FailureCanRestoreReady | internal/store/repo_ext.go:135-152 | a run with two probes in one second after which an expired cooldown restores ready although the later probe failed |
| NodeStore.CooldownRestoresVerdict | internal/store/repo_ext.go:135-152 | once a cooldown expires the node has the status its stamps call for, whatever it was before, and no other field has changed |
| NodeStore.CooldownHolds | internal/store/repo_ext.go:311-324 | while it lasts, expiry leaves the node in cooldown |
| NodeStore.SweepUndoesItsDemotion | internal/store/repo_ext.go:205-246 | a host that answers again is ready again if a probe had proved it, and a probe's rejection stands |
| NodeStore.DeletionExact | internal/store/repo_ext.go:290-308 | in every run a node is deleted exactly when its last dials, or verdicts for UDP, all failed as often as the rule asks, it was last listed before the cutoff, and nothing protects it |
| NodeStore.StepKeepsIdentities | internal/store/repo_ext.go:25-357 | no transition makes two rows hold one identity |
| Liveness.DialAll | internal/services/liveness.go:126-151 | in whatever order the dials end, each target is on exactly one list, by its answer, once if the targets are distinct |
| Liveness.RecordedIsJudged | internal/store/repo_ext.go:205-246 | recording leaves each row as its own answer has it, however the ids were ordered and batched |
| Liveness.JudgedExactly | internal/services/liveness.go:82-124 | of the rows, exactly the TCP ones with an endpoint are judged, each by its own answer; every other one stays as it was |
| Liveness.LivenessService.Sweep | internal/services/liveness.go:82-124 | of the rows as the answers leave them, exactly those its rule calls dead go; cut short it leaves the table alone, except that answers stay recorded when the deletion fails; the counts are those of the answers and of the rows gone |
| Liveness.SweepDeletesExactly | internal/services/liveness.go:35-169 | after any run a sweep deletes a node exactly when nothing protects it and it has refused its last three dials, this one included, and not been listed for 24 hours, or over UDP failed its last five probes and not been listed for 72 |
| Liveness.AnAnswerSavesTheNode | internal/services/liveness.go:82-124 | a host that answers is not deleted by the sweep that hears it |
| Liveness.SweepDeletesOnlyTheGone | internal/services/liveness.go:155-169 | whatever the rule deletes, at any moment, has three refused dials in a row or, over UDP, five failed probes, was last listed no later than the second of its cutoff, and is not kept, favourite, blacklisted or fixed |
| StableSort.SortOrdered | internal/services/maintenance.go:188-197 | the sort orders by a strict weak order |
| StableSort.SortStable | internal/services/maintenance.go:188-197 | elements that tie keep their order |
| StableSort.StableSortUnique | internal/services/pool.go:91-99 | an ordered sequence with the same ties in the same order is the sorted one: the promise determines the result |
| StableSort.SortRelabelled | internal/services/pool.go:105-151 | sorting commutes with a relabelling that keeps the order |
| ProbeRotation.ProbeSlice | internal/services/maintenance.go:187-206 | the ids picked are the first 200 of the stable order by last probe, never-probed first |
| ProbeRotation.LongerAgoIsStrictWeak | internal/services/maintenance.go:188-197 | the comparison is a strict weak order |
| ProbeRotation.PicksFillTheBudget | internal/services/maintenance.go:198-206 | a cycle picks 200 distinct nodes of the page it reads, or all of it |
| ProbeRotation.PicksLeastRecent | internal/services/maintenance.go:187-206 | nothing on the page left out was probed longer ago than something picked |
| ProbeRotation.ChooseEligible | internal/services/maintenance.go:123-132 | the pool of a cycle is every candidate not tried earlier in it and not carrying traffic |
| ProbeRotation.Unique | internal/services/probe.go:115-123 | each id handed over is probed once, in the order of first mention |
| ProbeRotation.PicksAreAllProbed | internal/services/probe.go:115-139 | the ids a cycle picks are distinct, so every one of them is probed and stamped |
| ProbeRotation.WaitingCosts | internal/services/maintenance.go:123-135 | while a node of a pool of at most 5000 waits, every cycle spends its whole budget on nodes not yet picked |
| ProbeRotation.NoNodeIsStarved | internal/services/maintenance.go:177-206 | over a fixed pool of at most 5000 nodes every node is picked within any ceil(N/200) cycles |
| ProbeRotation.PickedFromAPage | internal/services/maintenance.go:212-229 | a node picked was within the first 5000 rows of some cycle |
| ProbeRotation.SteadyRotation | internal/services/maintenance.go:123-206 | whatever the order of the rows, the pool can rotate in it for any number of cycles, so a node past the page stays there |
| ProbeRotation.CoverageExact | internal/services/maintenance.go:177-206 | k cycles cover a fixed pool, whatever the order of the rows, exactly when it has at most 200 * k nodes and fits on a page of 5000 |
| ProbeRotation.WholePoolWithinADay | internal/services/maintenance.go:177-181 | eight cycles walk the whole pool, whatever the order of the rows, exactly when it has at most 1600 nodes |
| Ranking.ApplyFilters | internal/services/pool.go:49-88 | the nodes kept are, in order, those each setting allows on its own: the fixed node, the country, the favourites, the kind of network, unknown ones only where they are let in |
| Ranking.LessForIsStrictWeak | internal/services/pool.go:184-219 | the comparison of every mode is a strict weak order |
| Ranking.ProbeLessIsStrictWeak | internal/services/maintenance.go:252-275 | so is the order of first probes |
| Ranking.MinMax | internal/services/pool.go:117-128 | the smallest and largest of the values |
| Ranking.FillMetrics | internal/services/pool.go:109-116 | the three metric columns, node by node |
| Ranking.FillScores | internal/services/pool.go:138-144 | each node's score under its own id, with distinct ids |
| Ranking.SortSmartCandidates | internal/services/pool.go:105-151 | the result is the stable order by score, best first, then id |
| Ranking.SortCandidates | internal/services/pool.go:91-99 | the same nodes, in the order of the mode the settings name, so that outside the smart mode no later one beats an earlier one by what the mode goes by |
| Ranking.ScoreInUnit | internal/services/pool.go:132-144 | every score lies between 0 and 1 |
| Ranking.DominanceScoresHigher | internal/services/pool.go:132-144 | no worse on all three metrics and better on one scores strictly higher |
| Ranking.DominantRanksAhead | internal/services/pool.go:105-151 | and ranks ahead |
| Ranking.RankingIgnoresInputOrder | internal/services/pool.go:138-150 | with distinct ids the ranking depends only on which nodes are ranked |
| Ranking.RankingIgnoresUnits | internal/services/pool.go:129-143 | rescaling any metric by a positive affine map changes no rank |
| Ranking.NodesRankAsTheirMetrics | internal/services/pool.go:105-161 | ranking nodes is ranking their metrics |
| Ranking.FirstIsBest | internal/services/pool.go:91-99 | no node is preferred to the first one |
| Ranking.RankedByMode | internal/services/pool.go:184-219 | speed first puts the higher speed ahead, then the lower latency, the score, a residential or mobile network; residential first puts those networks ahead, then latency, score, speed; every other mode but the smart one the lower latency, an unmeasured one counting as 999999, then score, speed, network |
| Ranking.FirstLeads | internal/services/pool.go:91-99 | the first of the ranking beats or equals every candidate in that sense |
| Ranking.TiesKeepTheirOrder | internal/services/pool.go:96-98 | nodes of which neither beats the other stay in the order they were listed in |
| Ranking.FirstProbesByMode | internal/services/maintenance.go:252-275 | first probes go out by the ping the source reports, none counting as 999999, then score, speed and fewer sessions; by speed before that in the speed-first mode |
| Ranking.SmartRankedByTotal | internal/services/pool.go:105-161 | the smart ranking is by two fifths latency, two fifths speed and one fifth sessions, each between the candidates' extremes, the highest total first, then by id |
| Ranking.FirstHasHighestTotal | internal/services/pool.go:105-151 | nobody has a higher total than the first |
| AutoSwitch.SelectExcluding | internal/services/autoswitch.go:204-226 | fails exactly when a read fails; chooses a node that is listed, allowed and not excluded, exactly when there is one, and that nobody else who is beats by what the mode goes by |
| AutoSwitch.ChoiceIsBest | internal/services/autoswitch.go:204-226 | whoever is listed among the first thousand, allowed and not excluded makes the choice exist, and does not beat it by speed, network or latency as the mode has it |
| AutoSwitch.SmartChoiceIsBest | internal/services/autoswitch.go:204-226 | in the smart mode the choice has the highest total |
| AutoSwitch.ChoiceQualifies | internal/services/pool.go:29-41 | the choice is a listed candidate, not excluded, and meets each setting on its own |
| AutoSwitch.AttemptsAreDistinct | internal/services/autoswitch.go:75-103 | no attempt repeats a node or tries one that was to be skipped or active at entry |
| AutoSwitch.AttemptsAreBest | internal/services/autoswitch.go:82-122 | every attempt of a switch is on a listed, allowed node that nobody left at its turn beats, in every mode |
| AutoSwitch.TryInTurn | internal/services/autoswitch.go:82-122 | at most three activations, each the selection at its turn; it ends exactly on a success, a conflict, a failed read, an exhausted pool or the third failure |
| AutoSwitch.LoopIsDetermined | internal/services/autoswitch.go:82-122 | what is attempted and how the loop ends is determined by what the selections, reads and activations answer |
| AutoSwitch.SwitchExcluding | internal/services/autoswitch.go:59-122 | a failed read, a disabled connection and a fixed node end without a selection, each in its own way; otherwise the attempts and the ending are those of the loop, and exactly the refusing nodes are blacklisted |
| AutoSwitch.BlamedExactly | internal/services/autoswitch.go:91-119 | a node is blamed exactly when an attempt on it returned neither an error nor a success |
| AutoSwitch.ReconnectBackoff | internal/services/autoswitch.go:190-202 | immediate for a first exit, then five seconds doubled for each further one, up to the cap |
| AutoSwitch.BackoffGrows | internal/services/autoswitch.go:190-202 | no wait for a first exit, five seconds for the second, doubled for each further one up to five minutes, and never less for a longer streak |
| AutoSwitch.StreakIsLongest | internal/services/autoswitch.go:177-181 | the streak is the longest run of exits up to the last with no gap above ten minutes |
| AutoSwitch.ExitMonitor.NoteUnexpectedExit | internal/services/autoswitch.go:173-183 | the wait is that of the number of exits ending now with no gap longer than the window |
| Naming.DecimalValue | internal/naming/naming.go:74-74 | a decimal numeral denotes the number it was written from |
| Naming.ItoaInjective | internal/naming/naming.go:74-74 | different integers have different numerals |
| Naming.DeviceNameInjective | internal/naming/naming.go:74-74 | different indices have different device names |
| Naming.PoolNamesHavePrefix | internal/naming/naming.go:89-103 | every name of a pool is recognised as belonging to it |
| Naming.PrefixExactly | internal/naming/naming.go:89-103 | a device belongs to a prefix exactly when it is the prefix followed by at least one decimal digit and nothing else |
| PolicyRouter.Router.OwnsExactly | internal/netx/routing.go:82-92 | a device is the router's exactly when it has a name and that is the interface or the prefix with decimal digits after it |
| PolicyRouter.Router.OwnDevices | internal/netx/routing.go:82-92 | the interface and every name of the pool are |
| PolicyRouter.ParseRule | internal/netx/routing.go:313-341 | a printed rule yields its device and table, whichever fields surround them |
| PolicyRouter.ParseRoute | internal/netx/routing.go:350-367 | a printed route yields its destination and device |
| PolicyRouter.ShownRuleParses | internal/netx/routing.go:308-341 | a rule as the host prints it parses back to itself, by number or by the table's alias |
| PolicyRouter.ShownRouteParses | internal/netx/routing.go:350-367 | so does a route |
| PolicyRouter.Router.OwnRuleIsRecognised | internal/netx/routing.go:308-341 | a rule of the router's, as the host prints it, is attributed to it exactly when its table is printed by number or by the registered alias and its device is not called "oif"; then to its own device |
| PolicyRouter.Router.OwnRulesAreRecognisedExactly | internal/netx/routing.go:211-224 | and only such a rule is, unless another table or a device is named so that its rules print alike |
| PolicyRouter.Router.AlwaysAttributedExactly | internal/netx/routing.go:211-224 | each rule of the router's is covered by an attribution, on every set of rules, exactly when the host prints the table so and the interface is not called "oif" |
| PolicyRouter.Router.OurRules | internal/netx/routing.go:211-224 | every device listed is the router's, one for each rule attributed to it, in any order of the listing; its own rules are covered when the host prints them so, and exactly counted where no other rule prints alike; nothing when the listing fails |
| PolicyRouter.Router.TableRoutes | internal/netx/routing.go:226-239 | the table's routes split into the router's own and the rest, none lost |
| PolicyRouter.Router.DeleteRules | internal/netx/routing.go:175-177 | removes rules of the listed devices in the table and nothing else; if the commands run, exactly as many of each as it is listed |
| PolicyRouter.Router.DeleteRoutes | internal/netx/routing.go:186-188 | the same for the listed routes |
| PolicyRouter.Router.RestoreRpFilter | internal/netx/routing.go:193-196 | each remembered value is back exactly when its own write ran, and all are forgotten: a device whose write failed keeps the 2 for good |
| PolicyRouter.Router.CleanRoutes | internal/netx/routing.go:179-191 | lists the routes, flushes the table exactly when the listing failed or showed nobody else's, and otherwise deletes the router's own |
| PolicyRouter.Router.Cleanup | internal/netx/routing.go:169-198 | rules of a device that is neither the interface nor the prefix with digits, and rules of other tables, never change; such routes change exactly when a flush ran while one of them was in the table, which takes a failed listing; a device's original rp_filter value is lost exactly when the log loses it, by a writing back that failed; if every command ran, nothing of the router's is left exactly when each of its rules was attributed to it, which is always so where the host prints the table by number or by the registered alias and the interface is not called "oif" |
| PolicyRouter.Router.Install | internal/netx/routing.go:122-136 | the route goes in before the rule, and fails when the destination is taken |
| PolicyRouter.Router.Claim | internal/netx/routing.go:119-136 | route and rule; a rule that is refused is followed by a cleanup, one whose command could not be run is not, and the route stays |
| PolicyRouter.Router.Relax | internal/netx/routing.go:151-163 | the value is read, and remembered if that worked, before it is loosened |
| PolicyRouter.Router.SetupOnce | internal/netx/routing.go:119-164 | one attempt keeps the same account of routes and rp_filter values, whichever commands fail; if all run it succeeds exactly when no other program's default route is in the table and, in strict mode, the device has an rp_filter value |
| PolicyRouter.Router.Setup | internal/netx/routing.go:95-117 | with retries, and cleaning up after each failure, the same for everybody else's rules and routes when the device is the router's own; if every route listing ran their routes are as they were, whatever else failed; if every command ran it succeeds exactly when nobody else has the table's default route and, in strict mode, the device has an rp_filter value, and a failure leaves nothing of the router's behind exactly when the rules last listed were all attributed |
| PolicyRouter.Router.AnySequence | internal/netx/routing.go:95-198 | over any sequence of setups of the router's own devices and cleanups, with any commands failing: rules of any device that is neither the interface nor the prefix with digits stay, such routes stay exactly when no flush ran while one was in the table, which takes a failed listing right before it, and a device's original rp_filter value stays known or in place exactly when the log does not lose it; if every command ran, a last cleanup leaves nothing of the router's exactly when the rules last listed were all attributed |
| PolicyRouter.RelaxKeepsBaselineExactly | internal/netx/routing.go:151-156 | one loosening loses the value exactly when it was not read, was overwritten, and was not already 2 |
| PolicyRouter.FailedListingTakesForeignRoutes | internal/netx/routing.go:179-184 | on any host with a shared table, a cleanup in which only the route listing fails changes other programs' routes |
| PolicyRouter.FailedRestoreLosesTheValue | internal/netx/routing.go:193-196 | on any host, a loosening whose writing back fails leaves 2 with nothing remembered |
| PolicyRouter.UnseenRulesPileUp | internal/netx/routing.go:308-310 | on any host that prints the table by another name, with every command running, each setup leaves a rule behind that no cleanup takes away |
| LikePattern.LikeEscaped | internal/store/repo.go:251-256 | an escaped term at the head of a pattern consumes exactly a copy of the term, up to ASCII case |
| LikePattern.LikePercent | internal/store/repo.go:228-234 | a leading % tries the rest of the pattern on every suffix of the value |
| LikePattern.LikeContains | internal/store/repo.go:228-234 | the substring pattern matches a value exactly when the term occurs in it, wildcards and all, up to ASCII case |
| LikePattern.LikePrefix | internal/store/repo.go:235-239 | the id pattern matches exactly the values that begin with the term |
| LikePattern.UnescapedTermMatchesOthers | internal/store/repo.go:251-256 | without the escaping a term with a wildcard matches values it does not occur in |
| SearchQuery.Fields | internal/store/repo.go:196-211 | every term is a non-empty word without separators |
| SearchQuery.FieldsOfSpaced | internal/store/repo.go:207-211 | a query's terms are its words, whatever separators stand between and around them |
| SearchQuery.FieldsRebuild | internal/store/repo.go:207-211 | every query is its words spaced out by separators, so nothing is lost or invented |
| SearchQuery.SearchTerms | internal/store/repo.go:210-223 | the first six words, each cut to 64 characters |
| SearchQuery.QueryMeansItsWords | internal/store/repo.go:207-223 | which separators a query uses makes no difference to any row |
| SearchQuery.ColumnTests | internal/store/repo.go:227-239 | the tests find a row exactly when the term occurs in one of ten columns or begins the id |
| SearchQuery.SearchClause | internal/store/repo.go:227-249 | one term's group finds exactly the rows the term is meant to find, country codes included, each test with its own arguments in order |
| SearchQuery.CountryClause | internal/store/repo.go:269-277 | matches by label or by code, in whichever order the columns are named |
| SearchQuery.ReadAlternatives | internal/store/repo.go:248-248 | inside the parentheses the tests read as alternatives, each taking its own arguments |
| SearchQuery.ReadClause | internal/store/repo.go:248-248 | a group reads as one operand of the AND around it |
| SearchQuery.ConjunctionAnswers | internal/store/repo.go:295-295 | the whole clause answers a row with the conjunction of its parts, every argument bound |
| SearchQuery.LexTest | internal/store/repo.go:227-292 | each test's text is the words and signs that spell it, whatever follows |
| SearchQuery.ScanConjunction | internal/store/repo.go:295-295 | the joined text is read as exactly the tests, parentheses and connectives it stands for |
| SearchQuery.WhereReads | internal/store/repo.go:295-295 | so the whole text answers a row with the conjunction of its parts |
| SearchQuery.WhereMarks | internal/store/repo.go:258-296 | the text has one placeholder for each argument |
| SearchQuery.TermClauses | internal/store/repo.go:278-282 | each term narrows what was there before |
| SearchQuery.FlagClauses | internal/store/repo.go:283-291 | the three flags narrow without arguments |
| SearchQuery.Where | internal/store/repo.go:258-296 | the text returned, read as SQL reads it with the arguments returned bound in order, keeps exactly the rows the filter stands for, and each placeholder has its argument; it is empty exactly when the filter asks for nothing |
| AttemptLimiter.Limiter.Allow | internal/security/attempts.go:57-85 | the verdict and the table left are those of the attempt's transition |
| AttemptLimiter.Limiter.Reset | internal/security/attempts.go:89-96 | drops the client's window and no other |
| AttemptLimiter.Limiter.PurgeLocked | internal/security/attempts.go:99-105 | exactly the windows that have not elapsed stay |
| AttemptLimiter.RunsStaySane | internal/security/attempts.go:57-105 | over any run, whatever the clock reads, the table stays within its bound and no window exceeds its limit |
| AttemptLimiter.RateBound | internal/security/attempts.go:57-85 | after any run, an interval of one window's length holds at most 2 * limit - 1 admitted attempts of a client not reset meanwhile, if its attempts in it meet no window begun after it and it opens none before the end of one of its own that was purged |
| AttemptLimiter.OrderedRateBound | internal/security/attempts.go:57-85 | readings in order meet both conditions, so the bound holds for them |
| AttemptLimiter.BoundIsReached | internal/security/attempts.go:65-76 | and that many are reached, whatever the limit |
| AttemptLimiter.WindowAdmits | internal/security/attempts.go:65-76 | a window admits every attempt up to its limit |
| AttemptLimiter.RefusedExactly | internal/security/attempts.go:65-85 | a known client is refused exactly when its live window is used up, a new one exactly when the table is full of live windows |
| AttemptLimiter.ClearsItself | internal/security/attempts.go:50-56 | a window's length after the latest reading of any run any client is admitted |
| AttemptLimiter.ResetRestoresTheLimit | internal/security/attempts.go:87-96 | after a reset the client has its whole limit again |
| AttemptLimiter.LateReadingsExceedTheBound | internal/security/attempts.go:61-63 | attempts read inside an interval and applied to a window begun after it are admitted beyond the bound, the other condition being met |
| AttemptLimiter.PurgedWindowsExceedTheBound | internal/security/attempts.go:77-83 | a client purged by another's later reading has its limit twice in one window, the first condition being met |
| AttemptLimiter.BoundNeedsOrderExactly | internal/security/attempts.go:57-85 | with room for two clients, all runs whose readings lag at most d behind an earlier one keep the bound exactly when d is 0 |
| TunAllocator.Config.FinalizeNaming | internal/config/config.go:142-174 | accepts exactly a prefix of 1 to 12 characters and a name of 1 to 15 without space, slash, colon, tab or newline, no "." or "..", a positive table other than 253 to 255, and a tunnel that is not index 64 of the pool, with fpx, fpx0 and 9527 as defaults; an accepted one has a pool, within 1 to 64, in which the tunnel's name does not occur |
| TunAllocator.Config.Narrow | internal/config/config.go:162-172 | the pool starts right after the tunnel's index when that lies in it |
| TunAllocator.PoolNameIndex | internal/config/config.go:177-186 | each name of the pool is read back as its own index |
| TunAllocator.ProbeIndexExactly | internal/config/config.go:177-186 | a device has an index exactly when it is the prefix followed by digits whose number fits an int, and it is that number |
| TunAllocator.PoolNamesAreValid | internal/naming/naming.go:108-131 | the room an accepted prefix leaves is enough for every index below a thousand |
| TunAllocator.NewTunAllocator | internal/netx/tun.go:30-44 | fails exactly for an invalid prefix or an empty range |
| TunAllocator.Allocator.Search | internal/netx/tun.go:66-78 | the first index neither leased nor present on the host, or how many were present |
| TunAllocator.Allocator.Allocate | internal/netx/tun.go:58-102 | succeeds exactly when such an index exists and grants the lowest; a failure changes nothing and says whether names were taken by others or every index is leased |
| TunAllocator.Allocator.Release | internal/netx/tun.go:81-91 | frees the index the first time and does nothing after that |
| TunAllocator.Allocator.LeasesAreExclusive | internal/netx/tun.go:11-18 | leases not given back name different devices |
| TunAllocator.GrantsAreSound | internal/netx/tun.go:58-102 | whatever the calls, grants not given back are of different indices of the pool, each absent from the host it was granted on |
| TunAllocator.Serve | internal/netx/tun.go:58-102 | allocations and releases in any order grant and free, call by call, what the lowest free index at each call determines |
| TunAllocator.AnyRun | internal/netx/tun.go:58-102 | from an accepted configuration, over any allocations and repeated or late releases, the leases are those the calls determine: outstanding ones name distinct devices, none the tunnel's, each absent from the host when granted and valid for the kernel; a refused configuration grants none |
| Coordinator.StepKeepsConsistent | internal/services/operations.go:47-91 | every step keeps the slot, the name shown and the waiting count in agreement with the one outstanding acquisition |
| Coordinator.OneHolderAtATime | internal/services/operations.go:47-91 | under every interleaving one acquisition is outstanding and functions under different acquisitions never overlap |
| Coordinator.ReturnedExactlyOnce | internal/services/operations.go:71-80 | each acquisition is given back once however often its release is called, and giving back never blocks |
| Coordinator.CurrentNamesTheHolder | internal/services/operations.go:31-79 | a name shown is the present holder's; none is shown exactly when the slot is free, taken but not recorded, or cleared but not given back, or the holder has no name |
| Coordinator.RefusedIsToldWhatIsShown | internal/services/operations.go:61-66 | a refused caller is told the name shown when it reads it, and an empty one exactly in those states |
| Coordinator.RefusedMayBeToldNobody | internal/services/operations.go:61-79 | a run from the start to each of the three |
| Coordinator.RefusedMayBeToldAnother | internal/services/operations.go:61-79 | and one in which the caller is told of an operation begun since it was refused |
| Coordinator.HolderCanFinish | internal/services/operations.go:47-91 | from every reachable state the holder alone finishes in a bounded number of unblockable steps, and whoever waits can go next |
| Coordinator.KeptContextBreaksExclusion | internal/services/operations.go:48-50 | a run, contained up to its last step, in which a context used after its operation ended runs beside the present one |
| Coordinator.EarlyReleaseBreaksExclusion | internal/services/operations.go:71-80 | a run in which a release during the operation lets the next one run beside it |
| Coordinator.Coordinator.Begin | internal/services/operations.go:47-81 | acquires exactly when the slot is free, and records the operation; otherwise it tells the name shown |
| Coordinator.Coordinator.Release | internal/services/operations.go:72-79 | the name goes before the slot does |
| Coordinator.Coordinator.Run | internal/services/operations.go:84-91 | nested operations neither block nor touch the slot, even asked to wait; an outermost one leaves it free and unnamed |
| Lines.SplitAtSeparator | internal/platform/setup.go:202-202 | splitting at a separator splits the two sides |
| Lines.SplitJoin | internal/platform/setup.go:229-229 | joining is undone by splitting |
| Lines.TrimExactly | internal/config/config.go:101-115 | trimming takes what is to be cut off both ends and nothing else |
| EnvFile.LoadEnvFile | internal/config/config.go:91-117 | the file is merged line by line; a missing one adds nothing |
| EnvFile.LoadGivesFirstValue | internal/config/config.go:91-117 | each key has the process's value if it had one, else its first value in the file |
| EnvFile.ParseLineExactly | internal/config/config.go:100-115 | a line binds a key to a value exactly when, apart from white space, it is no comment and reads the key, the first equals sign, and the value in any quotes |
| EnvFile.LoadExactly | internal/config/config.go:91-117 | after loading, a FREE_PROXY_ key has the process's value, else that of the first line that gives one the environment can hold; every other key is as it was |
| EnvFile.PlainLineParses | internal/config/config.go:100-115 | a plain key and value written with a sign between are read back as they are |
| EnvFile.CutIsParse | internal/platform/setup.go:206-210 | the migration's test for a comment passes the same lines as the loader's |
| EnvFile.MigrateLines | internal/platform/setup.go:202-228 | the lines after the migration, with nothing reported exactly when nothing was left to do |
| EnvFile.MigrateLegacyNaming | internal/platform/setup.go:186-238 | the file is replaced as a whole or left as it was, whichever call fails |
| EnvFile.PruneDatabaseSettingsEnv | internal/platform/setup.go:257-280 | comments, blank lines and infrastructure keys stay, or the file is left as it was |
| EnvFile.RenderedMeansTheSame | internal/platform/setup.go:229-229 | writing the lines back changes no key's value |
| EnvFile.UpgradePreservesSettings | internal/platform/setup.go:186-280 | loading after migrate and prune gives each infrastructure key what it had, a legacy default moved and a missing probe prefix set |
| EnvFile.UpgradeDropsTheRest | internal/platform/setup.go:257-280 | every other key is gone |
| EnvFile.SecondUpgradeChangesNothing | internal/platform/setup.go:186-280 | a second migrate and prune leave the file exactly as it is |
| EnvFile.UpgradeIsSound | internal/platform/setup.go:52-61 | the keys and values of the upgrade satisfy what these results ask |
| EnvFile.UpgradeMovesToCurrentNames | internal/platform/setup.go:197-200 | the new values are the tunnel name and table the rest of the program claims |
| EnvFile.UpgradeThenLoad | internal/platform/setup.go:186-280 | what a process finds in its environment after an upgrade, for every key |
| Socks5.GreetingReads | internal/proxy/socks5.go:31-43 | a greeting is read back whatever follows it |
| Socks5.AuthReads | internal/proxy/socks5.go:98-119 | so are credentials |
| Socks5.ConnectReads | internal/proxy/socks5.go:61-85 | so is a request |
| Socks5.GreetingTells | internal/proxy/socks5.go:31-43 | what is read as a greeting is one, byte for byte |
| Socks5.AuthTells | internal/proxy/socks5.go:98-119 | the same for credentials |
| Socks5.RequestTells | internal/proxy/socks5.go:61-85 | the same for a request |
| Socks5.ReadSocksAddr | internal/proxy/socks5.go:135-162 | an address of each type, cut short, or of an unknown type |
| Socks5.ReceiveRequest | internal/proxy/socks5.go:61-85 | the request read, or the point where the server leaves off |
| Socks5.SocksAuth | internal/proxy/socks5.go:98-127 | accepted exactly when complete credentials are authentic, and answered only then or when they are not |
| Socks5.Open | internal/proxy/socks5.go:30-59 | greeting, method choice and authentication as the dialogue has them |
| Socks5.ServeSocks5 | internal/proxy/socks5.go:30-96 | at most one dial, of the requested target; the reply tells how it went; relaying only after a success the client could be told |
| Socks5.DialExactly | internal/proxy/socks5.go:30-96 | on any bytes the server dials a target exactly when they begin with a well-formed greeting, the authentication required, and a complete request for it |
| Socks5.HelloIsDialled | internal/proxy/socks5.go:30-96 | such a beginning is read exactly, whatever follows |
| Socks5.DialTellsHello | internal/proxy/socks5.go:30-96 | a dial tells exactly the bytes that were read |
| Socks5.HelloByByte | internal/proxy/socks5.go:13-28 | what such a beginning is, byte by byte |
| Socks5.ToldExactly | internal/proxy/socks5.go:30-133 | what the server says before any dial, byte by byte and case by case: nothing, no acceptable method, credentials refused, command not supported, general failure, or the welcome |
| Socks5.DialIsTold | internal/proxy/socks5.go:129-173 | a refused dial is told with code 5, another failure with 1, a success with 0 |
| Socks5.NoDialBeforeTheEnd | internal/proxy/socks5.go:30-96 | no proper prefix of such a beginning makes the server dial |
| Socks5.OutputOnlyGrows | internal/proxy/socks5.go:30-96 | what a server that waits for more has written stays written |
| HealthCheck.CredentialsSurviveExactly | internal/netx/proxy_health.go:119-123 | the server reads back the credentials sent exactly when both fit their length byte |
| HealthCheck.HostSurvivesExactly | internal/netx/proxy_health.go:76-80 | the same for the host |
| HealthCheck.ConsumeSocksAddr | internal/netx/proxy_health.go:138-156 | consumes exactly the address and port of a reply |
| HealthCheck.Authenticate | internal/netx/proxy_health.go:119-136 | accepted exactly by the two bytes that say so |
| HealthCheck.RequestIP | internal/netx/proxy_health.go:46-93 | against any server: when the handshake succeeds, what was sent, byte for byte (method 2 offered exactly with a user name or a password, credentials exactly when asked for), and how much of the answers was read |
| HealthCheck.HandshakeSucceedsExactly | internal/netx/proxy_health.go:46-93 | against this gateway the check connects exactly when the credentials required are accepted and the dial succeeds; both sides have then read exactly what the other sent |

## Left out

- OpenVPN processes, signals, the gateway service and its relay, the HTTP proxy, HTTP handlers, the console, the command line, installation: orchestration and operating-system behaviour.
- scrypt, HMAC, base64, CSV, JSON and SQLite internals: parameters, or the small matchers of LikePattern and SearchQuery.
- Country tables, flags, labels, failure messages, version and changelog handling: finite data and string tables.
- Floating-point rounding in the smart score: the arithmetic is over real numbers.
- Cutoffs of the stale purge and of blacklist expiry are passed in as instants; only the sweep's are computed.
- Failure of single statements outside `RecordLiveness` and the sweep, and of the listing of candidates in a maintenance cycle.
- Integer widths of counters, lengths and durations: unbounded here, except where a byte or a parsed index can overflow.
- NUL characters and invalid UTF-8 in searched text and environment files; device names hold one byte per character.
- Node aliases outliving their node: the migration that decides it is not part of this model.
- The start-up removal of orphaned rules in other tables (internal/netx/routing.go:252-296), and rule selectors other than the device and the table.
- The timestamps shown for a running operation, and the text of error messages.
- CredentialCache.EveryVerdictIsTheDerivation: assumes that no two credentials of the run collide under the keyed hash.
- ProbeRotation.NoNodeIsStarved: speaks of a fixed pool whose picked nodes are all stamped; a stamp that cannot be written, which the code ignores, makes a node be picked again. Rows of the page that are not eligible take room on it.
- ProbeRotation.CoverageExact: the order of the rows is any order; the store's own, by latency, is one in which never-probed nodes come last.
- ProbeRotation.WholePoolWithinADay: eight cycles a day; the three hours are a pause after each cycle, so a day holds somewhat fewer.
- Liveness.LivenessService.Sweep: nothing else acts on the table between the listing and the deletion; `SweepDeletesOnlyTheGone` does not need that.
- StableSort.StableSortUnique: the library sort is modelled by its promise, not by its algorithm.
- PolicyRouter.Router.AnySequence: other programs do not act between the router's own commands.
- AttemptLimiter.RateBound: its two conditions on a single run are enough, and neither can be dropped; a run that breaks one may still stay within the bound. `BoundNeedsOrderExactly` is exact over all runs of a given lag.
- HealthCheck.HandshakeSucceedsExactly: asks for credentials and a host of at most 255 bytes, without which the bytes on the wire mean something else.
- LogTail.ReadTail: the file keeps its size while it is read.
- Coordinator.OneHolderAtATime: contexts are used only inside the function they are handed to.
