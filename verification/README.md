# A verified model of the DNS server's stateful core

This project models, in Dafny, the parts of the server that keep state or run a real algorithm, and proves what they promise. Each part follows the code's own form (classes whose methods change fields, loops over arrays, sequences and maps, pure functions where the code is pure), is proved against a simple specification, and the promises are then proved of the specification for all inputs, all runs or all interleavings.

| files | part |
|---|---|
| `HeapOrder`, `LruHeap`, `CacheSpec`, `LruCache` | the answer cache: a map and a binary heap with back pointers over the same entries |
| `Reload`, `ReloadCatchUp`, `Sums` | the coalescing reload scheduler, as a class and as interleaved steps of all goroutines, and what it makes of reloads that read first and install later |
| `Names`, `ZoneData`, `ZoneIndex`, `ZoneAnswer`, `AnswerFacts`, `CnameChain`, `ChainFacts`, `CnamePhase`, `ChaseFacts`, `Filters` | authoritative answers: zone lookup with views, record matching, CNAME chains inside and across zones |
| `Blocklist`, `BlocklistFacts` | the blocklist lookup index, full loads and single-URL updates |
| `Receiver`, `Poll` | cluster synchronisation: replay protection of pushes, checksum-gated polling |
| `RecordStore`, `DynUpdate`, `UpdateFacts`, `RrsetPatch`, `PatchFacts`, `DhcpSync` | zones as files, and the three ways their records are edited |
| `EditsAnswered` | from an edit to the answer: what those edits store is what a query gets |
| `ConfigMerge`, `ConfigDecode`, `ConfigBreaks`, `ConfigFacts`, `KeyOrder` | deep-merged configuration overrides, decoded into the typed configuration |
| `QueryLog`, `JsonDepth` | the query-log ring buffer with incremental push; the JSON nesting check |

## Reading the model

Clock readings, faults, the network, parsers and callbacks are parameters. Where an operation reads the clock more than once, each reading is a parameter of its own. A critical section is one atomic step. The scheduler, whose callers and loops take the lock several times, is modelled step by step. Loading zones and blocklists reads the store before it takes the lock of the index: there `Load` gets what was read as a parameter, and what happens in between is a result of its own (`ReloadCatchUp.IdleMeansInstalled`, `Blocklist.EventsLostExactly`). A dynamic update and a DHCP pass take the lock of the store once per record; they are modelled as the only writers while they run. A store file is a cell of a map. A loop over a Go map visits the keys in any order.

Where a promise turned out to depend on something, the condition is proved exact:

* A cached TTL exceeds the original by at most one second exactly if the copy is stamped less than a second after the entry's end of life; `Get` reads the clock separately for the expiry check and for the age (`CacheSpec.AgingStaysWithinOneSecond`).
* The subdomain `FindZone` returns gives back the queried name exactly unless the label in front of the zone is `@` (`ZoneIndex.SubdomainRoundTrip`). The same label breaks the put/delete pair of dynamic updates (`DynUpdate.DeleteNameUndoesPut`); runs of updates are runs of map operations exactly if no deletion of that label would have had something to delete (`DynUpdate.UpdatesKeepAMap`).
* An answer that follows a CNAME chain through a zone is that chain exactly unless the chain comes to the label `@` below the zone and records of the type asked for are made there: those are owned by the zone's own name (`ChainFacts.AnswerIsTheChainExactly`, with an input in `CnamePhase.DetourLeavesTheChain`; a dynamic update can store it). Across zones it is connected exactly if no looked-up name leads off in this way or has two dots at its end (`CnamePhase.ChasedAnswer`); it always is if no visible CNAME points to such a label or ends in two dots (`CnamePhase.PlainZonesAnswerInChains`). A CNAME to the root ends the chain as if it had been answered (`ChainFacts.AnsweredHereExactly`).
* Applying one URL's domains in memory equals a full reload exactly if the reload lists that URL under the category the receiver looks up; a disabled URL is applied all the same (`Blocklist.EventEqualsReload`). Lookups can tell the difference exactly unless the other sources list the same domains anyway (`Blocklist.EventBlocksLikeReload`). Exempt names are still blocked by patterns (`Blocklist.ExemptBlockedOnlyByPattern`).
* A push is accepted at most once if its timestamp is at most 299 seconds (less the wait for the lock) ahead of the receiver, and beyond that it can be accepted again (`Receiver.AcceptedAtMostOnce`, `Receiver.ReplayableExactlyBeyondBound`). The sender's retry after a failed application is turned away (`Receiver.EarlyRetryRejected`).
* A section whose write failed is not written again before its bytes change; of a certificate and its key the first can be written and the second not (`Poll.InSyncExactlyIfWritten`), and zones deleted on the master stay on a polling slave (`Poll.OtherZonesStay`).
* The SOA serial moves forward exactly unless it is 2^31 or more behind the day's prefix, which cannot happen through the year 2147 (`RecordStore.SerialMovesForward`). An RRset patch does not move it at all unless it replaces the SOA (`RrsetPatch.SoaIsLastEntrys`); an SOA entry for the label `@` below the zone counts as one for the zone (`PatchFacts.TakenForApex`).
* A dynamic update for a name with a view part reads one zone and writes another (`DynUpdate.WritesTheZoneItRead`).
* A query for the name of a tracked lease finds its address exactly if that is an IPv4 address: an IPv6 lease is stored as an A record, too, and makes no answer (`EditsAnswered.LeaseIsAnswered`).
* Patching the configuration step by step equals merging once at restart unless a plain value overrode an object and was itself overridden by an object that does not cover the first (`ConfigMerge.AssociativeExactlyWithoutClash`). For runs the condition is exact at every step (`ConfigMerge.KeepsUpExactlyWithoutClash`), with an input in `ConfigMerge.RestartDiffers`.
* Decoded into the typed configuration, patches that fit its types survive a restart, clashes or not, if they name each field in its own spelling or one that sorts before it, and their values leave nothing of the old ones (`ConfigDecode.RestartIsRunning`). Another spelling of a field is safe exactly if it sorts before the field's name (`ConfigBreaks.TwinIsKeptExactly`): `enabled` and then `Enabled` in the section `web_ui`, whose fields have no tags, do not survive (`ConfigBreaks.WebUiComesBack`). Neither does a list whose elements leave fields out (`ConfigBreaks.PartialValueBreaks`). A patch that does not fit is persisted all the same, and the restart after it fails to decode (`ConfigDecode.LastPatchDecides`).
* URL events that arrive while a blocklist load has read the store but not yet installed it are lost, until the next load, exactly if they changed what their URL blocks and no later event brings that URL again (`Blocklist.EventsLostExactly`). Reloads asked of the scheduler are not lost (`ReloadCatchUp.IdleMeansInstalled`).
* A query-log entry that ties in time with the last entry pushed, and was not pushed with it, is never pushed (`QueryLog.TiesAreCovered`).

## Model

| member | source | states |
|---|---|---|
| LruHeap.Heap.Swap | internal/dnsserver/cache.go:30-34 | exchanges two positions; every entry's heapIdx is its own position again and no entry is lost |
| LruHeap.Heap.Push | internal/dnsserver/cache.go:35-39 | adds one entry and restores heap order by access time and all back pointers |
| LruHeap.Heap.Pop | internal/dnsserver/cache.go:40-48 | takes out exactly one entry whose access time is least, leaving a valid heap of the others |
| LruHeap.Heap.Remove | internal/dnsserver/cache.go:295-300 | takes out the entry at a given position, leaving a valid heap of exactly the others |
| LruHeap.Heap.Touch | internal/dnsserver/cache.go:114-116 | a new access time for one entry followed by Fix keeps the heap valid with the same entries |
| HeapOrder.RootIsMin | internal/dnsserver/cache.go:26-29 | the root of a heap ordered edge by edge has the least access time of all |
| LruCache.DetermineTTL | internal/dnsserver/cache.go:261-282 | the loop finds the lifetime: negative TTL for failures and empty answers, the default for a zero minimum, else the minimum |
| CacheSpec.MinTtlIsLeast | internal/dnsserver/cache.go:267-274 | the minimum used for the lifetime occurs in the answer and is at most every TTL in it |
| CacheSpec.LifetimeOfEachKind | internal/dnsserver/cache.go:261-282 | failures and empty answers live for the negative TTL, an answer with a zero TTL for the default, any other until its first record runs out |
| LruCache.DecrementTTLs | internal/dnsserver/cache.go:240-258 | the in-place loop over all three sections ages each record exactly once and keeps the order |
| CacheSpec.HitIsAged | internal/dnsserver/cache.go:240-258 | in every section of every hit an OPT record is as stored; any other keeps name, type and data, and its TTL is what the whole seconds passed leave of it, or 1 when nothing is left |
| CacheSpec.AgingStaysWithinOneSecond | internal/dnsserver/cache.go:96-121 | no answer TTL plus whole elapsed seconds exceeds its original by more than one, if and only if the copy is stamped within a second of the end of life |
| LruCache.CacheManager.constructor | internal/dnsserver/cache.go:72-92 | an empty consistent cache with the three defaults in place of missing settings |
| LruCache.CacheManager.Get | internal/dnsserver/cache.go:96-121 | drops an expired entry, else refreshes its access time and returns a copy in which each record of each section has lost exactly the whole seconds since it was stored, down to 1; map, heap and counters stay consistent |
| LruCache.CacheManager.Set | internal/dnsserver/cache.go:124-167 | stores, overwrites, or first evicts one least recently used entry when full; the heap-backed state is again the abstract map |
| LruCache.CacheManager.EvictLRU | internal/dnsserver/cache.go:285-292 | removes, from map and heap alike, an entry with the least access time of all |
| LruCache.CacheManager.Flush | internal/dnsserver/cache.go:170-180 | empties map and heap and resets the counters |
| LruCache.CacheManager.Delete | internal/dnsserver/cache.go:184-195 | removes exactly the key from both structures and reports whether it was there |
| LruCache.CacheManager.Clean | internal/dnsserver/cache.go:303-321 | removes exactly the expired entries, whatever the order of the walk |
| LruCache.CacheManager.SameSize | internal/dnsserver/cache.go:26-48 | map, heap and abstract map always have the same number of entries |
| CacheSpec.SizeBound | internal/dnsserver/cache.go:124-167 | in every run of all five operations the size never exceeds maxEntries |
| CacheSpec.ResidentIsLastStored | internal/dnsserver/cache.go:124-167 | in every run a resident entry is what the key's last Set stored, kept without interruption |
| CacheSpec.ResidentUsedLast | internal/dnsserver/cache.go:114-116 | in every run an entry's access time is the time of its last use |
| CacheSpec.GetAnswersExactlyTheLiveSet | internal/dnsserver/cache.go:96-121 | Get answers if and only if the key's last Set is still resident and live, and then with that Set's message |
| CacheSpec.EvictsLeastRecentlyUsed | internal/dnsserver/cache.go:285-292 | what a Set pushes out was used before everything that stays, up to ties of the clock |
| CacheSpec.LeavesOnlyBy | internal/dnsserver/cache.go:96-195 | an entry leaves only by a Set that needs room, by its own deletion or expiry, or with all others |
| CacheSpec.ComesOnlyBySet | internal/dnsserver/cache.go:124-167 | an entry comes only by the Set of its key |
| Reload.ReloadRunner.Trigger | internal/cluster/reload.go:91-104 | the critical section of trigger, as used by the step model |
| Reload.ReloadRunner.Check | internal/cluster/reload.go:118-125 | the critical section that ends a round of the loop, as used by the step model |
| Reload.ReloadScheduler.Trigger | internal/cluster/reload.go:61-78 | finds or makes the one runner of a kind and triggers it; no change and no callback does nothing; kinds never share a runner |
| Reload.ReachableInv | internal/cluster/reload.go:61-127 | the invariant behind the next five: one owner per running runner, no trigger outstanding without someone to serve it |
| Reload.NeverOverlaps | internal/cluster/reload.go:41-51 | in every interleaving two callbacks of one kind never run at the same time |
| Reload.IdleMeansServed | internal/cluster/reload.go:88-127 | whenever a runner is idle every earlier trigger was followed by a start, and the last start ran the last trigger's callback |
| Reload.StartsWithinTriggers | internal/cluster/reload.go:43-49 | callbacks started never outnumber triggers |
| Reload.WorkIsBounded | internal/cluster/reload.go:107-127 | n calls cause at most 7n further steps in any interleaving, so finitely many triggers lead to rest |
| Reload.BusyCanMove | internal/cluster/reload.go:107-127 | as long as a runner is busy some step other than a new call is possible: nothing gets stuck |
| ReloadCatchUp.IdleMeansInstalled | internal/dnsserver/zones.go:36-48 | in every interleaving of store writes, triggers and reloads that read first and install later: once the runner is idle and was triggered after the last write, what is installed is what the store holds |
| ZoneIndex.ZoneManager.Load | internal/dnsserver/zones.go:36-72 | installs a list read beforehand: the loop over zones and views makes maps that answer every exact lookup as that list does, later entries replacing earlier ones; a failed read changes nothing |
| ZoneIndex.ZoneManager.FindByName | internal/dnsserver/zones.go:105-117 | the client's own zone at a domain, else the default one |
| ZoneIndex.ZoneManager.FindZone | internal/dnsserver/zones.go:79-101 | the walk over label suffixes equals a linear scan of the loaded list, with the matching subdomain |
| ZoneIndex.FoundZoneIsTheMostSpecificVisible | internal/dnsserver/zones.go:75-101 | among the listed zones of the client's view or none that have the name or a parent of it, the one found is longest, of the client's own view if one of that name is, and listed last of its equals; none is found if and only if there is none |
| ZoneIndex.SubdomainRoundTrip | internal/dnsserver/zones.go:337-342 | subdomain and zone put together give the queried name, if and only if the front label is not the literal "@" |
| ZoneAnswer.AppendRRs | internal/dnsserver/zones.go:465-490 | appends exactly the records that have a wire form, in order |
| ZoneAnswer.MatchZoneRecords | internal/dnsserver/zones.go:151-246 | the single pass fills all lists as one-condition filters of the record list |
| ZoneAnswer.OnePassIsTwoPass | internal/dnsserver/zones.go:151-246 | the single pass equals the two-pass rule of section 4.3.3 of RFC 1034: exact records if any, else the wildcard's, split into answers, CNAME and ALIAS |
| AnswerFacts.MatchedExactly | internal/dnsserver/zones.go:151-246 | each list holds, in the zone's order, exactly the records that bear the name, or of the wildcard for a single label that no record bears, of the type for that list; a wildcard CNAME asked for comes last |
| AnswerFacts.RecordMakesExactly | internal/dnsserver/zones.go:430-567 | which records make an RR, and of it the owner, the type, the data and the TTL, in terms of the record |
| AnswerFacts.BelowExactly | internal/dnsserver/zones.go:305-311 | a name is followed below the zone if and only if it is some labels in front of the zone's name, and those are looked up |
| CnameChain.AppendInZoneCNAMEChain | internal/dnsserver/zones.go:289-334 | the bounded loop equals the recursive following of targets, with its end name, verdict and names seen |
| CnameChain.AppendCNAMEChainAnswer | internal/dnsserver/zones.go:263-281 | all CNAMEs at the name with their chains, and the first unresolved end |
| CnameChain.GenerateResponse | internal/dnsserver/zones.go:361-410 | the whole response: answer, code, and at most one of ALIAS and CNAME target to go on with |
| AnswerFacts.DirectAnswer | internal/dnsserver/zones.go:361-410 | without a CNAME to follow: one RR for each record that answers, in order; the first ALIAS for an empty answer to an address query; NXDOMAIN if nothing covers the name |
| AnswerFacts.ChaseAnswer | internal/dnsserver/zones.go:263-334 | with one, and one CNAME per name: the CNAMEs passed, then one RR for each record at the end, or the name at which the chase stops to go on with |
| AnswerFacts.AllCnamesFollowed | internal/dnsserver/zones.go:263-281 | several CNAMEs at one name are all in the answer, each with its chain past the names met before, and the name to go on with is the end of the first chain left open |
| AnswerFacts.AnswerFromZone | internal/dnsserver/zones.go:263-410 | every RR of every answer, along chains too, is made of a record of the zone |
| ChainFacts.ReachingRepeatsNothing | internal/dnsserver/zones.go:295-305 | a chain that reaches the type asked for repeats no name, so the loop check never cuts a good chain |
| ChainFacts.AnsweredHereExactly | internal/dnsserver/zones.go:283-334 | with one CNAME per name, "answered here" if and only if the chain reaches the type within eight names without leaving the zone, or runs into the root, whose name is empty |
| ChainFacts.NamedTargetsAnswerExactly | internal/dnsserver/zones.go:283-334 | with targets other than the root, if and only if it reaches the type |
| ChainFacts.AnswerIsTheChainExactly | internal/dnsserver/zones.go:263-334 | the answer is that chain (each owner is the previous target, no owner repeats, the reported name is the last target) if and only if the chain does not come to the label "@" below the zone with records made there |
| ChainFacts.NxdomainExactly | internal/dnsserver/zones.go:384-398 | NXDOMAIN if and only if the name is not the apex and neither a record nor a wildcard covers it |
| CnameChain.OverrideSetsEveryTtl | internal/dnsserver/zones.go:465-490 | a zone's TTL override sets the TTL of every record of every answer, along CNAME chains too, except an SOA's |
| CnamePhase.LookLocal | internal/dnsserver/pipeline_cname.go:59-63 | the response of the local zone responsible for a name in the client's view |
| CnamePhase.ResolveAliasRRs | internal/dnsserver/pipeline_alias.go:72-140 | a local zone decides an ALIAS target unless it is an ALIAS itself; else at most one upstream exchange |
| CnamePhase.ChaseCname | internal/dnsserver/pipeline_cname.go:38-153 | the chase loop equals the recursive chase over zones, views, ALIAS ends and the upstream, whose outcome ChaseFacts states; local lookups and upstream exchanges are counted where they are made |
| ChaseFacts.HopsAreTheChain | internal/dnsserver/pipeline_cname.go:48-64 | the names looked up are the target and from each the one its zone refers to, without repetition, eight at most, and the chase ends only where nothing refers on |
| ChaseFacts.RemoteIsSupplied | internal/dnsserver/pipeline_cname.go:66-130 | the rest of the answer is, at a name no visible zone has, the processed upstream answer for exactly that name, if it is an address query and there is a forwarder whose answer is neither a failure nor a rebinding; at an ALIAS the local answer of its target or else the upstream one, under the last name; nothing otherwise |
| ChaseFacts.WholeAnswer | internal/dnsserver/pipeline_cname.go:38-153 | the whole outcome: the local answers of the names looked up, in order, and that rest |
| CnamePhase.ChaseIsBounded | internal/dnsserver/pipeline_cname.go:48-115 | on any zones, cyclic ones included, one local lookup a hop, at most eight, one more for an ALIAS at the end, and at most one upstream exchange |
| CnamePhase.ScanSeesOwnView | internal/dnsserver/zones.go:79-117 | removing all zones of other views changes no lookup |
| CnamePhase.ChaseSeesOwnView | internal/dnsserver/pipeline_cname.go:59-74 | nor any chase |
| CnamePhase.RespondIsConnected | internal/dnsserver/zones.go:361-410 | with one CNAME per name, one zone's response is a connected chain from the queried name if and only if it makes no detour by the label "@"; a name reported for going on is where it ends |
| CnamePhase.ChasedAnswer | internal/dnsserver/pipeline_cname.go:38-130 | over any visible zones with one CNAME per name the local answer is one connected chain from the queried name if and only if no looked-up name leads off it; ALIAS records are owned by its end; at most eight hops |
| CnamePhase.PlainZonesAnswerInChains | internal/dnsserver/pipeline_cname.go:38-130 | it always is, if neither the queried name nor a visible CNAME target is a label "@" right below a visible zone, and no such target has two dots at its end |
| CnamePhase.DetourLeavesTheChain | internal/dnsserver/zones.go:263-334 | a zone of two records whose answer is no chain |
| Blocklist.GetBlocklistURLSets | internal/filestore/blocklist.go:406-432 | lists exactly the enabled URLs that have a domain file |
| Blocklist.FlatMaps | internal/dnsserver/blocklist.go:52-78 | in any order of the walk, the flat maps are the unions of the per-URL sets by category |
| Blocklist.BlocklistManager.Load | internal/dnsserver/blocklist.go:181-219 | builds the sets from sources read beforehand and installs them; afterwards the manager holds what those sources say, with exempt names removed (what that blocks: BlocklistFacts); a failed read changes nothing |
| BlocklistFacts.LoadListsExactly | internal/dnsserver/blocklist.go:181-219 | after a load a name is in a list for the categories asked if and only if it is no exempt entry and is a manual one, or one of a file whose last enabled URL has no category or one asked for |
| BlocklistFacts.LoadMatchesExactly | internal/dnsserver/blocklist.go:252-336 | it is blocked by a pattern if and only if it is or ends below the name of a wildcard of the store, or a compiling expression of the store, without its delimiters, matches |
| BlocklistFacts.LoadFailsExactly | internal/dnsserver/blocklist.go:122-180 | a load fails if and only if a read other than that of the patterns does |
| Blocklist.BlocklistManager.ApplyURLDomains | internal/dnsserver/blocklist.go:226-249 | replaces one URL's set, without exempt names, and rebuilds the flat maps |
| Blocklist.BlocklistManager.IsBlocked | internal/dnsserver/blocklist.go:302-338 | true exactly for a manually blocked name, a name of some URL without category or in an enabled one, or a pattern match |
| Blocklist.FlatAnswers | internal/dnsserver/blocklist.go:305-322 | the two flat lookups answer for all sources together |
| Blocklist.ExemptBlockedOnlyByPattern | internal/dnsserver/blocklist.go:155-166 | an exempt name is in no list; it is blocked if and only if a pattern matches |
| Blocklist.EventEqualsReload | internal/cluster/receiver.go:299-330 | store plus in-memory update equals a full reload, if and only if the reload lists the URL under the category looked up |
| Blocklist.EventBlocksLikeReload | internal/dnsserver/blocklist.go:223-249 | all list lookups agree with a full reload, if and only if that holds or the other sources list every effective domain under both categories |
| Blocklist.EventsEqualReload | internal/dnsserver/blocklist.go:223-249 | after a load and any number of events for enabled URLs a reload would change nothing |
| Blocklist.EventsLostExactly | internal/dnsserver/blocklist.go:181-249 | with some events between the reading and the installation of a load and some after it, the end is what a reload would give, if and only if each URL of an early event blocks what it did at the reading or comes again late |
| Receiver.ReceiverHandler.CheckAndStoreNonce | internal/cluster/receiver.go:440-457 | evicts exactly the expired nonces, rejects an empty or remembered one, else stores it |
| Receiver.ReceiverHandler.ServeHTTP | internal/cluster/receiver.go:74-137 | accepts exactly a valid HMAC inside the window with an unseen nonce; a failed application still uses the nonce up |
| Receiver.AcceptedExactlyWhenNotSeen | internal/cluster/receiver.go:106-128 | in any run, accepted if and only if signed, with a nonce, stamped within 300 whole seconds before or after the clock, and with a nonce not accepted in the ten minutes before |
| Receiver.InWindowExactly | internal/cluster/receiver.go:106-116 | the window in whole seconds, to both sides; a time stamp before the epoch counts for the second after it |
| Receiver.EarlyRetryRejected | internal/cluster/propagator.go:107-134 | a retry within the nonce lifetime is rejected, also when the first delivery could not be applied |
| Receiver.AcceptedAtMostOnce | internal/cluster/receiver.go:47-52 | in any run an event is accepted at most once if its timestamp is at most 299 s, less the wait for the lock, ahead |
| Receiver.ReplayableExactlyBeyondBound | internal/cluster/receiver.go:106-128 | the same event is accepted again later if and only if its timestamp is 300 s or more ahead of the next instant |
| Poll.Poller.SectionChanged | internal/cluster/poll.go:35-42 | true exactly when the bytes differ from those remembered, which it then remembers |
| Poll.Poller.ApplySection | internal/cluster/poll.go:246-255 | one gated section: its checksum, its stored value and whether it asks for a reload; all other sections untouched |
| Poll.Poller.ApplyZonesSection | internal/cluster/poll.go:261-270 | the zones section: each zone replaces its file, faulty ones are skipped, a reload is asked for regardless |
| Poll.Poller.ApplyMasterState | internal/cluster/poll.go:416-441 | all thirteen sections and the set of reloads requested |
| Poll.ChecksumIsLastSeen | internal/cluster/poll.go:19-42 | in every run the remembered checksum is that of the bytes the section last brought |
| Poll.ReloadsExactlyOnChange | internal/cluster/poll.go:429-438 | a kind's reload is requested exactly in the polls where the bytes of one of its sections changed, decode and, for certificates and client groups, were written |
| Poll.ValueIsFromLastChange | internal/cluster/poll.go:246-257 | the stored value comes from the last poll that changed the bytes: written then, with the slave's own stamp on the login configuration, or in half for a certificate, or not at all |
| Poll.InSyncExactlyIfWritten | internal/cluster/poll.go:246-257 | after a poll the section is as the master sent it, that stamp aside, if and only if that write succeeded or left nothing different |
| Poll.UngatedInSync | internal/cluster/poll.go:272-285 | URLs, configuration overrides, API keys and the ACME settings equal the master's after every poll that wrote them |
| Poll.SentZonesAreStored | internal/cluster/poll.go:257-270 | every zone the master sends is stored as sent, at that poll and while the section reads the same |
| Poll.OtherZonesStay | internal/cluster/poll.go:261-270 | files the list does not name, or that cannot be written, are untouched |
| RecordStore.FileKeyRoundTrip | internal/filestore/zones.go:20-43 | splitting a zone's file key gives back its domain and view |
| RecordStore.FilesAreApart | internal/filestore/zones.go:23-35 | two zones share a file if and only if domain and view agree |
| UpdateFacts.FilenameExactly | internal/filestore/zones.go:16-35 | which domains and views make a file name, and which name |
| UpdateFacts.LoadKeyExactly | internal/filestore/zones.go:37-43 | a key is read at its last "@", and the zone comes from the file of that domain and view, or the reason why not |
| RecordStore.FileStore.LoadZoneFile | internal/filestore/zones.go:236-251 | the zone a key addresses, or why there is none |
| RecordStore.FileStore.SaveZoneFile | internal/filestore/zones.go:272-279 | writes the file of the zone's own domain and view and no other |
| RecordStore.FileStore.PutZone | internal/filestore/zones.go:88-95 | stores a zone with a usable name and refuses any other |
| RecordStore.FileStore.PutRecord | internal/filestore/zones.go:159-188 | one record replaced by id or added under the next id, the serial moved once, in the file the zone came from |
| RecordStore.FileStore.DeleteRecord | internal/filestore/zones.go:207-232 | the record with the id goes and the serial moves once; an unknown id changes nothing |
| RecordStore.NextRecordID | internal/dns/zone.go:87-95 | one more than the largest id |
| RecordStore.PutNew | internal/filestore/zones.go:169-184 | a record without id is appended under an unused id, so ids stay distinct |
| RecordStore.PutKeepsIdsDistinct | internal/filestore/zones.go:169-184 | a record with an id replaces its namesake; every other record and the distinctness of ids stay |
| RecordStore.SerialMovesForward | internal/dns/zone.go:66-74 | forward as in section 3.2 of RFC 1982, if and only if the serial is not 2^31 or more behind the day |
| RecordStore.SerialMovesForwardThrough2147 | internal/dns/zone.go:66-74 | always forward for days through 2147, at the 32-bit wrap too |
| RecordStore.NewZoneSerialContinues | internal/dns/zone.go:38-54 | the first change on the day a zone is made counts on from its default serial |
| DynUpdate.DDNSHandler.DeleteWhere | internal/dnsserver/update.go:248-256 | deleting the listed records one by one by id leaves exactly the records not meant |
| DynUpdate.DDNSHandler.Upsert | internal/dnsserver/update.go:238-260 | the old records of the name and type go, one new one comes, each write moving the serial |
| DynUpdate.DDNSHandler.ApplyUpdate | internal/dnsserver/update.go:234-337 | the whole effect on the files of one update record of each class, and its error |
| DynUpdate.DDNSHandler.ProcessUpdate | internal/dnsserver/update.go:169-231 | the response code, the reload, and the files after a whole message |
| UpdateFacts.AnswerExactly | internal/dnsserver/update.go:169-231 | which messages are malformed, turned away, failed or successful |
| UpdateFacts.InOrder | internal/dnsserver/update.go:200-231 | the updates of a message apply one after the other |
| UpdateFacts.PutExactly | internal/dnsserver/update.go:355-411 | a put of an A, AAAA, CNAME, TXT or PTR record replaces those of its name and type by one with its data, its TTL or a minute, and an id above all others |
| UpdateFacts.UnstorableDoesNothing | internal/dnsserver/update.go:238-246 | a put of another type changes nothing |
| UpdateFacts.DeleteExactly | internal/dnsserver/update.go:262-337 | deletions take exactly the records of the value, the type or the name, one write each |
| UpdateFacts.NameExactly | internal/dnsserver/update.go:432-443 | the name below the zone; empty for the zone's own, the whole name outside |
| DynUpdate.WritesTheZoneItRead | internal/dnsserver/update.go:179-197 | the zone written is the zone looked up, if and only if the name asks for no view |
| DynUpdate.UpdatesKeepAMap | internal/dnsserver/update.go:234-337 | any run of updates keeps one record per slot and ids distinct, and follows put, delete-value, delete-type and delete-name on a finite map all along if and only if no deletion of a label "@" misses a meant slot |
| DynUpdate.StepIsMapStep | internal/dnsserver/update.go:234-337 | one update is the map operation if and only if it is no such deletion |
| DynUpdate.DeleteNameUndoesPut | internal/dnsserver/update.go:355-443 | deleting a name undoes a put to it, if and only if its label below the zone is not "@" |
| DynUpdate.EveryWriteMovesTheSerial | internal/filestore/zones.go:184-187 | each of any number of record writes moves the serial forward, for days through 2147 |
| RrsetPatch.Draft.RemoveRecords | internal/caddy/api/pdns_compat.go:497-506 | the loop keeps exactly the records of other names or types, in order |
| RrsetPatch.Draft.ApplyRRSetReplace | internal/caddy/api/pdns_compat.go:537-567 | the records of the enabled entries (PatchFacts.RecordsAreTheEnabled) take the place of the old ones under new ids; one that does not parse fails the entry |
| RrsetPatch.Draft.ApplySOAReplace | internal/caddy/api/pdns_compat.go:569-582 | the SOA is replaced by the first record's, only at the apex |
| RrsetPatch.Draft.ApplyRRSetChange | internal/caddy/api/pdns_compat.go:509-527 | fails exactly for the listed reasons, which do not depend on the zone's records |
| RrsetPatch.PDNSCompatHandler.PatchZone | internal/caddy/api/pdns_compat.go:421-474 | all entries or nothing: the status, and the stored zone changed only on success, then to what PatchFacts.SlotHoldsTheEnabled and RrsetPatch.PatchedRecords say |
| PatchFacts.StatusExactly | internal/caddy/api/pdns_compat.go:400-474 | which requests end with which status |
| PatchFacts.PatchPassesExactly | internal/caddy/api/pdns_compat.go:440-460 | a patch passes if and only if every entry does and the zone keeps an SOA and is valid |
| PatchFacts.EntryFailsExactly | internal/caddy/api/pdns_compat.go:509-582 | which entries fail: by name, type, change or content |
| RrsetPatch.PatchedRecords | internal/caddy/api/pdns_compat.go:443-447 | the records after a patch, ids aside: those no entry names, then what the entries want |
| RrsetPatch.NamedSlotHoldsLastEntry | internal/caddy/api/pdns_compat.go:537-567 | each name and type holds exactly what its last entry wants, in order |
| PatchFacts.SlotHoldsTheEnabled | internal/caddy/api/pdns_compat.go:537-567 | after a successful patch the slot of a last REPLACE has one record for each entry that is not disabled, in order, with the value its content parses to and the TTL given, or the zone's, at least 300, or 3600 for none; that of a last DELETE is empty |
| PatchFacts.RelativeNameExactly | internal/caddy/api/pdns_compat.go:479-495 | the record name of an entry; the zone's own is "@" |
| RrsetPatch.OtherRecordsStay | internal/caddy/api/pdns_compat.go:497-506 | records no entry names stay as they are, ids and order included |
| RrsetPatch.PatchKeepsIdsDistinct | internal/caddy/api/pdns_compat.go:562-564 | record ids stay pairwise distinct |
| RrsetPatch.PatchIsIdempotent | internal/caddy/api/pdns_compat.go:421-474 | sending the patch again changes no record, ids aside, and not the SOA |
| RrsetPatch.SoaIsLastEntrys | internal/caddy/api/pdns_compat.go:569-582 | the SOA is that of the last SOA entry, and untouched without one |
| DhcpSync.BuildLeaseMap | internal/dhcp/sync.go:186-197 | the loop makes the map LeaseMapExactly describes |
| DhcpSync.LeaseMapExactly | internal/dhcp/sync.go:186-197 | an address is in the map if and only if some lease has it with a usable name, and then under the name of the last such lease |
| DhcpSync.SyncManager.EnsureZone | internal/dhcp/sync.go:285-307 | the zone exists afterwards or creation is not allowed or not possible; no existing zone changes |
| DhcpSync.SyncManager.CreateRecords | internal/dhcp/sync.go:309-359 | one A record under an unused id in the forward zone, whatever becomes of the pointer record |
| DhcpSync.SyncManager.DeleteTrackedRecords | internal/dhcp/sync.go:361-376 | of the forward zone exactly the tracked record goes |
| DhcpSync.SyncManager.RemoveGone | internal/dhcp/sync.go:229-238 | exactly the leases no longer reported go, with their records |
| DhcpSync.SyncManager.AddNew | internal/dhcp/sync.go:240-262 | every reported lease is tracked under its name with its own record; nothing happens for unchanged ones |
| DhcpSync.SyncManager.SyncOnce | internal/dhcp/sync.go:137-182 | an address is tracked if and only if reported with a usable name, under the last one, and the forward zone holds an A record of that name and address; foreign records are as they were; a second pass changes neither the tracked leases nor any stored zone (a reverse zone may still be created) |
| DhcpSync.Drop | internal/dhcp/sync.go:361-376 | dropping a lease and its record keeps the invariant and all foreign records |
| DhcpSync.Come | internal/dhcp/sync.go:309-332 | so does a new lease with a record under an unused id |
| DhcpSync.TrackedIdsDiffer | internal/dhcp/sync.go:332-334 | tracked record ids are pairwise distinct |
| EditsAnswered.PatchedIsAnswered | internal/caddy/api/pdns_compat.go:457-474 | after a successful patch a query for a name and type it names is answered with exactly what the last entry wants |
| EditsAnswered.ContentsAreAnswered | internal/caddy/api/pdns_compat.go:537-567 | that is, with one RR for each entry of a REPLACE that is not disabled, in order: its parsed value under the name, with the TTL asked for within bounds or the zone's override |
| EditsAnswered.PutIsAnswered | internal/dnsserver/update.go:238-260 | after a put a query for its name and type is answered with its one record |
| EditsAnswered.LeaseIsAnswered | internal/dhcp/sync.go:309-332 | a query for the name of a tracked lease is answered with its address if and only if the address parses as one of IPv4 |
| ConfigMerge.MergeMap | internal/config/config.go:366-390 | the loop equals the recursive merge |
| ConfigMerge.MergeOverridesMap | internal/filestore/config.go:40-61 | the separately written loop equals the same merge, so the two agree on all inputs |
| ConfigFacts.MergedAtEveryPath | internal/config/config.go:366-390 | at every path: the first plain value of the overrides along it is all that is left, where they run out or have null the base stays, objects stay objects |
| ConfigMerge.AssociativeExactlyWithoutClash | internal/config/config.go:366-390 | merging is associative if and only if no path has an object, then a plain value, then an object that does not cover the first |
| ConfigMerge.CoversExactly | internal/config/config.go:366-390 | overrides leave nothing of an object if and only if they cover it |
| ConfigMerge.StepwiseEqualsRestart | internal/config/config.go:341-364 | patches that agree pairwise on objects give live what a restart makes of the persisted overrides |
| ConfigMerge.KeepsUpExactlyWithoutClash | internal/config/config.go:366-390 | for any run of patches, every prefix merged step by step is what a restart makes of it, if and only if no patch clashes with the base and the overrides before it |
| ConfigMerge.RestartDiffers | internal/config/config.go:366-390 | a base and two patches for which they differ |
| ConfigDecode.MergeOverrides | internal/config/config.go:341-364 | the overrides merged in and decoded into the typed configuration that is there, key by key in their order, each into the field of its name in any letter case, then the defaults |
| ConfigFacts.TargetExactly | internal/config/config.go:355-362 | a key goes to the field of its name, else to the first that differs in letter case only |
| ConfigFacts.FieldTakesLast | internal/config/config.go:355-362 | a field takes what the greatest of its keys says |
| ConfigFacts.FieldStays | internal/config/config.go:355-362 | a field without a key stays as it was |
| ConfigFacts.DefaultsExactly | internal/config/config.go:392-400 | of every field, however deep, an empty value becomes the default and any other stays |
| ConfigDecode.DecodedWhole | internal/config/config.go:355-362 | a document that names every field, with no other spelling after it, leaves nothing of the old configuration |
| ConfigDecode.RestartIsRunning | internal/config/config.go:341-364 | patches that fit, in spellings that sort before the fields' own and with self-contained values, give the running configuration what a restart gives |
| ConfigDecode.LastPatchDecides | internal/config/config.go:341-364 | after such patches the next one is accepted, and the restart after it decodes, if and only if it fits the types |
| ConfigBreaks.TwinIsKeptExactly | internal/config/config.go:355-362 | patches of a field and of another spelling of it survive every restart if and only if that spelling sorts before the field's name |
| ConfigBreaks.WebUiComesBack | internal/config/config.go:228-232 | in any configuration with the section caddy.web_ui, turning it off as enabled and on as Enabled ends on, and off after a restart |
| ConfigBreaks.PartialValueBreaks | internal/config/config.go:355-362 | a value that keeps something of the old one gives the running configuration and a restart different results |
| ConfigDecode.ConfigHandler.ServePatch | internal/caddy/api/config.go:103-142 | the same filtered patch goes into the persisted overrides and, decoded, into the running configuration; a failed decoding is reported and stays persisted |
| ConfigFacts.EditsExactly | internal/caddy/api/config.go:103-142 | kept of a patch are exactly the editable keys that are not null |
| ConfigDecode.ConfigHandler.Restart | cmd/domudns/main.go:250-264 | a restart merges and decodes the persisted overrides onto the base and, for such patches, gives the running configuration |
| QueryLog.RingBuffer.Add | internal/querylog/ringbuffer.go:32-41 | the ring always holds exactly the last capacity entries of the log |
| QueryLog.RingBuffer.Query | internal/querylog/ringbuffer.go:45-100 | one page of the matching buffered entries, newest first, with total and whether more follow |
| QueryLog.FoundNewestFirst | internal/querylog/ringbuffer.go:45-100 | what a query finds are exactly the entries that meet all criteria given, newest first |
| QueryLog.MeetsExactly | internal/querylog/ringbuffer.go:204-227 | the criteria: beginning of the address, part of the domain, equal result, type and node, times within both bounds |
| QueryLog.PageExactly | internal/querylog/ringbuffer.go:72-99 | the stretch of the list from the offset, 100 entries unless told otherwise and 1000 at most, with the total and whether more follow |
| QueryLog.RingBuffer.Drain | internal/querylog/ringbuffer.go:165-201 | the newest entries after a time, at most max of them, oldest first |
| QueryLog.AddToWindow | internal/querylog/ringbuffer.go:32-41 | writing one slot and moving the head drops the oldest entry and appends the new one |
| QueryLog.PagesAreTheList | internal/querylog/ringbuffer.go:72-99 | consecutive pages concatenate to the whole list, and hasMore is false exactly on the last |
| QueryLog.QueryLogger.DrainChannel | internal/querylog/logger.go:213-225 | everything waiting in the channel reaches the ring in order |
| QueryLog.QueryLogger.AddEntries | internal/querylog/logger.go:203-210 | all entries reach the ring in order |
| QueryLog.QueryLogger.DoPush | internal/querylog/logger.go:229-243 | with time stamps that never go back successful pushes deliver in order and never twice, each the newest 1000 or fewer buffered entries that the last push time does not cover; a failed push changes nothing |
| QueryLog.DrainedFrom | internal/querylog/ringbuffer.go:165-201 | in a log whose time stamps never go back, what is newer than a time is exactly the end of the log that the time does not cover |
| QueryLog.TiesAreCovered | internal/querylog/ringbuffer.go:165-201 | what a push time covers beyond what was sent are the entries that tie with the last one sent; none, if and only if the next entry is newer |
| JsonDepth.CheckJSONDepth | internal/caddy/api/json.go:37-70 | the nested index loops equal a recursive scan |
| JsonDepth.SkipText | internal/caddy/api/json.go:43-54 | brackets, quotes and escapes inside a string never count |
| JsonDepth.AcceptsExactlyWithinLimit | internal/caddy/api/json.go:36-70 | for every JSON value in every layout, accepted if and only if it nests within the limit |

## Left out

- Sockets, the DNS wire format, HTTP routing, TLS and ACME, the dashboard, sessions, metrics, logging and SQLite: input and output or thin state.
- The upstream forwarder, singleflight, rebinding and DNSSEC checks: parameters of the chase; the ALIAS phase outside a CNAME chase and the caching of its result are not modelled.
- File input and output: a file is a map cell, encodings are inverse pairs, hashes injective and never zero, and only polling models failing writes. Presentation-format parsing, zone and domain validation, host name sanitizing, reverse zone names and the regular expression engine are parameters.
- Names: case folding is ASCII; a backslash-escaped final dot is not modelled. JSON bytes are characters.
- RRs: the data of a record is its value as text, with the final dot where it is a name; the numbers and the tag beside it, and the bytes an address or an SOA parses to, are not modelled.
- Cache: keys are opaque strings (rendering name and type is left out), counters are unbounded, elapsed times beyond 2^32 seconds and the rounding of Seconds() are not modelled; the listing and statistics calls are left out.
- Reload: callbacks return (their timeout is left out), and so is the path without a shared scheduler.
- ReloadCatchUp.IdleMeansInstalled: the reads of the store succeed; after a failed one the old state stays.
- ChainFacts.AnswerIsTheChainExactly: assumes at most one CNAME per name (section 3.6.2 of RFC 1034), like the other chain results; the code takes the first one it finds further down the chain.
- CnamePhase.ChasedAnswer: claims connectedness only, where the visible zones have at most one CNAME per name; across zones an owner can occur twice (a CNAME in one zone and a chain of another can meet the same name again).
- Blocklist: the IP whitelist is carried along, its CIDR matching is not modelled.
- Receiver: the pull endpoints share the nonce memory and go through the same checks in another order; they are requests of the same kind here. HMAC is valid or not.
- Poll: runs of polls only. Pushes do not touch the checksums, so convergence of gated sections is not claimed when pushes and polls mix. Pulling per-URL domain files is left out.
- DynUpdate.DDNSHandler.ApplyUpdate: assumes distinct record ids in the zone, which all operations modelled here keep; zones created with client-chosen ids need not have them. Statistics are left out.
- RrsetPatch: UpdateZone is part of PatchZone, one atomic step.
- DhcpSync.SyncManager.SyncOnce: says nothing about pointer records beyond leaving the forward zone alone, because the code deletes them through one reverse zone per pass; assumes that only the manager deletes its records and that reverse zones differ from the forward zone. The status fields and the state file are left out.
- ConfigMerge: documents are trees of values, so aliasing of nested maps is not captured.
- ConfigDecode.RestartIsRunning: assumes that encoding/json gives back what it wrote (a field's text decodes to itself), and no fields left out of the JSON form where empty, which the configuration does not have. What a failed decoding leaves is a parameter. The environment variables that override cluster settings are left out. Letter case is that of ASCII.
- QueryLog.QueryLogger.DoPush: once time stamps have gone back, nothing is claimed of deliveries. Statistics and hourly counts are left out.
