# docker-net-dhcp: identity, leases and persistence

A Dafny model of the parts of the Docker network plugin that have to stay right while containers start, stop and
restart at the same time, with proofs about every sequence of their steps.

* **Pending containers** (`PendingSpec`, `PendingExact`, `PendingRuns`, `PendingStore`). Docker tells the plugin which containers are
  coming; per network they wait in a FIFO queue, with a metadata map beside it. `PendingSpec` says what each critical
  section does to the two maps as values, `PendingExact` what that means entry by entry, `PendingRuns` what every
  sequence of them keeps, and `PendingStore` holds the
  queues as the plugin does: slices over arrays, compacted in place.
* **Endpoint identity** (`Identity`, `Endpoints`, `CreateRuns`, `Protocol`, `ProtocolExact`, `Managers`). CreateEndpoint guesses which
  container it is for - by cached address, by queue, by elimination, or not at all - and the goroutine that Join starts
  corrects the guess. `Endpoints.Plugin` holds the plugin's maps and makes these searches step by step; `Protocol` is
  the same as a state machine in which anything else may happen between two critical sections, and `ProtocolExact` says
  what each step does in terms of what was there before. `CreateRuns` lets a call
  and the others take turns, which connects the two. `Managers` follows who may stop a DHCP manager.
* **The persistent cache** (`CacheSpec`, `CacheExact`, `CacheRuns`, `NetworkCache`, `CrashSafety`). Nested maps mirrored to disk.
  `NetworkCache.Cache` is the object, `CacheSpec` what its operations do, `CacheExact` what that means field by field,
  `CacheRuns` what sequences of them keep, and
  `CrashSafety` takes a save apart into its system calls.
* **DHCP clients** (`Supervisor`, `DhcpManager`, `LeasePipeline`). The restart loops of the two address families, the
  reaction to lease events, and the probe whose scanner, channel, reader and reaper run side by side.
* **Addresses** (`MacGen`). Deterministic MAC addresses and DUIDs, with Go's address parser.

`FailingRuns` has concrete inputs for what the proofs below find amiss. `Seqs` has what is needed about filtering
sequences, `Wrappers` the usual option and result types.

## Assumptions

* Docker creates an endpoint ID once and joins it at most once, after CreateEndpoint has answered without error; the ID
  has the twelve characters from which the link is named. Recovery visits each cached endpoint once.
* The clock does not run backwards; push, upsert and prune read it under the lock.
* Rename is atomic, and the file at the cache path is not a partly written one when the plugin is first started.
* The file format is an abstract print/parse pair: what is printed parses back, except that an empty map that
  `omitempty` left out comes back nil. A file that was only partly written does not parse.
* MD5 is a parameter, any function from seeds to sixteen bytes; so is the parsing of lease addresses.
* What Docker, netlink and the file system answer are arguments of the steps, so each statement holds for every answer.
  Where a traversal of a Go map could matter, its order is left open.
* Nested maps of the cache are values here. The code's Get and GetAll hand out the live maps, and CreateEndpoint and
  recovery traverse them after the lock is released (pkg/plugin/network.go:137-138, pkg/plugin/network.go:702-704); these
  readers are modelled as taking a snapshot, and no caller writes through what it is handed.
* Traversal of a container map is an outcome (`picks`), constrained only to be one that some order yields.
* In GetIP, `info = &event.Data` points into that iteration's own event, as loop variables do in the Go version that
  go.mod names.

## What the proofs show about the code

* Reconcile is idempotent exactly when no two containers of a network share an endpoint ID
  (`CacheRuns.ReconcileIdempotent`); `CacheRuns.SharedEndpointFlips` builds the second pass that changes something.
* Reconcile replaces container maps without setting its changed flag (pkg/plugin/cache.go:345), so a reconciliation that
  changes nothing else can leave the file stale; `CacheRuns.UnsavedReconcileStale` says exactly for which cached maps and
  listings, and `FailingRuns.NewContainerMapNotSaved` is one. The comparison of file and memory is therefore made with container maps left out.
* A DUID is the DUID-LL of section 11.4 of RFC 8415 only for six-octet addresses; the parser also admits eight and twenty
  octets, of which the first six are used (`MacGen.DuidOctets`).
* A manager is told to stop exactly when its endpoint is detached between its installation and another's over it
  (`Managers.ToldToStopIff`). So there are two ways in which its clients go on:
  * Another is installed over it (`Managers.LostIffOverwritten`), which an installer could see beforehand
    (`Managers.InstallLoses`). Only Join and recovery can collide (`Managers.OnlyBothCollide`), and they do when
    recovery, which starts beside the server, finds an endpoint that Join has just cached (`Managers.CollisionLoses`).
  * Join's goroutine, which nothing cancels, installs it after Leave and DeleteEndpoint have come and gone
    (`Managers.LateInstallStays`).
* The post-Join search finds the real name as soon as a listing shows the endpoint, but takes the name for the hostname
  when the inspection of the container it meets first fails; `Protocol.Convergence` says exactly when the address is then
  still the real container's, and `FailingRuns.CorrectionMisses` is a run in which it replaces a right guess.

## Model

| member | source | states |
|---|---|---|
| PendingRuns.EveryQueueShaped | pkg/plugin/plugin.go:211-257 | After any sequence of pushes, pops, upserts and prunes on a nondecreasing clock, each network's queue has distinct names, timestamps in order, and no forward entry behind a backward one |
| PendingRuns.NoContamination | pkg/plugin/plugin.go:217-226 | Whatever is queued is exactly what was pushed under its number, and a queued backward entry was pushed after every forward push on its network, so no pop returns a backward entry that a forward push should have flushed |
| PendingRuns.PruneDropsPrefix | pkg/plugin/plugin.go:302-314 | Pruning a reachable queue removes exactly a prefix, and that prefix is exactly the entries older than the cutoff |
| PendingRuns.QueueHasMeta | pkg/plugin/plugin.go:479-480 | In every interleaving of registrations, Leaves, pops and prunes, each queued entry has metadata for its network and name with a timestamp at least as late, unless a registration of that name is between its push and its upsert |
| PendingRuns.PoppedNameHasMeta | pkg/plugin/network.go:259-265 | Metadata at least as recent as a popped entry is still there after any operations that follow the pop, as long as no prune among them is too late for the entry and no registration of the name was open at the pop |
| PendingRuns.LeaveThenPop | pkg/plugin/plugin.go:385-406 | The last registration of a container, by Leave or by its die event: while no create event and no pop follows on the network and no prune takes it, it stays queued, others' backward entries line up behind it, and the next pop gets it if and only if nothing queued earlier under another name remains |
| PendingRuns.MetaIsLastUpsert | pkg/plugin/plugin.go:263-292 | A name has metadata if and only if some upsert of it is the last one and no later prune found it too old; the metadata then carries that upsert's hostname and time |
| PendingRuns.PushAccountedOnce | pkg/plugin/plugin.go:211-257 | Conservation: each push occurs exactly once among queued, popped, deduplicated, flushed and pruned, and nothing occurs there that was not pushed |
| PendingRuns.PopsInPushOrder | pkg/plugin/plugin.go:247-257 | The entries popped from a network, followed by those still queued, are in strictly increasing push order; none is popped twice |
| PendingRuns.LedgerIsQueue | pkg/plugin/plugin.go:211-327 | The numbered accounting used by the two rows above erases to exactly the queue the plugin holds |
| PendingRuns.LogHasEachPushOnce | pkg/plugin/plugin.go:235-242 | The push log that the accounting is measured against lists every numbered push exactly once |
| PendingExact.PushExact | pkg/plugin/plugin.go:211-243 | After a push an entry is queued exactly if it is the pushed one, or was queued under another name and is forward if the push is forward; the old entries keep their order and their multiplicity, the new one is last, and no other queue or metadata changes |
| PendingExact.PopExact | pkg/plugin/plugin.go:247-257 | A pop takes the front entry of its own queue and nothing else; an empty or missing queue is left as it is |
| PendingExact.PruneExact | pkg/plugin/plugin.go:296-327 | A prune keeps exactly the entries and metadata no older than the limit, in order, and exactly the keys under which something remains |
| PendingExact.LeavesIff | pkg/plugin/plugin.go:211-327 | In a reachable state an entry leaves its queue at a critical section if and only if that pops it from the front, finds it too old, or pushes another one of its name, or a forward one while it is backward |
| PendingExact.ForwardStays | pkg/plugin/plugin.go:217-226 | A forward entry stays queued through every run without a pop on its network, a prune that finds it too old, or a push of its name |
| PendingExact.AccountsJustified | pkg/plugin/plugin.go:211-327 | In the accounting of every run what was flushed is backward, what was deduplicated was replaced under its name, and what was pruned had expired |
| PendingStore.Append | pkg/plugin/plugin.go:222-240 | Go's append: extends the view by one entry, in the same backing array while capacity lasts and then changing one slot only, otherwise in a new array with the old one untouched |
| PendingStore.Compact | pkg/plugin/plugin.go:219-233 | The queue[:0] loop: the result views exactly the filtered old contents, and every slot outside the result keeps its value, so no slot is overwritten before it is read |
| PendingStore.PushSlice | pkg/plugin/plugin.go:215-242 | Two compactions and an append on one backing array amount to flush, deduplicate, append on sequences |
| PendingStore.Store.Push | pkg/plugin/plugin.go:211-243 | The queues change to the value-level push; every other network keeps its slice header, and every array that belongs to another network is untouched |
| PendingStore.Store.Pop | pkg/plugin/plugin.go:247-257 | Answers the front entry and leaves the tail; an empty or missing queue answers ("", "", false) and changes nothing |
| PendingStore.Store.PruneQueue | pkg/plugin/plugin.go:303-314 | One network's queue is filtered in place and its key dropped when nothing is left |
| PendingStore.Store.Prune | pkg/plugin/plugin.go:296-327 | Both maps, traversed in any order while entries are deleted, end as the value-level prune says |
| PendingStore.Replay | pkg/plugin/plugin.go:205-327 | Refinement: any sequence of critical sections on slices sharing backing arrays ends in exactly the queues and metadata of the value-level run |
| CacheRuns.ReloadBisimulation | pkg/plugin/cache.go:64-105 | A cache that was saved and loaded (empty maps come back nil) and the original give the same answers up to nil versus empty, the same decisions to save and the same file, for every further sequence of operations including Reconcile and PruneMetadata |
| CacheRuns.StepAlike | pkg/plugin/cache.go:108-370 | One operation on two caches equal up to nil maps: same answer, same decision to save, equal up to nil maps afterwards |
| CacheRuns.AlikeIsSameFile | pkg/plugin/cache.go:36-44 | Equal up to nil maps is exactly "prints to the same file" |
| CacheRuns.WriteReadsBack | pkg/plugin/cache.go:136-156 | SetEndpoint and SetMetadata (with the time stamped if missing) read back, and no other endpoint's reads change; SetEndpoint on an unknown network changes none |
| CacheRuns.DeleteReadsNothing | pkg/plugin/cache.go:253-276 | After DeleteEndpoint or Delete exactly the deleted endpoint or network reads as missing |
| CacheRuns.SetKeepsEntries | pkg/plugin/cache.go:203-222 | Set with nil maps keeps every endpoint and metadata entry while replacing the options |
| CacheRuns.StepSpares | pkg/plugin/cache.go:203-370 | A cached endpoint survives an operation unchanged if and only if the operation is not its deletion, replacement, or a reconciliation that does not list it as active |
| CacheRuns.EntryStands | pkg/plugin/cache.go:203-370 | A cached endpoint survives every sequence of such sparing operations, and a restart after it |
| CacheExact.QueriesExact | pkg/plugin/cache.go:108-133 | What each query answers, field by field, for cached and missing networks, endpoints and metadata; no query changes or saves anything |
| CacheExact.SetExact | pkg/plugin/cache.go:203-222 | Set stores the given options and container map, the given endpoints and metadata unless these are nil, then the cached ones, else empty ones; no other network changes |
| CacheExact.SetMetadataExact | pkg/plugin/cache.go:136-156 | SetMetadata changes one key of one network, made up if missing, stamps a missing time, keeps all other metadata, and saves |
| CacheExact.SetEndpointExact | pkg/plugin/cache.go:237-250 | SetEndpoint changes one endpoint of one cached network and saves; for an unknown network it answers that it is not found, changes nothing and saves nothing |
| CacheExact.DeleteEndpointExact | pkg/plugin/cache.go:253-268 | DeleteEndpoint takes one endpoint and its metadata out of a cached network, leaving nil maps nil and all else alone, and saves; for an unknown network it does nothing and saves nothing |
| CacheExact.PruneMetadataExact | pkg/plugin/cache.go:159-189 | PruneMetadata keeps exactly the metadata no older than the limit, everything else, and saves if and only if something was older |
| CacheExact.ReconcileListed | pkg/plugin/cache.go:300-369 | A network is cached after a reconciliation if and only if it was cached and is "global" or listed with the driver of the plugin, or it is so listed with options that decode; what a kept or added network then holds |
| CacheExact.ReconcileSavesIff | pkg/plugin/cache.go:366-369 | A reconciliation saves if and only if it changes something besides container maps |
| CacheSpec.NetworksListed | pkg/plugin/cache.go:300-305 | A network counts as listed if and only if some listed network has its ID and a driver named by one of the two prefixes and a tag of at least one character on one line; the last such listing is the one taken |
| CacheRuns.StepFiled | pkg/plugin/cache.go:136-276 | Every operation keeps each network under its own ID and each endpoint under its own ID |
| CacheRuns.UnsavedStepForgets | pkg/plugin/cache.go:159-189 | The changed flags are complete: an operation that does not save leaves memory equal, except that Reconcile may change container maps |
| CacheRuns.UnsavedReconcileStale | pkg/plugin/cache.go:345-368 | Seen from the inputs of a reconciliation that does not save: the file stays current in every order of traversal if and only if each cached container map is an inverse of the listed containers and these share no endpoint ID, and in some order if and only if each is an inverse |
| FailingRuns.NewContainerMapNotSaved | pkg/plugin/cache.go:345-368 | For a cached network without a container map and a listing with one container the reconciliation does not save and the file is stale, in every order |
| CacheRuns.ReconcileExact | pkg/plugin/cache.go:310-365 | Which networks, endpoints and metadata keys survive a reconciliation, in both directions, with unchanged values: "global" if present, listed networks that were cached or decode, old endpoints that are active under a nonempty ID, and metadata minus exactly the pruned endpoints' keys |
| CacheRuns.SecondReconcileQuiet | pkg/plugin/cache.go:310-369 | A second reconciliation on the same listing never saves |
| CacheRuns.ReconcileIdempotent | pkg/plugin/cache.go:300-369 | A second reconciliation, whatever order it meets the containers in, changes nothing if and only if no two containers of a kept network share an endpoint ID |
| CacheRuns.SharedEndpointFlips | pkg/plugin/cache.go:337-345 | With two containers sharing an endpoint ID, some traversal order makes the second reconciliation change the container map |
| NetworkCache.Cache.Save | pkg/plugin/cache.go:82-105 | Temporary file, rename, clean-up: the effect on both files for each first failing step; succeeds exactly when no step fails |
| NetworkCache.Cache.Get | pkg/plugin/cache.go:108-121 | Answers as the value-level Get; nil endpoint and metadata maps are handed out as empty ones |
| NetworkCache.Cache.GetMetadata | pkg/plugin/cache.go:124-133 | Answers as the value-level query, with nil maps finding nothing |
| NetworkCache.Cache.GetAll | pkg/plugin/cache.go:192-200 | Exactly the cached networks, as many as there are keys, in any order |
| NetworkCache.Cache.GetEndpoint | pkg/plugin/cache.go:225-234 | Answers as the value-level query, with nil maps finding nothing |
| NetworkCache.Cache.SetMetadata | pkg/plugin/cache.go:136-156 | Takes the value-level step and always attempts a save |
| NetworkCache.Cache.PruneMetadata | pkg/plugin/cache.go:159-189 | Deleting while traversing removes exactly the expired entries of every network; saves exactly when there was one |
| NetworkCache.Cache.Set | pkg/plugin/cache.go:203-222 | Takes the value-level step, attempts a save, reports its outcome |
| NetworkCache.Cache.SetEndpoint | pkg/plugin/cache.go:237-250 | Fails and touches nothing for an unknown network; otherwise takes the value-level step and reports the save |
| NetworkCache.Cache.DeleteEndpoint | pkg/plugin/cache.go:253-268 | Succeeds without a save for an unknown network; otherwise removes endpoint and metadata and reports the save |
| NetworkCache.Cache.Delete | pkg/plugin/cache.go:271-276 | Removes the network and attempts a save even when it was not there |
| NetworkCache.Cache.Listed | pkg/plugin/cache.go:300-305 | Keeps exactly the networks listed with a driver name that has one of the two prefixes and a tag, the last listing of a repeated ID |
| NetworkCache.Cache.Rebuild | pkg/plugin/cache.go:337-344 | Whatever order containers come in: the result maps every endpoint ID to some container that has it, and the active set is the nonempty IDs |
| NetworkCache.Cache.DropGhosts | pkg/plugin/cache.go:310-318 | Removes exactly the unlisted networks other than "global"; flags a change exactly when there was one |
| NetworkCache.Cache.DropOrphans | pkg/plugin/cache.go:348-362 | Deleting while traversing removes exactly the inactive endpoints and their metadata keys; flags a change exactly when there was one |
| NetworkCache.Cache.Reconcile | pkg/plugin/cache.go:279-370 | The in-place reconciliation, in any traversal order, ends in the value-level result and saves exactly when its condition says something changed; a cached network other than "global" stays if and only if it is listed with a driver of this plugin |
| CrashSafety.CrashLeavesWholeSnapshot | pkg/plugin/cache.go:82-105 | After any operations, failures and crashes, dying now leaves at the cache path what was there at first or a whole snapshot, namely the last committed one or the one being committed, and a restart loads exactly that |
| CrashSafety.SuccessfulSaveCatchesUp | pkg/plugin/cache.go:82-105 | A save that reports success leaves the file equal to the whole of memory, whatever failed before it |
| CrashSafety.FileAgreesWithMemory | pkg/plugin/cache.go:136-276 | While every save succeeds, after each completed operation the file equals memory, container maps aside |
| CrashSafety.MemoryIsRun | pkg/plugin/cache.go:82-276 | While the process lives memory is exactly what the operations make of it that got the lock, whichever step of whichever save fails |
| CrashSafety.RunFiled | pkg/plugin/cache.go:203-276 | In memory and in the file, across crashes and failures, networks and endpoints stay filed under their own IDs |
| CrashSafety.SaveIsItsSteps | pkg/plugin/cache.go:82-105 | The undisturbed sequence of system calls has exactly the effect that the cache object's Save states, for each fault |
| MacGen.Generate | pkg/macgen/macgen.go:28-60 | The loop through the hex text yields 0x02 and the first five digest bytes in the asked format; an empty seed and an unknown format are errors |
| MacGen.TextRoundTrip | pkg/macgen/macgen.go:50-59 | Each of the three text formats parses back to the octets it was made from |
| MacGen.TextInjective | pkg/macgen/macgen.go:50-59 | In one format two texts are equal exactly for equal octets |
| MacGen.TextSpells | pkg/macgen/macgen.go:50-59 | Every text spells its octets, character by character: two lower-case hex digits each, with colons or hyphens between octets or dots between pairs of them |
| MacGen.ParseMacIff | pkg/macgen/macgen.go:63-67 | The address parser answers octets for exactly the texts that spell six, eight or twenty of them in digits of either case, in one of the three layouts |
| MacGen.GeneratedOctets | pkg/macgen/macgen.go:36-60 | A generated text parses, in every format, to 0x02 followed by the first five digest bytes |
| MacGen.SameMacIff | pkg/macgen/macgen.go:36-60 | Two seeds get one address exactly when their digests agree on five bytes |
| MacGen.GenerateDUID | pkg/macgen/macgen.go:63-67 | Succeeds exactly on parseable addresses |
| MacGen.DuidOctets | pkg/macgen/macgen.go:69-81 | The DUID spells 00:03:00:01 and the first six octets; it is the DUID-LL of the address, as in section 11.4 of RFC 8415, if and only if the address has six octets |
| MacGen.SameDuidIff | pkg/macgen/macgen.go:63-81 | Two addresses get one DUID exactly when they agree on the first six octets |
| MacGen.DuidIgnoresFormat | pkg/macgen/macgen.go:63-81 | A generated address has one DUID, whichever format it was printed in |
| Identity.SoleIsOnly | pkg/plugin/network.go:188-226 | Elimination answers exactly when one position of the listing, and no other, holds a candidate, and then answers a candidate |
| Identity.CandidateExact | pkg/plugin/network.go:188-216 | A container is a candidate if and only if its first attachment to the network, by ID or by name, is free or holds this endpoint, and no hint claims its name |
| Identity.RealHostnameExact | pkg/plugin/network.go:574-580 | A configured hostname counts unless it is the first twelve characters of the container ID; then the name does |
| Identity.IdentifiedIsReal | pkg/plugin/network.go:556-592 | When Docker is truthful about the endpoint, the search finds the real name if and only if one of the first ten listings shows the endpoint, else nothing; and the real hostname if and only if the container it meets first is inspected, else none |
| Identity.SearchExact | pkg/plugin/network.go:556-592 | On any answers of Docker, truthful or not: the search ends with the first container met in ten polls that holds the endpoint and has a name, and finds that name; the hostname is that of the last container inspected up to there, and a short container ID counts as the name; otherwise it finds nothing |
| Identity.MacFormat | pkg/plugin/network.go:411-420 | "hyphen" and "dot" give themselves and every other option gives colons, always a format the generator supports |
| Protocol.SeedMacOctets | pkg/plugin/network.go:316-323 | The address put on the link is 0x02 and the first five digest bytes of the seed, whatever the format option of the network |
| ProtocolExact.LookupExact | pkg/plugin/network.go:136-151 | A presented address resolves to a cached endpoint of the network with that address and a name, any of them if several; otherwise the queue is next |
| ProtocolExact.PopExact | pkg/plugin/network.go:158-170 | Each attempt takes the front entry of the queue with its name and hostname, and after fifteen empty attempts the containers are listed |
| ProtocolExact.EliminateExact | pkg/plugin/network.go:178-249 | Elimination gives the name of the only container that is free and unclaimed, and that name as hostname; without one, no name |
| ProtocolExact.EnrichExact | pkg/plugin/network.go:259-265 | A name without a hostname gets the hostname of its metadata, if there is one; nothing else changes |
| ProtocolExact.RecordExact | pkg/plugin/network.go:267-275 | The hint takes the name and hostname and keeps its other fields; the endpoint counts as named by elimination exactly when it was |
| ProtocolExact.ChooseExact | pkg/plugin/network.go:277-327 | A presented address is flagged and linked as parsed; otherwise the seed is the hostname, else the name, else the endpoint ID, it is recorded, and the address is 0x02 and five digest bytes of it |
| ProtocolExact.TakeExact | pkg/plugin/network.go:511-520 | Join takes the hint out, if there is one, and its goroutine starts with exactly that hint |
| ProtocolExact.NameHostExact | pkg/plugin/network.go:228-244 | The hostname goroutine writes the real hostname only while the hint has none or just the name, and changes no other hint |
| ProtocolExact.OutOfTurn | pkg/plugin/network.go:91-671 | The steps of CreateEndpoint and of the goroutine come in their order: one whose turn it is not changes nothing |
| Endpoints.Plugin.ResolveByMac | pkg/plugin/network.go:136-151 | Scanning the cached endpoints in any order finds one with the presented address and a name if there is any |
| Endpoints.Plugin.ClaimedNames | pkg/plugin/network.go:179-185 | Collects exactly the nonempty names held by hints |
| Endpoints.Plugin.ResolveByElimination | pkg/plugin/network.go:176-249 | The scan over containers and attachments answers the one remaining candidate, or nothing for none or several |
| Endpoints.Plugin.ChooseMac | pkg/plugin/network.go:277-327 | A user's address is taken verbatim and flagged; otherwise the hint records hostname, else name, else endpoint ID, and the address is the one generated from that seed |
| Endpoints.Plugin.CreateEndpoint | pkg/plugin/network.go:132-327 | Refinement: the imperative call, through lookup, fifteen pops, elimination, enrichment, hint and address, with others doing anything the protocol knows but another CreateEndpoint between any two of its critical sections, is a run of the protocol, and leaves the plugin as that run says |
| Endpoints.Plugin.FindQueued | pkg/plugin/network.go:157-170 | The retry loop is a run of at most fifteen popping steps with the others' turns between them, and ends with the popped name and hostname or with none |
| Endpoints.Plugin.Meanwhile | pkg/plugin/network.go:228-244 | Whatever others do - Joins that take hints, hostname goroutines that write them, pushes, pops and prunes - the plugin's maps stay those of the protocol's world |
| Endpoints.Plugin.Identify | pkg/plugin/network.go:557-592 | Ten polls with their nested scans and early exits compute exactly the search that IdentifiedIsReal is about |
| Endpoints.Plugin.Correct | pkg/plugin/network.go:594-639 | The nested conditions of the correction leave the hint and the interface address that the protocol's correction step says |
| Endpoints.Plugin.Leave | pkg/plugin/network.go:673-698 | A named cached endpoint is queued backward with its hostname and, after whatever others do meanwhile, recorded in the metadata; an unnamed or unknown one queues nothing; then the manager is taken out and the endpoint forgotten |
| ProtocolExact.LeaveExact | pkg/plugin/network.go:677-686 | Leave puts a backward entry with the cached name and hostname last in the queue, and metadata with the same into the map, touching no other entry, queue or metadata; without a cached name it does neither |
| Endpoints.Plugin.Register | pkg/plugin/plugin.go:479-480 | A registration is a push and an upsert of the same name, with whatever others do between the two |
| ProtocolExact.RegisteredExact | pkg/plugin/plugin.go:479-480 | A registration puts its entry last in the queue, behind those of other names that its direction spares, with the time of the push, and then the metadata with the time of the upsert |
| Endpoints.Plugin.Persist | pkg/plugin/network.go:649-667 | The end of the goroutine installs the manager and stores exactly the entry that the restart results are about |
| CreateRuns.PopLoopFinds | pkg/plugin/network.go:157-170 | Whatever others do between the attempts, the loop takes the first entry of the queue at the first of fifteen attempts that finds it not empty, and nothing if no attempt does |
| CreateRuns.ForeignIgnoresCreate | pkg/plugin/network.go:94-95 | What others do neither depends on where the running call stands nor moves it |
| CreateRuns.FollowIsRun | pkg/plugin/network.go:91-95 | What a call does from a reachable world is again reachable, so every statement about runs applies to it |
| Protocol.Convergence | pkg/plugin/network.go:594-634 | For every order of events, pops and CreateEndpoint calls: an endpoint that the post-Join search was shown and no correction of which was refused has the user's address if one was given and otherwise the one generated from what the search found, never from the guess; that is the real container's address if and only if the container met first was inspected, or it has no hostname, or name and hostname agree in the digest bytes used |
| Protocol.CorrectionExact | pkg/plugin/network.go:594-639 | The correction of an identified endpoint puts 0x02 and five digest bytes of the found hostname, else the found name, on the link if and only if that seed is not the recorded one, the address is not the user's, the kernel accepts and the link is there; it counts as refused exactly when it was due and not made; no other link moves |
| Protocol.RefreshExact | pkg/plugin/dhcp_manager.go:137-141 | The address is read again, and counts as such, if and only if the refresh succeeds and the link is there |
| Protocol.FailedIffRefused | pkg/plugin/network.go:594-634 | In every run the correction of an endpoint has failed if and only if one of its steps was refused, and its address was read again if and only if one of its steps did so |
| Protocol.UnrefusedUpdates | pkg/plugin/network.go:594-634 | An endpoint whose link stays and whose kernel calls succeed has no refused correction |
| FailingRuns.CorrectionMisses | pkg/plugin/network.go:574-600 | After a poll shows the container but fails to inspect it, a run in which nothing else fails ends with an address that is not the real container's although the one CreateEndpoint guessed was, unless the digests of name and hostname agree |
| Protocol.RunMac | pkg/plugin/network.go:277-327 | The invariant behind it: at every point of every run a linked endpoint has the user's address or the one generated from the seed its hint records, until a correction is refused |
| Protocol.UnidentifiedKeepsGuess | pkg/plugin/network.go:640-643 | Without an identification the address stays the user's, or the one of the recorded guess |
| Protocol.RunFound | pkg/plugin/network.go:556-592 | What the goroutine acts on is always the outcome of its own polls |
| Protocol.EliminationNeedsSole | pkg/plugin/network.go:219-249 | Elimination yields a name if and only if exactly one listed container is a candidate and it has a name, and never a claimed name |
| Protocol.EliminationInjective | pkg/plugin/network.go:173-275 | In every run two distinct endpoints that elimination named and that still hold their hints have different seed names |
| Protocol.AttrsAreTarget | pkg/plugin/dhcp_manager.go:137-141 | After an identification, a correction that was not refused and a link refresh, the address that will be stored is the one the endpoint should have |
| Protocol.EntryIsCached | pkg/plugin/network.go:653-667 | The goroutine stores, under its endpoint and in a cached network only, the address it last read, the corrected hostname and name, and what it was told of sandbox, lease and gateway |
| Protocol.RestartRoundTrip | pkg/plugin/network.go:136-151 | While that entry is cached and its address is unique in the network, a later CreateEndpoint presenting the address resolves to the real name and hostname without popping the queue, and links the same address |
| Protocol.RestartThroughQueue | pkg/plugin/network.go:157-170 | The last registration of an identified endpoint's container, by Leave or by a die event that says the same, brings the next CreateEndpoint without a presented address to the real name and hostname, and to the very address the endpoint had, provided nothing was popped and no create event pushed on the network since, no prune took the entry, and no earlier entry of another name remains; other containers may register meanwhile |
| Managers.StopAtMostOnce | pkg/plugin/network.go:448-456 | In every interleaving no manager is stopped twice and no installed manager has been stopped |
| Managers.OverwrittenNeverStopped | pkg/plugin/network.go:649-651 | A manager overwritten by a second installation for its endpoint is not stopped by any continuation |
| Managers.LostIffOverwritten | pkg/plugin/network.go:649-651 | A manager that is made is out of everyone's reach - neither starting, given up, installed, detached nor stopped - if and only if some step installed another manager over it |
| Managers.InstallLoses | pkg/plugin/network.go:740-742 | What an installer could check first: installing loses a manager if and only if the endpoint has one installed |
| Managers.OnlyBothCollide | pkg/plugin/network.go:700-708 | Only an endpoint that is both joined and recovered in one process can lose a manager |
| Managers.CollisionLoses | pkg/plugin/network.go:700-744 | And one that Join installs and recovery then finds in the cache does: a run of four steps that loses the first manager |
| Managers.ToldToStopIff | pkg/plugin/network.go:542-651 | A manager is told to stop if and only if it was installed and its endpoint was detached later, before another was installed over it |
| Managers.StartingIff | pkg/plugin/network.go:542-548 | A manager is starting from when it is made until it is installed or given up, and at no other time |
| Managers.ClosedIff | pkg/plugin/network.go:687-695 | A manager is closed if and only if whoever detached it goes on to stop it |
| Managers.LateInstallStays | pkg/plugin/network.go:542-651 | A goroutine of Join that installs after Leave and DeleteEndpoint leaves a manager that no continuation tells to stop unless the endpoint is detached once more |
| Supervisor.EveryClientReleased | pkg/plugin/dhcp_manager.go:158-225 | In every interleaving a family's starts and releases are exactly start 0, release 0, start 1, and so on; at most one client is unreleased, and none once the loop has exited |
| Supervisor.AtMostOneAfterTheEnd | pkg/plugin/dhcp_manager.go:170-221 | At most one client is successfully started after Stop, and at most one start is even tried after the namespace path has vanished for good |
| Supervisor.EndedIff | pkg/plugin/dhcp_manager.go:132-225 | A restart loop has ended if and only if it had no link at set-up, its first start failed, a Stat found the namespace path missing, or it saw that it was stopped, after a release or in the back-off |
| Supervisor.Restarts | pkg/plugin/dhcp_manager.go:166-221 | While it is not stopped and the namespace is there, a client that died is released and, after any number of failed starts with a back-off before each, followed by the client with the next number, whatever the other family does |
| Supervisor.FirstStarts | pkg/plugin/dhcp_manager.go:132-164 | With a link and a namespace the family gets its first client |
| Supervisor.InTurn | pkg/plugin/dhcp_manager.go:132-222 | Each step of a goroutine follows one that the loop puts before it: no client starts without a look at the namespace, and between two clients come the release, the check for a stop and a look at the namespace |
| Supervisor.InTurnAfterStat | pkg/plugin/dhcp_manager.go:181-221 | A look at the namespace after a client leads to the back-off, and one at set-up or after the back-off to a start |
| DhcpManager.Manager.Renew | pkg/plugin/dhcp_manager.go:62-85 | The last address is the leased one if it parses; on a change, for each combination of failing netlink calls, exactly which of the two addresses the interface ends with; an unparseable address changes nothing; the other family is untouched |
| DhcpManager.RenewedExact | pkg/plugin/dhcp_manager.go:72-79 | A lease for another address puts it on the interface unless both ways to add it fail and it is not there, and takes the last one off unless that fails; otherwise nothing changes |
| DhcpManager.Manager.ProcessEvents | pkg/plugin/dhcp_manager.go:100-130 | The loop's counter, total back-off, last address and interface are those of the event sequence |
| DhcpManager.BackoffSinceLease | pkg/plugin/dhcp_manager.go:112-122 | The counter is the number of collisions since the last bound or renew, failure events included, and c of them sleep c(c+1)/2 - 3 seconds in total from c = 3 on, none below |
| DhcpManager.BackoffFromStart | pkg/plugin/dhcp_manager.go:101-122 | The same from the start of a client that has had no lease |
| DhcpManager.LastIpIsLastParseable | pkg/plugin/dhcp_manager.go:80-84 | The family's last address is that of the last bound or renew event with a parseable address, or the initial one when there is none |
| DhcpManager.InterfaceFollowsLease | pkg/plugin/dhcp_manager.go:72-79 | An interface holding exactly the manager's address holds exactly the manager's address after any events when netlink calls succeed |
| DhcpManager.OthersStay | pkg/plugin/dhcp_manager.go:72-79 | Whatever fails, addresses that the manager neither had nor leased are left alone, and without a link all of them |
| LeasePipeline.Read | pkg/udhcpc/client.go:222-231 | The reader ends with the last bound or renew event's data, and with nothing exactly when there was none |
| LeasePipeline.RunLossless | pkg/udhcpc/client.go:115-148 | In every interleaving each decoded event has been received, in order, or is in the slot or in the scanner's hand |
| LeasePipeline.AnswerIsLastLease | pkg/udhcpc/client.go:201-248 | When Reap succeeds, GetIP answers the last decoded bound or renew event's data, and no lease exactly when there was none, in every interleaving |
| LeasePipeline.ScannedInOrder | pkg/udhcpc/client.go:115-148 | In every interleaving the decoded events are those of the decodable lines of some first part of the output, in order, and the rest is still to be read unless the pipe was closed early |
| LeasePipeline.AnswerForOutput | pkg/udhcpc/client.go:201-248 | When Reap succeeds and the pipe was not closed early, GetIP answers the last bound or renew line of the output, and no lease exactly when there is none |
| LeasePipeline.ReapedIff | pkg/udhcpc/client.go:159-174 | What Reap returned is its one outcome, and GetIP answers with an error if and only if that is one |
| LeasePipeline.WaitsFor | pkg/udhcpc/client.go:126-145 | The scanner is held up exactly while the slot is full and it has an event to send, the reader exactly while the slot is empty and the channel open, and GetIP by nothing but the process and the reader |
| LeasePipeline.NeverStuck | pkg/udhcpc/client.go:115-148 | Until GetIP has answered some goroutine can step, and a scanner holding an event can send it now or after one receive |
| LeasePipeline.BoundedSteps | pkg/udhcpc/client.go:115-248 | For n lines of output no run takes more than 3n + 4 steps |

## Left out

- HTTP handlers, JSON requests, option decoding and the main programs.
- Docker, netlink, namespaces and processes themselves; contexts, timeouts, sleeping and logging beyond "may fail".
- cmd/udhcpc-handler/main.go, the scripts, and the tests.
- CreateNetwork's bridge checks, EndpointOperInfo, addRoutes, and the default-route update at the end of renew.
- The event dispatch of watchDockerEvents: which event becomes which registration, and its reconnect; any sequence of
  registrations is covered instead.
- The loops that call Reconcile, PruneMetadata and the prune of pending entries on a ticker; any times are covered.
- Addresses and gateway in hints, and the initial lease in CreateEndpoint (which asks for the same family twice on IPv6
  networks, as its helper ignores its argument); SetUp may fail, and that is all.
- Arguments of the DHCP client's command line, and the DHCP manager's own Start, findPID and awaitNetNS.
- The bytes of the JSON file and the inside of MD5.
- When udhcpc exits before its output is read, the pipe may be closed early; statements about leases are about the events
  the scanner decoded, and the step that closes the pipe may come at any time.
- A cache entry may be stored after Leave or DeleteEndpoint, as a manager may be installed (`Managers.LateInstallStays`);
  the hostname goroutine may write a hint back after Join took it; a name found by address does not pop the queue. The
  model does all of these, and what they lead to beyond the manager is not followed.
- Liveness in real time: that a process exits or Docker answers. `LeasePipeline` bounds steps, not time.
- Supervisor.EveryClientReleased: the loop of setupClient is a set of steps rather than a method, since what matters is
  every interleaving with Stop, the namespace and the other family.
- LeasePipeline.AnswerIsLastLease: the goroutines are steps; only the reader's loop is also a method.
- Endpoints.Plugin.CreateEndpoint: ends at the choice of the address; adding and setting up the link are steps of `Protocol`.
- Endpoints.Plugin.Leave: others have their turn between its push and its upsert only; reading the cache before, and taking
  out the manager and forgetting the endpoint after, follow without a gap.
- NetworkCache.Cache.Get: answers a snapshot; that its caller goes on reading the live maps is not modelled.
- NetworkCache.Cache.GetAll: answers snapshots, as Get does.
