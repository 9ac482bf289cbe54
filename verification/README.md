# Hydra HexCore: a verified model of the head service

Hydra HexCore runs Cardano Hydra heads. For every node of a head it keeps a database row, a Docker
container and an entry in a cache of running nodes, and it hands the numbers it deals in, often beyond
2^53, to browsers as JSON. This project models the parts of it whose correctness is not visible from
any one function, and proves what they promise. `dafny verify dfyconfig.toml` checks all of it.

**The head life cycle** (`Docker`, `DockerServices`, `HeadRows`, `ContainerChanges`, `HydraHeads`).
`DockerService` and `HydraHeadService` are classes over a Docker daemon, a database and a disk whose
every call may fail. The daemon is a map from names to containers. While `healthy` holds it fails no
call that its state allows, and otherwise any call may fail; `storeHealthy` says the same of database
and disk, and `sourcesUp` that protocol parameters can be had. The flags are read by the contracts and
written by nothing, so each contract says what an operation does under every pattern of failures and,
separately, what it must achieve when nothing fails. What cannot be seen from the containers afterwards
is counted or logged: create calls and those that clashed, restart calls, and cleanups that threw. So a
creation that gives up has made every attempt, a restart has called each container of its head once, and
what a rollback leaves behind is what its own cleanup threw on. `Valid()` ties rows, container labels, ports and statuses together, lets the cache and every
pending refresh list no node twice, and is kept by every operation. What each method does to heads,
containers and cache is also stated as an `Operation`, and several results are about rows of these,
with crashes in between: which call made a head `running` (`RunningWasActivated`), that a started head is
not started over while the cache lists it (`NotStartedOver`), that no head goes back to `configured`
(`NeverConfiguredAgain`), which restart calls there were (`RestartsAccountedFor`), and the node limit.

**The node limit** (`Fleet`, and `SerialRunStaysCapped` in `HydraHeads`). The limit is a property of
runs, not of one call: admission counts a cache that a cron refresh overwrites in two steps, a listing
and a later write, because `updateHydraContainerStatus` does not return its promise. `Fleet` is a
machine of small steps in which refreshes, crashes, removals and one activation or restart interleave.
The limit holds at each of its steps under conditions on refreshes and rollbacks, and three runs show
what refreshes do to it that straddle a container start, overlap each other and an admission, or fall
into a restart. The serial theorem speaks of whole operations through the very predicates the class methods ensure.

**Command lines** (`Mesh`). `Cmd` is the flat argument list each container gets. A separate reader
parses it option by option, and what it reads back is proved to be the full mesh of the head.

**Bigints in value trees** (`Values`, `BigIntUtils`, `ApiTransform`, `JsonWalk`). JavaScript values are
a datatype; an object is its list of properties. Assigning the key `__proto__` creates no property, and
`Put` models that. The converters run as methods with loops, each proved equal to a function on trees,
and what they write is also told position by position: each bigint gives way to the one canonical
decimal text of its number, everything else stays. Path texts are read back by a reader of their own.

**Backoff** (`Backoff`, `Reconnect`, `Agent`), **readiness** (`Readiness`), **ports** (`Ports`),
**rates** (`NetworkRate`), **paths and names** (`Names`) and **UTxO lists** (`Utxo`) are smaller
machines and conversions with the same treatment: the class or loop, a specification, and lemmas about
the specification over all inputs or all runs.

What the code does where its reader may expect something else:

- An activation that fails rolls back what it created. One further container can remain, that of the
  node whose start failed; the call did not leave it started, but if it predates the call and could not
  be stopped it may still run. Containers of nodes the loop had not reached are not touched.
- The write of a status can throw. Inside an activation's try block that leads to the rollback; in a
  catch block, in a deactivation or in the sweep it leaves the status as it was and the event unsent.
- `restart` never consults the limit. Whole operations in a row keep the limit all the same
  (`RestartStaysCapped`), and so do interleaved ones if no refresh is pending when another one lists, an
  activation or a restart begins or an activation starts a container, and none is listed during a restart
  (`NodeLimitHolds`). Runs that break it otherwise are `RestartPastTheLimit`, with overlapping
  refreshes, and `RefreshDuringRestartBreaksLimit`.
- `deactiveHydraHead` emits no event and leaves the cache as it is until the refresh it starts writes.
- Re-reading the listed paths undoes `transformForApiResponse` except exactly for values with a
  `__proto__` property, a bigint whose printed path is empty, or an integer text and a bigint that
  print the same path (`RestoredIffRecoverable`). Keys that are non-empty, contain neither `.` nor `[` and are not
  `__proto__` keep all of that away, below a root that is not a bigint itself.
- The converter of UTxO lists deletes `value.ada` from its input, so converting a list twice throws,
  and an element whose datum cannot be read has lost its ada all the same.

## Model

| member | source | states |
|---|---|---|
| HydraHeads.HydraHeadService.ActivateHead | src/hydra-heads/hydra-heads.service.ts:219-468 | Refused exactly for an unknown head, for one each of whose nodes has a cache entry, or when entries and nodes together exceed the limit (20 where none is set); given up, for certain not while nothing fails, when protocol parameters or network cannot be had. Neither touches Docker, rows or cache. Otherwise it ends up running (all nodes answered, their containers are new and run, cached, one `running` event, other containers untouched) or rolled back, with `stop` stored and announced unless that write throws too, and of the containers pushed for cleanup only those left whose cleanup threw. While Docker and database fail nothing, the nodes' getting ready in time decides |
| HydraHeads.HydraHeadService.Launch | src/hydra-heads/hydra-heads.service.ts:290-456 | The try and catch blocks: one of the two outcomes from any failure point, a throwing write of `running` included; a rollback on a healthy daemon leaves none of the head's containers |
| HydraHeads.HydraHeadService.StartContainers | src/hydra-heads/hydra-heads.service.ts:293-403 | Wherever the loop stops, exactly the pushed handles' containers are new, running and labelled; beyond them only the failing node's container may differ, and at most three creates per node were made |
| HydraHeads.HydraHeadService.StartAndCache | src/hydra-heads/hydra-heads.service.ts:293-406 | On success the cache gains exactly the head's nodes, on failure it is unchanged |
| HydraHeads.HydraHeadService.TakeDown | src/hydra-heads/hydra-heads.service.ts:428-439 | Other heads' containers are as before the activation; each pushed container is gone or its own cleanup threw; if none threw, at most the next node's is left over, not started by the call |
| HydraHeads.HydraHeadService.RollBack | src/hydra-heads/hydra-heads.service.ts:428-456 | From any half-way point: what was pushed is taken down, and reported with its number, then `stop` is stored and announced, or neither if the write throws |
| HydraHeads.HydraHeadService.WriteStatus | src/hydra-heads/hydra-heads.service.ts:414-442 | Every status write, also one that throws, keeps rows, labels, ports and statuses in order; it leaves all other heads alone, and only a head with nodes can be written `running` (that it takes an activation is `RunningWasActivated`) |
| HydraHeads.HydraHeadService.DeactivateHead | src/hydra-heads/hydra-heads.service.ts:554-586 | Only the head's containers go (all of them while Docker fails nothing); then either `stop` is stored and a refresh started that lists exactly what runs, or the write threw and neither happened; no event, cache untouched |
| HydraHeads.HydraHeadService.RestartHead | src/hydra-heads/hydra-heads.service.ts:920-993 | Runs exactly when every node has an active cache entry of its head, and otherwise names those that have none and calls nothing; restarts each container of the head once and no other, never creates or removes one, keeps the cached ids, emits one event with the earlier status unless the catch block itself throws |
| HydraHeads.HydraHeadService.Bounce | src/hydra-heads/hydra-heads.service.ts:957-988 | On failure the head is stopped unless all its containers were seen running or the write throws; with Docker failing nothing and the containers there, success means ready in time |
| HydraHeads.HydraHeadService.DeleteHead | src/hydra-heads/hydra-heads.service.ts:877-918 | Removes the rows or throws, gives the ports back, touches no other head's container and loses no file of any other head |
| HydraHeads.HydraHeadService.ClearHeadData | src/hydra-heads/hydra-heads.service.ts:830-875 | Every removed file lay in a persistence directory of a selected head's node; every such directory is either reported removed, and then was there and is now empty, or in error, and then was not there or is one the disk fails on |
| HydraHeads.HydraHeadService.CheckNodeHealth | src/hydra-heads/hydra-heads.service.ts:1000-1053 | After a sweep every head still `running` has all containers running, apart from those whose own update threw; heads only go from `running` to `stop`, and while Docker fails nothing only those with a container down |
| HydraHeads.HydraHeadService.SweepHead | src/hydra-heads/hydra-heads.service.ts:1012-1047 | One `stop` event for a head that is stopped, carrying every node of its that does not run and, while Docker fails nothing, no other; nothing for a head whose update throws or whose nodes all run |
| HydraHeads.HydraHeadService.CreateHead | src/hydra-heads/hydra-heads.service.ts:63-134 | A new `configured` head with one node and four key files per key, each node with the first port free when its turn came, old rows untouched; with database and disk failing nothing it fails only for want of a port |
| HydraHeads.HydraHeadService.InsertNode | src/hydra-heads/hydra-heads.service.ts:204-217 | The new node's port is the least free one among occupied and stored ports |
| HydraHeads.HydraHeadService.List | src/hydra-heads/hydra-heads.service.ts:136-157 | ACTIVE means: has nodes, and each has a cache entry of the head; whenever the cache is what a listing of the current containers shows, that all their containers run |
| HydraHeads.HydraHeadService.RefreshLists | src/docker/docker.service.ts:26-42 | What the refresh is going to write lists exactly the nodes running now |
| HydraHeads.StoredPortsApart | src/hydra-heads/hydra-heads.service.ts:204-217 | In any state of the service, if there was room in the band whenever a port was looked for, no two API ports or peer ports of stored nodes coincide |
| HydraHeads.ActivationStaysCapped | src/hydra-heads/hydra-heads.service.ts:164-202 | An admitted activation, successful or cleanly rolled back, leaves the cache covering all running nodes and within the limit |
| HydraHeads.RestartStaysCapped | src/hydra-heads/hydra-heads.service.ts:930-972 | The same for a restart, although it counts nothing |
| HydraHeads.RefreshStaysCapped | src/docker/docker.service.ts:26-43 | The same for a refresh that lists and writes with nothing in between |
| HydraHeads.SerialRunStaysCapped | src/hydra-heads/hydra-heads.service.ts:164-202 | Over every row of whole operations with clean rollbacks and refreshes that list and write in one go, the running nodes stay within `maxActiveNodes` |
| HydraHeads.RunningWasActivated | src/hydra-heads/hydra-heads.service.ts:410-415 | Over every row of whole operations from an empty table, failures included: a head stored as `running` was made so by an activation in which all its nodes, at least one, got ready in time, and its row has not changed since |
| HydraHeads.NotStartedOver | src/hydra-heads/hydra-heads.service.ts:164-177 | Over every row of whole operations, a head that was started is not started over, which would tear down its running containers, for as long as every write of the cache lists its nodes |
| HydraHeads.RestartsAccountedFor | src/hydra-heads/hydra-heads.service.ts:957-965 | Over every row of whole operations, Docker was told to restart exactly the containers of the heads that were restarted, in order |
| HydraHeads.NodeNamesExact | src/hydra-heads/hydra-heads.service.ts:960-964 | The names a restart goes through are those of the head's nodes, each once |
| HydraHeads.OnlyActivationRuns | src/hydra-heads/hydra-heads.service.ts:410-442 | No operation other than a successful activation leaves a head `running` that was not so before, or changes one that stays `running` |
| HydraHeads.NeverConfiguredAgain | src/hydra-heads/hydra-heads.service.ts:72-72 | Over every row of whole operations, a head that was activated or stopped once is not `configured` again while it exists |
| HydraHeads.RollbackRunsNoMore | src/hydra-heads/hydra-heads.service.ts:428-456 | After a clean rollback no node runs that did not run before the activation |
| HydraHeads.OutcomeMoves | src/hydra-heads/hydra-heads.service.ts:414-442 | Neither outcome of an activation takes any head back to `configured` |
| HeadRows.CheckNodesActive | src/hydra-heads/hydra-heads.service.ts:164-202 | Counting the cached nodes amounts to: already started iff each node's id occurs in some cache entry, else refused iff entries plus nodes exceed the limit |
| HeadRows.AdmissionExact | src/hydra-heads/hydra-heads.service.ts:169-200 | The admission that operations and the node limit speak of, over single cache entries: the same two conditions, and no other refusal |
| HeadRows.StartedIffIdsCached | src/hydra-heads/hydra-heads.service.ts:170-177 | A head is refused as started iff the cached ids include all of its own |
| HeadRows.ActiveIffAllRun | src/hydra-heads/hydra-heads.service.ts:143-156 | Against a cache fresh from a listing, a head is ACTIVE iff it has nodes and all of them run, because labels, names and rows agree |
| HeadRows.NoneInactiveIff | src/hydra-heads/hydra-heads.service.ts:934-955 | restart goes ahead iff every node has an active cache entry under its own head |
| HeadRows.InactiveNamesExact | src/hydra-heads/hydra-heads.service.ts:934-955 | The names in the complaint are exactly those of nodes without an active entry of the head |
| HeadRows.SweepStep | src/hydra-heads/hydra-heads.service.ts:1012-1047 | Sweeping one more head keeps what the sweep has established for the others |
| HeadRows.StoredPortsAreTheValues | src/hydra-heads/hydra-heads.service.ts:625-631 | The ports the database finds are exactly those handed out and not given back |
| DockerServices.DockerService.CreateContainer | src/docker/docker.service.ts:70-120 | Against every pattern of create, start and cleanup failures: it gives up after exactly retryCount + 1 creates and succeeds with no more; creates find the name taken no more often than cleanups threw, so after a cleanup that went through the name is free; success is one new running container of the name, failure at most one, not running; other names unchanged; a taken name fails without being touched |
| DockerServices.DockerService.CleanupContainer | src/docker/docker.service.ts:141-155 | Success means the handle's container is gone, or was already; a rethrown failure is logged and leaves it at most stopped |
| DockerServices.DockerService.HandleDockerContainerExist | src/docker/docker.service.ts:51-65 | At worst the named container is left or only stopped; gone for certain while Docker fails nothing; no other name changes |
| DockerServices.DockerService.RemoveContainerByName | src/docker/docker.service.ts:122-136 | The same best-effort removal for deactivation and deletion |
| DockerServices.DockerService.RestartContainerByName | src/docker/docker.service.ts:184-194 | Restart is called exactly once, for the named container whether it runs or not; only that container may change, between running and stopped, and it runs while Docker fails nothing |
| DockerServices.DockerService.CheckContainerRunning | src/docker/docker.service.ts:241-249 | Never says running of a container that is not; exact while Docker fails nothing |
| DockerServices.DockerService.UpdateHydraContainerStatus | src/docker/docker.service.ts:26-49 | Queues what the listing showed, or an empty cache when listing failed, without touching the cache yet |
| DockerServices.DockerService.FinishRefresh | src/docker/docker.service.ts:43-47 | The queued snapshot overwrites whatever the cache holds by then |
| DockerServices.DockerService.CacheActiveNodes | src/docker/docker.service.ts:201-239 | All containers seen running and merged into the cache, or the cache is left alone |
| Docker.ActiveNodesOfListing | src/docker/docker.service.ts:26-43 | A refresh caches exactly the running Hydra nodes, each once and active |
| Docker.MergeFacts | src/docker/docker.service.ts:222-230 | Merging loses no cached node, adds every new one and repeats none |
| Docker.RunningIdsExact | src/docker/docker.service.ts:30-34 | A node id counts as running iff the container of its name runs |
| ContainerChanges.TakenDown | src/hydra-heads/hydra-heads.service.ts:428-439 | From any point where the start loop stopped, cleaning up the pushed handles removes exactly their containers and brings the others back to what they were, the next node's excepted |
| ContainerChanges.StuckByName | src/hydra-heads/hydra-heads.service.ts:432-438 | After the cleanup loop a pushed container that is still there has its own cleanup in the log of those that threw |
| ContainerChanges.StartStep | src/hydra-heads/hydra-heads.service.ts:295-394 | One more turn of the start loop, successful or not, keeps what the earlier turns achieved |
| ContainerChanges.EntriesOfNodes | src/docker/docker.service.ts:207-219 | The entries read off the new containers' labels are the head's nodes, one each |
| ContainerChanges.BouncedEntries | src/hydra-heads/hydra-heads.service.ts:966-971 | The entries of restarted containers are the head's nodes, one each |
| Fleet.NodeLimitHolds | src/hydra-heads/hydra-heads.service.ts:164-202 | At every intermediate step the cache repeats no node, covers all running nodes but those the head in flight has started, and the running nodes never exceed the limit: in every regular run without revivals, and, whatever restarts revive, in every regular run whose refreshes are kept apart from each other, from the beginnings of activations and from restarts |
| Fleet.RunKeepsInv | src/docker/docker.service.ts:26-49 | The invariant behind the limit, and in orderly runs the two that restarts need, hold after every prefix |
| Fleet.StepKeepsInv | src/hydra-heads/hydra-heads.service.ts:295-456 | Each kind of step, whoever takes it, keeps the invariant behind the limit; a revival does so when the cache lists the node and is within the limit |
| Fleet.StepKeepsKnown | src/docker/docker.service.ts:26-49 | Orderly steps keep within the limit all the nodes that the cache, a pending refresh, a cache read under way and the head in flight know of between them |
| Fleet.StepKeepsCached | src/hydra-heads/hydra-heads.service.ts:930-971 | In orderly runs no refresh is pending during a restart and the cache lists all its nodes throughout |
| Fleet.RevivalIsBacked | src/hydra-heads/hydra-heads.service.ts:958-965 | So a stopped container is only revived while the cache lists its node and is within the limit |
| Fleet.AdmittedKeepsInv | src/hydra-heads/hydra-heads.service.ts:179-201 | Admission by cache size bounds what runs, because the cache covers it |
| Fleet.CacheWrittenKeepsInv | src/docker/docker.service.ts:203-230 | Writing back a merge of the cache as it was read earlier loses no running node |
| Fleet.LandingKeepsInv | src/hydra-heads/hydra-heads.service.ts:428-456 | A finished or rolled-back activation leaves the running nodes cached and within the limit |
| Fleet.RunningContainersCount | src/docker/docker.service.ts:30-34 | Counting running node ids is counting running Hydra containers |
| Fleet.StraddlingRefreshBreaksLimit | src/docker/docker.service.ts:26-49 | One refresh listed before a container start and written after it admits a head past the limit |
| Fleet.RestartPastTheLimit | src/hydra-heads/hydra-heads.service.ts:930-971 | A run of regular steps, but with a second refresh listed and a head admitted while a refresh is pending, revives a container past the limit |
| Fleet.RefreshDuringRestartBreaksLimit | src/docker/docker.service.ts:26-49 | A run of regular steps in which no refresh is pending at a listing or when an activation or restart begins, but one comes and goes during a restart, exceeds the limit |
| Mesh.FullMesh | src/hydra-heads/hydra-heads.service.ts:296-362 | For each ordered pair of nodes the first one's line names the second exactly once: its advertised endpoint, the port it listens on, the key files written for it |
| Mesh.ReadBack | src/hydra-heads/hydra-heads.service.ts:320-363 | Reading the flat list back recovers exactly the other nodes, in order, whatever the configured values look like |
| Mesh.NoSelfPeer | src/hydra-heads/hydra-heads.service.ts:296-340 | No node's line names the node itself |
| Mesh.OwnFiles | src/hydra-heads/hydra-heads.service.ts:341-346 | Through the bind mount a node signs with its own two key files and persists in the directory that clearing its head removes |
| Mesh.SettingsRead | src/hydra-heads/hydra-heads.service.ts:334-363 | Read back from the line: name, API port and port listened on in canonical numerals, 1000 apart; each period and the scripts id under its own option; the network; and the protocol parameters file that activation writes |
| Mesh.PeersAreTheOthers | src/hydra-heads/hydra-heads.service.ts:296-296 | Filtering by id leaves the head's nodes without the one, order kept |
| Mesh.KnowsPeer | src/hydra-heads/hydra-heads.service.ts:320-341 | A group agrees with the line of the node it describes |
| Mesh.HostFile | src/hydra-heads/hydra-heads.service.ts:109-120 | A key path inside the container is the file the host wrote, trailing slashes of the folder or not |
| Mesh.EndpointRead | src/hydra-heads/hydra-heads.service.ts:325-340 | Host and port, the latter in its one canonical numeral, are recovered from an endpoint |
| Names.NodeNameInjective | src/hydra-main/utils/name-resolver.ts:1-3 | Different nodes have different container names |
| Names.NodeNameText | src/hydra-main/utils/name-resolver.ts:1-3 | The name is the prefix and the canonical numeral of the id, and nothing else is |
| Names.HeadDirText | src/hydra-main/utils/path-resolver.ts:1-3 | So is a head's directory for its folder and id |
| Names.NodeNameMatches | src/docker/docker.service.ts:30-33 | Every node's container is picked by the refresh's pattern |
| Names.RemoveTrailingSlashSpec | src/hydra-main/utils/path-resolver.ts:16-18 | Exactly the trailing slashes go |
| Names.HeadDirsApart | src/hydra-main/utils/path-resolver.ts:1-3 | No path lies under the directories of two heads, not even of heads 1 and 10 |
| Names.PersistenceDirsApart | src/hydra-main/utils/path-resolver.ts:12-14 | No path lies under the persistence directories of two nodes |
| Names.PersistenceUnderHead | src/hydra-main/utils/path-resolver.ts:12-14 | A persistence directory lies below its head's directory |
| Names.RemoveHeadTree | src/hydra-heads/hydra-heads.service.ts:897-902 | Removing one head's tree clears it and keeps every path of every other head |
| Ports.GenValidPort | src/hydra-heads/hydra-heads.service.ts:614-623 | The loop ends, at the port the specification calls first free |
| Ports.FirstFreeIsLeast | src/hydra-heads/hydra-heads.service.ts:614-623 | That port is the least one from 10005 on that is neither occupied nor stored; none only if all valid ones are taken |
| Ports.NextPortInBand | src/hydra-heads/hydra-heads.service.ts:614-623 | With fewer than 1000 ports of [10005, 11005) taken the next one is below 11005 |
| Ports.NextPortApartIff | src/hydra-heads/hydra-heads.service.ts:370-373 | For every table of ports that are apart: the next node keeps them apart iff neither the port 1000 below nor the one 1000 above its own is stored |
| Ports.NextPortApartBeforehand | src/hydra-heads/hydra-heads.service.ts:614-623 | Told before the call, while stored ports are in the band: iff the band has room or the first free port past it has no stored port 1000 below |
| Ports.FullBandClash | src/hydra-heads/hydra-heads.service.ts:614-623 | Once the band is full the next port clashes with a stored node's peer port |
| Ports.RunKeepsPortsApart | src/hydra-heads/hydra-heads.service.ts:204-217 | Over every run of creates and deletes with room in the band all ports stay apart |
| Readiness.CheckNodeReady | src/hydra-heads/hydra-heads.service.ts:644-721 | The promise settles once: to true iff a Greetings message comes before any error, close, timeout or failure to connect, to false iff one of those comes first |
| Readiness.WaitForAllNodesReady | src/hydra-heads/hydra-heads.service.ts:730-788 | Returns iff every node answers in some round that starts in time, else throws the ports that never answered; ends before timeout + 15000 ms + one interval when checks keep theirs; needs only that the time runs out or the nodes answer |
| Readiness.IntervalRunsOut | src/hydra-heads/hydra-heads.service.ts:779-779 | Any positive retry interval makes the time run out, however little the checks take |
| Readiness.ElapsedSum | src/hydra-heads/hydra-heads.service.ts:745-779 | The time after n unsuccessful rounds is what the rounds took plus n intervals |
| Readiness.NotInTime | src/hydra-heads/hydra-heads.service.ts:745-788 | When the wait times out no larger number of rounds in time would have sufficed |
| Readiness.UnreadyPortsExact | src/hydra-heads/hydra-heads.service.ts:783-787 | A port is reported iff some node with it never answered |
| Readiness.ReadinessMonotone | src/hydra-heads/hydra-heads.service.ts:746-766 | An answer counts in every later round |
| Readiness.CheckPending | src/hydra-heads/hydra-heads.service.ts:746-763 | A round asks only pending nodes and marks exactly those that answered by then |
| BigIntUtils.ConvertBigIntToString | src/common/utils/bigint.utils.ts:71-93 | For every value: the same positions hold the same things, apart from `__proto__` properties, which go, and bigints, each of which gives way to the one canonical decimal text of its number |
| BigIntUtils.ConvertStringToBigInt | src/common/utils/bigint.utils.ts:99-121 | Position by position: a text of digits under a listed key becomes its number, everything else stays, `__proto__` properties go |
| BigIntUtils.StringifyPrints | src/common/utils/bigint.utils.ts:71-93 | The tree specification has that meaning at every position |
| BigIntUtils.StringReadBack | src/common/utils/bigint.utils.ts:99-121 | Likewise for reading back by field names |
| Text.NatTextExact | src/common/utils/bigint.utils.ts:77-77 | A text prints a number iff it has no superfluous zero and reads as the number |
| Text.IntTextExact | src/common/utils/bigint.utils.ts:77-77 | The same for integers, where no minus sign stands before a zero |
| BigIntUtils.StringifyHasNoBig | src/common/utils/bigint.utils.ts:71-93 | Converted data holds no bigint, whatever the keys |
| BigIntUtils.StringifyFieldsShape | src/common/utils/bigint.utils.ts:85-89 | Properties survive in place iff none is called `__proto__` |
| BigIntUtils.FieldNameRoundTrip | src/common/utils/bigint.utils.ts:71-121 | Converting and reading back by field names is the identity iff every bigint is a non-negative property under a listed key, no text under a listed key is all digits, and no key is `__proto__` |
| ApiTransform.TransformForApiResponse | src/common/utils/bigint.utils.ts:141-176 | Collecting while converting yields the list of paths and, as `data`, the value with each bigint replaced by the one canonical text of its number at the same position |
| ApiTransform.Collector.CollectBigIntFields | src/common/utils/bigint.utils.ts:144-168 | Each call appends exactly the paths of its subtree |
| ApiTransform.PathsArePrintedLeaves | src/common/utils/bigint.utils.ts:144-168 | For every value the collected list is the printed positions of its bigints in traversal order, less the empty paths |
| ApiTransform.ListedIff | src/common/utils/bigint.utils.ts:149-152 | A path is listed iff it is non-empty and some bigint prints it |
| ApiTransform.BigIntFieldsExact | src/common/utils/bigint.utils.ts:141-176 | `bigIntFields` is exactly the paths of the bigint leaves, in traversal order, pairwise distinct |
| ApiTransform.PrintInjective | src/common/utils/bigint.utils.ts:155-161 | Two positions of a tree with plain keys never print the same path |
| ApiTransform.LeavesInOrder | src/common/utils/bigint.utils.ts:144-168 | The collected positions follow the traversal |
| ApiTransform.ListAbsentIffNoBig | src/common/utils/bigint.utils.ts:172-175 | The list is left out iff every bigint prints the empty path; so its absence means no bigint, except for values whose bigints all do |
| ApiTransform.RestoredIffRecoverable | src/common/utils/bigint.utils.ts:141-176 | Re-reading exactly the listed paths restores a value iff no object has a `__proto__` property, every bigint prints a non-empty path, and no integer text prints the path of a bigint |
| ApiTransform.LosslessTransform | src/common/utils/bigint.utils.ts:141-176 | Values with plain keys whose root is not a bigint are restored, negatives included |
| ApiTransform.ListedPathsLead | src/common/utils/bigint.utils.ts:141-176 | With plain keys, reading the listed path texts from left to right leads to exactly the bigints, and in `data` to their canonical texts |
| ApiTransform.PathReadBack | src/common/utils/bigint.utils.ts:155-161 | A printed path is read back as its position by a reader of keys, dots and bracketed canonical numerals |
| ApiTransform.ResponseDeterminesValue | src/common/utils/bigint.utils.ts:141-176 | Recoverable values with the same response are equal |
| ApiTransform.RootBigCollides | src/common/utils/bigint.utils.ts:149-152 | A bare bigint and its text have one response |
| ApiTransform.EmptyKeyCollides | src/common/utils/bigint.utils.ts:150-161 | Under an empty key a bigint and its text have one response |
| ApiTransform.ProtoKeyCollides | src/common/utils/bigint.utils.ts:159-163 | Whatever an object has under `__proto__`, bigints or not, something else there gets the same response |
| ApiTransform.DottedKeyCollides | src/common/utils/bigint.utils.ts:161-161 | Keys with a dot let two values share a response |
| ApiTransform.BracketKeyCollides | src/common/utils/bigint.utils.ts:155-161 | Keys with a bracket do too |
| ApiTransform.InterceptorLossless | src/common/interceptors/bigint.interceptor.ts:12-50 | A reply is wrapped iff it holds a bigint, holds none afterwards, passes anything else unchanged, and can be restored iff the value is recoverable |
| JsonWalk.ReplacerReviverRoundTrip | src/common/utils/bigint.utils.ts:9-28 | Serialising with the replacer and parsing with the reviver is the identity iff every bigint is non-negative, no text is digits followed by `n`, and nothing is undefined or non-finite |
| JsonWalk.ReplacerText | src/common/utils/bigint.utils.ts:9-14 | A bigint is written as its canonical decimal text followed by `n` |
| Reconnect.RunDelays | src/rabbitmq/rabbitmq.service.ts:68-85 | In every run there is one delay for each failed connect and closed connection since the last success, the k-th is min(1000 * 2^k, 30000), and n of them sum to 1000(2^n - 1), or 31000 + 30000(n - 5) from the fifth on |
| Reconnect.RunState | src/rabbitmq/rabbitmq.service.ts:29-85 | Phase and number of delays are told by the events alone: success resets, each failure or close adds one |
| Reconnect.ExactlyOnePending | src/rabbitmq/rabbitmq.service.ts:29-85 | Once started, exactly one of a connect, an attached close handler and a timer is pending: never stuck, never two connects |
| Reconnect.RabbitMQService.ConnectFails | src/rabbitmq/rabbitmq.service.ts:61-65 | A connect that fails anywhere ends waiting on one timer, even though connection or channel may stay set |
| Reconnect.RabbitMQService.OnClose | src/rabbitmq/rabbitmq.service.ts:55-60 | Losing the connection leads to one armed timer with the next delay |
| Reconnect.RabbitMQService.TimerFires | src/rabbitmq/rabbitmq.service.ts:81-84 | The only armed timer starts the only connect |
| Agent.RunDelays | src/monitoring-agent/monitoring-agent.service.ts:136-150 | For any interleaving of ticks there is one delay for each failure since the last success that found no timer pending, the k-th is min(500 * 2^k, 16000), they never shrink, and n of them sum to 500(2^n - 1), or 31500 + 16000(n - 6) from the sixth on |
| Agent.RunState | src/monitoring-agent/monitoring-agent.service.ts:87-150 | Open ticks, pending timer and number of delays are told by the events alone |
| Agent.RunTimers | src/monitoring-agent/monitoring-agent.service.ts:87-150 | A success resets the row even while a timer is pending, so the next failure without one waits 500 ms; only its firing touches a pending timer |
| Agent.MonitoringAgentService.TickEnds | src/monitoring-agent/monitoring-agent.service.ts:87-101 | A success resets the attempts and leaves the timers alone; a failure arms the next delay only when no timer is pending, so at most one ever is |
| Agent.MonitoringAgentService.RetryFires | src/monitoring-agent/monitoring-agent.service.ts:146-149 | The pending timer starts one more tick and frees the slot |
| Backoff.RowSum | src/rabbitmq/rabbitmq.service.ts:72-76 | The sum of a doubling row that is capped after m delays |
| Backoff.DelayMonotone | src/monitoring-agent/monitoring-agent.service.ts:139-143 | Capped doubling never shrinks |
| NetworkRate.SystemMetricsCollector.GetNetworkDelta | src/monitoring-agent/system-metrics.collector.ts:46-63 | Reports the rates against the last successful read and moves the baseline only on success |
| NetworkRate.RateError | src/monitoring-agent/system-metrics.collector.ts:50-53 | One rate times its milliseconds is within half the interval of 1000 times the bytes |
| NetworkRate.RateEdges | src/monitoring-agent/system-metrics.collector.ts:50-53 | No elapsed time counts as one second; shrunk counters or a clock set back give 0 |
| NetworkRate.RatesTelescope | src/monitoring-agent/system-metrics.collector.ts:46-63 | Over any row of calls, failed ones included, the rates never drift from the true traffic by more than half the elapsed time |
| Utxo.ConvertUtxoToUTxOObject | src/hydra-main/utils/ogmios-converter.ts:7-49 | Converts the list, or throws at the first element that has no ada, was listed before, or has a datum that cannot be read; exactly the elements whose ada it got to, the one with the bad datum included, have lost it |
| Utxo.DatumsStated | src/hydra-main/utils/ogmios-converter.ts:19-39 | Entries that state the same datum hash, raw datum and reading come from outputs with the same datum, and with the same hash up to an empty one |
| Utxo.EntryStates | src/hydra-main/utils/ogmios-converter.ts:30-43 | Property by property: the output's address and hash, the raw datum, its hash and its reading where there is one, null where there is none |
| Utxo.ScriptStates | src/hydra-main/utils/ogmios-converter.ts:51-82 | Property by property: language, kind with the Plutus version, terms of a native script, code |
| Utxo.ReferenceScriptKept | src/hydra-main/utils/ogmios-converter.ts:51-85 | A script is dropped iff there is none or its language is unknown; otherwise language and code, and the terms of a native script, can be told from the object |
| Utxo.KeysAreRefs | src/hydra-main/utils/ogmios-converter.ts:10-14 | The object's keys are exactly the list's references |
| Utxo.NothingLostIff | src/hydra-main/utils/ogmios-converter.ts:10-28 | No output is lost iff no reference is listed twice |
| Utxo.KeyInjective | src/hydra-main/utils/ogmios-converter.ts:11-11 | The key determines id and index, even for ids that hold a `#` |
| Utxo.KeyText | src/hydra-main/utils/ogmios-converter.ts:11-11 | A key is the id, `#` and the canonical numeral of the index, and nothing else is |
| Utxo.LovelaceStated | src/hydra-main/utils/ogmios-converter.ts:15-33 | The stated lovelace is the output's own iff no policy is called `lovelace` |
| Utxo.QuantityStated | src/hydra-main/utils/ogmios-converter.ts:30-33 | Every asset quantity is stated in its canonical text as it was, and no asset appears that was not there |
| Utxo.Conservation | src/hydra-main/utils/ogmios-converter.ts:7-49 | With distinct references, lovelace and every asset read back sum to the list's totals |
| Utxo.ReferenceRoundTrip | src/hydra-main/ogmios-client.service.ts:207-214 | Splitting a key as the query does returns its id and index iff the id holds no `#` |
| Utxo.ParseReferenceExact | src/hydra-main/ogmios-client.service.ts:207-213 | A text without `#` is refused; otherwise the id is what stands before the first one and the index what parseInt makes of the part up to the next, if anything |
| Utxo.ParseInt10Exact | src/hydra-main/ogmios-client.service.ts:209-212 | parseInt reads the digits behind white space and a sign, and fails iff there are none |
| Utxo.QueryRoundTrip | src/hydra-main/ogmios-client.service.ts:206-214 | Querying for the keys of a converted list asks for exactly its outputs, in order, iff no id holds a `#` |

## Left out

- HydraHeads.HydraHeadService.ActivateHead: the fetching of protocol parameters, the file write and the network are one step that may fail, and does not while sources, disk and Docker are up.
- HydraHeads.HydraHeadService.WriteStatus: a write that throws is taken to have changed nothing in the database, and emitting an event is taken not to throw.
- DockerServices.DockerService.ApiStart: a Docker call that fails is taken to have changed nothing, apart from a restart, which may leave the container stopped; a call that times out and takes effect all the same is not modelled, for this and the other daemon calls.
- HydraHeads.HydraHeadService.CreateHead: no rollback of rows is claimed, because the query runner's transaction is not the connection the repositories save through; the directory and the Blockfrost file are one step that may fail.
- HydraHeads.HydraHeadService.ClearHeadData: an error message is represented by the directory it is about, and a database failure or unknown ids by an empty result.
- HydraHeads.HydraHeadService.RestartHead: containers are restarted one after the other, where the source starts all restarts before it waits for any; they touch different containers.
- HydraHeads.RunningWasActivated: operations follow each other whole, as they do for the limit in the next line.
- HydraHeads.SerialRunStaysCapped: operations follow each other whole; interleaving within operations is `Fleet`.
- Fleet.NodeLimitHolds: one activation or restart is under way at a time. Expiry of the cache entry and failed listings are excluded by `Regular`, and so is a rollback that leaves a container it started.
- Docker.ActiveNodesOfListing: head and node labels are numbers instead of their decimal texts, and the leading slash of names in a listing is not modelled; the pattern is unanchored, so neither affects it.
- Ports.GenValidPort: the set of occupied ports is fixed during one search.
- Readiness.WaitForAllNodesReady: time passes only in checks and sleeps, each sleep exactly as long as asked; the answers of the nodes are parameters.
- Mesh.ReadBack: environment, labels, exposed ports and user of the container are not part of the command line and are not modelled; `cleanArg` is never called.
- ApiTransform.LosslessTransform: trees hold plain objects and arrays; class instances such as dates or maps, functions, symbols and cyclic values are not modelled. Property order is the list's order, where JavaScript puts integer-like keys first.
- JsonWalk.ReplacerReviverRoundTrip: the JSON text between the two walks.
- NetworkRate.RatesTelescope: exact integers instead of floating-point division; parsing `/proc/net/dev`, and the CPU, RAM and latency figures, are left out.
- Reconnect.RunDelays: stated before shutdown; an in-flight connect or the close event raised by shutting down can arm a timer afterwards. Publishing and consuming are left out.
- Agent.RunDelays: stated before shutdown, for the same reason.
- Utxo.ConvertUtxoToUTxOObject: reading a datum belongs to a foreign library, so what it yields, or that it throws, comes with the output; the JSON text of a native script comes with the script.
- Utxo.Conservation: needs policies other than `lovelace` and no key `__proto__`; policy ids and asset names on the chain are hexadecimal.
- Utxo.QueryRoundTrip: `parseInt` on exact integers; the query itself, and a single text given instead of a list.
- The balance check of an account, `checkUtxoAccount`: a plain sum over a foreign provider's answer.
- Controllers, guards, WebSocket gateway, logging, seeders and the Axios services: no state of their own.
- `hydra-main.service.ts`: it repeats the container, port and refresh code modelled here.
- Key derivation, Plutus data and hashing: foreign libraries.
