# Docker Awakening Gateway: verified model

The gateway starts Docker containers when a request for them arrives, starts what they depend on
first, stops them when they have been idle, keeps cron schedules, discovers containers by label and
draws the dependency graph. This project models the algorithms behind that in Dafny and proves what
they guarantee, and exactly when some plausible claims about them fail.

## How the model is organised

- `DependencyGraph.dfy` defines the `depends_on` relation, reachability and cycles. It is the reference
  for the three depth-first searches: `TopoSort.dfy` (one target), `CycleDetection.dfy` (three colours)
  and `MergeStop.dfy` (a merge over a set in any map iteration order).
- `Validation.dfy` proves that the configuration check accepts exactly the valid configurations, and that
  acceptance makes every search succeed and every cron job register.
- `Docker.dfy` is the daemon: a table of container states anybody may change between two calls, and calls
  that may fail. Its ghost history says whether somebody else interfered (`still`), whether inspections
  were answered (`candid`), every answer given (`heard`) and which stops were requested.
- `Manager.dfy` is the container manager as one goroutine runs it. `StartCall.dfy` says what one start call is
  told and leaves behind, `StartTrace.dfy` the same for a run of them. `Cascade.dfy` says what an idle pass does
  to a quiet world as a value, `CascadeExamples.dfy` holds the counterexamples, and `CascadeRepair.dfy`
  proves what a repaired pass would guarantee.
- `StartProtocol.dfy` is the same start sequence as a step machine for any number of goroutines, with
  per-container mutexes and environment steps for everything that takes no container lock.
- `Schedule.dfy`, `CronJobs.dfy`: everything the repository writes around the `Next` of a cron schedule, and
  the registration of jobs.
- `Discovery.dfy`: merging, change detection, pushing, the server's indexes and startup;
  `MergeValidity.dfy`: which merges are accepted.
- `Topology.dfy`, `RateLimiter.dfy`, `GroupRouter.dfy`, `LogFrames.dfy`: layers and positions of the drawing,
  the per-address limiter, round-robin picks and the log frame decoder.

Code that updates state is a class or a method with the source's loops; each is proved against a predicate
or a function, and the lemmas are about those.

## Where the code falls short of what one would expect

Each of these is a theorem, with the exact condition where there is one.

- The idle pass keeps a member that a running outsider needs, but still stops what that member needs
  (`KeptContainerLosesDependency`). A running container loses a direct dependency exactly when its
  own stop failed or it is such a kept member (`DependencyLostIff`, `DependencyLostExactlyBelowKept`), and
  a transitive one exactly below such a container or below one that was down already
  (`TransitiveLossIff`). A pass that counts kept members as running loses none, and differs from the
  actual one exactly when a member is kept above one that is not (`CascadeRepair.dfy`).
- An entry point with recent traffic is stopped when it is a dependency of an idle one
  (`ActiveEntryPointIsStopped`). The exact condition, for any container, is `PulledDown`
  (`StopRequestedIff`, and the contract of `CheckIdle`).
- A start call that succeeds because the container already runs leaves the start state alone, so success
  does not mean the state reads running (`SuccessWithoutReadyState`). Undisturbed, it does exactly when
  the container was down or the state read so before the call (contract of `EnsureRunning`).
- The schedule window forgets after a week. It agrees with the full history exactly when something fired
  in that week or the window was closed when the week began (`WeekAgreesWithHistoryIff`, `OldStartIsForgotten`).
- A Sync loses track of a job exactly when a container's start expression registers and its stop expression
  does not, or two recorded containers share a name (`SyncLeaksIff`). Validated configurations never do
  (`ValidIsTidy`).
- `docs/hot-reload.md` says that group definitions are reloaded. Every pushed configuration goes through
  a merge, which drops the groups (`GroupRoutesSurviveIff`), so an accepted configuration with a host-less
  group member may never be pushed (`GroupOnlyMemberBlocksDiscovery`). Which merges are accepted is
  `MergeValidIff`.
- `docs/groups-and-dependencies.md` says that each group member manages its own idle timeout. The idle
  watcher considers only containers with a host of their own (`IdleNames`), so host-less members never
  start a cascade.
- At startup the cron jobs of the static list replace those of the merge just pushed. They are the same
  exactly when the containers discovered at startup have no jobs (`StartupJobsMatchIff`), and a mismatch
  lasts until the next push, because an unchanged pass does not synchronise (contract of `RunDiscovery`).
- The round-robin cycle survives the wrap of its 64-bit counter, and stays fair, exactly for group sizes
  dividing 2^64 (`WrapContinuesCycleIff`, `AlwaysFairIff`).

## Model

| member | source | states |
|---|---|---|
| TopoSort.TopologicalSort | gateway/group.go:47-94 | Succeeds exactly when everything reachable from the target is configured and on no cycle; the result is the reachable set without duplicates, dependencies before dependents, target last, and dependencies of the target in declared order except where an earlier one needs a later one; an error names a reachable missing name or a reachable name on a cycle |
| TopoSort.Sorter.Visit | gateway/group.go:62-87 | The recursive visit keeps the order dependency-first and the open visits a chain, adds only what the name reaches, and terminates because every call below consumes a configured name |
| TopoSort.OrderMeansSortable | gateway/group.go:44-46 | A dependency-first order containing the target rules out missing names and cycles below it and is exactly its closure |
| TopoSort.OrderInTermsOfTheList | gateway/group.go:44-46 | With distinct names: in the list itself, every `depends_on` entry of a container in the order comes earlier in it, and everything but the target is there because a container in the order depends on it |
| TopoSort.ErrorInTermsOfTheList | gateway/group.go:54-76 | A target or dependency reported missing is listed nowhere, and the dependency is declared by a listed container; a name reported on a cycle is listed and has dependencies |
| CycleDetection.DetectDependencyCycles | gateway/config.go:339-381 | Passes exactly on an acyclic graph; otherwise the reported path is a chain of dependencies without repetition, its last name depends on the repeated name, and the part from that name on is a real cycle |
| CycleDetection.Detector.Visit | gateway/config.go:354-371 | The visiting names are exactly the current path, also at the moment an error is returned; finished names are ordered dependency-first |
| DependencyGraph.AcyclicIffNoRing | gateway/config.go:339-381 | With distinct names the graph is acyclic if and only if no containers of the list depend on one another in a ring |
| MergeStop.TopoMergeStop | gateway/manager.go:299-332 | For every iteration order: a permutation of the set, in which all edges inside the set point backwards if and only if the set contains no cycle |
| MergeStop.Merger.Visit | gateway/manager.go:312-326 | Without cycle detection, the visit still lists every member once and finishes dependencies first when there is no cycle |
| MergeStop.EdgesPointBackwards | gateway/manager.go:299-302 | On an acyclic configuration every dependency edge inside the set points backwards |
| MergeStop.StopOrderInTermsOfTheList | gateway/manager.go:299-302 | In the list itself: without rings, every `depends_on` entry of a member inside the set comes earlier in the stop order |
| Config.BuildContainerMap | gateway/config.go:457-464 | Looks up the last entry of a name, for every name |
| Config.BuildHostIndex | gateway/config.go:435-444 | Looks up the last entry of a host, and never an empty host |
| Config.BuildGroupHostIndex | gateway/config.go:446-455 | The same for groups |
| Config.UniqueMatch | gateway/server.go:172-178 | With at most one match, the index and a linear scan find the same entry |
| Validation.Validate | gateway/config.go:193-337 | Accepts exactly the valid configurations; every rejection states a true complaint; a missing-host rejection names a container without a host that no container depends on and no group lists, and acceptance means every container has a host, a dependent or a group |
| Validation.AcceptedIffInOrder | gateway/config.go:193-337 | Validity spelled out: the gateway settings, the containers and the groups are in order, demand by demand, and there is no dependency cycle |
| Validation.ComplaintMeansInvalid | gateway/config.go:193-337 | No complaint can be raised about a valid configuration |
| Validation.ComplaintSpelledOut | gateway/config.go:193-337 | What each kind of rejection says about the settings, the containers and the groups, error by error |
| Validation.ValidSorts | gateway/config.go:271-279 | In an accepted configuration exactly the configured names can be sorted |
| Validation.ValidClosures | gateway/manager.go:340-350 | So an idle pass skips no configured entry point, and activity is stamped on the union of the closures of all roots |
| Validation.ValidIsTidy | gateway/config.go:281-298 | Validate and Sync use the same effective zone, so every job of an accepted configuration registers and none leaks |
| Validation.AtMostOneMatch | gateway/config.go:259-269 | In an accepted configuration scans and indexes by host, name and group host agree |
| Cascade.BuildReverseDeps | gateway/manager.go:132-142 | The reverse index lists the direct dependents of each name, in list order and with multiplicity, and has no other keys |
| Cascade.DependentsAreDeclared | gateway/manager.go:132-134 | Its entries are exactly the containers that declare the dependency |
| Cascade.IdleNames | gateway/manager.go:421-436 | Exactly the names of containers with a host and a non-zero idle timeout, seen before and idle for at least that long |
| Cascade.StopsComeFromIdle | gateway/manager.go:421-440 | Every stop request of a tick is for something that such a container reaches through `depends_on` |
| Cascade.OutsidersKeepDependencies | gateway/manager.go:334-337 | Whichever stops fail and whatever is kept: at every moment of an undisturbed pass a running container outside the set runs and has every direct dependency as before |
| Cascade.DependencyLostIff | gateway/manager.go:361-393 | A container still running loses a direct dependency if and only if the stop of the dependency succeeds and the container was kept for an outsider or its own stop failed |
| Cascade.DependencyLostExactlyBelowKept | gateway/manager.go:361-376 | When no stop fails this can be told from the first world: the container is a kept member and the dependency is a member that is not kept |
| Cascade.StopHasRunningDependentIff | gateway/manager.go:361-390 | When a stop is requested, a direct dependent runs if and only if it is a member kept for an outsider or its own stop failed |
| Cascade.StopsOnlyUnusedIff | gateway/manager.go:358-393 | When no stop fails, every request of the pass finds its container without a running direct dependent if and only if no member is kept above one that is not |
| Cascade.TransitiveLossIff | gateway/manager.go:334-393 | Whichever stops fail: some surviving container loses a transitive dependency if and only if one loses a direct dependency or a survivor reaches a stopped member through a container that was down already |
| Cascade.LinksForeseen | gateway/manager.go:361-393 | When no stop fails the lost direct dependencies and the survivors can be told from the first world |
| Cascade.ServedWorldLossIff | gateway/manager.go:334-393 | If to begin with whatever ran had its dependencies running, every survivor keeps all its transitive dependencies if and only if no member is kept above one that is not |
| Cascade.StopRequestedIff | gateway/manager.go:338-393 | For every container, idle or active: an undisturbed pass requests its stop if and only if it runs and it and every running container declaring it are in the closures of idle entry points; it goes down if and only if that request succeeds |
| Cascade.StopsAreJustified | gateway/manager.go:361-384 | At each request of an undisturbed pass the container runs and no running outsider declares it |
| Cascade.VerdictUnchanged | gateway/manager.go:361-376 | Requests for other members, failed or not, do not change the verdict on a member |
| Cascade.StopSetClosed | gateway/manager.go:339-350 | The shutdown set contains the dependencies of its members |
| CascadeExamples.KeptContainerLosesDependency | gateway/manager.go:363-365 | For all names: with a needing b needing c, x needing b, a idle and everything running, b runs on without c, and so does x |
| CascadeExamples.DeadLinkLosesDependency | gateway/manager.go:363-376 | In the same family with b down from the start nothing is kept, and x still loses c |
| CascadeRepair.RepairedStaysServed | gateway/manager.go:361-376 | If kept members counted as running, a world in which whatever runs has its dependencies running would stay one, in any stop order and whichever stops fail |
| CascadeRepair.RepairedSurvivorsIff | gateway/manager.go:361-393 | That repaired pass leaves running exactly what a chain of running containers ties to an outsider or to a member whose stop failed |
| CascadeRepair.RepairChangesNothingIff | gateway/manager.go:361-376 | The actual pass, when no stop fails, leaves the same containers running as the repaired one if and only if no member is kept above one that is not |
| CascadeExamples.ActiveEntryPointIsStopped | gateway/manager.go:423-440 | For all names: the stop of an entry point that is not idle is requested under an idle one that depends on it |
| Manager.ContainerManager.CascadeStop | gateway/manager.go:338-394 | Under any interference: requests go to distinct members of the union of the sortable closures, dependents first; a successful one makes the start state unknown and nothing else changes one; undisturbed: requested are exactly the running members no running outsider declares, and every request and the end of the pass see the first world with exactly the successful requests so far carried out |
| Manager.ContainerManager.StopUnlessNeeded | gateway/manager.go:358-393 | At most one request; undisturbed, exactly when the member runs and no running outsider declares it; whatever Docker does, only right after an inspection that showed the member running and after every declared dependent outside the set was seen not running |
| Manager.ContainerManager.CheckIdle | gateway/manager.go:413-441 | A tick is a cascade from exactly the idle entry points: whatever Docker does, each request is for something reached from a container with a host and a non-zero idle timeout that has been idle that long; undisturbed, the stopped containers, active entry points included, are exactly those pulled down whose stop succeeds |
| Manager.ContainerManager.RecordActivityChain | gateway/manager.go:90-121 | Everything reachable from a sortable root carries the one time read at the start, an unsortable root itself is stamped, and what is neither a root nor reachable from one keeps its stamp |
| Manager.ContainerManager.EnsureRunning | gateway/manager.go:144-216 | What the call answers and leaves behind follows from what Docker and the probes answered (`Outcome`); a crash is only reported of a container that is down; undisturbed, a start is asked for exactly when the container was down, success means it runs, and success leaves the start state ready if and only if it was down or the state was ready before |
| Manager.ContainerManager.AwaitReady | gateway/manager.go:182-214 | Polling inspects and probes in turn and ends at the first inspection that shows the container down, the first probe that succeeds, or when time is up |
| StartCall.LastAnswerDecides | gateway/manager.go:153-216 | Success if and only if the first inspection showed the container running or the last probe succeeded; each error if and only if the last answer was the refused start, the missing address, an exited or dead container, or neither |
| StartCall.NothingDecidesEarlier | gateway/manager.go:160-216 | Before the last answer come a granted start, an address, and in turn inspections of a container that is not down and failed probes |
| StartCall.AnswersAreOwn | gateway/manager.go:153-168 | All questions are about the one container, and a start is asked for, once, exactly when the first inspection did not show it running |
| StartCall.OutcomeShows | gateway/manager.go:155-214 | The message each failure leaves, the state and stamp success leaves, and nothing for other containers; in a quiet world success means running |
| Manager.ContainerManager.EnsureDepsRunning | gateway/manager.go:218-250 | On any configuration each call follows successful calls for all transitive dependencies; nothing follows a failure; success exactly when the target sorts and all calls succeed, and then all proper dependencies were ensured; the calls run once each along a start order that respects the declared order, and leave the target to the caller; Docker is asked for exactly the calls of the trace; in a quiet world success means every proper dependency runs |
| Manager.ContainerManager.EnsureGroupRunning | gateway/manager.go:252-279 | The same over all members; success means every member and its whole closure was ensured; failure is a member that cannot be sorted or the last call; in a quiet world it means all of them run |
| StartTrace.TracesCompose | gateway/manager.go:260-265 | Dependency-first traces stay so when the start sequences of several members follow each other |
| StartTrace.CarriedShows | gateway/manager.go:221-279 | After a trace exactly the names ensured carry a stamp of its time and nothing changed for names that were not called; in a quiet world what ran or was ensured runs, and nothing else was started |
| StartTrace.OnlyCalledNamesAreAsked | gateway/manager.go:234-276 | Docker and the probes are asked about names of the trace only |
| StartTrace.CallsWereAsked | gateway/manager.go:234-276 | Each name ensured was seen running or probed ready; for each that failed a start was asked for |
| StartProtocol.LocksStep | gateway/manager.go:47-55 | Every step keeps one mutex per name and the critical section tied to its holder |
| StartProtocol.AtMostOneInside | gateway/manager.go:149-151 | In every run at most one call per container is past its lock and has not returned |
| StartProtocol.StartsBalanceDepartures | gateway/manager.go:147-216 | In every run successful starts plus outside starts plus initially running equal departures plus now running plus redundant starts, and redundant starts are at most the unanswered inspections plus outside starts |
| StartProtocol.TalliesCount | gateway/manager.go:147-216 | The quantities balanced are what an observer counts in the run: how often the container left the running state, was brought there by others, was started by a call, and could not be inspected |
| StartProtocol.OneStartForAllRequests | gateway/manager.go:27-28 | However many calls run at once, without departures, unanswered inspections and outside starts there is at most one start, and none if the container ran |
| StartProtocol.StartFollowsInspection | gateway/manager.go:153-168 | Every start request follows an inspection by the same call that did not show the container running, with no other call active in the section in between |
| StartProtocol.AnswerExplained | gateway/manager.go:153-216 | In every run a call returns nil only after an inspection that found the container running or a granted start and readiness, and an error only after a refused start or a failed boot; the deciding step left the start state that says so |
| StartProtocol.WorldSteps | gateway/manager.go:153-168 | Inspections tell the truth, and only granted starts and the environment change the world |
| StartProtocol.StateSteps | gateway/manager.go:160-214 | A call that goes on to start sets its state to starting, and no step touches the state of another container |
| StartProtocol.SomeCallCanMove | gateway/manager.go:149-151 | No reachable state is deadlocked |
| StartProtocol.SuccessWithoutReadyState | gateway/manager.go:153-158 | A run in which the call succeeds and the start state still reads starting |
| Schedule.PrevFiring | gateway/scheduler.go:117-132 | The last firing in the week up to now, or none exactly when there is no firing in it |
| Schedule.IsInScheduleWindow | gateway/scheduler.go:85-115 | Access is allowed without a complete parseable pair; with one exactly when replaying the week's events from closed, stop winning ties, ends open; a refusal returns the least start after now |
| Schedule.LastFiringsDecide | gateway/scheduler.go:100-114 | Comparing the two last firings gives the result of the replay |
| Schedule.WeekAgreesWithHistoryIff | gateway/scheduler.go:117-120 | The week agrees with any longer history if and only if something fired within it or the history had the window closed at its start |
| Schedule.OldStartIsForgotten | gateway/scheduler.go:103-106 | A start just over a week old with no stop since: open by history, refused by the code |
| Schedule.StartCountsForAWeek | gateway/scheduler.go:117-122 | A single start without a stop keeps the window open for exactly seven days |
| Schedule.LaterFiringDecides | gateway/scheduler.go:100-114 | With one start and one stop the window is open if and only if the start lies in the last seven days and the stop has not come at or after it |
| Schedule.ValidateScheduleCompatibility | gateway/scheduler.go:33-83 | No error exactly when what is given parses and a complete pair shares no minute among the firings of the coming week; a conflict names the first shared minute; terminates |
| Schedule.FindConflict | gateway/scheduler.go:57-82 | Finds the first minute in which both schedules fire, if there is one |
| Schedule.CompatibleInPlainTerms | gateway/scheduler.go:33-83 | Two given, parseable schedules pass if and only if no start and stop of the seven days after the current whole minute fall into one minute of sixty seconds |
| Schedule.ConflictMeansSameMinute | gateway/scheduler.go:57-82 | Two single firings conflict if and only if both fall into the coming seven days and into one minute |
| Schedule.TruncatedIsWholeMinute | gateway/scheduler.go:57-63 | Truncation drops less than sixty seconds and lands on a whole minute |
| CronJobs.ScheduleManager.Sync | gateway/scheduler.go:164-236 | The registry after a Sync is a function of the registry before, the list and the location, whatever order the old entries are removed in |
| CronJobs.ScheduleManager.RemoveAll | gateway/scheduler.go:172-178 | Removes exactly the remembered jobs |
| CronJobs.ScheduleManager.Register | gateway/scheduler.go:181-235 | Registers the jobs of one container with its effective zone and remembers their ids only when all of them registered |
| CronJobs.SyncLeaksIff | gateway/scheduler.go:208-232 | A Sync never forgets an orphan job and makes a new one exactly when the list is not tidy |
| CronJobs.RegisterAllLeaksIff | gateway/scheduler.go:180-235 | Registering a list loses a job exactly when a start registers without its stop or two recorded containers share a name |
| CronJobs.HalfRegisteredIff | gateway/scheduler.go:197-227 | The leaking case: the start expression registers, the stop expression is given and does not |
| CronJobs.HistoryStaysClean | gateway/scheduler.go:164-166 | After any history of tidy Syncs no job is leaked |
| CronJobs.LiveJobsAreThoseOfTheLastSync | gateway/scheduler.go:164-236 | After any such history the live entries are the remembered ones and depend only on the last list and location |
| CronJobs.JobsAreDeclared | gateway/scheduler.go:180-230 | When every expression parses, the jobs of a list are exactly its declared starts and stops, each with its own expression and the effective zone |
| CronJobs.ZoneIsWrittenOut | gateway/scheduler.go:24-32 | A container that names its zone has its start and its stop registered under `CRON_TZ=` and that zone |
| CronJobs.GlobalZoneIsDefault | gateway/scheduler.go:183-190 | One that names none follows the global zone; the local zone and a missing one are left out of the expression |
| CronJobs.RegisterAllJobs | gateway/scheduler.go:197-230 | The live jobs are those of the containers in list order under consecutive ids |
| Discovery.MergeConfigs | gateway/discovery.go:94-130 | The gateway section unchanged, the static containers first, then discovered ones only, and whatever is missing shares its host or name with a container of the merge; no groups |
| Discovery.KeptIsSubsequence | gateway/discovery.go:114-127 | What is appended is a subsequence of the discovered list |
| Discovery.DroppedClashesEarlier | gateway/discovery.go:116-123 | Every dropped container clashes in host or name with one kept before it |
| Discovery.MergeKeepsUniqueness | gateway/discovery.go:104-127 | Unique names and non-empty hosts stay unique |
| Discovery.MergeIsIdempotent | gateway/discovery.go:94-130 | Merging the kept containers again keeps them all |
| Discovery.GroupRoutesSurviveIff | gateway/discovery.go:99-102 | Group lookups survive a merge if and only if no static group has a host |
| MergeValidity.MergeValidIff | gateway/discovery.go:72-76 | On top of an accepted static configuration a merge is accepted if and only if every static container without a host is a dependency of something, the kept discovered containers pass, and they form no cycle among themselves |
| MergeValidity.StaticMergeValidIff | gateway/discovery.go:72-76 | With nothing discovered, if and only if every container without a host is a dependency |
| MergeValidity.MergeAcyclicIff | gateway/config.go:339-381 | A merge has a cycle if and only if the discovered containers have one among themselves |
| MergeValidity.GroupOnlyMemberBlocksDiscovery | gateway/discovery.go:72-76 | For all names: a configuration with a host-less group member is accepted, and no merge over it is unless a discovered container depends on the member |
| Discovery.StartupJobsMatchIff | main.go:50-60 | After startup the live jobs are those of the static list, equal to those of the pushed list if and only if the kept discovered containers have none |
| Discovery.Startup | main.go:40-60 | Startup pushes the first merge if it is valid, and then leaves the cron with the list of the static configuration |
| Discovery.CronOfEveryRun | gateway/scheduler.go:168-236 | At every moment of every run from startup no job is leaked and the live jobs are those of the last synchronised list |
| Discovery.Server.ReloadConfig | gateway/server.go:132-144 | Swaps the configuration, rebuilds all indexes and synchronises the cron with the new list |
| Discovery.Server.ResolveConfig | gateway/server.go:155-180 | The last entry of the host, else of the host without port, else the first of the name; on a valid configuration that is what linear scans find |
| Discovery.Server.ResolveGroup | gateway/server.go:182-197 | The last group of the host, else of the host without port; on a valid configuration what linear scans find |
| Discovery.RequestFindsItsHost | gateway/server.go:155-170 | A request for the host of a container, with or without a port, finds that container |
| Discovery.FoundAsRequested | gateway/server.go:155-180 | What a request finds has the requested host up to a port, or else the requested name; nothing found means nothing has them |
| Discovery.RequestFindsItsGroup | gateway/server.go:182-197 | A request for the host of a group, with or without a port, finds that group |
| Discovery.DiscoveryManager.RunDiscovery | gateway/discovery.go:62-92 | A failed listing or invalid merge changes nothing; otherwise the server holds the merge and is told only if the cache does not; every push is valid, the cache is empty or the last push, the indexes answer for the current configuration, and the cron is synchronised with exactly the pushed lists, so a pass without a push leaves its jobs alone; every push of every run carries the gateway section and begins with the containers of the static configuration of its time |
| Discovery.DiscoveryManager.UpdateStaticConfig | gateway/discovery.go:30-41 | A static reload keeps all of that and pushes a valid merge even when nothing changed |
| Topology.AssignLayers | gateway/templates/topology.html:279-300 | Stops on every graph; reaches a fixpoint within its cap exactly when the graph is acyclic, and then each layer is the length of the longest dependency path ending there |
| Topology.DrawnInPlainTerms | gateway/templates/topology.html:290-298 | An edge counts exactly for a declared dependency on a listed name |
| Topology.OnePass | gateway/templates/topology.html:290-298 | A pass lifts every dependency above where its dependent stood and reports a change exactly when there was one |
| Topology.CoveredIsFixed | gateway/templates/topology.html:287-289 | Once all paths are covered a pass changes nothing, so the cap suffices |
| Topology.FixpointIsLongest | gateway/templates/topology.html:279-281 | A fixpoint rules out cycles and consists of longest path lengths |
| Topology.ComputeLayout | gateway/templates/topology.html:303-335 | Every node gets a box inside the canvas, no two boxes come closer than a gap, and on an acyclic graph every edge runs left to right across a gap; the x of a box is 40 plus 264 per layer, columns keep list order and are centred, and the canvas is tight |
| RateLimiter.Limiter.Allow | gateway/server.go:621-631 | Grants and stamps an unseen address or one whose stamp is an interval old, otherwise changes nothing |
| RateLimiter.Limiter.EvictStale | gateway/server.go:649-659 | Removes exactly the stamps older than two intervals |
| RateLimiter.EvictionIsInvisible | gateway/server.go:649-659 | In any run under a monotone clock, evictions placed anywhere never change an answer |
| RateLimiter.GrantsAreSpaced | gateway/server.go:607 | Two granted requests of one address are at least the interval apart |
| RateLimiter.GrantedExactlyWhenSpaced | gateway/server.go:621-631 | A request is granted if and only if every earlier granted request of its address is an interval old |
| GroupRouter.Router.Pick | gateway/group.go:23-42 | Returns the member at the group's count modulo its size and advances only that count, modulo 2^64 |
| GroupRouter.FreshRouterStartsAtFirst | gateway/group.go:32-41 | From a fresh router the picks of a group go through its members in order from the first, whatever is picked in between |
| GroupRouter.OnlyOwnPicksCount | gateway/group.go:32-40 | A group's count moves, modulo 2^64, by its own picks only |
| GroupRouter.Fair | gateway/group.go:40-41 | In any mixed run without a wrap, or with a group size dividing 2^64, two positions of a group are picked equally often up to one |
| GroupRouter.WrapContinuesCycleIff | gateway/group.go:40-41 | Every pick, the one at the wrap included, is followed by the next position if and only if the group size divides 2^64 |
| GroupRouter.AlwaysFairIff | gateway/group.go:40-41 | All runs, wraps included, are fair if and only if the group size divides 2^64 |
| LogFrames.StripDockerLogHeaders | gateway/docker.go:300-314 | Terminates on every input and returns the payloads of all frames, the last one cut to what is there |
| LogFrames.StripInvertsFraming | gateway/docker.go:300-301 | Stripping inverts framing for payloads under 2^32 bytes and ignores fewer than 8 trailing bytes |
| LogFrames.HeaderInTermsOfBytes | gateway/docker.go:300-311 | Byte by byte: four bytes are dropped, the next four count the payload, most significant first |
| LogFrames.CutFrameYieldsRest | gateway/docker.go:307-311 | A frame cut off within its payload yields what is there of it |
| LogFrames.PrefixMonotone | gateway/docker.go:302-314 | Stripping a prefix of a log gives a prefix of stripping the log |
| LogFrames.StrippedIsShorter | gateway/docker.go:300-301 | At least eight bytes are consumed for every frame |

## Left out

- Docker API calls, HTTP proxying, WebSocket tunnelling, readiness probes and header rewriting: I/O; probes and addresses are answers chosen freely.
- Cron parsing, time zones and daylight saving: the library is a parser into schedules whose `Next` is the least later firing; `@every` schedules, whose firings depend on the query, are excluded by that.
- YAML loading, environment overrides and defaults: plumbing that would only add easy members.
- Admin authentication, the origin check and trusted proxies: thin single-branch wrappers. Only the settings check inside `Validate` is modelled.
- Metrics, logging, page rendering and the remaining page scripts: user interface.
- calcIdleRemaining in gateway/server.go: a clamp of one subtraction.
- Fields of a container entry that only address the network or dress pages (`start_timeout`, `network`, `redirect_path`, `icon`, `health_path`): a change in one of them alone also triggers a push in the original. The deep comparison there also tells nil from empty lists.
- Manager.ContainerManager.EnsureRunning: describes one call running alone; mutexes and interleavings are in `StartProtocol`, which in turn does not model the polling inspections one by one, only their outcome.
- Manager.ContainerManager.RecordActivityChain: all roots that cannot be sorted are stamped with one second clock reading, where the original reads the clock for each.
- Validation.Validate: uses one clock reading for all schedule checks, where the original reads the clock for each container; the three missing-field errors of a group are one error here.
- Docker.DockerClient.StopContainer: a failed stop changes nothing by itself; one that takes effect all the same counts as interference.
- Discovery.DiscoveryManager.RunDiscovery: one pass is atomic; in the original the push happens after the lock is released, so two overlapping passes may push in either order.
- The unlocked read of the name index while a group starts: reads are atomic here.
- GroupRouter.Router.Pick: the counter table and the atomic add are one step.
- CronJobs.ScheduleManager.Sync: a job is its container, direction and expression; what it does when it fires is an environment step of `StartProtocol`.
- LogFrames.StripDockerLogHeaders: frame sizes are those of a 64-bit `int`; on a 32-bit platform a size of 2^31 or more would be negative.
- Topology.AssignLayers: layers are a finite map; names such as `__proto__`, which a JavaScript object treats specially, behave like any other.
