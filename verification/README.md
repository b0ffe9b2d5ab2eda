# Verified model of the race simulation's stateful core

The repository simulates a city marathon: a Go gateway routes messages between browsers, agents and
simulations, Python dispatchers run the agents on several instances, and a traffic and a runner
library compute what happens on the road. This project models the stateful parts in Dafny, in the
form the source gives them, and proves what they keep over whole runs.

- **Hub** (`HubHistory`, `HubDelivery`, `GatewayHub`). The five routing maps of the gateway's `Run`
  loop and the worker that fans a remote message out. The maps are proved to hold a relation that
  is defined by the history of events alone; who receives a message is defined over that relation
  and proved to be what the delivery phases do, with any events while the lock is free, any answer
  of the store and any full buffers.
- **Subscription store** (`SubscriptionRuns`, `SubscriptionPromise`, `SubscriptionStore`). The
  forward and reverse Redis sets with one expiry per key: what they hold after any run, read off the
  history, and how far that is what a subscriber may expect.
- **Session registry** (`RegistryState`, `RegistryHistory`, `RegistrySets`, `RegistryTheorems`,
  `RegistryGaps`, `RegistryAgreement`, `RegistryServices`). The Redis registry with its expiring
  keys: every key, set and name read off the run of operations; exact after every `Reap` if and only
  if `Reap` comes at least once a ttl, and in agreement with the in-memory registry when nothing
  expires.
- **Dispatcher** (`Dispatcher`, `DispatcherHistory`, `Relay`, `RelayDispatch`). One instance's event
  processing and simulation tracking, its sessions and the effect of a broadcast read off the
  messages it heard; then any number of instances, broadcasts in flight and deliveries in any
  order; then the gateway's dispatch to the agent types of the targets.
- **Road closures** (`RoadSplit`, `ClosureNetwork`, `ClosureReport`, `Congestion`). Splitting a road
  against a definition that looks at one edge, the whole network with its cross streets and
  intersections, and congestion over a run of ticks in closed form.
- **Runner** (`Runner`, `RunnerTicks`). Pace, water, stations and the finish, over `real`; what runs
  keep, and what one tick does in numbers.
- **Spawn cap** (`SpawnCap`). The in-place scaling loop in 64-bit arithmetic.
- **Session cache** (`TtlCache`). The bounded cache against the unbounded map.

`Multimaps`, `Options`, `Reals` and `Sequences` hold what several modules use. `dafny verify dfyconfig.toml`
checks everything.

## Reading the model

- One step of a class method is one atomic step of the source: a `select` case under the hub's
  mutex, a critical section of the worker, a registry or store operation, an event at a dispatcher,
  a tool call on a runner. The gap in which the hub's worker holds no lock is a parameter: any
  admissible sequence of events.
- Redis is a map of sets and string keys with deadlines and a clock; a key exists strictly before
  its deadline. Go and Python iteration orders are arbitrary choices.
- Inputs that cannot be computed here are parameters: the room in each send buffer, the store's
  answer, the relay id, the evicted event id, the distance test and the rounding of coordinates, the
  random number of each station, and the clock.
- Sequences of operations are written as a `seq` and run by a recursive function; the class methods
  are proved to take the steps of that function. The store and the registries carry the operations
  they have handled in a ghost field, and `Valid` says that they are in the state these lead to.

## Where the code falls short of its promise

Each line names a lemma with an input on which the promise fails, and the one that says for all
inputs exactly when it holds.

- A subscription handled after its client was unregistered is not rechecked, so that a closed channel
  can be sent to: `StaleSubscribeReachesClosedChannel`; exactly then, state by state and over runs:
  `ReachesClosedIffLeaks`, `NeverReachesClosedIffDisciplined`.
- A destination named twice receives two copies: `RepeatedDestinationDelivers`; exactly then:
  `OneCopyIffTargetsDistinct`.
- An observer that unsubscribed from a simulation sees it again after subscribing to another one and
  dropping that, because a subscription clears the whole blocklist: `SeesAgain`; exactly then:
  `UnsubscribedSeesAgainIff`.
- Phase 3b is said to serve clients that reconnected without subscribing again, but its guard skips
  exactly those: `ReconnectedIsSkipped`; it serves a client that phases 1 to 3 owe nothing exactly if
  that subscribed in the gap: `ServedAcrossIff`.
- The store can list a session that has left: `StaleListing`; exactly then: `StaysListedIff`.
- A simulation whose next `Reap` comes a unit too late stays listed without a live session:
  `LateReapLosesSimulation`; exactly then: `ReapExactIff` for one `Reap`, `ExactAfterReapIff` at the
  end of a run, `AlwaysExactIffGap` over all runs.
- A session tracked twice makes the two registries disagree: `RetrackedSessionDiverges`; exactly
  then: `ReapAgreesIffNoOrphans` for one `Reap`, `RegistriesAgreeIff` over runs.
- Moving the last session of a simulation to another one leaves its subscription behind:
  `RespawnAbandons`; exactly then: `TrackingBySpawn`, for any message `TrackingStep`, and over runs
  `TrackingAlwaysIff`.
- The seen ids are said to be kept few, but a relay's id is added without evicting:
  `SeenGrowsWithoutBound`; exactly then: `LimitKeptIff`.
- Targets of several agent types are dispatched once for each type with the whole list, and each
  delivery triggers them: `TwoTypesTriggerTwice`; exactly then: `OncePerType`.
- Segments of one road name share a counter: `SharedNameCountsTwice`; exactly then:
  `OwnStepsIffDistinct`.
- The spawn cap is said to fit the counts to the limit. The total can exceed it, because each type
  keeps at least one (`LimitExceeded`), because the sum overflows and the cap is skipped
  (`OverflowEscapes`; exactly then: `EscapesIffWrapped`), or because the sum overflows to a number
  still over the limit (`WrappedTotalExceeds`); for all requests exactly then: `ExceedsIff`. The last
  type can get more than it asked for: `LastGetsMore`; exactly then: `LastGetsMoreIff`. A product that
  overflows costs a type its share: `ProductOverflowSkews`; exactly then: `ShareExactIffFits`.

`SharedConnectionLosesOwner` is not among them: the gateway registers each connection once
(cmd/gateway/main.go:740), and only another user of the hub could share one.

## Model

| member | source | states |
|---|---|---|
| `HubHistory.SoundStep` | internal/hub/hub.go:252-373 | no event closes a channel twice, leaves open the channel of a client that has left or closes that of a registered one, subscribes and blocks a client for one simulation, or makes an unknown client known |
| `HubHistory.SoundRun` | internal/hub/hub.go:250-373 | the same in every reachable state, however often a client is unregistered |
| `HubHistory.EventDecides` | internal/hub/hub.go:252-366 | after a join its client is registered, owns its connection and is subscribed to the simulation it names; after a departure nothing of it is left; after a subscription that stands and all blocks are gone; after an unsubscription it is ended and blocked |
| `HubHistory.NoLeakStep` | internal/hub/hub.go:319-331 | an event keeps every subscribed client registered if and only if it is not a subscription of a client that has left |
| `HubHistory.DisciplinedNeverLeaks` | internal/hub/hub.go:252-373 | over any run whose subscriptions are handled while their client is registered, every subscribed client is registered |
| `HubHistory.NeverLeaksIffDisciplined` | internal/hub/hub.go:319-331 | at no point of a run is a departed client subscribed if and only if every subscription was handled while its client was registered |
| `HubHistory.SubscribedIffLatest` | internal/hub/hub.go:263-279 | a client is subscribed to exactly the simulations whose latest event, auto-subscription included, is a subscription |
| `HubHistory.BlockedIffLatest` | internal/hub/hub.go:343-363 | a simulation is blocked for a client exactly when it was unsubscribed and nothing was subscribed since |
| `HubHistory.SubscribedInGapIff` | internal/hub/hub.go:319-366 | a client not subscribed before any stretch of events is subscribed after it exactly if the latest relevant event in it is a subscription |
| `HubHistory.RegisteredIffLatest` | internal/hub/hub.go:252-310 | a client is registered exactly if it joined and has not left since, and the closed channels are those of the others that joined, each closed once |
| `HubHistory.ConnectionIndexExact` | internal/hub/hub.go:258-308 | the connection index gives a client exactly when its registration is the latest registration or departure on its connection; with one client per connection, exactly while it is registered |
| `HubHistory.SharedConnectionLosesOwner` | internal/hub/hub.go:308-308 | any two clients registered on one connection: the first departure hides the other, which stays registered |
| `HubDelivery.RecipientSet` | internal/hub/hub.go:422-512 | the entitled clients are the admitted observers, the clients of the target sessions or of all sessions, and the subscribers of the simulation |
| `HubDelivery.SessionCopies` | internal/hub/hub.go:422-512 | a client of a session gets as many copies as the destinations list it, without destinations one if addressed, without that one if it is the origin, without any of these one; a subscriber of the simulation at least one |
| `HubDelivery.ObserverCopies` | internal/hub/hub.go:437-461 | an observer gets a message of a simulation if its latest event about that is a subscription, or if it is subscribed to nothing and has not unsubscribed from it since it last subscribed to anything |
| `HubDelivery.OneCopyIffTargetsDistinct` | internal/hub/hub.go:481-494 | every client is entitled to at most one copy if and only if no session with a registered client is named twice |
| `HubDelivery.RepeatedDestinationDelivers` | internal/hub/hub.go:481-494 | a destination named twice entitles its client to two copies |
| `HubDelivery.EntitledIsOpen` | internal/hub/hub.go:284-294 | without leaked subscriptions an entitled client is registered and its channel open |
| `HubDelivery.ReachesClosedIffLeaks` | internal/hub/hub.go:422-512 | some message is addressed to a closed channel if and only if a client that has left is subscribed to a named simulation |
| `HubDelivery.NeverReachesClosedIffDisciplined` | internal/hub/hub.go:319-331 | at no point of a run can a closed channel be addressed if and only if every subscription was handled while its client was registered |
| `HubDelivery.StaleSubscribeReachesClosedChannel` | internal/hub/hub.go:319-331 | a run in which a client with a closed channel is entitled to a message |
| `HubDelivery.AfterUnsubscribe` | internal/hub/hub.go:343-363 | after an unsubscription with no resubscription the client is not subscribed, and blocked exactly until its next subscription to anything |
| `HubDelivery.UnsubscribedSeesAgainIff` | internal/hub/hub.go:441-453 | such an observer is admitted again if and only if it has no subscription left but had one in between |
| `HubDelivery.SeesAgain` | internal/hub/hub.go:319-331 | an observer that drops one simulation, then subscribes to another and drops that, is admitted to the first again |
| `HubDelivery.UnsubscribedStaysSilent` | internal/hub/hub.go:438-547 | with no later subscription an unsubscribed observer is entitled to nothing of that simulation in phases 1 to 3, and whatever the gap brings short of a resubscription it does not qualify for phase 3b |
| `GatewayHub.SendEach` | internal/hub/hub.go:454-459 | one delivery loop tries each wanted client once and nobody else; a client gets a copy exactly when its try finds room |
| `GatewayHub.DropFromIndex` | internal/hub/hub.go:295-305 | the reverse index afterwards holds exactly the pairs of the other clients |
| `GatewayHub.Hub.Register` | internal/hub/hub.go:252-282 | the maps go on holding exactly the routing relation, after the join with its auto-subscription |
| `GatewayHub.Hub.Unregister` | internal/hub/hub.go:284-310 | the maps hold the relation after the departure; the channel is closed only if the client was still registered |
| `GatewayHub.Hub.SimSubscribe` | internal/hub/hub.go:319-334 | the maps hold the relation after the subscription, the client's blocklist cleared |
| `GatewayHub.Hub.SimUnsubscribe` | internal/hub/hub.go:343-366 | the maps hold the relation after the unsubscription, the simulation blocked |
| `GatewayHub.Hub.HandleAll` | internal/hub/hub.go:250-373 | any number of events leave the maps holding the relation of the whole run |
| `GatewayHub.Hub.HandleTextMessage` | internal/hub/hub.go:562-588 | a text frame yields a request exactly for a known connection, a known type and a non-empty simulation, and always an admissible one |
| `GatewayHub.Hub.UnregisterRequest` | internal/hub/hub.go:207-219 | a departure is requested exactly when a registered client has that session and connection, and for such a client |
| `GatewayHub.Hub.SendToObservers` | internal/hub/hub.go:437-461 | phase 1 sends exactly to the observers the allowlist or else the blocklist admits |
| `GatewayHub.Hub.SendToAllSessions` | internal/hub/hub.go:464-478 | phase 2 without targets sends to every registered client that is not an observer |
| `GatewayHub.Hub.SendToTargets` | internal/hub/hub.go:481-495 | phase 2 with targets sends to each client of a named session as often as it is named |
| `GatewayHub.Hub.SendToSubscribers` | internal/hub/hub.go:498-512 | phase 3 tries exactly the subscribers of the simulation that have no copy yet |
| `GatewayHub.Hub.FanOut` | internal/hub/hub.go:422-512 | phases 1 to 3 try each client once for each copy addressed to it, and once more a subscriber left without one; nobody gets more than entitled, and everybody that when every buffer has room |
| `GatewayHub.Hub.CrossInstance` | internal/hub/hub.go:525-547 | phase 3b tries each listed, registered, currently subscribed client without a copy until a try finds room, as often as its session is listed at most, and nobody else |
| `GatewayHub.Hub.AfterGap` | internal/hub/hub.go:513-547 | the gap is handled, and phase 3b then does that over the state after it |
| `GatewayHub.Hub.ProcessRemoteMessage` | internal/hub/hub.go:407-551 | with any events in the gap, any answer and any full buffers: who is tried in phases 1 and 2, in 3 and in 3b, each copy a try that found room; so no client gets a message twice if targets are distinct, no closed channel is tried in 3b, nor before unless a subscription leaked, and with room exactly the entitled and those that 3b has to serve are served |
| `GatewayHub.ProcessedNeverTwice` | internal/hub/hub.go:422-547 | the phases give nobody more than entitled before the gap, one copy more at most after it, and with distinct targets one in all |
| `GatewayHub.ProcessedAllServed` | internal/hub/hub.go:422-547 | with room each client gets what it is entitled to, and after the gap a copy goes to exactly the clients registered, listed, owed nothing and subscribed in the gap |
| `GatewayHub.ProcessedNoClosedTried` | internal/hub/hub.go:422-547 | no try before the gap is on a closed channel if nothing leaked, and none after it |
| `GatewayHub.ServedAcrossIff` | internal/hub/hub.go:513-547 | with room, phase 3b comes by a client if and only if it is registered after the gap, listed, owed nothing, and its latest relevant event in the gap is a subscription |
| `GatewayHub.ReconnectedIsSkipped` | internal/hub/hub.go:513-536 | a client that subscribed on an earlier connection and reconnected without doing so again is registered and listed, owed nothing before, and phase 3b does not come by it |
| `GatewayHub.IndexAgreement` | internal/hub/hub.go:252-373 | in every reachable disciplined state the two subscription indexes are inverse, indexed clients are registered, registered clients' channels are open and none is closed twice, and allowlist and blocklist are disjoint |
| `SubscriptionRuns.Deadlines` | internal/hub/subscription.go:80-82 | after every run each key expires a ttl after the last subscription under it |
| `SubscriptionRuns.RevExact` | internal/hub/subscription.go:74-119 | after every run a session's reverse set has a simulation exactly if it subscribed to it and since then neither dropped it, left, nor went a ttl without subscribing to anything |
| `SubscriptionRuns.FwdExact` | internal/hub/subscription.go:74-124 | after every run a simulation lists a session exactly if it subscribed and since then neither dropped it, left with it in its reverse set, nor did a ttl pass without anybody subscribing to the simulation |
| `SubscriptionRuns.StaysListedIff` | internal/hub/subscription.go:99-119 | a session that leaves stays listed for a simulation if and only if it was listed and its reverse set had lost the simulation |
| `SubscriptionRuns.StaleListing` | internal/hub/subscription.go:80-82 | a run of five operations whose last is the departure of a session that stays listed |
| `SubscriptionPromise.KeptByTime` | internal/hub/subscription.go:80-82 | expiry keeps the promise that a recent pair is in the forward set exactly while it stands, and then in the reverse set |
| `SubscriptionPromise.KeptByUnsubscribeAll` | internal/hub/subscription.go:99-119 | so does sweeping a session through its reverse set |
| `SubscriptionPromise.UnreachableIsStale` | internal/hub/subscription.go:99-119 | an entry without reverse partner, or one that no longer stands, was last subscribed at least a ttl ago |
| `SubscriptionPromise.ConsistentAlways` | internal/hub/subscription.go:74-119 | the promise and the deadlines behind it hold after every run |
| `SubscriptionPromise.RecentListedIffStanding` | internal/hub/subscription.go:74-124 | in every run a pair subscribed less than a ttl ago is listed exactly while neither session nor simulation ended it |
| `SubscriptionPromise.StaleInRun` | internal/hub/subscription.go:99-119 | in every run a listed pair that no longer stands or that a departure cannot find was last subscribed at least a ttl ago |
| `SubscriptionStore.Store.Subscribe` | internal/hub/subscription.go:74-86 | the store goes on in the state of its run, the run a subscription longer: both sets gain the member under a new deadline |
| `SubscriptionStore.Store.Unsubscribe` | internal/hub/subscription.go:89-95 | likewise for an unsubscription: the pair leaves both sets |
| `SubscriptionStore.Store.UnsubscribeAll` | internal/hub/subscription.go:99-119 | the session stays listed exactly for the simulations that had it and that its reverse set had lost |
| `SubscriptionStore.Store.Lookup` | internal/hub/subscription.go:122-124 | lists exactly the sessions the history says; of those that subscribed less than a ttl ago exactly the ones whose subscription stands |
| `RegistryHistory.SessionExact` | internal/session/redis_registry.go:79-92 | after every run the session key says a type exactly if the latest tracking did, no untracking or flush followed, and the clock stayed below a ttl after it |
| `RegistryHistory.SessionExplained` | internal/session/redis_registry.go:79-92 | every session key is explained by such a tracking, and expires a ttl after it |
| `RegistryHistory.SimulationExact` | internal/session/redis_registry.go:85-89 | the simulation key likewise, by the latest tracking under a simulation |
| `RegistryHistory.SimulationExplained` | internal/session/redis_registry.go:85-89 | every simulation key is explained so |
| `RegistrySets.TypesNamed` | internal/session/redis_registry.go:79-391 | at all times the active types are those that have a set |
| `RegistrySets.TypeSetExact` | internal/session/redis_registry.go:79-391 | after every run, ids tracked any number of times, the set of a type lists exactly the sessions tracked under it that no flush, no untracking while their key said it and no Reap without a key took out since |
| `RegistrySets.NamedTypes` | internal/session/redis_registry.go:130-133 | the active types are those whose set lists a session |
| `RegistrySets.SetDeadlines` | internal/session/redis_registry.go:86-86 | the set of a simulation expires two ttls after the last tracking under it |
| `RegistrySets.SimSetExact` | internal/session/redis_registry.go:79-391 | the set of a simulation likewise, or its expiry |
| `RegistrySets.SimNamesExact` | internal/session/redis_registry.go:149-155 | the active simulations are those whose name no flush, no untracking of the only listed session and no Reap of a set without live members took since they were last tracked under |
| `RegistryTheorems.KeptByTrack` | internal/session/redis_registry.go:79-92 | tracking a new session keeps the invariant between Reaps, deadlines included |
| `RegistryTheorems.KeptByUntrack` | internal/session/redis_registry.go:156-211 | so does untracking |
| `RegistryTheorems.KeptByFlush` | internal/session/redis_registry.go:235-280 | so does a flush, which leaves no set behind although it finds the agent sets only through their names |
| `RegistryTheorems.KeptByAdvance` | internal/session/redis_registry.go:81-87 | so does expiry, up to a ttl after the last Reap: no simulation set expires before its members |
| `RegistryTheorems.KeptByReap` | internal/session/redis_registry.go:286-391 | a Reap makes every index exact and renews the invariant |
| `RegistryTheorems.InvAlways` | internal/session/redis_registry.go:79-391 | the invariant holds after every run with each id tracked once and Reaps at most a ttl apart |
| `RegistryTheorems.ExactAfterEveryReap` | internal/session/redis_registry.go:286-391 | right after each Reap of such a run each agent set is exactly the live sessions of its type, and the active types and simulations exactly those with a live session |
| `RegistryGaps.LooseInvAlways` | internal/session/redis_registry.go:79-391 | with ids tracked once and Reaps any time apart, every live session is in its sets, every set is found by its name, and no simulation set expires before its members |
| `RegistryGaps.ReapExactIff` | internal/session/redis_registry.go:286-391 | a Reap always makes the agent indexes exact, and active-simulations if and only if every listed simulation still has its key |
| `RegistryGaps.ExactAfterReapIff` | internal/session/redis_registry.go:348-388 | at the end of any run with ids tracked once, the same condition decides whether one more Reap leaves the simulations exact |
| `RegistryGaps.LateReapLosesSimulation` | internal/session/redis_registry.go:348-388 | for every ttl and entry a run with Reaps a ttl and one unit apart ends in a Reap with the simulation listed and no live session |
| `RegistryGaps.AlwaysExactIffGap` | internal/session/redis_registry.go:286-391 | every Reap of every run makes active-simulations exact if and only if the longest gap between Reaps is at most a ttl |
| `RegistryAgreement.ReapAgreesIffNoOrphans` | internal/session/service.go:173-175 | a Reap keeps the two registries in agreement if and only if no reverse set has a member without a session |
| `RegistryAgreement.RegistriesAgreeIff` | internal/session/service.go:58-175 | over every run without expiry the registries agree after each operation if and only if no Reap finds a reverse-set member without a session |
| `RegistryAgreement.RegistriesAgree` | internal/session/service.go:58-175 | over every run without expiry, with ids tracked once if it reaps, both registries give the same types, simulations, active lists and flush count |
| `RegistryAgreement.ReverseSetsExact` | internal/session/redis_registry.go:79-211 | in such a run the reverse sets are at all times exact inverses of the session keys |
| `RegistryAgreement.RetrackedSessionDiverges` | internal/session/redis_registry.go:79-92 | a session tracked under two types leaves one registry reporting a type that the other does not |
| `RegistryServices.InMemorySessionService.TrackSession` | internal/session/service.go:58-74 | the service goes on in the state of its run, the run one tracking longer |
| `RegistryServices.InMemorySessionService.BatchTrackSessions` | internal/session/service.go:76-94 | a batch is its entries tracked one after another |
| `RegistryServices.InMemorySessionService.UntrackSession` | internal/session/service.go:115-133 | the deletions, each only if the id is known, leave the state of the run one untracking longer |
| `RegistryServices.InMemorySessionService.Flush` | internal/session/service.go:161-170 | the maps are empty, as after the run with a flush, and the sessions counted |
| `RegistryServices.InMemorySessionService.Reap` | internal/session/service.go:173-175 | reports nothing reaped and changes nothing |
| `RegistryServices.RedisSessionRegistry.Advance` | internal/session/redis_registry.go:79-87 | when time passes, exactly the expired keys are gone, as in the run |
| `RegistryServices.RedisSessionRegistry.TrackSession` | internal/session/redis_registry.go:79-92 | the registry goes on in the state of its run, the run one tracking longer, whose deadlines are one and two ttls off |
| `RegistryServices.RedisSessionRegistry.BatchTrackSessions` | internal/session/redis_registry.go:96-114 | a batch is its entries tracked one after another |
| `RegistryServices.RedisSessionRegistry.UntrackSession` | internal/session/redis_registry.go:156-211 | the state of the run one untracking longer, names dropped with their last member |
| `RegistryServices.RedisSessionRegistry.Flush` | internal/session/redis_registry.go:235-280 | the state of the run with a flush, and the number of session keys |
| `RegistryServices.RedisSessionRegistry.Reap` | internal/session/redis_registry.go:286-391 | counts the members it drops from the sets of the types; leaves every index exact if Reaps came at most a ttl apart, and active-simulations in any case exactly when every listed simulation had its key |
| `RegistryServices.RedisSessionRegistry.FindAgentType` | internal/session/redis_registry.go:117-127 | answers the type of the latest tracking while its key lives, as the run says |
| `RegistryServices.RedisSessionRegistry.FindSimulation` | internal/session/redis_registry.go:135-145 | answers the simulation likewise |
| `RegistryServices.RedisSessionRegistry.ActiveAgentTypes` | internal/session/redis_registry.go:130-133 | answers the types with a listed session |
| `RegistryServices.RedisSessionRegistry.ListSimulations` | internal/session/redis_registry.go:147-155 | answers the named simulations |
| `RegistryServices.RedisSessionRegistry.ListSessions` | internal/session/redis_registry.go:213-232 | answers the sessions with a key |
| `RegistryServices.ReapedIsDropped` | internal/session/redis_registry.go:286-345 | the count of a Reap is the number of members its pruning takes from the sets |
| `RegistryServices.ReapIsExact` | internal/session/redis_registry.go:286-391 | both conditions of a Reap's exactness, for any run of operations |
| `Dispatcher.TrackingByEnd` | agents/utils/dispatcher.py:532-546 | ending a simulation keeps the subscriptions equal to the simulations of mapped sessions |
| `Dispatcher.TrackingByRemove` | agents/utils/dispatcher.py:137-168 | so does removing a session |
| `Dispatcher.TrackingBySpawn` | agents/utils/dispatcher.py:368-391 | a spawn does if and only if it does not move the last session of a simulation elsewhere |
| `Dispatcher.RespawnAbandons` | agents/utils/dispatcher.py:368-391 | a session spawned for one simulation and then for another leaves the first subscribed with nobody mapped to it |
| `Dispatcher.TrackingStep` | agents/utils/dispatcher.py:327-571 | any message does, a reset included, if and only if it is a duplicate or not such a spawn |
| `Dispatcher.TrackingAlwaysIff` | agents/utils/dispatcher.py:137-574 | the subscriptions equal the mapped simulations throughout a run if and only if no message in it moves the last session of a simulation elsewhere |
| `Dispatcher.TrackingAlways` | agents/utils/dispatcher.py:137-574 | so they do in every run of messages and removals with no session spawned again under another simulation |
| `DispatcherHistory.MappedIff` | agents/utils/dispatcher.py:368-391 | after every run a session is mapped to the simulation of its latest spawn under one, unless it was removed or that simulation ended since |
| `DispatcherHistory.ActiveIff` | agents/utils/dispatcher.py:137-168 | after every run the active sessions are those spawned, under a simulation or not, and not removed, reset or ended with theirs since |
| `DispatcherHistory.BroadcastTriggers` | agents/utils/dispatcher.py:424-440 | after every run a broadcast for a simulation triggers once exactly the active sessions mapped to it; any other, every active session once if it names none or the agent type, else each as often as named; excluded ones never |
| `DispatcherHistory.BroadcastRelays` | agents/utils/dispatcher.py:461-468 | and it is relayed to exactly the targets not triggered so, if it was not relayed and Redis is configured |
| `DispatcherHistory.SeenIff` | agents/utils/dispatcher.py:333-341 | after every run an id is seen exactly if it was recorded, as an event's or a published relay's, and neither evicted nor reset since |
| `Dispatcher.LimitKeptIff` | agents/utils/dispatcher.py:333-341 | a message leaves at most 1000 seen ids if and only if it does not publish a relay for which no room is left |
| `Dispatcher.SeenGrows` | agents/utils/dispatcher.py:333-341 | every broadcast with a new id that publishes a relay adds at least one seen id, from 1000 on exactly one |
| `Dispatcher.SeenGrowsWithoutBound` | agents/utils/dispatcher.py:478-480 | with Redis configured, some run exceeds any number of seen ids |
| `Dispatcher.RedisOrchestratorDispatcher.Remove` | agents/utils/dispatcher.py:137-168 | the session leaves; its simulation's channel is dropped exactly when nobody else is mapped to it |
| `Dispatcher.RedisOrchestratorDispatcher.End` | agents/utils/dispatcher.py:532-546 | exactly the sessions mapped to the simulation leave, and its channel is dropped once |
| `Dispatcher.RedisOrchestratorDispatcher.Select` | agents/utils/dispatcher.py:427-440 | how often each session is selected: by simulation, by mention, or all |
| `Dispatcher.RedisOrchestratorDispatcher.Note` | agents/utils/dispatcher.py:333-341 | an event id is a duplicate exactly when it was seen; otherwise it is recorded, and past 1000 one of the seen ids is dropped |
| `Dispatcher.RedisOrchestratorDispatcher.OnBroadcast` | agents/utils/dispatcher.py:402-504 | the runs triggered, and a relay of exactly the unmatched targets, published if and only if there are some, the message was not relayed and Redis is configured |
| `Dispatcher.RedisOrchestratorDispatcher.ProcessEvent` | agents/utils/dispatcher.py:327-571 | the whole of one event: duplicates do nothing, and each type takes the specified step with the triggers and the relay above; an evicted id is a seen one |
| `Relay.SessionsStay` | agents/utils/dispatcher.py:402-504 | no delivery moves a session |
| `Relay.OriginalHeard` | agents/utils/dispatcher.py:333-341 | no HTTP delivery is dropped as a duplicate |
| `Relay.MarksExact` | agents/utils/dispatcher.py:478-480 | a relay id is recorded exactly where its broadcast published it or its relay was delivered |
| `Relay.OneRelayPerBroadcast` | agents/utils/dispatcher.py:461-498 | at most one relay is ever published for a broadcast, by its HTTP delivery, and none of a relay |
| `Relay.TriggeredIffReached` | agents/utils/dispatcher.py:424-524 | in every reachable state a session has been triggered once by a broadcast if it is a target and the broadcast has reached its owner, and otherwise not at all |
| `Relay.ExactlyOncePerBroadcast` | agents/utils/dispatcher.py:424-524 | when all is delivered, in any order and with relays repeated, every owned target was triggered exactly once and nothing else was |
| `RelayDispatch.DispatchTargets` | cmd/gateway/main.go:124-141 | one delivery for each distinct type of a known target; a fallback exactly when no target is known |
| `RelayDispatch.OncePerDelivery` | cmd/gateway/main.go:125-137 | deliveries that all carry the whole target list trigger an owned target once each |
| `RelayDispatch.OncePerType` | cmd/gateway/main.go:118-142 | a broadcast dispatched to the agent types of its targets triggers each owned target once for every type: exactly once if and only if the known targets are of one type |
| `RelayDispatch.SingleIffOneType` | cmd/gateway/main.go:125-137 | there is a single delivery if and only if some target is known and all known ones have one type |
| `RelayDispatch.CausalIfShort` | agents/utils/dispatcher.py:333-341 | an order in which originals come once and relays after them meets the assumption on the seen ids as long as two ids a delivery fit under 1000 |
| `RelayDispatch.TwoTypesTriggerTwice` | cmd/gateway/main.go:125-137 | two instances of different types with one session each: one broadcast to both triggers each session twice |
| `RelayDispatch.TwoTypesExist` | cmd/gateway/main.go:125-137 | there are such instances |
| `RoadSplit.FindRuns` | agents/utils/traffic.py:173-186 | exactly the maximal runs of at least two matched coordinates, in order |
| `RoadSplit.FindBoundaries` | agents/utils/traffic.py:209-224 | the stretches between them, which hold exactly the edges that are not closed |
| `RoadSplit.AffectedIff` | agents/utils/traffic.py:226-332 | an edge is affected if and only if it is not closed and some closed edge has, between them, no closed edge and no junction but perhaps the closure's own end |
| `RoadSplit.ReachedIffAffected` | agents/utils/traffic.py:226-248 | within a stretch, being cut off by no junction from an adjacent closure is the edge-by-edge definition of affected |
| `RoadSplit.FirstJunction` | agents/utils/traffic.py:262-267 | the first junction of a range, or none |
| `RoadSplit.LastJunction` | agents/utils/traffic.py:269-274 | the last junction of a range, or none |
| `RoadSplit.ClassifyGap` | agents/utils/traffic.py:253-293 | its pieces are exactly the affected and the open edges of the gap; the branches for one or for overlapping junctions are dead |
| `RoadSplit.ClassifyTail` | agents/utils/traffic.py:296-332 | likewise for a remainder, in either direction |
| `RoadSplit.ClassifyAll` | agents/utils/traffic.py:226-248 | over all stretches the affected pieces cover exactly the affected edges, the open pieces the other edges that are not closed |
| `RoadSplit.SplitRoad` | agents/utils/traffic.py:154-250 | three ordered lists that cover exactly the closed, affected and remaining edges, closed and open pieces as long as can be, affected ones cut exactly at junctions; nothing when no edge is closed |
| `RoadSplit.SplitUnique` | agents/utils/traffic.py:154-250 | those are the only lists that do |
| `RoadSplit.ExactCover` | agents/utils/traffic.py:154-250 | every edge of a road with a closure is in exactly one piece |
| `RoadSplit.LengthConserved` | agents/utils/traffic.py:154-250 | whatever the edges' lengths, the pieces add up to the road |
| `ClosureNetwork.FindJunctions` | agents/utils/traffic.py:88-112 | exactly the keys passed by two differently named roads |
| `ClosureNetwork.JunctionIff` | agents/utils/traffic.py:104-112 | a key is a junction exactly if two roads of the network pass it that have different names |
| `ClosureNetwork.PassesIff` | agents/utils/traffic.py:97-108 | a road passes a key exactly if it is a line and one of its coordinates has that key |
| `ClosureNetwork.Collect` | agents/utils/traffic.py:405-416 | all route coordinates, and the route's edges in both directions |
| `ClosureNetwork.RouteEdgeIff` | agents/utils/traffic.py:412-416 | two keys make a route edge exactly if they are those of two coordinates in succession on a line of the route, in either order |
| `ClosureNetwork.MatchFlags` | agents/utils/traffic.py:437-445 | a flag is set exactly when some route coordinate is near |
| `ClosureNetwork.EdgeClosedIff` | agents/utils/traffic.py:437-445 | an edge of a road is closed exactly if each of its ends is near a coordinate of a line of the route |
| `ClosureNetwork.IsRouteLine` | agents/utils/traffic.py:132-151 | true exactly for at least two coordinates all of whose edges are route edges |
| `ClosureNetwork.MatchCounts` | agents/utils/traffic.py:447-454 | fewer than two matches mean that no edge is closed, as many as coordinates that all are matched |
| `ClosureNetwork.ClassifyRoad` | agents/utils/traffic.py:447-469 | the three branches together put every edge into the pool its definition names: all open if no edge is closed, all closed if every coordinate is matched, otherwise the pieces of the split |
| `ClosureNetwork.ClassifySplit` | agents/utils/traffic.py:456-469 | the pieces of the split road, each in the pool of its kind |
| `ClosureNetwork.ClassifyFeature` | agents/utils/traffic.py:429-469 | one road of the network: its flags, its junctions, and its segments by them |
| `ClosureNetwork.ClassifyNetwork` | agents/utils/traffic.py:429-469 | the pools hold road by road the segments of each; each edge is in exactly one pool, in the closed one exactly when both its ends are near the route; every segment lies within its road, every closed or affected one with two coordinates or more; a road that was not split is in a pool as a whole |
| `ClosureNetwork.AssembledUnique` | agents/utils/traffic.py:429-469 | route and network determine the pools, content and order |
| `ClosureNetwork.ClosedEndpoints` | agents/utils/traffic.py:471-476 | the first and last coordinates of the closed segments, in their order |
| `ClosureNetwork.EndsAre` | agents/utils/traffic.py:471-476 | a coordinate is among them exactly if it ends some closed segment |
| `ClosureNetwork.FindCrossStreets` | agents/utils/traffic.py:478-494 | picks, in their order, exactly the open segments with an end near an end of a closed one, and fails exactly on a road without coordinates |
| `ClosureNetwork.PickedIs` | agents/utils/traffic.py:481-494 | each open segment is picked as often as it is open if it touches, and otherwise not at all |
| `ClosureNetwork.Divide` | agents/utils/traffic.py:534-544 | the closed pool in two lists in its order, by whether each edge of a segment is a route edge |
| `ClosureNetwork.PickedApart` | agents/utils/traffic.py:534-544 | such lists use each edge of each road together as often as the pool does |
| `ClosureReport.TouchingStreets` | agents/utils/traffic.py:510-523 | the names of exactly the streets that end near a place, each once |
| `ClosureReport.EndsAtIs` | agents/utils/traffic.py:516-523 | a street is taken to end at a place exactly if its first or its last coordinate is near it |
| `ClosureReport.UnnamedStreets` | agents/utils/traffic.py:519-519 | a road without a name is listed as Unknown if it is whole, and without a name if it was split |
| `ClosureReport.NamedStreet` | agents/utils/traffic.py:519-519 | a road with a name is listed by it |
| `ClosureReport.FindIntersections` | agents/utils/traffic.py:500-532 | the first end of each rounded coordinate at which at least two street names meet, in order, each with its streets, and critical from four, high with three, moderate with two |
| `ClosureReport.CrossingsAre` | agents/utils/traffic.py:504-526 | a place is reported if and only if it is the first end with its rounded coordinate and two street names meet there |
| `ClosureReport.CrossingIs` | agents/utils/traffic.py:510-526 | streets meet at a place if and only if two differently named segments have an end near it |
| `ClosureReport.ReportedIff` | agents/utils/traffic.py:500-532 | an intersection is reported at a place if and only if it is the first end of a closure with its rounded coordinate and two differently named segments have an end near it |
| `ClosureReport.CrossingsDistinct` | agents/utils/traffic.py:504-508 | no rounded coordinate is reported twice |
| `ClosureReport.SameReport` | agents/utils/traffic.py:496-502 | looking at the same segments in another order or more often reports the same |
| `ClosureReport.ReportIntersections` | agents/utils/traffic.py:496-532 | searching the roads not split and all pools finds what the pools alone hold |
| `ClosureReport.DividedApart` | agents/utils/traffic.py:534-544 | each closed segment is in one of the two lists, the route closures exactly if all its edges are route edges, and no use of an edge is lost |
| `ClosureReport.ReportPools` | agents/utils/traffic.py:471-544 | of the pools: cross streets, intersections, and the closed pool divided |
| `ClosureReport.IdentifyClosedSegments` | agents/utils/traffic.py:403-551 | each edge is in exactly one pool, each segment within its road; closures and route closures divide the closed pool; the cross streets are the open segments that touch a closure; the intersections are as above; it fails exactly on a road without coordinates |
| `Congestion.TrafficModel.ComputeTick` | agents/utils/traffic.py:563-656 | a tick takes the specified step, reports the average and its cost |
| `Congestion.TrafficModel.StepSegment` | agents/utils/traffic.py:592-629 | the branches for one segment compute the specified step |
| `Congestion.TotalAdds` | agents/utils/traffic.py:636-645 | the total adds up the congestion of the readings, in whatever parts they are taken |
| `Congestion.MidpointIs` | agents/utils/traffic.py:588-592 | the sweep reaches a segment in its middle |
| `Congestion.SaneStepIffRate` | agents/utils/traffic.py:597-629 | congestion stays within 0 and 1 from every sane entry if and only if the decay rate is not negative |
| `Congestion.BoundsAlways` | agents/utils/traffic.py:642-649 | in every tick of every run, for any names and sweep, congestion is in 0 to 1 and the cost in -1250 to 0 |
| `Congestion.TickIsLocal` | agents/utils/traffic.py:592-640 | with distinct names a tick changes a segment's entry by its own step only |
| `Congestion.RunIsLocal` | agents/utils/traffic.py:592-640 | with distinct names a segment's entry after a run is what it would be alone |
| `Congestion.OwnStepsIffDistinct` | agents/utils/traffic.py:592-640 | in every tick every segment reads its own step if and only if no two segments have one name |
| `Congestion.SharedNameCountsTwice` | agents/utils/traffic.py:595-626 | after one tick two segments of one name read 0.1 and 0.2, alone each would read 0.1 |
| `Congestion.CongestionClosedForm` | agents/utils/traffic.py:597-629 | with a sweep that never retreats, n closed and k later ticks give min(1, n/max) times (1 - rate) to the k, cut to 0 at 0.01 |
| `Congestion.ClosedFormIs` | agents/utils/traffic.py:597-629 | that form in numbers |
| `Congestion.CountsRead` | agents/utils/traffic.py:597-640 | a reading says how many ticks the segment has been closed, 0 once behind the sweep, and 1 while it reopens |
| `Congestion.StatusIs` | agents/utils/traffic.py:597-627 | and the status is closed, reopening or open as that form says |
| `Congestion.StatusAdvances` | agents/utils/traffic.py:597-627 | over a run the status only moves from closed to reopening to open |
| `Congestion.TwelveTicksToOpen` | agents/utils/traffic.py:607-618 | with the defaults a segment reopens only in the first 12 ticks behind the sweep |
| `Congestion.ReopeningTicksAreClose` | agents/utils/traffic.py:607-618 | any two reopening ticks of a run are less than 12 apart |
| `Runner.RunnerTools.ProcessTick` | agents/runner/running.py:101-278 | refused, idle or moving as the parameters and the state say, with the specified state and the stations passed; with fair arguments the vitals stay consistent and the runner does not move back |
| `Runner.RunnerTools.GoAlong` | agents/runner/running.py:212-255 | distance, depletion, stations, exhaustion and collapse |
| `Runner.RunnerTools.CheckStations` | agents/runner/running.py:226-242 | the loop visits each marker of the range once and leaves the specified water |
| `Runner.RunnerTools.DepleteWater` | agents/runner/hydration.py:23-48 | water is at least 0, exhaustion exact and collapse kept; with fair arguments the vitals stay consistent and the runner does not move back |
| `Runner.RunnerTools.RehydrateBy` | agents/runner/hydration.py:67-84 | water is at most 100, and recovery only at 30 or more; with fair arguments the vitals stay consistent and the runner does not move back |
| `Runner.RunnerTools.AccelerateBy` | agents/runner/running.py:39-55 | only the velocity changes; with fair arguments the vitals stay consistent and the runner does not move back |
| `Runner.RunnerTools.BrakeBy` | agents/runner/running.py:64-73 | only the velocity changes, not below 0; with fair arguments the vitals stay consistent and the runner does not move back |
| `Runner.StepKeeps` | agents/runner/running.py:212-278 | each tool keeps the vitals consistent and never moves the runner back |
| `Runner.StepKeepsAny` | agents/runner/running.py:39-278 | so for any race a caller has in mind |
| `RunnerTicks.OneStation` | agents/runner/running.py:233-242 | at a station a runner with at most 40 water, or exhausted, drinks 25, up to 100; with up to 60 if its number is below 0.5, with more if below 0.3 |
| `RunnerTicks.StationsMeet` | agents/runner/running.py:231-242 | stations are passed one after another |
| `RunnerTicks.TickStations` | agents/runner/running.py:226-242 | after a tick a runner exhausted before has drunk at each station passed, one with at most 40 left at the first, and one with more at none if its numbers were high enough |
| `RunnerTicks.MilesAre` | agents/runner/running.py:198-216 | the miles of a tick: 6.2137 times the velocity, of which no water costs half, the wall its severity and each tick 0.2 percent, a quarter at most |
| `RunnerTicks.DepletionIs` | agents/runner/running.py:219-224 | what a mile drains, in numbers |
| `RunnerTicks.TickMoves` | agents/runner/running.py:212-255 | a tick goes that far up to the finish, drains on the way, refills at the stations, exhausts below 30 and collapses below 10, and leaves the velocity |
| `RunnerTicks.MarkerIs` | agents/runner/running.py:227-228 | station k is passed at k times 1.8641 miles |
| `RunnerTicks.RefusedIff` | agents/runner/running.py:148-175 | a tick is refused exactly if a parameter is neither given nor stored, and given ones win |
| `RunnerTicks.StoredAre` | agents/runner/running.py:147-155 | a tick without parameters takes those that were stored last, whatever came since |
| `RunnerTicks.StandsStill` | agents/runner/running.py:178-196 | a tick that is refused, or of a runner that has finished or collapsed, changes nothing and says so |
| `RunnerTicks.FinishOnTheLine` | agents/runner/running.py:262-272 | the finish time is when the runner, at the speed of the tick, is on the line, and the pace is that time a mile |
| `RunnerTicks.StatusAfter` | agents/runner/running.py:257-278 | a tick finishes the race if it reaches the line; else the status goes by 10 and by 30 water |
| `RunnerTicks.DepleteAndRehydrate` | agents/runner/hydration.py:23-84 | water taken can be given back, within 0 and 100 |
| `RunnerTicks.LosesAndRecovers` | agents/runner/hydration.py:33-84 | water lost exhausts below 30 and collapses below 10, and only water up to 30 brings the runner back |
| `RunnerTicks.PushesAndBrakes` | agents/runner/running.py:39-73 | what a push gains, half of it without water, and what a brake loses |
| `RunnerTicks.Starts` | agents/runner/running.py:178-185 | a runner starts at the line, standing, with all its water, and its first tick has to bring its parameters |
| `RunnerTicks.LeastMilesAre` | agents/runner/running.py:198-216 | the least miles of a tick in numbers |
| `Runner.VitalsAlways` | agents/runner/running.py:101-278 | over any interleaving: water in 0 to 100, exhausted exactly below 30, collapsed below 10 and only below 30, distance growing and within the race |
| `Runner.EveryStationOnce` | agents/runner/running.py:226-242 | however ticks cut the distance, the markers visited in a run are 1, 2, up to the last one passed, in order |
| `Runner.RangeIs` | agents/runner/running.py:232-232 | that list has one entry for each marker, the k-th being k |
| `Runner.FinishWithinTick` | agents/runner/running.py:262-272 | the finish time is after the start of its tick and not after its end if and only if the runner was short of the line or stands |
| `Runner.ShortOrFinished` | agents/runner/running.py:219-272 | a runner that starts short of the line is at all times of a run short of it or finished |
| `Runner.FinishAlwaysWithinTick` | agents/runner/running.py:262-272 | whatever run came before, a finish is recorded with a time after the start of its tick and not after its end |
| `Runner.FinishIsFinal` | agents/runner/running.py:179-196 | once finished nothing changes distance, finish time or pace |
| `Runner.FinishOnce` | agents/runner/running.py:262-272 | a run records a finish once if the runner ends finished, and otherwise never |
| `Runner.Progress` | agents/runner/running.py:198-217 | k moving ticks cover at least k times the least miles, or the runner has finished |
| `Runner.FinishesInTime` | agents/runner/running.py:198-278 | enough moving ticks at velocity v or more finish the race, whatever happens in between |
| `Runner.FinishesOrCollapses` | agents/runner/running.py:178-278 | after ceil(race / (v * 0.55 * 0.75 * (1 - w) * 6.2137 / 60 * minutes)) ticks a runner has finished or collapsed |
| `SpawnCap.CapCounts` | cmd/gateway/main.go:558-582 | the array afterwards is the capped counts, in wrapping arithmetic |
| `SpawnCap.ScaleDown` | cmd/gateway/main.go:565-581 | the scaling loop in place |
| `SpawnCap.WrapIs` | cmd/gateway/main.go:560-576 | 64-bit arithmetic: the value in range that differs by a multiple of 2^64 |
| `SpawnCap.QuotientTruncates` | cmd/gateway/main.go:571-571 | division rounds toward zero |
| `SpawnCap.ShareBounds` | cmd/gateway/main.go:571-574 | whatever overflows, a share is at least 1, at most what was asked, and not above its proportion unless raised |
| `SpawnCap.ShareExactIffFits` | cmd/gateway/main.go:571-574 | a share is the proportional one if and only if its product fits in 64 bits or is below twice the total |
| `SpawnCap.CapBounds` | cmd/gateway/main.go:563-582 | whatever overflows, every type gets at least 1, and all but the last no more than asked |
| `SpawnCap.CapTotal` | cmd/gateway/main.go:563-582 | once the cap is entered, whatever overflows, the capped total is the limit, or above it if and only if the shares of all types but the last use the limit up |
| `SpawnCap.ExceedsIff` | cmd/gateway/main.go:559-582 | of all positive requests exactly those exceed the limit afterwards that are over it and whose wrapped total is not, or whose shares before the last use it up |
| `SpawnCap.ExcessIsRaised` | cmd/gateway/main.go:563-582 | while the requested total fits, the capped one is between the limit and the limit plus the raised shares, so exactly the limit if none is raised |
| `SpawnCap.RemainingIs` | cmd/gateway/main.go:576-576 | what remains is the limit less the shares, wrapped once |
| `SpawnCap.LastGetsMoreIff` | cmd/gateway/main.go:568-569 | for every positive request the last type gets more than it asked if and only if the cap is entered and leaves it more, which while the total fits means that its request and the other shares stay below the limit |
| `SpawnCap.WithinLimit` | cmd/gateway/main.go:559-563 | a request within the limit is left alone |
| `SpawnCap.TotalWraps` | cmd/gateway/main.go:559-562 | the running sum is the true total, wrapped once |
| `SpawnCap.EscapesIffWrapped` | cmd/gateway/main.go:559-563 | a request over the limit escapes the cap if and only if its total wrapped to 64 bits is not over the limit |
| `SpawnCap.LimitExceeded` | cmd/gateway/main.go:572-581 | two types with one runner each and a limit of 1 keep both |
| `SpawnCap.LastGetsMore` | cmd/gateway/main.go:568-569 | of 5, 5 and 1 under a limit of 10 the last gets 2 |
| `SpawnCap.OverflowEscapes` | cmd/gateway/main.go:559-563 | two counts whose sum overflows are not capped |
| `SpawnCap.WrappedTotalExceeds` | cmd/gateway/main.go:559-582 | of 1000, 2^63 - 500 and 2^63 - 489 under a limit of 10 the first gets 909 and the others one each |
| `SpawnCap.ProductOverflowSkews` | cmd/gateway/main.go:571-574 | of 2^60 and 1 under a limit of 8 the first gets 1 and the second 7 |
| `TtlCache.SortKeys` | agents/utils/session_manager.py:63-63 | all keys once, from oldest to newest |
| `TtlCache.EvictCountIs` | agents/utils/session_manager.py:64-64 | an eviction takes a tenth, at least one |
| `TtlCache.KeptByEvict` | agents/utils/session_manager.py:60-66 | evicting the oldest keeps the cache in agreement with the unbounded map, and under its capacity |
| `TtlCache.KeptBySet` | agents/utils/session_manager.py:55-58 | so does setting a key in a cache with room |
| `TtlCache.KeptByExpiry` | agents/utils/session_manager.py:75-79 | so does dropping expired entries |
| `TtlCache.RecentIsCached` | agents/utils/session_manager.py:46-66 | a fresh key with fewer keys set since than an eviction leaves is cached with its latest value |
| `TtlCache.TTLCache.Get` | agents/utils/session_manager.py:46-53 | only the latest value set, only within the ttl, and certainly so for a key that is not displaced |
| `TtlCache.TTLCache.Set` | agents/utils/session_manager.py:55-58 | the key holds the value; a full cache first loses its max(1, n / 10) oldest entries, and nothing else goes |
| `TtlCache.TTLCache.EvictOldest` | agents/utils/session_manager.py:60-66 | removes max(1, n / 10) entries, none newer than any that stay |
| `TtlCache.TTLCache.Len` | agents/utils/session_manager.py:71-73 | drops exactly the expired entries and counts the rest |
| `TtlCache.TTLCache.CleanupExpired` | agents/utils/session_manager.py:75-79 | drops exactly the expired entries |

## Left out

- Hub text broadcasts and session messages (`h.broadcast`, `h.sessionMsg`): the same delivery loops without a filter.
- WebSocket pumps, protobuf and JSON encoding, HTTP, authentication, retries and health checks: input and output.
- The store calls that the hub makes in goroutines: their effect on the hub is the arbitrary answer of `Lookup`.
- Redis errors, and steps of other clients inside one registry operation: each operation is one step that succeeds.
- Key lifetimes at the boundary: Redis may serve a key within its last millisecond; the model ends it at the deadline.
- A ttl of 0, with which Redis sets session keys without expiry: the expiry theorems ask for a positive ttl.
- Session ids with a colon: the registry's key scan relies on UUIDs, and `SessionId` is defined that way.
- The dispatcher's thread, locks, background tasks and `simulation_registry`: they do not influence which sessions are triggered.
- Which seen id goes first: a Python set has no order, so the evicted one is any of them.
- Failures of `_trigger_agent_run` and of the relay's publication: the protocol theorems assume reliable delivery, as `Causal` and `Complete` say.
- Eviction of seen ids in the relay protocol: `Causal` assumes fewer than 1000 of them; one instance's eviction is in `Record`.
- Resets, spawns and broadcasts with a simulation or exclusions while relays are in flight: `Dispatcher` covers them for one instance.
- The gateway's other dispatch paths; `DispatchTargets` reports the fallback but does not follow it.
- Haversine distance and coordinate rounding: the functions `near` and `key`.
- Rounding of floating point and of displayed numbers: `real` throughout, so a level next to 0.01 or a station at a rounding boundary may differ.
- Random numbers: `roll` gives one number per station, as the seeding does.
- The spawn handler's validation (counts at least 1, known types) and the sessions it goes on to create: the theorems on the cap assume positive counts and a limit of at least 1.
- The second cache tier and the creation of sessions in `SessionManager`, and `None` as a cached value.
