# Roundhouse kernels, modelled and proved in Dafny

This project models the parts of Roundhouse whose guarantees hold over whole runs, and proves those guarantees for
every input and every run:

- the inter-agent bus: wait graph, rate limiter, mailboxes with their idempotency ledger, restart;
- spawning: the spawn tree, the executor that moves budget and taint, the teams a child joins, and all of them together
  under any interleaving of the spawn tool's steps (`Swarm.dfy`);
- layered configuration: the deep merge, and the narrow-only egress allowlist;
- folds and caches that have a simple specification: the registry partition, the stream fold, the version hint cache,
  the cap on untrusted text.

Each component is a module. Code that updates state is a class or a looping method, proved against a function of the old
state; laws about runs are lemmas over those functions. Every public method of the source is one atomic step.
`dafny verify dfyconfig.toml` checks everything.

How a few things are represented:

- A UUID is an integer, compared only for equality. Fresh ids are parameters.
- `f64` is `real`; times are seconds and are parameters. Casts to `u64`, `saturating_add`, `checked_add` and the
  saturating `duration_since` are written out.
- The limiter is also told a second way, as buckets that are all topped up at every call (`EagerBuckets`); the lazily
  refilled one is proved to reach the same verdicts, and the laws of a run are proved on the eager one.
- A file layer of the configuration is what reading it yields: silence, a value, or an error.
- Which hosts an allowlist lets through is read off where it is enforced: building the egress policy
  (`crates/roundhouse-engine/src/session_actor.rs:1823-1838`) and matching a host
  (`crates/roundhouse-net/src/policy.rs:130-146`).
- In `Swarm.dfy` the child count handed to a spawn may be out of date, as when two spawns of one parent overlap; the
  bounds rest on the reservation alone.
- A registry element either has a string under `id`, and then decodes to an agent of that id or to none, or has none and
  may decode all the same: the decoder fills a struct from an array by position, so `["codex", "N", {...}]` is an agent
  although it has no key `id` to claim anything with.

Where the code and its comments differ, the model follows the code:

- `crates/roundhouse-config/src/network.rs:362-364` says `*.` has an empty suffix and covers everything. It normalises
  to a lone `*` and covers only another star; `*..` is the entry with the empty suffix. Covering implies containment of
  hosts only under an exact condition, given by `CoverIsContainment`.
- `crates/roundhouse-bus/src/rate_limit.rs:42-44` counts on a monotonic clock, but a reading is taken before the lock,
  so readings can arrive out of order. `AnyClockBound` says what holds for any readings, `WindowBound` what ordered ones
  make of it, and `OwnBoundNeedsOrder` and `SharedBoundNeedsOrder` exactly when the order can be done without.
- `crates/roundhouse-acp/src/registry.rs:1634-1645` wants survivors to be the valid elements whose id is claimed once,
  independently of order, and every dropped element accounted for. An array-shaped element claims no id, takes its slot
  from whatever came before, even from a poisoned id, and is not reported. `PassIsTheRule` says what holds for every
  document; `SurvivorsAreUniqueAndValid`, `OrderDoesNotMatter` and `EveryElementIsAccountedFor` say exactly which
  documents keep the three promises.
- `crates/roundhouse-bus/src/teams.rs:241-246` moves a closed team back to draining: closed lasts
  exactly until the next drain. "Never active again" holds always.
- `crates/roundhouse-engine/src/agent_spawn.rs:246-252` merges a child's taint when it returns, but nothing calls it
  (`crates/roundhouse-engine/src/tools/agent_spawn_tool.rs:40-42`). The merge that runs is for driven workflow children
  (`crates/roundhouse-daemon/src/scheduler_driver.rs:1133-1140`); the step `Return` of `Swarm.dfy` stands for it. Taint
  is monotone only between human turns: `crates/roundhouse-daemon/src/socket_server.rs:2050` clears it.
- `crates/roundhouse-conformance/src/checks.rs:109-120` lets a second start silently replace an open block; the account
  of starts includes the replaced ones.
- `crates/roundhouse-conformance/src/checks.rs:368-378` cannot fail unless the empty body decodes as finished, because
  the terminal it cuts below is already the shortest finished prefix.

## Model

| member | source | states |
|---|---|---|
| WaitGraphs.WaitGraph.WouldCycle | crates/roundhouse-bus/src/wait_graph.rs:49-82 | the depth-first search is sound and complete for reachability, ends, always finds the parents it follows, and returns a cycle from waiter to target without repeats along real edges |
| WaitGraphs.WaitGraph.CyclePath | crates/roundhouse-bus/src/wait_graph.rs:63-69 | following recorded parents from the waiter always reaches the target, without repeats, along edges read backwards |
| WaitGraphs.PushChildren | crates/roundhouse-bus/src/wait_graph.rs:74-79 | children go on the stack in order; the first parent recorded for a node stays |
| WaitGraphs.WaitGraph.RegisterWait | crates/roundhouse-bus/src/wait_graph.rs:29-39 | refused exactly when the target already reaches the waiter, with a real cycle as witness; otherwise one edge is added |
| WaitGraphs.WaitGraph.ClearWait | crates/roundhouse-bus/src/wait_graph.rs:41-43 | edge by edge: what stands afterwards is what stood before and does not start at the waiter |
| WaitGraphs.AddEdgeAcyclic | crates/roundhouse-bus/src/wait_graph.rs:27-39 | an edge keeps an acyclic graph acyclic exactly when its target does not reach its source |
| WaitGraphs.RunAcyclic | crates/roundhouse-bus/src/wait_graph.rs:29-43 | no run of registrations and clears ever creates a deadlock |
| WaitGraphs.EdgesAreStandingWaits | crates/roundhouse-bus/src/wait_graph.rs:29-43 | over any run, one session waits on another exactly when some step granted that wait, or it stood at the start, and no later step ended the waiter's waits |
| WaitGraphs.EndedWaiterBlocksNobody | crates/roundhouse-bus/src/wait_graph.rs:41-43 | a session whose wait has ended and that has begun no other reaches only itself, so a wait on it is always granted |
| WaitGraphs.RefusedExactlyOnDeadlock | crates/roundhouse-bus/src/wait_graph.rs:27-39 | in every reachable state a wait is refused exactly when granting it would create a cycle |
| WaitGraphs.WitnessReaches | crates/roundhouse-bus/src/wait_graph.rs:45-69 | the returned cycle, read backwards, is a walk from target to waiter |
| Restarts.RestartFrom | crates/roundhouse-bus/src/restart.rs:29-63 | mailboxes, wait edges and outcomes after a restart; outcomes match the waits one for one, timed out exactly when the deadline has passed |
| Restarts.LiveSessionsHaveMailboxes | crates/roundhouse-bus/src/restart.rs:34-38 | every live session has a mailbox afterwards, and a mailbox that existed keeps its kind and mail |
| Restarts.RebuildIsMaximal | crates/roundhouse-bus/src/restart.rs:40-47 | the rebuilt graph is acyclic, holds only snapshot waits, and any wait left out would close a cycle in it |
| Restarts.AcyclicSnapshotRestored | crates/roundhouse-bus/src/restart.rs:40-47 | waits that fit together in any acyclic graph are all restored, whatever their order |
| RateLimits.RateLimiter.TryAcquireInner | crates/roundhouse-bus/src/rate_limit.rs:114-192 | both buckets are refilled and spent, or neither is spent; the session bucket is judged first; delay and floor of a refusal |
| RateLimits.RateLimiter.TryAcquire | crates/roundhouse-bus/src/rate_limit.rs:92-94 | the coupled call |
| RateLimits.RateLimiter.TryAcquireSessionOnly | crates/roundhouse-bus/src/rate_limit.rs:106-112 | the call that leaves the shared bucket alone |
| RateLimits.RateLimiter.constructor | crates/roundhouse-bus/src/rate_limit.rs:69-83 | the calls a minute become rates per second, and there is no bucket until first use; `PerMinuteBound` and the laws after it say what that means a minute |
| PerMinuteLaws.PerMinuteBound | crates/roundhouse-bus/src/rate_limit.rs:69-83 | from a new limiter, in any window with ordered readings: sixty times the admissions is at most sixty bursts plus calls a minute times seconds, for a session and for the whole bus |
| PerMinuteLaws.EmptiedBucketsRefill | crates/roundhouse-bus/src/rate_limit.rs:114-165 | an empty bucket holds, after a time, the configured calls a minute times the minutes passed, and never more than its burst; the session's and the shared one |
| PerMinuteLaws.NewBucketsAreFull | crates/roundhouse-bus/src/rate_limit.rs:124-165 | a new session starts with its whole burst, and so does the shared bucket |
| PerMinuteLaws.DefaultNumbers | crates/roundhouse-bus/src/rate_limit.rs:8-35 | 20 a minute with a burst of 10 for a session, 1280 with a burst of 640 for the bus |
| PerMinuteLaws.TenThenThreeSeconds | crates/roundhouse-bus/src/rate_limit.rs:8-35 | by default ten sends at one instant pass, and the next is refused by the session's bucket exactly when it comes within three seconds, and told the rest of the three |
| PerMinuteLaws.RetryIsLeast | crates/roundhouse-bus/src/rate_limit.rs:135-141 | the advertised delay is the least whole number of milliseconds after which the bucket holds a token |
| PerMinuteLaws.SharedDelayHasAFloor | crates/roundhouse-bus/src/rate_limit.rs:166-187 | the same for the shared bucket, and at least 250 milliseconds |
| RateLimitLaws.AcquireDebits | crates/roundhouse-bus/src/rate_limit.rs:124-191 | one call takes one token from exactly the buckets it should, and which bucket refuses is decided by the refilled levels |
| RateLimitLaws.LazyRefinesEager | crates/roundhouse-bus/src/rate_limit.rs:114-192 | on every run with ordered times the lazily refilled limiter and the eagerly refilled one reach the same verdicts and levels |
| EagerBuckets.BudgetOverRun | crates/roundhouse-bus/src/rate_limit.rs:129-191 | tokens taken plus tokens left never exceed tokens held plus tokens minted |
| WindowLaws.AnyClockBound | crates/roundhouse-bus/src/rate_limit.rs:114-192 | whatever the clock does, admissions in a window are at most a burst plus rate times the forward motion of the readings that reached the bucket, for a session's own bucket and for the shared one |
| WindowLaws.WindowBound | crates/roundhouse-bus/src/rate_limit.rs:37-44 | in any window of any run whose readings are in order, a session gets at most burst plus rate times length, and the bus at most the shared burst plus shared rate times length |
| WindowLaws.SwingingClockOverAdmits | crates/roundhouse-bus/src/rate_limit.rs:129-133 | for every positive rate, burst of at least one, state and pair of readings, a clock that swings between the two admits more calls than any given number |
| WindowLaws.SwingingClockOverspends | crates/roundhouse-bus/src/rate_limit.rs:147-191 | the same for the shared bucket, with a new sender for every call |
| WindowLaws.OwnBoundNeedsOrder | crates/roundhouse-bus/src/rate_limit.rs:37-44 | the window bound of a session survives every order of readings between two times exactly when they coincide, nothing is minted, or the burst is below one |
| WindowLaws.SharedBoundNeedsOrder | crates/roundhouse-bus/src/rate_limit.rs:37-44 | the same for the shared bucket, which a session without a burst cannot reach |
| RateLimitLaws.RetryIsEnough | crates/roundhouse-bus/src/rate_limit.rs:135-141 | the advertised delay mints the missing tokens at every positive configured rate |
| RateLimitLaws.RetryAfterHonoured | crates/roundhouse-bus/src/rate_limit.rs:85-91 | a session that waits the advertised delay is not refused by its own bucket again, exactly when rate and burst allow a token at all |
| RateLimitLaws.SharedRetryAfterHonoured | crates/roundhouse-bus/src/rate_limit.rs:147-187 | whoever waits out the shared bucket's delay, floor included, while nobody spends a shared token, is refused by it again only when its rate or burst allows no token |
| EagerBuckets.PoolNeverStarved | crates/roundhouse-bus/src/rate_limit.rs:19-35 | a shared bucket as fast and as deep as a pool of session buckets never refuses the pool |
| RateLimitLaws.GlobalCapSparesTwoTeams | crates/roundhouse-bus/src/rate_limit.rs:19-35 | with the default numbers, runs with at most 64 senders are never refused by the shared bucket |
| RateLimitLaws.SixtyFifthSenderCanBeRefused | crates/roundhouse-bus/src/rate_limit.rs:25-33 | the bound of 64 is exact: a 65th sender with an untouched bucket is refused by the shared one |
| Mailboxes.Mailbox.Push | crates/roundhouse-bus/src/mailbox.rs:31-39 | appended at the back, or rejected when full with nothing dropped |
| Mailboxes.Mailbox.PopFront | crates/roundhouse-bus/src/mailbox.rs:41-43 | the front envelope, or nothing from an empty queue |
| RateLimits.RepetitionDamper.CheckAndRecord | crates/roundhouse-bus/src/rate_limit.rs:217-232 | the fourth identical send is refused; each earlier one counts |
| EventSinks.EventSink.RecordInbound | crates/roundhouse-bus/src/event_sink.rs:74-76 | the ledger grows by exactly one pair |
| LocalBuses.LocalBus.Charge | crates/roundhouse-bus/src/local_bus.rs:211-261 | hop count, rate limit and damper in that order, with the two exemptions of human senders |
| LocalBuses.LocalBus.Hand | crates/roundhouse-bus/src/local_bus.rs:263-299 | human feed, missing mailbox, redelivery, overflow or delivery, with the ledger written only after the push |
| LocalBuses.LocalBus.Send | crates/roundhouse-bus/src/local_bus.rs:211-299 | the whole send: charged first, then delivered, and the charge stays when delivery fails |
| SendLaws.HumanSendIsExempt | crates/roundhouse-bus/src/local_bus.rs:239-257 | a sender registered as human, or an origin that says user, leaves shared bucket and damper alone, is never repetitive, and pays from its own bucket |
| SendLaws.AgentSendIsCharged | crates/roundhouse-bus/src/local_bus.rs:239-257 | anybody else's send takes one token from both buckets, and counts as one more of its kind below three; the next one is refused, tokens paid |
| SendLaws.SendAnswers | crates/roundhouse-bus/src/local_bus.rs:211-299 | which answer a send gets, in terms of hops, tokens, repetitions, feeds, mailboxes, ledger and room |
| SendLaws.SendEffects | crates/roundhouse-bus/src/local_bus.rs:263-299 | one notice more, or one queued envelope and ledger pair more, with one hop less, or nothing |
| SendLaws.RequeueAnswers | crates/roundhouse-bus/src/local_bus.rs:322-343 | refused only without a mailbox or room, and otherwise one envelope more, nothing else touched |
| SendLaws.PollAnswers | crates/roundhouse-bus/src/local_bus.rs:301-308 | the front of the session's own queue, nothing from an empty one, and an error without a mailbox |
| LocalBuses.LocalBus.Poll | crates/roundhouse-bus/src/local_bus.rs:301-308 | pops the front of the session's own queue |
| LocalBuses.LocalBus.Requeue | crates/roundhouse-bus/src/local_bus.rs:322-343 | pushes to the back, unmetered and outside the ledger |
| LocalBuses.LocalBus.RegisterMailbox | crates/roundhouse-bus/src/local_bus.rs:83-92 | creates an empty mailbox, or leaves an existing one as it is |
| LocalBuses.LocalBus.DeregisterMailbox | crates/roundhouse-bus/src/local_bus.rs:94-97 | removes one mailbox and nothing else |
| BusLaws.RegisterOpens | crates/roundhouse-bus/src/local_bus.rs:83-92 | an empty mailbox of the kind asked for, or the one there was, mail and kind |
| BusLaws.DeregisterEnds | crates/roundhouse-bus/src/local_bus.rs:94-97 | polling the session fails from then on, its mail is gone, and nobody else notices |
| BusLaws.HumansGetNotices | crates/roundhouse-bus/src/local_bus.rs:263-281 | over any run, mail to a registered human goes to its feed and into no mailbox |
| BusLaws.QueuesAreFifo | crates/roundhouse-bus/src/local_bus.rs:186-190 | over any run, what left a queue followed by what is in it equals what was in it followed by what entered it |
| BusLaws.FifoPerSender | crates/roundhouse-bus/src/local_bus.rs:186-190 | per sender and recipient, envelopes come out in the order they were sent, over any run that puts none of that sender's own back |
| BusLaws.SenderOrderOverRun | crates/roundhouse-bus/src/local_bus.rs:186-190 | over any run at all, what comes out per sender is, in order, what was in and what went in, requeues included |
| BusLaws.RequeueKeepsOrderExactly | crates/roundhouse-bus/src/local_bus.rs:310-343 | putting a polled envelope back keeps every sender's order exactly when nothing else of its own sender is queued behind it |
| BusLaws.OnlySendsEnter | crates/roundhouse-bus/src/local_bus.rs:296-297 | without requeues, exactly the sent envelopes enter |
| BusLaws.DeliveredAtMostOnce | crates/roundhouse-bus/src/event_sink.rs:12-28 | no id is queued twice for a session, and the ledger grows by exactly the queued ids |
| BusLaws.FailedSendDeliversNothing | crates/roundhouse-bus/src/event_sink.rs:14-17 | a failed send leaves queues, ledger and feeds untouched |
| BusLaws.BounceCanBeRetried | crates/roundhouse-bus/src/local_bus.rs:242-296 | after a bounce and one poll the same envelope arrives, at the back and with one hop less, exactly when the meters let it through again and the mailbox has any capacity; the bounce itself cost a token and, for an agent, a repetition |
| BusLaws.RunTidy | crates/roundhouse-bus/src/mailbox.rs:30-39 | a bounded mailbox never exceeds its capacity, and a queue holds only its own session's mail |
| BusLaws.RepetitionStops | crates/roundhouse-bus/src/rate_limit.rs:202-232 | while no state change is noted, the damper counts exactly the identical agent sends that got past the meters, bounced ones included, and never more than three |
| BusLaws.FourthIsRefused | crates/roundhouse-bus/src/rate_limit.rs:202-240 | after any run without a note, an agent send with a hop and a token left is refused as repetitive exactly when three identical ones were metered before it |
| BusLaws.NoteStartsAnew | crates/roundhouse-bus/src/rate_limit.rs:235-240 | a note resets exactly its own key: from then on the count is that of the identical sends since |
| BusLaws.CycleRotates | crates/roundhouse-bus/src/local_bus.rs:310-343 | a poll followed by a requeue never fails on a full mailbox and moves the front to the back |
| BusLaws.ScanFindsFirstMatch | crates/roundhouse-bus/src/local_bus.rs:316-321 | a full turn restores the mailbox, and the first wanted envelope is met after exactly the ones ahead of it |
| SpawnTrees.SpawnTree.RecordChild | crates/roundhouse-bus/src/spawn_tree.rs:26-32 | the child leaves the reservations and is a child once |
| SpawnTrees.SpawnTree.ReserveChild | crates/roundhouse-bus/src/spawn_tree.rs:38-54 | a slot is held only below the cap, children and reservations counted together |
| SpawnTrees.SpawnTree.CommitChildReservation | crates/roundhouse-bus/src/spawn_tree.rs:57-59 | a held slot becomes an edge |
| SpawnTrees.SpawnTree.ReleaseChildReservation | crates/roundhouse-bus/src/spawn_tree.rs:62-70 | a held slot is given up, and an empty entry goes away |
| SpawnTrees.SpawnTree.RemoveChild | crates/roundhouse-bus/src/spawn_tree.rs:88-97 | a child or held slot is removed |
| SpawnTrees.ReleaseUndoesReserve | crates/roundhouse-bus/src/spawn_tree.rs:38-70 | releasing a reservation leaves everybody's slots as they were before it |
| SpawnTrees.ReleaseLeaves | crates/roundhouse-bus/src/spawn_tree.rs:62-70 | a release leaves committed children alone, and the entry goes exactly when nothing is left in it |
| SpawnTrees.RemoveLeaves | crates/roundhouse-bus/src/spawn_tree.rs:88-97 | a removal takes the child out of both lists, and the entry goes exactly when nothing is left in it |
| SpawnTrees.TakingOutIsIdempotent | crates/roundhouse-bus/src/spawn_tree.rs:86-97 | a second release or removal changes nothing |
| SpawnTrees.SpawnTree.Descendants | crates/roundhouse-bus/src/spawn_tree.rs:101-115 | on a subtree of finite height the stack loop ends and returns its sessions in traversal order |
| SpawnTrees.DescendantsAreReachable | crates/roundhouse-bus/src/spawn_tree.rs:99-115 | the traversal returns exactly the sessions reachable through committed edges |
| SpawnTrees.DescendantsOnce | crates/roundhouse-bus/src/spawn_tree.rs:99-115 | on trees grown from fresh ids it names each once and never the root |
| SpawnTrees.BelowSize | crates/roundhouse-bus/src/limits.rs:3-7 | fan-out and height bound the size of a subtree |
| Teams.TeamRegistry.CreateTeam | crates/roundhouse-bus/src/teams.rs:121-150 | a new active team with its creator as only member, never a human |
| Teams.TeamRegistry.Join | crates/roundhouse-bus/src/teams.rs:155-184 | refused for humans, inactive teams and full teams; otherwise one member is appended, worker by default |
| Teams.TeamRegistry.SaveMembershipChecked | crates/roundhouse-bus/src/teams.rs:86-97 | live members are counted and the member inserted only below the limit |
| Teams.TeamRegistry.BeginDraining | crates/roundhouse-bus/src/teams.rs:241-246 | any existing team becomes draining |
| Teams.TeamRegistry.MarkMemberEnded | crates/roundhouse-bus/src/teams.rs:248-257 | every membership of the session on that team is ended |
| Teams.TeamRegistry.ReapEnded | crates/roundhouse-bus/src/teams.rs:259-275 | draining teams whose members have all ended close; no other team changes |
| Teams.ReapClosesExactly | crates/roundhouse-bus/src/teams.rs:259-275 | a draining team closes exactly when it has members and none is live; no other team and no roster changes |
| Teams.CreateAnswers | crates/roundhouse-bus/src/teams.rs:121-150 | what a creation answers and leaves: active, made by its creator, one member in the role asked for |
| Teams.JoinAnswers | crates/roundhouse-bus/src/teams.rs:155-184 | what a join answers and leaves, by who asks, the state of the team and its live members |
| Teams.EndMemberAt | crates/roundhouse-bus/src/teams.rs:248-257 | the memberships of the session are ended, in place, and only those |
| Teams.TeamsNeverOverflow | crates/roundhouse-bus/src/limits.rs:30-39 | no run puts more than 32 live members on a team |
| Teams.DrainingIsOneWay | crates/roundhouse-bus/src/teams.rs:164-172 | a team that stopped being active never is again, and nobody joins it |
| Teams.ClosedUntilDrained | crates/roundhouse-bus/src/teams.rs:241-246 | a closed team is closed all through a run exactly when the run never drains it |
| Teams.HumansStayOff | crates/roundhouse-bus/src/teams.rs:152-163 | a human on no roster is never put on one |
| AgentSpawns.AgentSpawn | crates/roundhouse-engine/src/agent_spawn.rs:113-244 | the executor's refusals in order, the transfer, the join and the rollback |
| AgentSpawns.SpawnSucceedsExactly | crates/roundhouse-engine/src/agent_spawn.rs:113-226 | a spawn succeeds if and only if it is authorized, below depth 4 and fan-out 8, within budget, and, with a team, its parent is a live member, may mint the role asked for, and the team takes the child |
| AgentSpawns.FirstFenceIsNamed | crates/roundhouse-engine/src/agent_spawn.rs:113-226 | the error of a refused spawn is that of the first fence it fails |
| AgentSpawns.ChildJoinsAs | crates/roundhouse-engine/src/agent_spawn.rs:216-222 | the child joins in the role asked for, or as worker |
| AgentSpawns.FailureChangesNothing | crates/roundhouse-engine/src/agent_spawn.rs:109-112 | every error leaves budget and rosters exactly as they were |
| AgentSpawns.SuccessIsATransfer | crates/roundhouse-engine/src/agent_spawn.rs:177-243 | tokens move without being minted, limits hold, taint is copied, one child joins a team its parent is on and leads only under a lead |
| SpawnTools.SpawnChild | crates/roundhouse-engine/src/tools/agent_spawn_tool.rs:574-708 | succeeds exactly when fewer than 8 slots are taken, the executor's limits, budget and team admit the child, and it comes up; any failure restores slots, budget and live membership |
| Swarms.StepShaped | crates/roundhouse-engine/src/tools/agent_spawn_tool.rs:586-702 | every step of every spawn keeps fan-out, depth and bookkeeping |
| SwarmSteps.HoldAnswers | crates/roundhouse-engine/src/tools/agent_spawn_tool.rs:585-600 | a slot is held exactly when the parent runs and fewer than eight of its slots are taken; nobody else's slots or account move |
| SwarmSteps.AdmitAnswers | crates/roundhouse-engine/src/tools/agent_spawn_tool.rs:602-650 | admitted exactly on the executor's terms, with the tokens asked for taken from the parent, one deeper, with its taint, and on the team in the role asked for; a refused child loses its slot and nothing else happens |
| SwarmSteps.CreatedRuns | crates/roundhouse-engine/src/tools/agent_spawn_tool.rs:701-708 | the child runs with what it was admitted with, and its slot becomes the last edge under its parent |
| SwarmSteps.RetireFrees | crates/roundhouse-daemon/src/sub_agent_host.rs:347 | exactly one slot of the parent comes free |
| Swarms.RunShaped | crates/roundhouse-bus/src/limits.rs:3-30 | over every interleaving of the modelled steps, children plus held slots stay at most 8, disjoint and without repeats, and depth at most 4 |
| Swarms.ReachableTrees | crates/roundhouse-bus/src/spawn_tree.rs:99-115 | in every state the modelled steps reach, the traversal ends and lists, each once, exactly the sessions a line of parents joins to the root on which everybody below it runs; a whole tree has at most 4681 sessions |
| Swarms.TokensConserved | crates/roundhouse-engine/src/agent_spawn.rs:177-226 | over any run the tokens of all sessions together are what the roots brought in |
| Swarms.FailedSpawnRefunds | crates/roundhouse-engine/src/tools/agent_spawn_tool.rs:668-693 | a failed creation returns the grant whole, frees the slot and leaves the child no member of its team |
| SwarmTaints.TaintIsSinceLastTurn | crates/roundhouse-engine/src/agent_spawn.rs:13-24 | over any run a session ends up tainted exactly when something brought it taint and no human turn of its own took effect since |
| SwarmTaints.TaintedUntilHumanTurn | crates/roundhouse-engine/src/session_actor.rs:662-686 | a tainted session is tainted all through a run exactly when no human turn of it takes effect |
| SwarmTaints.TaintIsInherited | crates/roundhouse-engine/src/tools/agent_spawn_tool.rs:614-617 | every session on a line of spawns begun after its first member was tainted is tainted, as long as nobody on the line has a human turn |
| SwarmTaints.TurnBeforeAdmission | crates/roundhouse-daemon/src/socket_server.rs:2044-2050 | from any state, a human turn of the parent just before the admission leaves parent and child clean |
| SwarmTaints.TurnStopsInheritance | crates/roundhouse-daemon/src/socket_server.rs:2044-2050 | a run in which a tainted root has a human turn and then spawns: root and child end clean |
| SwarmTaints.TaintFlowsUp | crates/roundhouse-daemon/src/scheduler_driver.rs:1133-1140 | a tainted child that returns taints its parent, exactly until the parent's next human turn |
| SwarmTaints.TaintNeedsASource | crates/roundhouse-engine/src/session_actor.rs:662-686 | without untrusted input a clean tree stays clean over any run |
| NetworkConfigs.LoadNetworkConfig | crates/roundhouse-config/src/network.rs:231-321 | the loop over layers sorted by scope |
| NetworkConfigs.RetainCovered | crates/roundhouse-config/src/network.rs:311-315 | keeps the wide entries some narrow entry covers, in order |
| NetworkConfigs.LoadIsNarrowing | crates/roundhouse-config/src/network.rs:183-213 | fails exactly on a broken wide layer; otherwise the last wide list less the entries some readable narrow list does not cover |
| NetworkConfigs.FailureNamesTheWidest | crates/roundhouse-config/src/network.rs:231-321 | a failed load names the widest broken scope |
| NetworkConfigs.SurvivorsMembers | crates/roundhouse-config/src/network.rs:300-315 | the surviving strings are the wide list's own |
| NetworkConfigs.CoverIsContainment | crates/roundhouse-config/src/network.rs:373-382 | covering is containment of the matched hosts under an exact condition on the two entries |
| NetworkConfigs.ContainmentIsCover | crates/roundhouse-config/src/network.rs:373-382 | for entries that are patterns, containment of the matched hosts is covering without a nested star |
| NetworkConfigs.NoLayerWidens | crates/roundhouse-config/src/network.rs:28-41 | a host let through in the end is let through by the wide list and by every readable narrow list of plain entries |
| NetworkConfigs.OddEntries | crates/roundhouse-config/src/network.rs:362-372 | the two kinds of entry for which covering is not containment, and what a bare `*.` covers |
| NetworkConfigs.NamesReadAlike | crates/roundhouse-config/src/network.rs:332-334 | two names are read alike exactly when they differ in letter case and one trailing dot at most |
| NetworkConfigs.AlikeEntriesCover | crates/roundhouse-config/src/network.rs:373-382 | entries that read alike cover each other |
| NetworkConfigs.ExactEntryMatches | crates/roundhouse-net/src/policy.rs:130-146 | a plain entry lets through the hosts that read like it |
| NetworkConfigs.StarEntryMatches | crates/roundhouse-net/src/policy.rs:130-146 | a star entry lets through its name and every name that ends in it after a dot |
| ConfigMerges.MergeInto | crates/roundhouse-config/src/loader.rs:182-202 | the recursive merge, whatever order the keys are visited in |
| ConfigMerges.Load | crates/roundhouse-config/src/loader.rs:79-127 | the sort by scope and the left fold over the layers that are there, failing at the first broken one |
| ConfigScopes.SortedIsStable | crates/roundhouse-config/src/scope.rs:25-34 | the order layers are read in is ascending by scope, and keeps every scope's layers in the order they came |
| ConfigMerges.LoadIsFold | crates/roundhouse-config/src/loader.rs:82-127 | loading fails exactly when some layer is broken; otherwise it is the left fold of the merge, widest first, with the scopes that were there |
| ConfigMerges.FailureNamesTheWidest | crates/roundhouse-config/src/loader.rs:79-117 | a failed load names a broken scope than which no broken one is wider |
| ConfigMerges.MergeAt | crates/roundhouse-config/src/loader.rs:182-202 | path by path, the overlay decides where it speaks and the base stands where it is silent |
| ConfigMerges.NarrowestWins | crates/roundhouse-config/src/loader.rs:79-81 | at every path the fold holds what the last layer that speaks about it says |
| ConfigMerges.NarrowestScopeWins | crates/roundhouse-config/src/loader.rs:79-86 | whatever order the layers are given in, the one of narrowest scope that speaks about a path decides what is loaded there |
| ConfigMerges.PathsDetermine | crates/roundhouse-config/src/loader.rs:58-62 | agreement at every path is equality, so the law above fixes the whole result |
| ConfigMerges.MergeIdempotent | crates/roundhouse-config/src/loader.rs:182-202 | merging a layer twice is merging it once |
| ConfigMerges.MergesCommute | crates/roundhouse-config/src/loader.rs:79-84 | two layers commute exactly when they agree wherever both speak |
| ConfigMerges.GroupingMatters | crates/roundhouse-config/src/loader.rs:182-202 | table, scalar, table: merging is not associative |
| ConfigMerges.GroupingIrrelevantExactly | crates/roundhouse-config/src/loader.rs:182-202 | grouping makes no difference exactly when no leaf of the middle layer hides, below a table of the last, something of the first that the last is silent about |
| Registries.PartitionRegistryAgents | crates/roundhouse-acp/src/registry.rs:1623-1705 | the capped one-pass partition with its warnings |
| Registries.PassIsTheRule | crates/roundhouse-acp/src/registry.rs:1647-1699 | for every document, the agent of an id is the last toucher's if that one claims nothing, else the sole claimant's if valid, else none |
| Registries.SurvivorsAreUniqueAndValid | crates/roundhouse-acp/src/registry.rs:1634-1638 | survivors are exactly the valid elements whose id is claimed once, if and only if every id is undisturbed by elements that decode without a claim |
| Registries.OrderDoesNotMatter | crates/roundhouse-acp/src/registry.rs:1655-1671 | every shuffle of a document keeps its survivors if and only if each id is touched by claims only, or only by claim-less elements that decode alike |
| Registries.EveryElementIsAccountedFor | crates/roundhouse-acp/src/registry.rs:1641-1703 | survivors, drops and replacements add up; survivors and drops alone do if and only if no claim-less element decodes to an id held at that point of the document; at most nine warnings, which stand for every drop |
| Registries.WarningsNameDrops | crates/roundhouse-acp/src/registry.rs:1641-1703 | the warnings are the first eight of the lines the document deserves, each with the id it is about, and then one that counts what the others drop |
| Registries.SilentElementTakesOver | crates/roundhouse-acp/src/registry.rs:1673-1676 | at the end of any document, an element that claims nothing but decodes takes its id, free, live or poisoned, without a warning |
| FoldStreams.FoldStream | crates/roundhouse-conformance/src/checks.rs:93-171 | the fold over stream items, stopping at an error |
| FoldStreams.IndicesAreIndependent | crates/roundhouse-conformance/src/checks.rs:79-83 | each buffer holds what a private fold of its own index holds, and blocks come out in order of their stops |
| FoldContents.BlockContent | crates/roundhouse-conformance/src/checks.rs:109-204 | a start, the deltas of its index among others, and a stop yield a block that holds what those deltas spell for its kind, with the provider's tool id or one made from the index |
| FoldContents.BlocksHaveSources | crates/roundhouse-conformance/src/checks.rs:136-140 | every block of the result comes from such a start and stop |
| FoldContents.RestOfTheFold | crates/roundhouse-conformance/src/checks.rs:99-163 | each usage counter is its last report or zero, the stop is seen exactly when it precedes the first error, and the losses are the stray deltas and stops, the error, and the open blocks |
| FoldStreams.AppendAllIs | crates/roundhouse-conformance/src/checks.rs:122-131 | a run of deltas contributes its concatenations and its last signature |
| FoldStreams.FragmentationExactly | crates/roundhouse-conformance/src/checks.rs:121-135 | re-cutting deltas changes nothing exactly when the index is open or the number of deltas is the same |
| FoldStreams.RecuttingIsInvisible | crates/roundhouse-conformance/src/checks.rs:206-207 | for whole streams, cutting the deltas of one index anew leaves the folded result alone exactly when the index is open or the number of deltas is the same |
| FoldStreams.DeltasCommuteExactly | crates/roundhouse-conformance/src/checks.rs:121-135 | deltas of different indices may be swapped exactly when one of the indices is open |
| FoldStreams.StartsAreAccountedFor | crates/roundhouse-conformance/src/checks.rs:109-140 | starts equal sealed plus never stopped plus silently replaced |
| FoldStreams.OpenBlocksAreReported | crates/roundhouse-conformance/src/checks.rs:99-163 | with or without an error item, the report ends with each block left open, once, lowest index first |
| FoldStreams.LocateTerminalEnd | crates/roundhouse-conformance/src/checks.rs:389-402 | the shortest finished prefix, or none |
| FoldStreams.CheckTruncateMidStream | crates/roundhouse-conformance/src/checks.rs:342-381 | the check fails exactly when the empty body decodes as finished, and then at all three cuts |
| VersionHints.VersionHintCache.CacheHint | crates/roundhouse-acp/src/version.rs:144-163 | the cache stays consistent with its history, which grows by one entry |
| VersionHints.VersionHintCache.LookupHint | crates/roundhouse-acp/src/version.rs:174-186 | the latest value cached for that exact key while it is resident |
| VersionHints.VersionHintCache.Len | crates/roundhouse-acp/src/version.rs:93-101 | never more than 256 hints |
| VersionHints.ResidentWhileRecent | crates/roundhouse-acp/src/version.rs:103-110 | the resident keys are the last 256 fresh insertions of the history |
| VersionHints.FreshWindowsAreDistinct | crates/roundhouse-acp/src/version.rs:144-163 | a key is inserted fresh only when it is not among the 256 fresh insertions before it |
| VersionHints.EvictedOnTime | crates/roundhouse-acp/src/version.rs:144-163 | a new key stays through the next 255 fresh insertions, whatever is refreshed in between, and the one after them evicts it |
| VersionHints.RefreshPostponesNothing | crates/roundhouse-acp/src/version.rs:103-110 | caching a resident key again changes no later insertion or eviction |
| PeerTexts.CapPeerStr | crates/roundhouse-acp/src/peer_text.rs:239-249 | the result is the fitting whole-character prefix; a truncated one has 125 to 128 bytes |
| PeerTexts.BoundariesArePrefixes | crates/roundhouse-acp/src/peer_text.rs:227-235 | character boundaries are exactly the lengths of whole-character prefixes |
| PeerTexts.FittingIsLongest | crates/roundhouse-acp/src/peer_text.rs:227-235 | no longer whole-character prefix fits |
| PeerTexts.CharRoundTrip | crates/roundhouse-acp/src/peer_text.rs:239-249 | the bytes of a character, as section 3 of RFC 3629 lays them out, decode to it |

## Left out

- Locks, shards and async scheduling: each public method is one step, so nothing is claimed about `release_child_reservation` or `remove_child` being interleaved between dropping the lock and removing the empty entry.
- Floating-point rounding: the limiter works on `real`.
- Address resolution (`resolve_recipients`, the handle registry) and the human notification feed beyond what a send appends to it: lookups and filters that would only add easy members.
- The wait loop of `message_wait`: only the rotation of the mailbox it relies on is modelled, without deadlines or other senders in between.
- Envelope attachments, requested address and reply expectations: carried, never looked at by the bus.
- The child's handle string and the team's name and charter: formatting and payload.
- A failed creation is one step of `Swarm.dfy`; the tool's three locks in it (free the slot, refund, end the membership) can be interleaved. Children of workflows and sessions restored at boot are not among its steps.
- Retiring a child keeps its unspent tokens on its own account; nothing in the modelled code moves them.
- File reading, size caps, symlink checks, HTTP, cache files and their ages: input and output.
- The sort by scope is the function `Sorted`; the library's sorting algorithm is not modelled.
- The registry's entry validators and JSON decoding: an element's decoding result is an input. The survivors are keyed by id; their order in the returned list is not modelled, and no reader depends on it.
- `note_state_change` has no caller outside tests; runs of the bus may contain it all the same.
- Quarantine refresh and launch resolution in the registry: cache plumbing around the partition.
- `Debug` escaping: the escaped text is an input, as UTF-8 bytes (section 3 of RFC 3629).
- The JSON value of a tool call's arguments and the wording of loss events and warnings: the argument text and the kind of event stand for them.
- Decoders: `CheckTruncateMidStream` takes whether a prefix decodes as finished as a function of its length.
