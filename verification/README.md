# Verified model of the agent platform's backend

The AI platform runs agents on several core processes that share one Redis and one PostgreSQL. This
project models the parts of its backend whose correctness depends on more than one function, and proves
what they keep over every run or every input.

- **Leases.** Each core claims, renews and releases a lease with a TTL per agent through three Lua scripts.
  A resync loop and a heartbeat loop start and stop local runtimes from the outcome. `Redis.dfy` is the
  shared server with its scripts, `Ownership.dfy` and `AgentManager.dfy` are the classes of one core with its
  resync pass, `ResyncPass.dfy` what such a pass leaves running, `Heartbeat.dfy` its heartbeat pass, `Lifecycle.dfy` and `LeaseSteps.dfy` the states of one
  instance, `LeaseProtocol.dfy` any number of cores as one state machine whose steps lie between two awaits.
  `LeaseTheorems.dfy` has the results over its runs and `ManagerRefinement.dfy` proves that both passes of the
  classes, with other processes at work at their awaits, are runs of that machine.
- **Session lock and double store.** `SessionLock.dfy` is the lock with its watchdog, `LockProtocol.dfy` any
  number of workers that read, append to and write back one session under it, and `SessionStore.dfy` the
  session in Redis with its projection in PostgreSQL and the two read paths. `LockRefinement.dfy` proves that
  the lock's methods, and the messages added between them, are runs of that machine.
- **Configuration files.** `Glob.dfy` compiles path patterns to regular expressions, `EditablePaths.dfy` says
  which files the two lists of patterns name, `SecretMask.dfy` hides secrets in YAML trees and restores them.
- **Turn timing.** `SessionTiming.dfy` is the recorder over an event stream, `TimingStore.dfy` the ring of
  recent turns.
- **Pure analyses.** `TypeInference.dfy` is the annotation script's inference with a semantics of the
  expressions it reads, `TypeExactness.dfy` says where exactly it is right and `TypePrecision.dfy` that it gives no
  less than it could; `TextMask.dfy`, `Json.dfy`, `PageContext.dfy`, `SanitizedPaths.dfy`, `ContextEntries.dfy`,
  `Greedy.dfy` and `ContextBudget.dfy` are the masking, sanitizing and truncating of a page context; `Permissions.dfy` is the permission decision.

`dafny verify dfyconfig.toml` checks everything.

## Where the code does not do what it promises

Each of these is proved. Where the promise holds in some cases, the exact condition is proved with it.

- One active runtime per agent needs the interval between a core's claims to stay below the lease TTL;
  nothing in the constructors relates the two (`LeaseTheorems.SafeIffGapBelowTtl`). However often
  leases are renewed, a runtime whose agent the heartbeat has forgotten may come to run beside another
  (`LeaseTheorems.RenewingIsNotEnough`). The session lock and its watchdog need a refresh gap below the TTL just so
  (`LockProtocol.SerializesIffGapBelowTtl`).
- `switch_runtime` can never complete (`Lifecycle.SwitchRuntimeNeverCompletes`).
- The two read paths of a session differ for a message with an empty role
  (`SessionStore.ReadPathsAgreeIffRolesSet`), and the projection stays incomplete after more than the limit of
  messages between two successful writes (`SessionStore.CompleteIffNoGap`).
- Patterns mean what they are compiled to on exactly the paths without a newline, and a pattern of one brace
  option exactly if the option has no dot (`Glob.FaithfulIffNoNewline`, `Glob.OptionFaithfulIffNoDot`).
- `write_config_file` rejects every placeholder before it would restore any, so a masked document cannot be
  saved back, and restoring what does get through only cuts lists that have grown
  (`SecretMask.SavedAsShownIffNothingHidden`, `SecretMask.SavedAsSubmittedIffListsFit`).
- Planning, generation and post-processing need not add up to the total
  (`SessionTiming.StagesSumToTotal`).
- Literal inference is wrong for a sign on what is inferred as bool, for a dict display that unpacks a mapping
  with other keys beside keys that are str, and for `==`, `!=` and orderings that can come to an operator which
  an object defines itself. What it types otherwise it types right (`TypeInference.SafeIsSound`), and of these
  three the exact conditions are proved, wherever the expression decides what its operands can be
  (`TypeExactness.SignSoundIff`, `DictSoundIff`, `CompareSoundIff`).
- `max_chars` is exceeded by up to 26 characters, or more when a value cannot be written; it is kept exactly if
  what is left of it covers what is not charged (`ContextBudget.LengthBudget`, `FitsIffUnchargedIsCovered`).
- A role's allow can beat a later role's deny, against the documented order; a department's allowed categories
  only restrict, where the documentation has them allow; and the user's own categories count. Where the whole
  decision is the documented one all the same is exact (`Permissions.DocumentedIffNoAllowFirst`,
  `Permissions.DecisionAsDocumentedIff`). The check disagrees with the computed categories for a user
  for whom nothing is configured (`Permissions.DecisionIsSetFormula`).

## What the model assumes

- Redis runs each script and command as one atomic step, on one clock, and a key is gone when its expiry has
  come. Between two awaits of a coroutine nothing else happens; at an await anything may. The methods of the
  classes take what the others do as a parameter: for each await, a table from what the coroutine left on the
  server to what it finds there (`Redis.Others`). Their contracts hold for every table, so they fix what is
  written at every step and not only at the end. Which calls raise, before or after the script ran, is a
  parameter too.
- Core ids of different cores differ, and the tokens of different acquires differ; both are the names of the
  participants in the models.
- Timing is a hypothesis of the theorems that need it (`TimelyRun`), stated as a gap that every state of the
  run respects. The lease theorem needs only the gap between claims, which is weaker than heartbeat interval
  plus resync interval below the TTL.
- In the protocol each agent's turn in a loop is its own interleaving, and renew steps are allowed for agents
  that are not in the owned set, so its runs include those of the code and more.
- ISO timestamps are integers that order as the strings of one time zone do, monotonic clock readings are
  reals.
- `\d` matches some finite set of characters with the ten ASCII digits in it and without `*`, `X` and `x`;
  `str()` of an object and `str.lower()` of a key are arbitrary functions in the page-context model.
- `Json.dfy` writes what the documentation of `json.dumps` says; the results use the length of that text and when
  there is none.
- A value of an expression is any the model's semantics allows: names and calls may stand for anything, either
  branch of a conditional may be taken, and a comparison may come out either way.

## Model

| member | source | states |
|---|---|---|
| LeaseSteps.OwnerKeyInjective | agent/ai-platform/backend/src/cluster/core_ownership.py:38-53 | Two agents never share a lease key, whatever characters their ids hold. |
| Redis.Server.EvalClaim | agent/ai-platform/backend/src/cluster/core_ownership.py:116-127 | The claim script, command by command: a free key or one's own gets a full TTL and the answer is 1; another owner's live key is left as it is and the answer is 0. |
| Redis.Server.EvalRenew | agent/ai-platform/backend/src/cluster/core_ownership.py:130-136 | The renew script refreshes the TTL of the live owner's key only; anything else leaves the whole store alone and answers 0. |
| Redis.Server.EvalRelease | agent/ai-platform/backend/src/cluster/core_ownership.py:139-144 | The release script deletes the key only while its live value is the caller's. |
| Redis.Server.EvalSetNx | agent/ai-platform/backend/src/cluster/session_lock.py:122 | SET NX PX writes only a key that is absent or expired. |
| Ownership.CoreOwnership.constructor | agent/ai-platform/backend/src/cluster/core_ownership.py:155-179 | TTL and heartbeat are clamped to at least one second, independently of each other: nothing makes the heartbeat shorter than the TTL. |
| Ownership.CoreOwnership.Claim | agent/ai-platform/backend/src/cluster/core_ownership.py:181-206 | One claim script on this agent's key; the owned set gains the agent exactly if it won and loses it otherwise; no other key changes. |
| Ownership.CoreOwnership.Renew | agent/ai-platform/backend/src/cluster/core_ownership.py:208-227 | One renew script; a lost lease drops the agent from the owned set, a kept one adds nothing to it. |
| Ownership.CoreOwnership.Release | agent/ai-platform/backend/src/cluster/core_ownership.py:229-241 | Only a lease that is still this core's is deleted; the agent leaves the owned set either way. |
| Ownership.CoreOwnership.ReleaseAll | agent/ai-platform/backend/src/cluster/core_ownership.py:243-246 | Empties the owned set and deletes exactly the keys of owned agents that are still live in this core's name. |
| Lifecycle.StateMachine.Transition | agent/ai-platform/backend/src/agent/lifecycle.py:98-139 | The state moves exactly as the table says; an event the table lacks (AgentStateError) leaves it alone. |
| Lifecycle.EventLeads | agent/ai-platform/backend/src/agent/lifecycle.py:41-64 | Over every history: START leads a new or stopped instance to running, PAUSE a running one to paused, RESUME back, DRAIN a running or paused one to draining, STOP one that runs, is paused or drains to stopped, DELETE a new or stopped one to deleted; everything else stays. |
| Lifecycle.StartActivatesIff | agent/ai-platform/backend/src/agent/lifecycle.py:41-64 | After any history a START leaves the instance active if and only if it was neither draining nor deleted. |
| Lifecycle.StoppedRestarts | agent/ai-platform/backend/src/agent/lifecycle.py:41-64 | So STOP and then START always bring an instance up, unless it is deleted. |
| Lifecycle.ActiveIffStarted | agent/ai-platform/backend/src/agent/lifecycle.py:41-156 | Over every sequence of events: an instance is active exactly if some accepted START has since been followed by accepted PAUSE and RESUME events only. |
| Lifecycle.DeletedIsFinal | agent/ai-platform/backend/src/agent/lifecycle.py:41-64 | No sequence of events leaves DELETED. |
| Lifecycle.SwitchRuntimeNeverCompletes | agent/ai-platform/backend/src/agent/manager.py:339-370 | Whatever the state, DRAIN followed by START has a rejected event: switching the runtime type never gets through. |
| AgentManager.AgentManager.CreateAgent | agent/ai-platform/backend/src/agent/manager.py:213-244 | An existing agent is refused and a raising initialisation leaves the table as it was; otherwise a fresh instance in CREATED is added and nothing else changes. |
| AgentManager.AgentManager.UpdateConfig | agent/ai-platform/backend/src/agent/manager.py:318-337 | A missing agent raises and changes nothing; otherwise the new configuration is in place before the runtime is initialised again, so it stays even when that raises. |
| AgentManager.AgentManager.StopLocalRuntime | agent/ai-platform/backend/src/agent/manager.py:429-439 | Offers STOP to the one instance; a refusal is swallowed and no other instance moves. |
| AgentManager.AgentManager.SyncExisting | agent/ai-platform/backend/src/agent/manager.py:403-422 | For an agent that exists: the configuration is replaced only if it really changed, and the instance is started only if it is not active. |
| AgentManager.AgentManager.ClaimLease | agent/ai-platform/backend/src/agent/manager.py:392-396 | The lease gate: the claim script runs once on whatever the others have made of Redis, or raises before or after it ran; owned set and server are exactly what that makes of them. |
| AgentManager.AgentManager.SyncAgent | agent/ai-platform/backend/src/agent/manager.py:389-424 | One agent's turn in a resync pass, from the lease gate to the counter, with any interference at its await: the whole new state of Redis, owned set and table, and what it adds to the counter or raises. |
| AgentManager.AgentManager.SyncFromConfigs | agent/ai-platform/backend/src/agent/manager.py:372-427 | A whole pass is the turns in order, each on what the others have made of Redis by then, up to the first exception that escapes (a claim's too), with the count of agents synced so far. |
| AgentManager.SyncOneFrame | agent/ai-platform/backend/src/agent/manager.py:389-424 | One agent's turn leaves every other agent's lease as its claim found it, and every other agent's ownership and runtime as they were. |
| AgentManager.PassRunsOnLeases | agent/ai-platform/backend/src/agent/manager.py:372-427 | However a pass ends, and whatever others do during it: each agent it came to (unless its own claim raised) is in the owned set exactly if its last claim won, and runs here only then; if nobody interferes that is exactly who holds the lease afterwards. |
| AgentManager.PassRunsExactlyLeases | agent/ai-platform/backend/src/agent/manager.py:372-427 | After a pass that did not raise, an agent whose creation did not fail runs here if and only if its claim won, and if nobody interferes, if and only if its lease names this core. |
| AgentManager.QuietPassDisplacesNobody | agent/ai-platform/backend/src/agent/manager.py:391-400 | If nobody else writes, another core's lease outlasts the whole pass. |
| ResyncPass.LocalTurnRaisesIff | agent/ai-platform/backend/src/agent/manager.py:403-422 | A turn on an agent to run here raises if and only if its configuration really changed and initialising raises, or the instance is draining or deleted; a stopped one is started. |
| ResyncPass.LocalTurnRuns | agent/ai-platform/backend/src/agent/manager.py:403-424 | If it does not raise, the agent runs (or stays paused) with a configuration that differs from the given one at most in load time and path, which replaced the old one only if it differed in more; and the turn counts. |
| ResyncPass.PassRaisesIff | agent/ai-platform/backend/src/agent/manager.py:372-427 | A pass raises if and only if some turn it comes to does: by its claim, its update or its start. |
| ResyncPass.PassServes | agent/ai-platform/backend/src/agent/manager.py:372-427 | After a pass that did not raise, with leases or without: an agent runs here if and only if it was this core's to run at its last turn, whatever state it was in before, and then with the configuration given. |
| ResyncPass.FaultFreePassServes | agent/ai-platform/backend/src/agent/manager.py:372-427 | A fault-free pass over instances of which none is draining or deleted does not raise, and leaves running exactly the agents that are this core's to run. |
| ResyncPass.PassCounts | agent/ai-platform/backend/src/agent/manager.py:387-427 | The count returned is the number of turns that served their agent. |
| Heartbeat.RenewInTurn | agent/ai-platform/backend/src/cluster/core_ownership.py:334-345 | One renew of the heartbeat: the agent is dropped exactly if the renew raised or found another owner or none, and the server is exactly what that one script makes of what the others left there, or untouched if it did not run. |
| Heartbeat.OnLost | agent/ai-platform/backend/src/agent/manager.py:523-532 | The callback stops the runtime exactly if its own read went through and found another core or nobody, and writes nothing to Redis. |
| Heartbeat.HeartbeatPass | agent/ai-platform/backend/src/cluster/core_ownership.py:312-352 | One pass of the loop with its callback is the turns in order, each on what the others have made of Redis before its renew and before its owner read: the whole new state of server, owned set and table, for every interference and every choice of raising calls. |
| Heartbeat.BeatDropsExactlyLost | agent/ai-platform/backend/src/cluster/core_ownership.py:334-352 | A pass drops an agent from the owned set if and only if its renew raised or found the lease no longer this core's, and stops its runtime if and only if it was dropped and the read then went through and found another core or nobody; so a raising read leaves a runtime running without a lease. |
| Heartbeat.BeatLeavesOthers | agent/ai-platform/backend/src/cluster/core_ownership.py:334-352 | Agents outside the pass keep their ownership, configuration and runtime. |
| Heartbeat.QuietBeatDisplacesNobody | agent/ai-platform/backend/src/cluster/core_ownership.py:312-352 | If nobody else writes, another core's lease outlasts the whole heartbeat pass, whatever it renews, loses and stops and whichever of its calls raise. |
| ManagerRefinement.PassContinuesRun | agent/ai-platform/backend/src/agent/manager.py:372-427 | Wherever a run of the protocol stands: the manager's whole resync pass, raising or not and with any steps of other processes at its awaits, continues it to a longer run, and manager, owned set and Redis are in the state that run comes to. |
| ManagerRefinement.BeatContinuesRun | agent/ai-platform/backend/src/cluster/core_ownership.py:312-352 | The same for the heartbeat pass with its callback. |
| ManagerRefinement.TableDuringPass | agent/ai-platform/backend/src/agent/manager.py:389-427 | And in the middle of it: while any claim is awaited, however far the others have got, the run has come to a state in which this core has exactly the runtimes of the table. |
| ManagerRefinement.TableDuringBeat | agent/ai-platform/backend/src/cluster/core_ownership.py:334-345 | The same while any renew of the heartbeat is awaited. |
| ManagerRefinement.TableDuringRead | agent/ai-platform/backend/src/agent/manager.py:523-532 | And while the owner read after a lost renew is awaited: until that read, losing the lease has not changed the table. |
| ManagerRefinement.ManagersExclusive | agent/ai-platform/backend/src/main.py:246-265 | So at every moment of any run that claims the agents it serves at most a gap below the TTL apart, whatever the two are in the middle of, two managers of different cores never both run an agent. |
| ManagerRefinement.ExclusiveDuringPass | agent/ai-platform/backend/src/agent/manager.py:389-427 | In particular between any two turns of a resync pass. |
| ManagerRefinement.ExclusiveDuringBeat | agent/ai-platform/backend/src/cluster/core_ownership.py:334-352 | And between any two turns of a heartbeat pass. |
| LeaseProtocol.RunKeepsLeaseInv | agent/ai-platform/backend/src/cluster/core_ownership.py:116-144 | After every run, a core whose last successful claim or renew plus TTL is still ahead is the live owner in Redis, with exactly that expiry, and conversely. |
| LeaseTheorems.LeaseSafety | agent/ai-platform/backend/src/cluster/core_ownership.py:181-257 | Lease safety, for any number of cores and any interleaving of claim, renew, release, crash, restart, lost replies and the passing of time: the owner that Redis answers is exactly the core whose last successful claim or renew plus TTL is still ahead. |
| LeaseTheorems.NoTwoLeases | agent/ai-platform/backend/src/cluster/core_ownership.py:150-153 | No two cores are ever inside a lease on the same agent. |
| LeaseTheorems.TimelyRunIsExclusive | agent/ai-platform/backend/src/main.py:246-265 | If every core attends to the agents it counts on at most a gap below the TTL apart, no agent is served by two cores (or is in two owned sets), even when renews raise, replies are lost, the heartbeat forgets an agent that keeps running, or processes die. |
| LeaseTheorems.SplitBrain | agent/ai-platform/backend/src/cluster/core_ownership.py:334-352 | A gap of a whole TTL is too long: a run in which two cores serve the same agent, started by one raising renew. |
| LeaseTheorems.SafeIffGapBelowTtl | agent/ai-platform/backend/src/config.py:203-207 | The exact condition, for serving and for owning, measured from the last claim or from the last claim or renew: every such run is exclusive if and only if the gap is below the TTL. |
| LeaseTheorems.RenewingIsNotEnough | agent/ai-platform/backend/src/cluster/core_ownership.py:334-352 | Even if every agent in an owned set is claimed or renewed at most any gap apart, however small, some run has two cores serving one agent: a raising renew takes the agent out of the owned set and leaves its runtime on. |
| LeaseTheorems.OnlyClaimDisplaces | agent/ai-platform/backend/src/cluster/core_ownership.py:116-127 | The entry of a core that is down is displaced only by a claim of another core, and such a claim wins if and only if the entry has expired. |
| LeaseTheorems.BoundedTakeover | agent/ai-platform/backend/src/config.py:185-207 | If an owner goes down and another core keeps claiming the agent at least every gap, then one gap after the lease's expiry (at most one TTL away) a live core has claimed it, after the expiry and at most one gap after it. |
| SessionLock.RedisSessionLock.constructor | agent/ai-platform/backend/src/cluster/session_lock.py:77-102 | TTL clamped to at least one second, retries to at least zero. |
| SessionLock.LockKeysApart | agent/ai-platform/backend/src/cluster/session_lock.py:44-46 | Two sessions never share a lock key, and no lock key is an agent's lease key, whatever characters the ids hold. |
| SessionLock.RedisSessionLock.TryAcquire | agent/ai-platform/backend/src/cluster/session_lock.py:118-137 | The retry loop with any interference before each try and any try raising: the final server, the outcome and the number of tries. |
| SessionLock.AcquireExactly | agent/ai-platform/backend/src/cluster/session_lock.py:118-137 | At most retry + 1 tries; all but the last found the key held by a live token; a won one found it free and sets it to this token with a full TTL and changes nothing else; an acquire that gives up leaves the server exactly as it found it. |
| SessionLock.RedisSessionLock.ExtendLoop | agent/ai-platform/backend/src/cluster/session_lock.py:152-177 | The watchdog with any interference before each renew and any renew raising: the final server and the number of renews. |
| SessionLock.WatchdogExactly | agent/ai-platform/backend/src/cluster/session_lock.py:152-177 | Every renew gives this token's own live key a full TTL and changes nothing else, or leaves the server exactly as it found it; the first of the second kind, or one that raises, is the last. |
| SessionLock.RedisSessionLock.ReleaseIfOwner | agent/ai-platform/backend/src/cluster/session_lock.py:179-184 | With any interference before it, and raising or not: deletes the key exactly if the script ran and the key is still this token's, and nothing else. |
| LockProtocol.HoldIsItsOwn | agent/ai-platform/backend/src/cluster/session_lock.py:49-64 | In every run, timely or not: nothing but its own steps and its expiry ends or changes a hold; whoever else tries, renews, releases, raises or crashes, the holder's entry stays as it is. |
| LockProtocol.HoldSafety | agent/ai-platform/backend/src/cluster/session_lock.py:104-184 | In every run, timely or not: a token's last successful SET or renew plus TTL is ahead exactly while it is the live value of the key, so two holds are never in force at once. |
| LockProtocol.TimelyRunSerializes | agent/ai-platform/backend/src/agent/session.py:586-610 | With refreshes less than a TTL apart, locked sections never overlap, and the stored session is all appended messages in the order in which the writes completed, for any number of workers. |
| LockProtocol.LostMessage | agent/ai-platform/backend/src/agent/session.py:531-548 | With a gap of a TTL a message is lost: the late worker overwrites what the next one stored. |
| LockProtocol.SerializesIffGapBelowTtl | agent/ai-platform/backend/src/cluster/session_lock.py:104-150 | The exact condition: locked read-append-write serializes the session in every such run if and only if the gap is below the TTL. |
| LockRefinement.TriesAreRun | agent/ai-platform/backend/src/cluster/session_lock.py:118-137 | The retry loop, from any try on and with any steps of other workers before each try, is a stretch of a run of the protocol, which ends inside the locked section exactly if it won. |
| LockRefinement.RenewsAreRun | agent/ai-platform/backend/src/cluster/session_lock.py:152-177 | So is the watchdog, with the steps of other workers and of the section it guards beside it. |
| LockRefinement.SectionContinuesRun | agent/ai-platform/backend/src/cluster/session_lock.py:104-184 | Wherever a run stands: a whole use of the lock, from the first try to the release, with any of its calls raising and any steps of others at its awaits, continues the run, and Redis is as the longer run leaves it. |
| LockRefinement.AddContinuesRun | agent/ai-platform/backend/src/agent/session.py:586-610 | An added message inside a section, with steps of others and renews between its read and its write, is a stretch of a run, and the session it leaves is the one that run has stored. |
| LockRefinement.LockedAddLosesNothing | agent/ai-platform/backend/src/agent/session.py:586-610 | So under a refresh gap below the TTL no added message is lost: the write replaces just what was read, and leaves every message that anybody has added, in order. |
| SessionStore.SessionPgStore.InsertMessages | agent/ai-platform/backend/src/agent/session_store.py:1139-1186 | The batch built by the loop and inserted with ON CONFLICT DO NOTHING leaves the table as inserting the last limit messages one by one, by id and with their index, would. |
| SessionStore.ProjectIsFirstWins | agent/ai-platform/backend/src/agent/session_store.py:1139-1186 | For any ids, repeated, missing or taken: rows that are there stay, a message with a new id is stored with its own content and index, the first where an id repeats, and one without an id is left out. |
| SessionStore.SessionManager.SaveSession | agent/ai-platform/backend/src/agent/session.py:531-548 | Redis always gets the whole session; the table is projected into only if the PostgreSQL write succeeds. |
| SessionStore.SessionManager.AddMessage | agent/ai-platform/backend/src/agent/session.py:586-610 | Read whole session, append, write whole session over whatever the others have made of it in between: what is stored is the session as read with the message appended, by one save of the run below; other sessions stay as the others left them, and a missing session changes nothing. |
| SessionStore.ProjectionIsExact | agent/ai-platform/backend/src/agent/session_store.py:1139-1186 | Over every run of appends, saves and failed writes: the table holds exactly those messages that some successful save had in its window, each with its own content and index, and all other rows are as they were. |
| SessionStore.CompleteIffNoGap | agent/ai-platform/backend/src/agent/session_store.py:1155-1160 | Right after a successful write the projection is complete if and only if never more than the limit were appended between two successful writes. |
| SessionStore.RunFullyProjected | agent/ai-platform/backend/src/agent/session_store.py:281-306 | A complete run over a table without earlier rows of the session leaves one row per message and no other row of the session. |
| SessionStore.ListingIsMessages | agent/ai-platform/backend/src/agent/session_store.py:391-433 | ORDER BY timestamp, seq has one answer on a full projection with nondecreasing timestamps: the messages in their own order. |
| SessionStore.ReadPathsAgree | agent/ai-platform/backend/src/agent/session.py:727-779 | The page from PostgreSQL equals the page from Redis, for every page and size, when no message has an empty role. |
| SessionStore.ReadPathsAgreeIffRolesSet | agent/ai-platform/backend/src/agent/session.py:743-779 | The condition is exact: the write path turns an empty role into "unknown", the Redis path does not, so the two agree on all pages if and only if every role is set. |
| SessionStore.PageShowsRows | agent/ai-platform/backend/src/agent/session.py:743-748 | Whatever Redis holds and however incomplete the projection: if PostgreSQL answers with any row, the page, its size and its total are those of the rows, field by field. |
| SessionStore.PageShowsMessages | agent/ai-platform/backend/src/agent/session.py:749-779 | If PostgreSQL raises or has no row, they are those of the messages in Redis. |
| SessionStore.ExpiredIsStillListed | agent/ai-platform/backend/src/agent/session.py:743-763 | A session that Redis no longer holds is still read in full: enough pages show every row of it, in order and once. |
| SessionStore.PagesArePrefix | agent/ai-platform/backend/src/agent/session_store.py:407-433 | The first k pages are the first k times size messages, with no gap and no repeat. |
| SessionStore.PagesAreAll | agent/ai-platform/backend/src/agent/session_store.py:407-433 | Enough pages give the whole list back. |
| Glob.PatternToRegex | agent/ai-platform/backend/src/config_manager/file_service.py:93-133 | The loop over the pattern terminates, and what it builds accepts a newline-free path exactly when the pattern, read character by character, matches it, provided no brace option holds a regular-expression metacharacter. |
| Glob.CompiledMeansGlob | agent/ai-platform/backend/src/config_manager/file_service.py:105-133 | Compilation preserves meaning from every position of every pattern on. |
| Glob.FaithfulIffNoNewline | agent/ai-platform/backend/src/config_manager/file_service.py:105-133 | The exact condition on the path: every pattern with plain options means on it what it is compiled to if and only if it has no newline. |
| Glob.OptionFaithfulIffNoDot | agent/ai-platform/backend/src/config_manager/file_service.py:121-129 | The exact condition on a brace option whose only special character may be the dot: its pattern means what it is compiled to, on all paths without a newline, if and only if it has no dot. |
| Glob.TrailingNewlineSlipsThrough | agent/ai-platform/backend/src/config_manager/file_service.py:133 | A matched path with a newline appended is accepted too. |
| Glob.ReadonlyIsWhitelisted | agent/ai-platform/backend/src/config_manager/file_service.py:68-182 | Every path that some read-only pattern accepts, some whitelist pattern accepts, for all paths. |
| EditablePaths.WhitelistedIffEditable | agent/ai-platform/backend/src/config_manager/file_service.py:68-170 | The whitelist accepts, of the paths of one line, exactly five single files, the YAML files right in identity, memory and system, the Markdown files right in runtime/prompts, and all YAML and Markdown files below memory/facts at any depth. |
| EditablePaths.ReadonlyIffProtected | agent/ai-platform/backend/src/config_manager/file_service.py:82-182 | The read-only list accepts exactly the YAML files right in identity and system/mcp-servers.yaml. |
| EditablePaths.OneCharacterTaken | agent/ai-platform/backend/src/config_manager/file_service.py:117-118 | A question mark between two literals takes any one character but a slash. |
| SecretMask.MaskSecrets | agent/ai-platform/backend/src/config_manager/file_service.py:251-279 | The loops over dicts and lists hide exactly the values worth hiding under secret keys, at every depth, and the flag says whether there was one. |
| SecretMask.MaskHidesSecrets | agent/ai-platform/backend/src/config_manager/file_service.py:251-279 | After masking, no secret key has a value worth hiding left, at any depth. |
| SecretMask.SecretIffHoldsHint | agent/ai-platform/backend/src/config_manager/file_service.py:243-248 | A key is secret if and only if it is a string that holds a hint anywhere, in any mixture of upper and lower case. |
| SecretMask.MaskHidesExactly | agent/ai-platform/backend/src/config_manager/file_service.py:251-279 | Value by value, at every depth: a non-empty string, a number or a bool under such a key becomes the placeholder; every other value, an empty string, a null and a date too, and every key stay. |
| SecretMask.MaskIdempotent | agent/ai-platform/backend/src/config_manager/file_service.py:251-279 | Masking twice is masking once. |
| SecretMask.MaskedIffPlaceholder | agent/ai-platform/backend/src/config_manager/file_service.py:314-322 | The masked document holds the placeholder if and only if something was hidden or the placeholder was there before. |
| SecretMask.RestoreUndoesMask | agent/ai-platform/backend/src/config_manager/file_service.py:282-311 | The round trip: restoring a document's masked form against the document gives the document, for every tree. |
| SecretMask.RestoredEntry | agent/ai-platform/backend/src/config_manager/file_service.py:291-303 | Entry by entry: a placeholder gives way to the original's value under its key and stays where the original has none; other scalars stay as submitted. |
| SecretMask.RestoreKeepsIffListsFit | agent/ai-platform/backend/src/config_manager/file_service.py:304-311 | On a submission without placeholders restoring changes nothing if and only if no list has outgrown the one it lines up with: zip truncates. |
| SecretMask.MaskedReadIsNotSaved | agent/ai-platform/backend/src/config_manager/file_service.py:443-452 | The placeholder check stands before the restoring: a document shown with hidden secrets can never be saved as shown, against what the docstring of restore_masked promises. |
| SecretMask.SavedAsShownIffNothingHidden | agent/ai-platform/backend/src/config_manager/file_service.py:383-452 | A file that is read and saved as shown comes back as it was if and only if no secret was hidden in it and it does not hold the placeholder itself. |
| SecretMask.SavedAsSubmittedIffListsFit | agent/ai-platform/backend/src/config_manager/file_service.py:436-460 | A submission is saved as submitted if and only if none of its lists has outgrown the file's. |
| SecretMask.WriteOutcome | agent/ai-platform/backend/src/config_manager/file_service.py:436-460 | What is refused and why: neither mapping nor sequence; the placeholder somewhere in it; not valid. Everything else is saved, without a file yet as it is. |
| SecretMask.EmptyFileTakesAnything | agent/ai-platform/backend/src/config_manager/file_service.py:383-460 | A file that holds nothing reads as an empty mapping and takes every submission as it is. |
| SessionTiming.SessionTimingRecorder.Observe | agent/ai-platform/backend/src/agent/session_timing.py:221-264 | What one event does to every field; after done or error nothing changes any more. |
| SessionTiming.SessionTimingRecorder.Complete | agent/ai-platform/backend/src/agent/session_timing.py:266-277 | Ends the recording at the done event's time, or now; an end already set stays. |
| SessionTiming.SessionTimingRecorder.Fail | agent/ai-platform/backend/src/agent/session_timing.py:279-287 | Ends the recording now, unless an end is set. |
| SessionTiming.SessionTimingRecorder.Close | agent/ai-platform/backend/src/agent/session_timing.py:306-314 | Sets the end now, unless an error path has. |
| SessionTiming.FirstEndingWins | agent/ai-platform/backend/src/agent/session_timing.py:266-314 | However complete, fail and close are called, the first call fixes the end: every later snapshot shows the same stages. |
| SessionTiming.EndingStopsRecording | agent/ai-platform/backend/src/agent/session_timing.py:221-224 | After complete() or fail() no event is recorded any more; close() leaves the recording open but fixes the end. |
| SessionTiming.SessionTimingRecorder.Snapshot | agent/ai-platform/backend/src/agent/session_timing.py:331-371 | The total and all five stages from the marks and the end, rounded to whole milliseconds, from halfway to the even one. |
| SessionTiming.MarksAreFirstAndLast | agent/ai-platform/backend/src/agent/session_timing.py:151-155 | Over every stream, with any clock: the marks are the times of the first and last external event and of the first and last text before the stream's done or error. |
| SessionTiming.TimeIsConserved | agent/ai-platform/backend/src/agent/session_timing.py:331-358 | With a clock that is monotone up to the done or error: planning, the span of the work and post-processing are non-negative and add up to the total; without any work planning and post-processing are zero. |
| SessionTiming.CompleteEndsInTime | agent/ai-platform/backend/src/agent/session_timing.py:266-277 | That covers every completed recording: the end that complete() sets is no earlier than any event that counted, whatever follows the done event. |
| SessionTiming.EndedTurnIsConserved | agent/ai-platform/backend/src/agent/session_timing.py:266-358 | However a turn is ended, once or often, and whenever the snapshot is taken: the total runs from the start to when close() or fail() was first called, or to the done event for complete(), and planning, the span of the work and post-processing are non-negative and add up to it. |
| SessionTiming.DoneIffSeen | agent/ai-platform/backend/src/agent/session_timing.py:258-260 | The done mark is the time of the done event, and is there if and only if one came before any error. |
| SessionTiming.StagesSumToTotal | agent/ai-platform/backend/src/agent/session_timing.py:340-353 | With text, planning, generation and post-processing add up to the total if and only if there was no external event or the external events span as long as the text. |
| SessionTiming.RoundedSumIsClose | agent/ai-platform/backend/src/agent/session_timing.py:360-371 | What a snapshot shows is non-negative, and its stages are at most two milliseconds off its total wherever the exact ones add up to it. |
| SessionTiming.GenerationIsTextSpan | agent/ai-platform/backend/src/agent/session_timing.py:344-349 | Generation is the time from the first to the last text before done or error, or none without text. |
| SessionTiming.RetrievalAndToolsAreSummed | agent/ai-platform/backend/src/agent/session_timing.py:229-254 | The retrieval stage is the summed latency of the traces before done or error, or none without one; the tool stage is the summed latency of the answered calls. |
| SessionTiming.FirstCallIsMarked | agent/ai-platform/backend/src/agent/session_timing.py:235-238 | The first-tool-call mark is the time of the first call that counts. |
| SessionTiming.ToolCallsAreFifo | agent/ai-platform/backend/src/agent/session_timing.py:235-252 | Results answer calls first in, first out; the queue holds exactly the calls still waiting; the summed latency is that of the answered calls. |
| SessionTiming.PairingDoesNotMatter | agent/ai-platform/backend/src/agent/session_timing.py:239-252 | With no call outstanding, the summed latency is the same for every way of pairing the results with the calls. |
| TimingStore.RedisTimingStore.Save | agent/ai-platform/backend/src/agent/session_timing.py:510-533 | Upserts the turn under its key, in place or at the end, and cuts the map to the ring size by sample time; other sessions are untouched. |
| TimingStore.RecencyListsLatest | agent/ai-platform/backend/src/agent/session_timing.py:510-533 | The reference cache lists each key's latest save, in the order of the latest saves. |
| TimingStore.RingIsMostRecentCache | agent/ai-platform/backend/src/agent/session_timing.py:522-531 | Over every sequence of saves at increasing times, the ring holds exactly the most recently saved turns, each with its latest snapshot: the last size keys, or all if there are fewer. |
| TypeInference.InferenceSound | agent/ai-platform/backend/scripts/annotate_local_vars.py:44-137 | Type soundness: every value a safe expression can have is of the type inferred for it, by induction over constants, containers, unpacked mappings, unary, comparison, conditional, comprehension and binary expressions. Safe forbids three things only: a sign on what is inferred as bool, a mapping that may have other keys unpacked beside str keys, and `==`, `!=` or an ordering that may come to an object's own operator. |
| TypeInference.SafeIsSound | agent/ai-platform/backend/scripts/annotate_local_vars.py:44-137 | The same for all values at once, whatever the names in the expression stand for. |
| TypeInference.StrKeyedSound | agent/ai-platform/backend/scripts/annotate_local_vars.py:80-86 | Which mappings give str keys only is read off the expression: every key of every dict that a str-keyed one can be is a str. |
| TypeInference.LinkSound | agent/ai-platform/backend/scripts/annotate_local_vars.py:104-105 | Which comparisons come to no other object's operator is, too: an operator that Safe allows never does, whatever the values of its operands, for two displays element by element. |
| TypeExactness.SignSoundIff | agent/ai-platform/backend/scripts/annotate_local_vars.py:101-102 | Over a sound operand, + and - are sound if and only if the inferred annotation has int beside any bool (-True is -1). |
| TypeExactness.BoolIsPossible | agent/ai-platform/backend/scripts/annotate_local_vars.py:107-114 | Whatever is inferred as bool, alone or in a union, can really be a bool, or an int. |
| TypeExactness.DictSoundIff | agent/ai-platform/backend/scripts/annotate_local_vars.py:80-86 | A dict display is sound if and only if, beside keys that are inferred as str, only str-keyed mappings are unpacked. |
| TypeExactness.CompareSoundIff | agent/ai-platform/backend/scripts/annotate_local_vars.py:104-105 | A comparison is sound if and only if every operator in it is safe: is, in and their negations always (so `x is None` and `a in b` are bool whatever stands in them), == and != if neither operand can be an object with operators of its own, the others if ordering the operands can come to none. |
| TypeExactness.PlainIffHoldsNoOther | agent/ai-platform/backend/scripts/annotate_local_vars.py:104-105 | Whether a value can be an object with operators of its own, or hold one in a list or tuple, is read off the expression, if it is safe and its parts have values: it can exactly if the expression is not plain. |
| TypePrecision.LiteralGetsItsType | agent/ai-platform/backend/scripts/annotate_local_vars.py:44-96 | A constant, and a list or tuple of literals at any depth, is annotated with exactly the type of its value: `[1, 2]` is list[int] and nothing wider. |
| TypePrecision.DisplaysAreTyped | agent/ai-platform/backend/scripts/annotate_local_vars.py:62-96 | A list or set display gets an element type if and only if it has elements and all have that type; a tuple the types of its elements if and only if each has one. |
| TypePrecision.DictIsTyped | agent/ai-platform/backend/scripts/annotate_local_vars.py:80-86 | A dict display gets str keys if and only if it is empty, or has pairs and every key in them is a str. |
| TypePrecision.ConditionalIsItsBranches | agent/ai-platform/backend/scripts/annotate_local_vars.py:107-114 | A conditional is annotated with just the alternatives of its two branches. |
| TypePrecision.UntypedIff | agent/ai-platform/backend/scripts/annotate_local_vars.py:44-137 | Exactly which expressions get no annotation, and which operators give str or int. |
| TypePrecision.OrdinaryIsSafe | agent/ai-platform/backend/scripts/annotate_local_vars.py:44-137 | Expressions without a sign, ** and comparisons other than is, in and those of two literals are all covered by the soundness theorem, whatever names and operators they hold. |
| TextMask.PassHides | agent/ai-platform/backend/src/coordinator/brief.py:100-105 | A substitution from left to right, with its lookarounds, is the same as hiding the middle of every match at once; the length stays. |
| TextMask.NoNewMatch | agent/ai-platform/backend/src/coordinator/brief.py:85-105 | Every match of any rule in the output of a pass is an untouched match of its input: hiding never makes a new number. |
| TextMask.PassClears | agent/ai-platform/backend/src/coordinator/brief.py:100-105 | After a pass its own rule matches nowhere. |
| TextMask.MaskComplete | agent/ai-platform/backend/src/coordinator/brief.py:91-106 | The output has the input's length and no ID card, bank card or mobile number left, for every text. |
| TextMask.MaskIsIdentity | agent/ai-platform/backend/src/coordinator/brief.py:91-106 | A text comes back unchanged if and only if it has no number to mask. |
| TextMask.MaskIdempotent | agent/ai-platform/backend/src/coordinator/brief.py:91-106 | Masking twice is masking once. |
| TextMask.MaskIsOnePass | agent/ai-platform/backend/src/coordinator/brief.py:91-106 | The three passes one after the other hide exactly what one look at the text would: the middle of each number, by the first rule that matches it. |
| TextMask.MaskHidesExactly | agent/ai-platform/backend/src/coordinator/brief.py:85-106 | Character by character, for every text: masked are the eight in the middle of eighteen digits on their own (or seventeen and an X), all but the first and last four of any other sixteen to nineteen digits on their own, and the four in the middle of eleven that start with 13 to 19; everything else stays. |
| PageContext.SanitizeCleans | agent/ai-platform/backend/src/coordinator/brief.py:109-148 | The output has no denied key, no number in a text, no list over 50, no repeated key and nothing below depth 4. |
| PageContext.SanitizeFixesExactlyClean | agent/ai-platform/backend/src/coordinator/brief.py:109-148 | The values that sanitizing leaves alone are exactly those. |
| PageContext.SanitizeIdempotent | agent/ai-platform/backend/src/coordinator/brief.py:109-148 | Sanitizing twice is sanitizing once. |
| SanitizedPaths.DeniedIffSpelled | agent/ai-platform/backend/src/coordinator/brief.py:109-119 | A key is denied if and only if some stretch of its lower-case form spells a hint, with underscores and hyphens anywhere in between. |
| SanitizedPaths.SanitizeKeepsExactly | agent/ai-platform/backend/src/coordinator/brief.py:122-148 | Path by path: a value is kept, in its place and sanitized, if and only if it lies at most four levels deep, under no denied key and among the first fifty items of every list above it. |
| SanitizedPaths.SanitizedInPlace | agent/ai-platform/backend/src/coordinator/brief.py:122-148 | What each kind of value turns into where it is kept. |
| ContextEntries.SortIsStable | agent/ai-platform/backend/src/coordinator/brief.py:171 | The sort orders the entries by key, loses none and keeps entries with the same key in their order. |
| ContextEntries.LeqIsLexicographic | agent/ai-platform/backend/src/coordinator/brief.py:171 | The order it sorts by is that of strings, by the first character that differs. |
| ContextEntries.CleanedIsTheAllowedPart | agent/ai-platform/backend/src/coordinator/brief.py:169-177 | Before truncation there is, in the order of the keys and once each, every allowed key the page has, with the sanitized value the page gave it last, and nothing else. |
| Greedy.KeepWhatFits | agent/ai-platform/backend/src/coordinator/brief.py:184-198 | The loop over the entries keeps, in order, what still fits beside what was kept before it, and notes whether anything was dropped. |
| Greedy.KeptIsMaximal | agent/ai-platform/backend/src/coordinator/brief.py:193-198 | Whatever was dropped was too long for what was left when its turn came, and would still be at the end. |
| ContextBudget.SanitizePageContext | agent/ai-platform/backend/src/coordinator/brief.py:151-208 | The two loops compute the truncated slice of the allowed part; a missing, foreign or empty context gives the empty one. |
| ContextBudget.SliceHolds | agent/ai-platform/backend/src/coordinator/brief.py:183-208 | The slice holds the kept entries in order, each as it is if json can write it and with the stand-in if not, and after them at most the marker. |
| ContextBudget.OutputLength | agent/ai-platform/backend/src/coordinator/brief.py:183-208 | The slice can always be written as JSON, and its exact length: what the loop charged and what it does not charge, which is one for each further separator, one for each stand-in, and the marker. |
| ContextBudget.LengthBudget | agent/ai-platform/backend/src/coordinator/brief.py:183-208 | For every context and max_chars the JSON text is at most 26 characters over the limit, plus one for each kept value that json could not write; 26 is reached exactly if seven of eight entries use up the limit. |
| ContextBudget.FitsIffUnchargedIsCovered | agent/ai-platform/backend/src/coordinator/brief.py:183-208 | The exact condition: the text keeps to max_chars if and only if what the kept entries leave of it covers the separators, stand-ins and marker that are not charged. |
| ContextBudget.MarkerOverruns | agent/ai-platform/backend/src/coordinator/brief.py:200-201 | max_chars is no bound: under 20 it is exceeded whenever something is dropped. |
| ContextBudget.MarkerInOutput | agent/ai-platform/backend/src/coordinator/brief.py:200-201 | The marker is there if and only if an entry was dropped, and without it every entry is there. |
| Permissions.PermissionEngine.CheckPermission | agent/ai-platform/backend/src/identity/permissions.py:64-126 | The cascade of checks decides as one formula over the user, the roles and the department. |
| Permissions.OwnListsDecide | agent/ai-platform/backend/src/identity/permissions.py:72-78 | A skill in the user's own deny list is denied and otherwise one in the own allow list allowed, whatever allow list, roles and department say. |
| Permissions.FirstRoleDecides | agent/ai-platform/backend/src/identity/permissions.py:80-86 | Otherwise the first role that names the skill decides, and denies it if its deny list does. |
| Permissions.CategoriesDecide | agent/ai-platform/backend/src/identity/permissions.py:88-126 | Otherwise a category that the department denies or does not admit is forbidden; what is left is allowed if and only if a role covers it, the user's own categories do, or nothing at all is configured. |
| Permissions.PermissionEngine.ComputeUserCategories | agent/ai-platform/backend/src/identity/permissions.py:142-169 | The computed set holds exactly the categories the department admits, of those of the roles, or of its own where no role names any. |
| Permissions.FirstMentionDecides | agent/ai-platform/backend/src/identity/permissions.py:80-86 | The first role that mentions a skill decides it. |
| Permissions.DecisionIsSetFormula | agent/ai-platform/backend/src/identity/permissions.py:64-169 | For a skill in no list and a user whose allowed categories are the computed ones, the check is membership in them if and only if anything at all is configured for the user: so for every user with a role or a department. |
| Permissions.DocumentedIffNoAllowFirst | agent/ai-platform/backend/src/identity/permissions.py:4-12 | The documented order (any role's deny before any role's allow) is what the code does if and only if no role that allows the skill stands before the first that denies it. |
| Permissions.DecisionAsDocumentedIff | agent/ai-platform/backend/src/identity/permissions.py:3-12 | The same for the whole decision: it is the documented one if and only if the own lists decide, or the roles do and no allow stands before the first deny, or what the department and the categories say comes to the same in both. |

## Left out

- AgentManager.AgentManager.SyncFromConfigs: does not model this core's own heartbeat pass changing the owned set or the runtimes during one of its awaits; in the protocol the steps of the two loops interleave freely.
- Heartbeat.HeartbeatPass: takes the order of the snapshot of the owned set as a parameter and, likewise, does not model this core's own resync pass at its awaits; the protocol does.
- SessionLock.RedisSessionLock.ExtendLoop: takes the number of timeouts before `stop` as a parameter; cancelling a watchdog in the middle of a renew is not modelled.
- SessionStore.SessionManager.AddMessage: others may act between its read and its write; what they do between the write to Redis and the one to PostgreSQL is not modelled.
- SessionStore.SessionPgStore.InsertMessages: the message limit is a natural number; a negative setting is not modelled.
- SessionStore.ProjectionIsExact: covers one lifetime of a session in Redis; a session that expires and is created again under the same id starts its index at zero, which is not modelled.
- Glob.PatternToRegex: builds a list of pieces with the meaning of the regular expressions the source appends, not their text; escaping and Python's parsing of the joined text are library behaviour, and an option with a metacharacter other than a dot is given no meaning. The exact condition on dots is stated for a pattern that is one brace.
- EditablePaths.WhitelistedIffEditable: is about paths of one line; what a newline in a path changes is `Glob.FaithfulIffNoNewline` and `Glob.TrailingNewlineSlipsThrough`.
- SecretMask.MaskSecrets: lower-cases keys as ASCII; Unicode case folding is not modelled.
- SessionTiming.SessionTimingRecorder.Snapshot: gives the total and the five stages; sub-stages and the per-tool breakdown are not modelled.
- TypeInference.InferenceSound: annotations are parsed types instead of text, and calls are among the expressions the inference gives up on, so the table of known constructors and method names is not modelled. Operators on anything but two ints or two strs are left open, because nothing is inferred for them.
- TypeExactness.CompareSoundIff: an ordering of two lists or tuples is decided if they are apart or their first elements meet; for later elements, and for operands whose own operators may fail on every choice of the names, only the safe direction is proved (`TypeInference.SafeIsSound`).
- TypeExactness.DictSoundIff: is about displays that have a value, with sound keys, over mappings that are str-keyed or can give another key; a mapping of which the expression shows neither, such as one computed by an operator, has only the safe direction.
- Permissions.PermissionEngine.ComputeUserCategories: returns a set; the order of the returned list is Python's.
- `ensure_agent_ready` and the start and pause endpoints take no lease check, so the single-runtime theorem is about resync, heartbeat, on_lost, pause, resume, crash and shutdown steps only; a core that has begun to shut down no longer counts as serving.
- `release_all_leases` of the manager: the same loop as `release_all` over the instances instead of the owned set.
- A coordinator without an on_lost callback: the callback is always registered at start-up.
- Liveness keys, the member set, `prev_owner` and the agent registry: written and read for observation only.
- The session row (title, counters, COALESCE of missing fields), deletion, feedback updates and session listing: field copies.
- `apply_edits` and the AST visitor of the annotation script: text editing around the inference.
- Path resolution, login, tokens, encryption, HTTP adapters, LLM and MCP clients, queue workers, the gateway and the front ends: library calls, wiring or other components.
- Approval and form stores, circuit breaker, dispatch traces, key rotation, bot store: small state machines that would add only easy members.
