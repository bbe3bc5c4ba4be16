# Argus MCP: a verified model of its stateful core

Argus MCP is a gateway in front of many MCP backend servers. This project models the parts of it that
decide things by state and algorithm, and proves what they guarantee for every input, run or reachable
state:

- **Workflows.** Parsing, level computation, and level-parallel execution with conditions, interpolation,
  retries and error strategies (`WorkflowSteps`, `WorkflowGraph`, `WorkflowExecutor`, `WorkflowTheorems`,
  `WorkflowMeaning`, `WorkflowEngine`, `WorkflowReferences`).
- **Capability registry.** Discovery batches in any order, four conflict strategies, filters, renames,
  removal and rediscovery (`Conflict`, `CapabilityRegistry`, `RegistryTheorems`, `RegistryRouting`).
- **Session pool.** Allocation, eviction, expiry and closing of sessions (`SessionPool`).
- **Rate limiter.** Sliding windows over an expiring log, and authentication lockouts (`RateLimit`).
- **Configuration import.** Conflict handling and dry runs (`ImportPlan`, `ImportReports`, `ImportHandler`).
- **Retries.** HTTP retry budgets (`Retry`) and backend startup (`Startup`).

`dafny verify dfyconfig.toml` checks everything.

## How the world outside is modelled

- A tool is an oracle of (step, tool, arguments, attempt). It returns, raises an ordinary exception, or
  raises one that `_execute_step` does not catch. Python's `str` is an arbitrary function.
- The listing of a level, and of any Python set, is arbitrary.
- A string argument is a sequence of literal pieces and `${scope.path}` references; a condition is what
  the executor's regular expressions recognise it as.
- `fnmatch` is an arbitrary predicate, the circuit breaker's answer an arbitrary boolean, random jitter an
  arbitrary draw between -1 and 1, HTTP replies and startup results arbitrary functions of the attempt.
- Times are reals. The rate limiter has two clocks, the `now` read when a request arrives and the timer the
  cache reads later; they may differ by anything less than a window.
- A raw configuration entry is malformed, refused by validation, or valid with some content.

## Main results

1. `topological_order` succeeds exactly when every dependency is known and the graph has no cycle. When it
   fails, the reported steps are exactly those from which an unknown step or a cycle can be reached. When it
   succeeds, a step's level is the length of the longest dependency chain below it, and no schedule runs
   any step earlier or needs fewer batches.
2. A run does not depend on the order inside levels; even the step reported for an abort does not, exactly
   when the aborting level has a single fatal step. If every step that a step refers to is the step itself,
   something it depends on, directly or not, or something that depends on it, all dependency-respecting
   schedules, including every sequential one, run alike. For unconditional steps with a non-negative retry
   budget, whose references to steps read the status, the output or the whole entry, that condition is exact:
   any reference to an unordered step makes two orders differ under some host.
3. Failures spread through unconditional "fail" steps without further tool calls, "skip" steps absorb
   them, and calls, budgets and statuses agree for every step of every run. A tool is called exactly when the
   condition, read along the keys of its reference, lets the step run; and each call passes exactly what the
   arguments become, field by field and piece by piece.
4. In every reachable registry state the listed names are the routed names. Removal counts dropped routes
   exactly when no dropped name is listed under two types; only `priority` can make that happen.
5. Under `priority` no server that offered a name outranks its holder. For a name that no lost conflict
   generates, arrival order does not decide the holder exactly when one server alone has the best rank among
   the offerers. Under any strategy a discovery keeps all its offers exactly when no two servers offer the same
   name in it; servers are safe in every discovery exactly when no two can expose the same name.
6. Over any interleaving of pool operations and close loops in which entries are released under their own
   key, every session is pooled, waiting for its close, close-attempted, or was waiting for a task that was
   cancelled; none is handed out again before its release. Without cancelled tasks nothing leaks. Stopping
   the pool leaks exactly the sessions that only the reaper was still to close.
7. The rate limiter decides as if it kept the full history, and no closed interval as long as the window
   holds more than the permitted admissions. Lockouts count every failure at most once and never more than the
   unspent failures in the window. They count all of those exactly when none of them was recorded before the
   log last started and none in the log was overtaken by a failure that began more than a window later. As
   many failures as the threshold, in order inside one window, lock an address out until the lockout has passed.
8. A dry run predicts the import exactly, imports do not touch what they do not report, and an import raises
   exactly when a rename finds all its 999 candidates taken.

## Where the code and its documentation or intent differ

- `PrefixStrategy` says prefixing eliminates "any possibility of name collisions". It does not for every set
  of server names: `Conflict.PrefixesCanCollide` and `RegistryRouting.PrefixSafeExactlyWhen`.
- A lockout is meant to rest on failures inside one window. Failures carry the time their request began, so
  overlapping requests can break this: `RateLimit.OverlapBreaksWindow`. `RateLimit.CountedFitsExactlyWhen`
  gives the exact condition. The other way round, failures that began inside the window can be forgotten: the
  log expires one window after the last record (`RateLimit.LateRecordForgets`), and a failure that began
  later prunes it for all that follow (`RateLimit.OvertakenIsForgotten`). `RateLimit.CountsHistoryExactlyWhen`
  gives the exact condition in every state.
- `max_delay` bounds the delay before jitter and floor only, so waits can be longer:
  `Retry.JitterExceedsMaxDelay`. They stay within `max_delay` exactly when
  `Retry.MaxDelayKeptExactlyWhen` says so. The total can even exceed `max_retries` * `max_delay` *
  (1 + jitter): `Retry.NominalBoundWhenDocumented`.
- `stop` is meant to close all pooled sessions. It cancels the reaper, which forgets the sessions it has
  taken out and not yet closed: `SessionPool.StopDuringReapLeaks`. `SessionPool.Pool.Stop` states exactly
  what leaks.
- `remove_backend` replaces the list objects. A rediscovery that waited for its backend meanwhile writes
  into a lost list: `RegistryTheorems.LateBatchBreaks`. `RegistryTheorems.LateBatchConsistentExactlyWhen`
  gives the exact condition on the routes before the batch. A removal during a full
  discovery leaves names in the new lists that are no longer routed, and a rediscovery meanwhile writes into
  lists about to be replaced: `RegistryTheorems.RemovalMeanwhileExactlyWhen` and
  `RegistryTheorems.RediscoveryMeanwhileExactlyWhen`. In all other registry results operations do not
  interleave.
- `ErrorStrategy` says the server refuses to start when two backends expose the same name. The exception is
  caught where the batch is discovered, so the batch ends early and everything else goes on:
  `RegistryRouting.StrictStopsBatch`.
- Under `priority` a tie is decided by arrival order (`RegistryRouting.TieDependsOnOrder`), and so is a name
  that a losing server falls back to (`RegistryRouting.GeneratedNameDependsOnOrder`).
- A failed release under a foreign key closes a session that stays in the pool:
  `SessionPool.ForeignReleaseBreaks`. `SessionPool.Pool.Release` states exactly when the pool stays sound.
- Steps of a level run against one state, so a reference to a step that is not ordered with the referring one
  makes the level run differ from a sequential one: `WorkflowEngine.UndeclaredReferenceDiffers`,
  `WorkflowReferences.OrderNeverShowsExactlyWhen`.
- When two steps of a level crash, the reported one depends on the listing order:
  `WorkflowTheorems.CulpritDependsOnOrder`. `WorkflowTheorems.AbortStableExactlyWhen` states when it does not.
- A rename that finds no free name raises in the middle of an import, and earlier entries stay stored:
  `ImportHandler.BrokenOffImport`. `ImportHandler.ImportRaisesExactlyWhen` gives the exact condition, and
  `ImportHandler.SmallImportReports` a check on sizes that rules it out.
- Under `rename` an existing feature flag is overwritten and reported updated:
  `ImportPlan.FlagsPreservedExactlyWhen`.

## Model

| member | source | states |
|---|---|---|
| `WorkflowGraph.StepMapOf` | argus_mcp/workflows/dsl.py:75 | The keys are the ids of the steps, each mapped to a step with that id; with unique ids, to the step itself |
| `WorkflowGraph.LastStepWins` | argus_mcp/workflows/dsl.py:75 | Of several steps with one id the last one counts |
| `WorkflowGraph.NextLevel` | argus_mcp/workflows/dsl.py:82-91 | One round lists, in arbitrary order and without repeats, exactly the remaining steps whose dependencies are completed |
| `WorkflowGraph.Peel` | argus_mcp/workflows/dsl.py:76-93 | The loop yields the rounds of peeling in order and stops when nothing remains or nothing is ready |
| `WorkflowGraph.TopologicalOrder` | argus_mcp/workflows/dsl.py:67-95 | Succeeds if and only if all dependencies are known and the graph is acyclic; the levels are then an exact partition whose indices are longest dependency chains; otherwise the error names exactly the steps that reach an unknown step or a cycle |
| `WorkflowGraph.BlockedExactlyWhenInvalid` | argus_mcp/workflows/dsl.py:87-90 | Some step is blocked if and only if a dependency is unknown or there is a cycle |
| `WorkflowGraph.JammedIsBlocked` | argus_mcp/workflows/dsl.py:82-90 | From a step of a set in which nothing is ready, an unknown step or a real cycle can be reached |
| `WorkflowGraph.RoundIsLongestChain` | argus_mcp/workflows/dsl.py:80-93 | A step completed in round k has a dependency chain of exactly k links below it and none longer |
| `WorkflowGraph.LevelsAreEarliest` | argus_mcp/workflows/dsl.py:67-95 | No dependency-respecting schedule runs a step in a batch before its level, or has fewer batches than there are levels |
| `WorkflowGraph.ReadSteps` | argus_mcp/workflows/dsl.py:117-127 | Accepts exactly documents whose steps all have ids, all different; otherwise points at the first offending entry |
| `WorkflowGraph.FindUnknown` | argus_mcp/workflows/dsl.py:129-134 | Finds the first dependency that names no step, if there is one |
| `WorkflowGraph.ParseWorkflow` | argus_mcp/workflows/dsl.py:98-146 | Succeeds if and only if the document is named and has steps with ids, all different, with declared dependencies and without a cycle among the declared ones; each parsed step has the fields of its entry, with the defaults; every error is a real defect found after the earlier checks passed |
| `WorkflowGraph.WorkflowExactlyWhen` | argus_mcp/workflows/dsl.py:98-146 | The condition on the document is the condition on the graph built from it |
| `WorkflowExecutor.FirstFailed` | argus_mcp/workflows/executor.py:113-123 | Finds the first failed dependency exactly when there is a failed one |
| `WorkflowExecutor.AttemptsAccounted` | argus_mcp/workflows/executor.py:127-165 | From any attempt on, calls stay within the remaining budget, all but the last raised, and the verdict is that of the last call |
| `WorkflowExecutor.StepAccounted` | argus_mcp/workflows/executor.py:101-165 | In any state a step makes at most 1 + retry calls, stops at the first success, and completes exactly if its last call succeeded |
| `WorkflowExecutor.Attempt` | argus_mcp/workflows/executor.py:127-165 | The attempt loop computes the recursive account of attempts, calls included |
| `WorkflowExecutor.ExecuteStep` | argus_mcp/workflows/executor.py:101-165 | One step yields its specified exit and call history, and the two agree |
| `WorkflowExecutor.ExecuteLevel` | argus_mcp/workflows/executor.py:76-97 | All steps of a level run against the same state; their exits are recorded in order up to the first fatal one |
| `WorkflowExecutor.ExecuteLevels` | argus_mcp/workflows/executor.py:70-99 | The level loop computes the fold of the levels over the state |
| `WorkflowTheorems.BatchRecorded` | argus_mcp/workflows/executor.py:80-97 | A batch aborts if and only if one of its steps crashes and fails on errors; otherwise it adds exactly its own entries |
| `WorkflowTheorems.BatchOrderIrrelevant` | argus_mcp/workflows/executor.py:77-97 | Any two listings of the same steps lead to the same state, or both abort |
| `WorkflowTheorems.CulpritDependsOnOrder` | argus_mcp/workflows/executor.py:80-91 | Every fatal step of a level is the one reported under some listing of that level: the one that lists it first |
| `WorkflowTheorems.CulpritStableExactlyWhen` | argus_mcp/workflows/executor.py:77-91 | All listings of a level have the same outcome, error included, if and only if at most one of its steps is fatal |
| `WorkflowTheorems.LevelOrderIrrelevant` | argus_mcp/workflows/executor.py:70-99 | Any two levellings of a workflow, whatever its steps refer to, run alike: same results, context and calls, or both abort |
| `WorkflowTheorems.AbortStableExactlyWhen` | argus_mcp/workflows/executor.py:70-99 | All levellings of a workflow have the same outcome, reported step included, if and only if the level that aborts the run, if any, has a single fatal step |
| `WorkflowTheorems.ResolvesAlongTrail` | argus_mcp/workflows/executor.py:203-213 | A reference resolves to a value if and only if the keys of its path lead there through nested mappings |
| `WorkflowTheorems.WholeReferenceKeepsValue` | argus_mcp/workflows/executor.py:189-194 | A string that is one whole reference becomes the referenced value, type included |
| `WorkflowTheorems.UnresolvedStaysVerbatim` | argus_mcp/workflows/executor.py:196-201 | A string none of whose references resolves comes out as it was written |
| `WorkflowTheorems.ArgLocal` | argus_mcp/workflows/executor.py:167-181 | Interpolating an argument, nested mappings and lists included, depends only on the scopes it names |
| `WorkflowMeaning.ResolvesExactly` | argus_mcp/workflows/executor.py:203-213 | A reference has exactly one value, where its keys lead or null, and resolves to that one |
| `WorkflowMeaning.ConditionMeans` | argus_mcp/workflows/executor.py:215-245 | `==` lets a step run exactly if the shown value is the text, `!=` exactly if it is not, a bare reference exactly if its value is not null, false, zero or empty, and other conditions exactly if they are not blank |
| `WorkflowMeaning.JoinSplits` | argus_mcp/workflows/executor.py:208 | Joining the keys of a path with dots and splitting the result gives the path back |
| `WorkflowMeaning.TextExactly` | argus_mcp/workflows/executor.py:183-201 | A text becomes its pieces in order, each reference replaced by what is shown of its value or left as written; one whole reference becomes its value |
| `WorkflowMeaning.ArgExactly` | argus_mcp/workflows/executor.py:167-181 | Raw values stay, mappings keep their keys, lists keep length and order and their raw elements, and texts become what they mean; the interpolated value is the only one of that kind |
| `WorkflowMeaning.AttemptsAnswered` | argus_mcp/workflows/executor.py:130-135 | Call number k is the answer to the step, its tool and the same arguments at attempt k |
| `WorkflowMeaning.StepCalls` | argus_mcp/workflows/executor.py:125-135 | Every call of a step asks its own tool with the values its arguments become |
| `WorkflowTheorems.StepLocal` | argus_mcp/workflows/executor.py:101-213 | A step runs the same in any two states that agree on what it refers to and on the results of its dependencies |
| `WorkflowTheorems.SeesAtTurn` | argus_mcp/workflows/executor.py:70-99 | When a step's turn comes, in whatever schedule, what it depends on has its final entries, and itself, what depends on it and what is no step has its initial ones |
| `WorkflowTheorems.FindState` | argus_mcp/workflows/executor.py:75-97 | Every step of a finished run was executed in a state where all steps it depends on, directly or not, had their final entries, and itself and all that depends on it had none |
| `WorkflowTheorems.RunSettles` | argus_mcp/workflows/executor.py:70-99 | Wherever a step is shown what its turn shows it, it would yield its final entry again |
| `WorkflowTheorems.RunFollows` | argus_mcp/workflows/executor.py:70-99 | Running any schedule from a part of a settled state completes and reaches that state |
| `WorkflowTheorems.ScheduleIrrelevant` | argus_mcp/workflows/executor.py:70-99 | If every step that a step refers to is the step itself, something it depends on or something that depends on it, all dependency-respecting schedules run alike |
| `WorkflowEngine.ParallelIsSequential` | argus_mcp/workflows/executor.py:70-99 | Under the same condition the level-parallel run ends like running the steps one by one in any dependency-respecting order |
| `WorkflowEngine.UndeclaredReferenceDiffers` | argus_mcp/workflows/executor.py:77-97 | A step testing the status of a step it does not depend on, not even indirectly, is skipped by the level run and completed by the sequential one |
| `WorkflowEngine.StepConsequences` | argus_mcp/workflows/executor.py:108-165 | How a step ends follows from how its dependencies ended: absorbed by "skip", passed on by unconditional "fail", and a failure without a call has such a cause or an empty budget |
| `WorkflowEngine.SkippedExactlyWhen` | argus_mcp/workflows/executor.py:108-117 | A step is skipped if and only if its condition, read along the keys of its reference, did not let it run, or it is a "skip" step above a failure |
| `WorkflowEngine.CalledExactlyWhen` | argus_mcp/workflows/executor.py:108-135 | A tool is called if and only if the condition lets the step run, there is a budget and no failed dependency makes it give up; the calls pass what the arguments become |
| `WorkflowEngine.GivesUpNaming` | argus_mcp/workflows/executor.py:118-123 | A step that fails because of its dependencies names the first failed one |
| `WorkflowEngine.InputsAreShown` | argus_mcp/workflows/executor.py:70-71 | A run begins with the inputs in view, and no results or calls |
| `WorkflowEngine.ReferencesSeeResults` | argus_mcp/workflows/executor.py:93-97 | The status text and output that later references resolve to are those of the step's result, and for a crashed step also its error |
| `WorkflowEngine.FailureClimbs` | argus_mcp/workflows/executor.py:113-123 | A failure reaches the top of every chain of unconditional "fail" steps above it, with no tool called |
| `WorkflowEngine.RunConsequences` | argus_mcp/workflows/executor.py:70-165 | For every schedule and every finished run: one result per step, all calls accounted for, failures spread, "skip" absorbs, failures have a cause |
| `WorkflowEngine.AbortNamesCulprit` | argus_mcp/workflows/executor.py:81-91 | An aborted run names a step that crashed and has `on_error` "fail" |
| `WorkflowEngine.Execute` | argus_mcp/workflows/executor.py:51-99 | Raises the cycle error if and only if the graph is invalid; otherwise ends as every levelling of the workflow would, with the same reported step if only one step of its level is fatal, and with all the guarantees above on normal return |
| `WorkflowReferences.ArgumentShowsOrder` | argus_mcp/workflows/executor.py:167-201 | If an argument of an unconditional step refers to an unordered step by a path that can show something, some host and two orders end with different results for it |
| `WorkflowReferences.ConditionShowsOrder` | argus_mcp/workflows/executor.py:108-111 | The same for a condition that refers to an unordered step |
| `WorkflowReferences.OrderNeverShowsExactlyWhen` | argus_mcp/workflows/executor.py:70-99 | For unconditional steps with non-negative retry budgets and references that can show something: all schedules run alike under every host and input if and only if every step referred to is ordered with the step that refers to it |
| `WorkflowReferences.ContinueOrder` | argus_mcp/workflows/dsl.py:67-95 | In a valid graph any partial order can be continued to one that covers a given closed set of steps |
| `Conflict.Rank` | argus_mcp/bridge/conflict.py:151-155 | The last position of the server in the order list, and the length of the list exactly for unlisted servers |
| `Conflict.PrefixingInjectiveExactlyWhen` | argus_mcp/bridge/conflict.py:115-116 | (server, name) to exposed name is injective on a set of servers if and only if no prefix begins another |
| `Conflict.FreshSeparatorSuffices` | argus_mcp/bridge/conflict.py:112-116 | A non-empty separator whose first character occurs in no server name makes prefixes prefix-free |
| `Conflict.PrefixesCanCollide` | argus_mcp/bridge/conflict.py:105-116 | With the default separator, servers "a" and "a_b" can expose the same name |
| `CapabilityRegistry.Registry.DiscoverCapsByType` | argus_mcp/bridge/capability_registry.py:192-227 | The registration loop computes the fold of its items over route map and list, stopping where the strategy raises |
| `CapabilityRegistry.Registry.DiscoverAndRegister` | argus_mcp/bridge/capability_registry.py:250-323 | A full discovery leaves the state that its batches, in arrival order, build from nothing |
| `CapabilityRegistry.Registry.DiscoverSingleBackend` | argus_mcp/bridge/capability_registry.py:387-417 | A rediscovery applies its three batches to the live state |
| `CapabilityRegistry.Registry.RemoveBackend` | argus_mcp/bridge/capability_registry.py:357-385 | Drops the backend's routes and the list entries of those names, and returns how many entries went |
| `RegistryTheorems.CapKeepsConsistent` | argus_mcp/bridge/capability_registry.py:127-165 | Registering a capability under any strategy keeps list and routes in agreement, and keeps types apart unless the strategy is `priority` |
| `RegistryTheorems.ReachableIsSound` | argus_mcp/bridge/capability_registry.py:135-165 | After any operations in any order no list repeats a name and the listed names are the routed names; without `priority` no name has two types |
| `RegistryTheorems.RemovalCount` | argus_mcp/bridge/capability_registry.py:357-385 | Removal reports at least the dropped routes, and exactly those if and only if no dropped name is listed under two types |
| `RegistryTheorems.RemovalCountExact` | argus_mcp/bridge/capability_registry.py:378-385 | Without `priority` the count is exact in every reachable state |
| `RegistryTheorems.PriorityCanListTwice` | argus_mcp/bridge/capability_registry.py:152-155 | Under `priority` a resource can replace a tool's route while the tool stays listed, so removal counts two |
| `RegistryTheorems.LateBatchConsistentExactlyWhen` | argus_mcp/bridge/capability_registry.py:188-226 | A batch whose list was replaced while it waited keeps lists and routes in agreement if and only if, in the routes before it, every item registered before a raise finds its name taken, and under `priority` also the prefixed name it falls back to |
| `RegistryTheorems.NoNameAddedExactlyWhen` | argus_mcp/bridge/capability_registry.py:135-165 | A batch adds no name if and only if the routes before it leave it none to add, although it may take over names on the way |
| `RegistryTheorems.LateBatchBreaks` | argus_mcp/bridge/capability_registry.py:357-417 | A reachable run that breaks the agreement: a tool is discovered, its backend is removed while a rediscovery waits, and then the batch arrives |
| `RegistryTheorems.RemovalMeanwhileExactlyWhen` | argus_mcp/bridge/capability_registry.py:303-322 | Lists and routes agree after a removal during a full discovery if and only if the backend held no route at that time; then they agree whatever arrives later |
| `RegistryTheorems.RediscoveryMeanwhileExactlyWhen` | argus_mcp/bridge/capability_registry.py:303-322 | They agree after a rediscovered batch during a full discovery if and only if the routes built so far leave it no name to add |
| `RegistryRouting.FirstRegistrationStays` | argus_mcp/bridge/capability_registry.py:135-151 | Without `priority` a registered route survives any further batches unchanged |
| `RegistryRouting.FirstOfferWins` | argus_mcp/bridge/conflict.py:81-102 | Under `first-wins` the owner of a name is the server of the first batch that offers it |
| `RegistryRouting.StrictStopsBatch` | argus_mcp/bridge/conflict.py:194-210 | Under `error` a name held by another server ends the batch; nothing after it is registered |
| `RegistryRouting.CapImproves` | argus_mcp/bridge/conflict.py:160-191 | Under `priority` one registration never worsens a holder's rank and leaves the offered name with a holder at least as good as the offerer |
| `RegistryRouting.PriorityHolderIsBest` | argus_mcp/bridge/conflict.py:151-191 | Over any batches in any order, ranks only improve and each name's holder ranks at least as high as every server that offered it |
| `RegistryRouting.PriorityOrderIrrelevantExactlyWhen` | argus_mcp/bridge/capability_registry.py:148-163 | For an offered name that no lost conflict generates: its holder is the same for all batch sequences making the same offers if and only if one server alone has the best rank among its offerers |
| `RegistryRouting.BestHolderStays` | argus_mcp/bridge/conflict.py:160-191 | A holder that no offerer outranks is never replaced |
| `RegistryRouting.TieDependsOnOrder` | argus_mcp/bridge/conflict.py:160-191 | Of two servers with equal rank that offer one name, whoever comes first holds it |
| `RegistryRouting.GeneratedNameDependsOnOrder` | argus_mcp/bridge/conflict.py:186-191 | A name that a losing server falls back to is kept from the only server that offers it, unless that server comes first |
| `RegistryRouting.UncontestedCapHeld` | argus_mcp/bridge/capability_registry.py:135-165 | If no two servers offer the same name, registering a capability never meets a conflict and leaves it routed to its server |
| `RegistryRouting.UncontestedOffersHeld` | argus_mcp/bridge/capability_registry.py:217-227 | Then all offers of any batches in any order survive, under every strategy |
| `RegistryRouting.OffersHeldExactlyWhen` | argus_mcp/bridge/conflict.py:81-210 | For any strategy, filters, renames and batches: a discovery keeps all its offers if and only if no two servers offer the same name in it |
| `RegistryRouting.OffersSafeExactlyWhen` | argus_mcp/bridge/conflict.py:81-210 | For any strategy, filters and renames: every batch sequence of these servers keeps every offer if and only if no two of them can expose the same name |
| `RegistryRouting.PrefixedOffersHeld` | argus_mcp/bridge/capability_registry.py:217-227 | Under `prefix` with prefix-free servers every offer is routed to its server, in any batch order and with any filters and renames |
| `RegistryRouting.FreshSeparatorKeepsOffers` | argus_mcp/bridge/conflict.py:105-132 | Every offer survives under `prefix` if the separator is not empty and no server name contains its first character |
| `RegistryRouting.PrefixSafeExactlyWhen` | argus_mcp/bridge/conflict.py:105-132 | For servers with unfiltered resources or prompts, the condition of `OffersSafeExactlyWhen` under `prefix` is that the servers are prefix-free |
| `RegistryRouting.ReachableIsSourced` | argus_mcp/bridge/capability_registry.py:91-125 | In every reachable state each route and each listed capability goes back to a fetched item that its server's filter allows, under its transformed or prefixed name |
| `RegistryRouting.RouteProvenance` | argus_mcp/bridge/capability_registry.py:212-227 | A route to (server, original) comes from an item of that name fetched from that server |
| `RegistryRouting.DeniedNeverRouted` | argus_mcp/bridge/filter.py:45-51 | A name its server denies for every type is never routed, whatever is allowed, renamed or rediscovered |
| `RegistryRouting.AcceptedExactlyWhen` | argus_mcp/bridge/filter.py:45-51 | An item is accepted if and only if it is a named capability that no deny pattern matches and that an allow pattern matches, if there are any |
| `RegistryRouting.HiddenNeverRouted` | argus_mcp/bridge/filter.py:45-51 | A name that for every type is denied or matches no pattern of an allow list is never routed, whatever is renamed or rediscovered |
| `RegistryRouting.OfferedExactlyWhen` | argus_mcp/bridge/capability_registry.py:91-125 | A batch offers exactly its named items that no filter hides, under their overridden and prefixed names |
| `RegistryRouting.ShownExactly` | argus_mcp/bridge/rename.py:47-54 | An override's name and description are used for tools where it gives them, and nothing else changes a name or description but the prefix |
| `RegistryRouting.DiscoveredAsShown` | argus_mcp/bridge/capability_registry.py:217-227 | A discovered capability is listed under its overridden name and description, and its route keeps the name its backend knows |
| `RegistryRouting.DiscoveryStartsOver` | argus_mcp/bridge/capability_registry.py:257-306 | Whatever a full discovery leaves goes back to its own batches |
| `RegistryRouting.ListsOnlyGrow` | argus_mcp/bridge/capability_registry.py:217-227 | Without `priority` lists only grow at their ends |
| `RegistryRouting.RemovalExact` | argus_mcp/bridge/capability_registry.py:362-376 | Removing a backend drops exactly its routes, and from the lists exactly what was listed under their names |
| `RegistryRouting.WithoutInOrder` | argus_mcp/bridge/capability_registry.py:370-376 | Dropping names from a list keeps the order of the others |
| `SessionPool.InPoolOrOut` | argus_mcp/bridge/session_pool.py:196-257 | Under conservation an added entry is pooled if and only if it was not taken out, and then at one place only |
| `SessionPool.ShrinkConserves` | argus_mcp/bridge/session_pool.py:228-257 | Taking entries out of a key's list keeps conservation if exactly those are counted as out |
| `SessionPool.TakenOut` | argus_mcp/bridge/session_pool.py:228-257 | Moving entries from the pool to the list of a task that is to close them keeps conservation and strands nothing |
| `SessionPool.OldestIdle` | argus_mcp/bridge/session_pool.py:229-232 | Finds the first idle entry with the least `last_used` exactly if there is an idle entry |
| `SessionPool.Evict` | argus_mcp/bridge/session_pool.py:228-234 | Takes out only idle entries, in order of `last_used`, no more than needed, until there is room or all are in use; the rest keeps its order |
| `SessionPool.SplitExpired` | argus_mcp/bridge/session_pool.py:327-330 | Divides a list into idle entries that reached their time to live and the others, in order |
| `SessionPool.Sweep` | argus_mcp/bridge/session_pool.py:326-332 | Removes exactly the expired entries of all keys, each once, and the keys left empty, keeping conservation |
| `SessionPool.Pool.Acquire` | argus_mcp/bridge/session_pool.py:158-182 | Returns the first idle, unexpired entry of the key, which nobody holds, marked in use, exactly if there is one and the pool is open and the breaker allows |
| `SessionPool.Pool.Release` | argus_mcp/bridge/session_pool.py:184-208 | Returns the entry, or takes it out for the calling task to close; conservation survives if and only if a failed entry was not pooled under another key |
| `SessionPool.Pool.Add` | argus_mcp/bridge/session_pool.py:210-242 | Appends a new entry and takes exactly the evicted ones out for the calling task to close; never evicts one in use, and ends within the limit or with all other entries in use |
| `SessionPool.Pool.TakeKey` | argus_mcp/bridge/session_pool.py:252-253 | Takes all entries of a key out, for the calling task to close |
| `SessionPool.Pool.TakeExpired` | argus_mcp/bridge/session_pool.py:322-332 | Takes exactly the expired idle entries out, each once; all others stay, and nothing leaks |
| `SessionPool.Pool.TakeAll` | argus_mcp/bridge/session_pool.py:145-150 | Takes everything out; nothing leaks |
| `SessionPool.Pool.CloseNext` | argus_mcp/bridge/session_pool.py:302-309 | One step of a close loop moves one waiting entry to the close-attempted ones; nothing leaks |
| `SessionPool.Pool.Drain` | argus_mcp/bridge/session_pool.py:334-335 | An uninterrupted close loop attempts every close of its task and touches no other task's entries |
| `SessionPool.Pool.Cancel` | argus_mcp/bridge/session_pool.py:302-309 | A cancelled task leaks exactly those of its waiting entries that no other task is to close and that were not closed before |
| `SessionPool.Pool.BeginStop` | argus_mcp/bridge/session_pool.py:136-143 | The first part of stopping leaks exactly what only the reaper was to close |
| `SessionPool.Pool.RemoveAll` | argus_mcp/bridge/session_pool.py:250-260 | Uninterrupted, drops the key, attempts to close all its entries and counts them |
| `SessionPool.Pool.Stop` | argus_mcp/bridge/session_pool.py:134-156 | Empties the pool; afterwards every session ever added has had its close attempted or is waiting for another task if and only if nothing had leaked before and the reaper had nothing left to close alone; otherwise exactly those sessions leak |
| `SessionPool.Pool.ReapExpired` | argus_mcp/bridge/session_pool.py:320-335 | Uninterrupted, closes exactly the idle entries that reached their time to live; entries in use and younger ones all stay |
| `SessionPool.Pool.Start` | argus_mcp/bridge/session_pool.py:121-126 | Opens the pool unless a reaper exists |
| `SessionPool.RunOp` | argus_mcp/bridge/session_pool.py:121-335 | Every step, whatever ran between removal and close, keeps conservation and keeps what is handed out in use; only steps that cancel a task lose waiting entries |
| `SessionPool.RunPool` | argus_mcp/bridge/session_pool.py:121-335 | Over any interleaving of steps that releases entries under their own key, every session is pooled or else waiting, close-attempted or lost to a cancelled task; leaked sessions were lost, and without cancellation none leaks |
| `SessionPool.StopDuringReapLeaks` | argus_mcp/bridge/session_pool.py:134-143 | A run that leaks: the pool is stopped between the first and the second close of a reaper pass |
| `SessionPool.ForeignReleaseBreaks` | argus_mcp/bridge/session_pool.py:196-202 | A run in which a failed release under another key leaves a session pooled that is about to be closed |
| `RateLimit.PruneKeeps` | argus_mcp/server/rate_limit.py:113-115 | Keeps exactly the timestamps at or after the start, each as often as it occurs |
| `RateLimit.AdmissionBound` | argus_mcp/server/rate_limit.py:117-128 | No closed interval as long as the window holds more than `requests` admissions |
| `RateLimit.LogIsExact` | argus_mcp/server/rate_limit.py:46-53 | Expiry after twice the window never forgets a timestamp that still counts |
| `RateLimit.CheckStored` | argus_mcp/server/rate_limit.py:119-127 | The stored log counts the window like the full history, and storing it again, with or without the new request, keeps that so |
| `RateLimit.CountedFitsExactlyWhen` | argus_mcp/server/rate_limit.py:132-138 | The failures counted with a new one fit in one window if and only if none starts more than a window after another; in order of start they always do |
| `RateLimit.OverlapBreaksWindow` | argus_mcp/server/rate_limit.py:130-138 | A run that locks an address out for two failures that began 95 s apart, with a 10 s window: requests that begin at 0 and 95 and fail at 100 and 96 |
| `RateLimit.KeptCountsExactlyWhen` | argus_mcp/server/rate_limit.py:132-135 | Recorded one by one, failures in any order of start leave a log that counts a window like all of them do if and only if none that counts was overtaken by one that began more than a failure window later |
| `RateLimit.CountsHistoryExactlyWhen` | argus_mcp/server/rate_limit.py:130-136 | In every state a new failure is counted with all unspent failures in its window if and only if none of those was recorded before the log found began and none in it was overtaken; it is never counted with more |
| `RateLimit.LateRecordForgets` | argus_mcp/server/rate_limit.py:54-57 | A run that forgets: with a 10 s window, failures that began at 0 and 9 and were recorded at 0 and 11 cause no lockout |
| `RateLimit.OvertakenIsForgotten` | argus_mcp/server/rate_limit.py:130-136 | A run that forgets without expiry: with a 10 s window, failures that began at 0, 12 and 8 and were recorded at 5, 12.5 and 13 are counted as two |
| `RateLimit.FailureStored` | argus_mcp/server/rate_limit.py:130-136 | Recording a failure keeps the account: the log is what recording the failures from its beginning on leaves |
| `RateLimit.CountedAreRecorded` | argus_mcp/server/rate_limit.py:130-136 | Counted failures are recorded and unspent, and none counts twice |
| `RateLimit.FailuresSpent` | argus_mcp/server/rate_limit.py:138-142 | Spending the unspent failures on a lockout keeps the account, lockouts times threshold included |
| `RateLimit.Limiter.IsLockedOut` | argus_mcp/server/rate_limit.py:106-111 | Locked out if and only if the latest lockout is less than its duration ago |
| `RateLimit.Limiter.CheckRateLimit` | argus_mcp/server/rate_limit.py:117-128 | Refuses if and only if `requests` admissions of the full history lie in [now - window, now] |
| `RateLimit.Limiter.RecordAuthFailure` | argus_mcp/server/rate_limit.py:130-142 | Locks out if and only if the log holds enough failures at or after now - window, each of them recorded, unspent and counted once, and all unspent ones exactly when nothing is forgotten; then spends them; states the new log |
| `RateLimit.Limiter.Begin` | argus_mcp/server/rate_limit.py:155-191 | Disabled first, then lockout, then rate limit; only admitted requests enter the history |
| `RateLimit.Limiter.Finish` | argus_mcp/server/rate_limit.py:204-206 | For statuses 401 and 403 only, records a failure; it locks the address out, from this time on, exactly if the failures at or after now - window in the log found, with this one, reach the threshold, and otherwise leaves all lockouts as they are |
| `RateLimit.FailInOneWindow` | argus_mcp/server/rate_limit.py:130-142 | As many failures as the threshold, begun in order inside one window and each recorded before the log expires, lock the address out; from an empty log it is the last one that does |
| `RateLimit.LockedOutAfterFailures` | argus_mcp/server/rate_limit.py:155-178 | After them the next request is turned away if and only if the lockout has not passed |
| `RateLimit.Limiter.BoundHolds` | argus_mcp/server/rate_limit.py:117-128 | In every state the admission bound holds for every address and interval |
| `RateLimit.Limiter.LockoutsAreEarned` | argus_mcp/server/rate_limit.py:138-142 | In every state lockouts times threshold is at most the recorded failures |
| `ImportPlan.GenerateRename` | argus_mcp/config/import_handler.py:107-113 | The search loop finds the first free candidate |
| `ImportPlan.FirstFreeIsLeast` | argus_mcp/config/import_handler.py:109-112 | The name found has the least free number; none is found if and only if all 999 are taken |
| `ImportReports.CandidateForm` | argus_mcp/config/import_handler.py:110 | A candidate is the name, an underscore and the number in decimal |
| `ImportPlan.RenameFailsOnlyWhenFull` | argus_mcp/config/import_handler.py:107-113 | Renaming fails if and only if all 999 candidates are taken, so a taken name can be renamed among fewer than 1000 names |
| `ImportPlan.OneItemEach` | argus_mcp/config/import_handler.py:198-278 | Every backend entry yields exactly one item, in order, under its name |
| `ImportPlan.ImportPreserves` | argus_mcp/config/import_handler.py:223-278 | With skip, fail and rename every existing backend is unchanged, even when the import breaks off |
| `ImportPlan.ImportCounts` | argus_mcp/config/import_handler.py:223-278 | Backends grow by exactly the items reported added or renamed |
| `ImportPlan.ItemsAreHonest` | argus_mcp/config/import_handler.py:198-278 | What an item reports as added, renamed or updated is what the configuration holds afterwards; skips, updates, renames and refusals occur only under their own strategy |
| `ImportPlan.OnlyReportedChange` | argus_mcp/config/import_handler.py:257-277 | A backend changes only if reported updated, and a new one is reported added or renamed |
| `ImportReports.BackendItemsAreExact` | argus_mcp/config/import_handler.py:198-278 | Each item reports exactly what its entry, the strategy and the backends held before it call for; a rename is the first free candidate |
| `ImportPlan.BackendsRaiseExactlyWhen` | argus_mcp/config/import_handler.py:243-248 | Importing backends raises if and only if the strategy is rename and some valid entry has its name and all 999 candidates taken among the names before the import and those stored by earlier entries |
| `ImportPlan.FewBackendsNeverRaise` | argus_mcp/config/import_handler.py:107-113 | With at most 1000 existing and imported names together it never raises |
| `ImportPlan.RegistriesStayUnique` | argus_mcp/config/import_handler.py:291-376 | Registry names stay unique if they were |
| `ImportPlan.RegistriesCount` | argus_mcp/config/import_handler.py:318-375 | Registries grow by exactly the items reported added or renamed |
| `ImportPlan.RegistryKeepsPlace` | argus_mcp/config/import_handler.py:338-350 | An existing registry keeps its place and name and changes only if reported updated |
| `ImportPlan.RegistriesPreserved` | argus_mcp/config/import_handler.py:318-375 | Without update the old registries stay at the front, untouched |
| `ImportPlan.RegistriesAreHonest` | argus_mcp/config/import_handler.py:318-375 | A registry reported as stored is in the list unless a later item reports an update of the name it was stored under |
| `ImportReports.RegistryItemsAreExact` | argus_mcp/config/import_handler.py:292-376 | Each item reports exactly what its entry, the strategy and the registries held before it call for: added if and only if valid and new, and so on for every status |
| `ImportPlan.OneItemPerRegistry` | argus_mcp/config/import_handler.py:292-376 | Every registry entry yields exactly one item |
| `ImportPlan.RegistriesRaiseExactlyWhen` | argus_mcp/config/import_handler.py:351-355 | The condition for raising, for registries |
| `ImportPlan.FewRegistriesNeverRaise` | argus_mcp/config/import_handler.py:107-113 | The check on sizes, for registries |
| `ImportPlan.FlagUnnamed` | argus_mcp/config/import_handler.py:389-428 | A flag the entries do not name keeps its value; with skip and fail every existing flag does |
| `ImportPlan.FlagsAreHonest` | argus_mcp/config/import_handler.py:422-435 | A flag reported added or updated has the imported value |
| `ImportReports.FlagItemsAreExact` | argus_mcp/config/import_handler.py:389-435 | Each flag item reports exactly what its entry, the strategy and the flags before the import call for; an entry not reported added or updated changes nothing |
| `ImportPlan.FlagsPreservedExactlyWhen` | argus_mcp/config/import_handler.py:401-428 | Every import leaves existing flags unchanged if and only if the strategy is skip or fail; rename overwrites them |
| `ImportHandler.ImportBackends` | argus_mcp/config/import_handler.py:187-278 | Items do not depend on `dry_run`; the target changes as planned, and not at all in a dry run |
| `ImportHandler.ImportRegistries` | argus_mcp/config/import_handler.py:281-376 | The same for registries |
| `ImportHandler.ImportFlags` | argus_mcp/config/import_handler.py:379-436 | The same for flags, although a real run consults the flags it is changing |
| `ImportHandler.ImportConfig` | argus_mcp/config/import_handler.py:439-511 | The whole report, limit errors and raised renames included, does not depend on `dry_run`; a dry run leaves the target unchanged |
| `ImportHandler.PreviewThenImport` | argus_mcp/config/import_handler.py:460-461 | A dry run right before an import gives the same report |
| `ImportHandler.RefusedExactlyWhen` | argus_mcp/config/import_handler.py:132-146 | Limit errors are reported if and only if a section has more entries than allowed, each for its own section, and then nothing is imported |
| `ImportHandler.SectionsExactly` | argus_mcp/config/import_handler.py:486-500 | Selected, well-formed sections change as planned; the others are left alone |
| `ImportHandler.ReportExactly` | argus_mcp/config/import_handler.py:486-500 | The report is the items of the selected sections in order |
| `ImportHandler.ImportRaisesExactlyWhen` | argus_mcp/config/import_handler.py:439-500 | An import raises if and only if it is within its limits, renames, and an entry of a selected section finds no name left |
| `ImportHandler.SmallImportReports` | argus_mcp/config/import_handler.py:107-113 | An import with at most 1000 names of each kind in configuration and payload always reports |
| `ImportHandler.RaisedImportKeepsEarlier` | argus_mcp/config/import_handler.py:243-278 | In any configuration that holds a name and all its candidates, importing a new backend and then that name raises and keeps the new backend |
| `ImportHandler.BrokenOffImport` | argus_mcp/config/import_handler.py:107-113 | A concrete configuration and import that raises and leaves a changed configuration |
| `Retry.Execute` | argus_mcp/bridge/retry.py:121-179 | Sends at most `max_retries` + 1 requests, going on only after transport errors or retryable statuses, and ends with the verdict on the last reply |
| `Retry.LastIsUnique` | argus_mcp/bridge/retry.py:123-176 | The replies determine how many requests are sent |
| `Retry.VerdictExactly` | argus_mcp/bridge/retry.py:148-176 | The last reply decides how a call ends: 2xx is returned, a transport error raised, a retryable status exhausted, any other not retryable |
| `Retry.RetryableExactly` | argus_mcp/bridge/retry.py:34 | Transport errors and the statuses 408, 429, 502, 503 and 504 are retried |
| `Retry.RetryAfterHonoured` | argus_mcp/bridge/retry.py:183-184 | A positive Retry-After is waited exactly, up to `max_delay`; any other is ignored |
| `Retry.BackoffGrows` | argus_mcp/bridge/retry.py:186-187 | Backoff starts at the base delay, is multiplied by the factor from attempt to attempt below the cap, and stays at the cap for factors of at least 1 |
| `Retry.JitterIsSymmetric` | argus_mcp/bridge/retry.py:188-191 | Without noise a wait is the backoff; full noise moves it by the jitter fraction up or down, above the floor |
| `Retry.WaitIsCapped` | argus_mcp/bridge/retry.py:181-194 | For any configuration: a Retry-After wait is at most `max_delay`, a backoff wait is at least 0.01 s and at most the larger of that and the backoff with full jitter |
| `Retry.LongestIsReached` | argus_mcp/bridge/retry.py:181-194 | The longest wait after each attempt is reached by some reply and draw |
| `Retry.MaxDelayKeptExactlyWhen` | argus_mcp/bridge/retry.py:183-191 | Every wait of every call is at most `max_delay` if and only if after every attempt the backoff with full jitter and the 0.01 s floor are |
| `Retry.TopWhenDocumented` | argus_mcp/bridge/retry.py:78-82 | In the documented ranges that condition is `max_delay` >= 0.01 and backoff * (1 + jitter) <= `max_delay` |
| `Retry.JitterExceedsMaxDelay` | argus_mcp/bridge/retry.py:187-191 | With `max_delay` 60 s and jitter 0.5 a wait can take 90 s |
| `Retry.SleepIsBounded` | argus_mcp/bridge/retry.py:121-194 | For any configuration a call sleeps in total at most the longest waits of all its retries |
| `Retry.SleepsAtMostExactlyWhen` | argus_mcp/bridge/retry.py:121-194 | Every call sleeps at most a given time if and only if the longest waits of all retries add up to no more |
| `Retry.NominalBoundWhenDocumented` | argus_mcp/bridge/retry.py:78-82 | In the documented ranges every call sleeps at most `max_retries` times the larger of 0.01 s and `max_delay` * (1 + jitter), and at most `max_retries` * `max_delay` * (1 + jitter) if and only if there are no retries or that longest wait is not below the floor |
| `Startup.StartsWithinBudget` | argus_mcp/bridge/startup_coordinator.py:278-295 | A backend is started in the retry rounds at most as often as its own budget |
| `Startup.DownUsesBudget` | argus_mcp/bridge/startup_coordinator.py:333-358 | A backend that stays down uses its whole budget, as far as the rounds go |
| `Startup.NoStartsAfterUp` | argus_mcp/bridge/startup_coordinator.py:357-358 | Once a backend has a session it is not started again |
| `Startup.FailedOnlyShrinks` | argus_mcp/bridge/startup_coordinator.py:357-358 | The failed list only loses names |
| `Startup.LaunchRetryTasks` | argus_mcp/bridge/startup_coordinator.py:276-295 | One round starts every failed backend whose budget covers the attempt, once |
| `Startup.RetryFailedBackends` | argus_mcp/bridge/startup_coordinator.py:325-358 | The loop starts each failed backend as often as the rounds call for, and stops early only when none is left or on shutdown |
| `Startup.EveryBackendOnce` | argus_mcp/bridge/startup_coordinator.py:28-38 | Sorting and splitting into remote and stdio loses no backend and doubles none |
| `Startup.SortedByPriority` | argus_mcp/bridge/startup_coordinator.py:32-35 | Faster transports come first |
| `Startup.TransportsInOrder` | argus_mcp/bridge/startup_coordinator.py:24-38 | streamable-http comes before sse and sse before the rest; the stdio part is exactly the backends of that type |
| `Startup.FirstPass` | argus_mcp/bridge/startup_coordinator.py:390-413 | The first pass starts the remote and then the stdio backends, in order, and collects the failures; on shutdown the stdio backends are not started and count as failed, all of them or only the first |
| `Startup.StartAll` | argus_mcp/bridge/startup_coordinator.py:361-427 | Every backend is started at most 1 + retries times, its configured number or 3, once if the first pass succeeds, and with its whole budget if it stays down and nothing is shut down |

## Left out

- Transports, subprocesses, containers, OAuth flows, the Go tools, TUI, CLI, logging: I/O and presentation.
- YAML parsing, schema validation, `fnmatch` and the regular expressions: only their results appear.
- Step durations, import ids and timestamps: clock and random values without influence on decisions.
- KeyboardInterrupt and SystemExit in a tool: they end the event loop rather than the step.
- Session pool, equal entries: entries have identity here; the source compares them by their fields, which differ unless the same session is added twice at the same instant.
- Session pool, circuit breaker bookkeeping and the reaper's timer: only the breaker's answer and single passes appear. A close that fails or times out counts as attempted.
- Capability registry, interleaving: operations are atomic here, except for late batches and for removals and rediscoveries during a full discovery; what readers see during one is not modelled.
- Rate limiter, cache size: the caches never evict for size. Client address extraction is not modelled.
- Import, item error texts: a failed item carries the kind of error, not its message.
- Startup, delays, stagger, concurrency limits, progress callbacks and authentication waits: they decide when, not how often, a backend is started.
- GroupManager, token cache, version drift, phase transition tables, batch removal, `create_strategy`: they would only add easy members.
