# Verified models of the CRM services and the cron pipeline

This project models the parts of the CRM back end and of its cron agent pipeline in which
state, counting or interleaving makes correctness hard to see, and proves what they promise
over all inputs, all runs or all interleavings. `dafny verify dfyconfig.toml` checks everything.

| files | component |
|---|---|
| `LeadTables`, `LeadRules`, `LoadBalancing`, `LeadRouting` | routing rules, least-loaded assignment, loads counted over the customer table |
| `LeadLifecycle`, `CustomerService` | stale-lead recycling, disqualification, the background job, the recycle history and its other writers |
| `Ordering`, `TLRUCache`, `CacheTheory`, `Recommendations` | the TTL + LRU cache and the recommendation service that reads through it |
| `GateChain`, `ImplementCooldown`, `ResearchFilter`, `TaskQueue` | the cron pipeline: gated stages, the implementer's cooldown, the filter on proposals, the task files |
| `Rbac`, `RbacTheory`, `RbacOutcomes`, `RbacService` | roles, permissions and assignments written by two services |
| `LikeEscape` | the escaped LIKE search |
| `Churn`, `Tickets`, `Score`, `GlobPermission` | churn scoring, ticket round robin, the floored score, the glob permission check |
| `Prelude`, `Sorting` | first-wins minimum, selections, the stable descending sort |

Tables are sequences of rows. A select is a filter, an update replaces rows, an insert appends,
and a group-by is a fold over the selected rows. Where a query has no ORDER BY the table's
sequence stands for whatever order the database returns. Clock readings, results of outside
processes and of the predictors, and `round` are parameters. Objects whose methods change their
fields are classes; each method is tied to a function of the old state, and the theorems are
about those functions and their runs.

## What the code does not do

Some promises are false of the code as it stands. Each has a concrete witness, and the lemma
beside it states exactly when the promise does hold.

- The comment at `src/services/score_service.py:206` calls the floored total exact. A customer
  with 99 in all five factors scores 95 (`Score.NinetyNinesScoreNinetyFive`). The total is exact
  if and only if no product leaves a remainder (`Score.ScoreNearMean`).
- `update_role_permissions` lets any tenant change the permissions of tenant 0's roles that are
  not flagged as system roles, by a call `RbacTheory.SharedRoleCanBeChanged` constructs; the flag
  is the only protection (`RbacTheory.SharedRoleOpenExactlyWhenNotSystem`).
- `bulk_recycle` reloads the row before it writes the history entry, so the entry names owner 0
  (`LeadLifecycle.BulkRecycleNamesNobody`); every other writer names the owner the lead had
  (`LeadLifecycle.EntryNamesOwnerExactlyWhenNotBulk`).
- The research agent writes the model's proposal under its own canonical keys, which do not
  include the three verdict fields, so a task can be born with two verdicts
  (`TaskQueue.ProposalWithTwoVerdicts`); a task carries at most one if and only if its proposal
  did (`TaskQueue.AtMostOneVerdictIffProposed`).
- The research filter is documented to mirror the implementer's gates
  (`scripts/cron/pipeline.py:724-728`), so that the queue gets no task the implementer never picks
  up. It keeps high-priority tasks, and strips a target's leading blanks where the gates do not
  (`ResearchFilter.KeptButOutOfBounds`). A kept proposal is within the gates if and only if its
  priority is not high and no target begins with a blank
  (`ResearchFilter.KeptIsWithinBoundsExactlyWhen`), and can reach the implementer if and only if it
  also carries no verdict (`TaskQueue.PickedUpExactlyWhen`).
- A run the cooldown stops also renews the cooldown, so a run more than an hour after the last
  implementation can be stopped (`ImplementCooldown.StoppedRunRenewsCooldown`). After the first
  run no later run gets past the cooldown if and only if none is forced and each starts within an
  hour of the start of the last run before it that left an envelope, or of its end if that is the
  first (`ImplementCooldown.StarvedExactlyWhenFrequent`).
- A deploy can run while the test envelope is red, 72 hours and two stage runs after the only
  pytest success (`GateChain.DeployCanBeThatLate`). It starts on green tests if and only if some
  pytest success of the last 24 hours was followed by no other end or exception of a test run
  (`GateChain.DeployOnGreenTestsExactlyWhen`).
- Tickets created for named agents can send every automatic pick to the same agent
  (`Tickets.NamedCreationsSkewPicks`). The picks walk the pool cyclically if and only if, at each
  of them, the other calls have added a multiple of three to the count of assigned tickets
  (`Tickets.CyclicExactlyWithoutDrift`), and `Tickets.FairExactlyWhenDriftNeverCatchesUp` says
  when they are fair.
- An invalidation does not reach a request that is waiting to resume: data read before it can be
  stored and served after it (`Recommendations.InvalidationOvertaken`), if and only if at that
  moment some request for the pair is between its query's answer and its store
  (`Recommendations.OldDataServedExactlyWhenAnswerInFlight`).
- The customer table has no region, industry, employee_count or source column, so in automatic
  assignment a condition on one of them sees null: a rule that asks for a region never matches
  (`LeadRules.RegionRuleNeverAutoMatches`, `LeadRules.AutoRecordIgnoresMissingColumns`).
- `preview_assign` does not fall back when the matching rule has nobody to serve it
  (`LeadRouting.PreviewCanDiffer`), and asks no rule when its own conditions fail
  (`LeadRouting.PreviewCanNameAnother`). On a customer's own record it names the user the
  assignment picks if and only if no rule matches, or its conditions hold and the rule has somebody
  (or the team nobody), or they fail and the rule has nobody or leaves the team's least-loaded user
  (`LeadRouting.PreviewAgreesExactlyWhen`).

The glob permission check is exact on the table the code ships (`GlobPermission.RoleCheckMeansGlob`).
A table that came to hold a pattern with `?` but no `*` would not be: such a pattern never reaches
the glob fallback (`GlobPermission.ExactUnlessBareQuestionMark`).

## Model

| member | source | states |
|---|---|---|
| LeadRules.Evaluate | src/services/lead_routing_service.py:21-81 | true exactly when every condition holds, so an empty list always matches |
| LeadRules.OperatorLaws | src/services/lead_routing_service.py:30-79 | equals and not_equals are complements; in and not_in exactly for list values; the order operators exactly for numbers; between is gte and lte |
| LeadRules.OperatorsCompareNumbers | src/services/lead_routing_service.py:46-79 | on numbers, and on texts that read as numbers, the order operators are the orders of the numbers and between takes both bounds |
| LeadRules.OrderNeedsNumbers | src/services/lead_routing_service.py:46-79 | the order operators refuse null, dates and texts that are no numbers; between needs a list of two |
| LeadRules.OperatorsCompareValues | src/services/lead_routing_service.py:30-45 | equality and membership, and the refusal of membership in what is no list |
| LeadRules.MissingFieldIsNull | src/services/lead_routing_service.py:27 | a field the record lacks reads as null |
| LeadRules.MatchingRule | src/services/lead_routing_service.py:150-166 | the rule found is active, of the tenant, matches, and none that does has a higher priority; none is found exactly when none matches |
| LeadRules.AutoRecordIgnoresMissingColumns | src/services/lead_routing_service.py:188-199 | conditions on columns the table lacks hold only if they accept null; an order condition on the creation date never holds |
| LeadRules.RegionRuleNeverAutoMatches | src/services/lead_routing_service.py:188-199 | a rule for a region matches a previewed record but no row of the table |
| LeadRouting.LeadRoutingService.GroupByOwner | src/services/lead_routing_service.py:116-126 | one pass gives each listed owner with a lead the number of its active leads, and nobody else an entry |
| LeadRouting.LeadRoutingService.LeadCounts | src/services/lead_routing_service.py:230-243 | the dictionary holds every user's count of active leads in the table |
| LeadTables.LoadCounts | src/services/lead_routing_service.py:230-238 | a load is the number of the tenant's rows in status lead that the user owns |
| LeadRouting.LeadRoutingService.LoadBalancedAssignee | src/services/lead_routing_service.py:84-134 | for every cap and user order: the first of the eligible users with the fewest leads; the cap filter changes nothing |
| LeadRouting.LeadRoutingService.RoundRobinAssignee | src/services/lead_routing_service.py:221-245 | the first of the active users with the fewest leads |
| LeadRouting.LeadRoutingService.SelectAssignee | src/services/lead_routing_service.py:143-171 | the tenant's configured cap, or the default 20, does not influence who is selected |
| LeadRouting.LeadRoutingService.AutoAssignLead | src/services/lead_routing_service.py:173-219 | who is assigned, and that only the customer's row changes, in owner and assignment time |
| LeadRouting.AssignWrites | src/services/lead_routing_service.py:212-217 | an assignment writes the owner and the time into the one row, every other column and row stays |
| LeadRouting.AssignedLeadIsRecycledExactlyAfter | src/services/lead_routing_service.py:212-217 | the job takes an assigned lead back at exactly the cutoffs after its assignment, while it is below the limit, and then names its owner in the history |
| LeadRouting.DefaultJobTakesAfterADay | src/services/lead_routing_service.py:394 | with the default of 24 hours: after more than 86400 seconds |
| LeadRouting.UserRuleAssignsUser | src/services/lead_routing_service.py:84-113 | a rule for one user assigns to that user if active, else to the least-loaded of the team |
| LeadRouting.TeamRuleAssignsRole | src/services/lead_routing_service.py:84-113 | a rule for a team assigns to the least-loaded active user with that role, if any, else to the least-loaded of all |
| LeadRouting.OpenRuleAssignsTeam | src/services/lead_routing_service.py:84-113 | a rule naming nobody assigns to the least-loaded of the team |
| LeadRouting.LeadRoutingService.PreviewAssign | src/services/lead_routing_service.py:341-391 | the previewed rule, assignee and assignee type; nothing is written |
| LeadRouting.PreviewAgreesExactlyWhen | src/services/lead_routing_service.py:353-383 | for every preview on a customer's own record, when it names the user the assignment picks: both ways to differ, the missing fallback and the preview's own conditions |
| LeadRouting.RuleMissesLeastLoaded | src/services/lead_routing_service.py:84-134 | the team's least-loaded user is the rule's if and only if the rule leaves that user |
| LeadRouting.PreviewCanDiffer | src/services/lead_routing_service.py:377-383 | two users, one rule and one lead for which the preview names nobody and the assignment somebody |
| LeadRouting.PreviewCanNameAnother | src/services/lead_routing_service.py:353-383 | a preview whose condition fails names one user, the assignment another |
| Prelude.LimitKeepsMin | src/services/lead_routing_service.py:130-134 | filtering by any limit keeps the first-wins minimum unless it removes everything |
| LeadRouting.AssignIsStep | src/services/lead_routing_service.py:173-219 | assigning a fresh lead raises one count over the table, that of the first least-loaded user, by one |
| LeadRouting.RunIsSteps | src/services/lead_routing_service.py:173-245 | a run of fresh assignments, with other changes in between, acts on the loads as that many balancing steps |
| LeadRouting.TeamStaysBalanced | src/services/lead_routing_service.py:173-245 | over any such run the gap between busiest and idlest stays within max(1, initial gap) and is at most 1 once the initial deficit is assigned |
| LeadRouting.CapHoldsExactlyWhileTeamHasRoom | src/services/lead_routing_service.py:114-134 | everyone stays within a cap if and only if the team's leads fit its total capacity |
| LoadBalancing.Converges | src/services/lead_routing_service.py:221-245 | a vector of loads is level after as many steps as its deficit, and stays so |
| LoadBalancing.SpreadNeverGrows | src/services/lead_routing_service.py:221-245 | steps never widen the gap past max(1, initial gap) |
| LoadBalancing.NobodyPassesCap | src/services/lead_routing_service.py:221-245 | pigeonhole: no load passes the cap while total room remains |
| LeadRouting.LeadRoutingService.RecycleStaleLeads | src/services/lead_routing_service.py:247-297 | the loop of single-row updates releases exactly the stale rows, each with its own owner in the new entry, and returns their ids in order |
| LeadRouting.LeadRoutingService.DisqualifyOvercycledLeads | src/services/lead_routing_service.py:299-326 | exactly the leads at or over the limit change status; their ids are returned in order |
| LeadRouting.LeadRoutingService.NotifyPreviousOwners | src/services/lead_routing_service.py:414-435 | the notices read from the histories go to the owners the leads were taken from |
| LeadRouting.LeadRoutingService.CheckAndRecycleLeads | src/services/lead_routing_service.py:394-444 | the final table row by row over all tenants, one notice per recycled lead, and both counters |
| LeadLifecycle.JobLeavesCleanState | src/services/lead_routing_service.py:258-326 | after the job no remaining lead is over the limit or stale; exactly which rows are recycled, disqualified or untouched |
| LeadLifecycle.JobIsIdempotent | src/services/lead_routing_service.py:394-444 | a second job at the same cutoff selects nothing and changes no row |
| LeadLifecycle.NoticesOfJob | src/services/lead_routing_service.py:410-435 | notices go to exactly the owners leads are taken from |
| LeadLifecycle.ReportIsTrue | src/services/lead_routing_service.py:404-440 | the two counters are the numbers of rows that gained an entry and that changed status |
| LeadLifecycle.StaleRecycleWrites | src/services/lead_routing_service.py:258-293 | which rows a recycle changes, and every column of the row after it |
| LeadLifecycle.DisqualifyWrites | src/services/lead_routing_service.py:303-325 | which rows a disqualification changes, and that only the status does |
| LeadLifecycle.ReassignWrites | src/services/customer_service.py:142-166 | the new owner from now, one recycle more, one entry with the old owner and the reason; nothing else |
| LeadLifecycle.BulkRecycleWrites | src/db/repositories/customer.py:309-355 | which rows a bulk recycle changes, and every column of the row after it |
| LeadLifecycle.HistoryOnlyGrows | src/services/lead_routing_service.py:275-293 | over any run of all writers, new rows and deletions every row at the end continues one of the start or an added one: its old history is a prefix, and recycle_count equals the history's length if and only if it did then |
| LeadLifecycle.RowsLiveOn | src/db/repositories/customer.py:165-172 | over any such run a row that is not deleted is still there, continued |
| LeadLifecycle.StaleRecyclesBounded | src/services/lead_routing_service.py:259-270 | over any run the stale recycles are at most the sum of max(0, limit - recycle_count) over the rows of the start and those added |
| LeadLifecycle.EntryNamesOwnerExactlyWhenNotBulk | src/db/repositories/customer.py:328-354 | a new entry names the owner the lead had if and only if the writer is not the bulk recycle |
| LeadLifecycle.BulkRecycleNamesNobody | src/db/repositories/customer.py:328-354 | the bulk recycle of a lead of user 7 leaves an entry naming user 0 |
| CustomerService.CustomerService.ReassignLead | src/services/customer_service.py:142-166 | the row written, with the old owner in the new entry; fails exactly when the customer does not exist |
| CustomerService.CustomerService.BulkRecycleLeads | src/db/repositories/customer.py:309-355 | exactly the listed owned leads are released, with entries that name owner 0 |
| TLRUCache.TLRUCache.Get | src/services/recommendation_service.py:33-42 | a live entry becomes the most recent and keeps its timestamp, an expired one is deleted |
| TLRUCache.TLRUCache.Set | src/services/recommendation_service.py:54-59 | inserted or overwritten as most recent with a new timestamp; the oldest goes when over the cap |
| TLRUCache.TLRUCache.Pop | src/services/recommendation_service.py:61-62 | exactly the key's entry is gone |
| TLRUCache.StepKeepsWellFormed | src/services/recommendation_service.py:33-65 | every operation keeps keys and entries consistent and the size within the cap |
| TLRUCache.SetThenGet | src/services/recommendation_service.py:33-59 | a value set is served for exactly the time to live from the set; hits do not extend it |
| TLRUCache.EntriesAfter | src/services/recommendation_service.py:33-65 | what every operation does to every key's entry: expiry at 3600 seconds, the overwrite, the one eviction |
| CacheTheory.LargerCacheHitsMore | src/services/recommendation_service.py:33-65 | the embedding of a smaller cache into a larger one survives every timed trace |
| CacheTheory.CapacityMonotone | src/services/recommendation_service.py:33-65 | on the same trace every hit of a cache is a hit of any larger one, with the same value; shared entries have the same timestamps |
| CacheTheory.RunStaysWithinCap | src/services/recommendation_service.py:54-59 | over any trace the size stays within the cap |
| CacheTheory.OrderIsRecency | src/services/recommendation_service.py:33-59 | the entries are always in the order of their keys' last set or hit |
| CacheTheory.KeptUntilCrowdedOut | src/services/recommendation_service.py:54-59 | a key survives any trace that does not remove it while fewer than max_entries distinct other keys are younger or touched |
| CacheTheory.EvictedOnlyWhenCrowdedOut | src/services/recommendation_service.py:54-59 | a key lost to capacity was overtaken by at least max_entries distinct keys since its last set or hit |
| Recommendations.CacheKeyInjective | src/services/recommendation_service.py:74-75 | the formatted keys of two integer pairs are equal exactly when the pairs are |
| Recommendations.KeyReads | src/services/recommendation_service.py:74-75 | the key of 42 and -7 is 42:-7 |
| Recommendations.RecommendationService.LookUp | src/services/recommendation_service.py:101-105 | the request up to its query: a hit is returned, a miss is in flight, and the cache after either |
| Recommendations.RecommendationService.Resume | src/services/recommendation_service.py:112-123 | the request from its query's answer on: the reply, and the cache after the store |
| Recommendations.RecommendationService.InvalidateCache | src/services/recommendation_service.py:125-127 | exactly the pair's entry is dropped |
| Recommendations.StoreWithinCap | src/services/recommendation_service.py:20-21 | in every interleaving the cache holds at most 1024 entries |
| Recommendations.RepliesAreFresh | src/services/recommendation_service.py:101-127 | under every interleaving of requests and invalidations a reply is what the request's own query gave, or was read by a request for the same pair that stored it less than 3600 s before, with no invalidation or other store of the pair since the store |
| Recommendations.OldDataServedExactlyWhenAnswerInFlight | src/services/recommendation_service.py:106-127 | a run, its clock never falling, can go on to serve data read before an invalidation if and only if some request for the pair then has its answer and has not stored it |
| Recommendations.InvalidationOvertaken | src/services/recommendation_service.py:106-127 | five steps after which a request is served the value read before the invalidation |
| GateChain.RunningWasStarted | scripts/cron/pipeline.py:436-443 | every run in flight got past its gate when it started |
| GateChain.EnvelopeWritten | scripts/cron/pipeline.py:412-443 | which status every event writes for which stage, and that no other envelope changes |
| GateChain.StartsExactlyWhen | scripts/cron/pipeline.py:210-218 | a gated stage starts if and only if the envelope before it says pass and is at most 86400 seconds old |
| GateChain.PassWasEarned | scripts/cron/pipeline.py:189-218 | every pass envelope in every reachable state was written by a real success at its date |
| GateChain.PassExactlyWhenSuccessStands | scripts/cron/pipeline.py:189-218 | in every reachable state, for every stage, an envelope says pass at a date if and only if a real success of that date is the last event that wrote it |
| GateChain.GreenExactlyWhenSuccessStands | scripts/cron/pipeline.py:210-218 | a gate is open if and only if the last word on its stage is a real success at most 24 h old |
| GateChain.DeployRestsOnChain | scripts/cron/pipeline.py:412-636 | under every interleaving a deploy rests on a qc pass, let in by a review pass, let in by a pytest success, each at most 24 h old at its gate |
| GateChain.DeployIsTested | scripts/cron/pipeline.py:615-636 | a pytest success lies within 72 h and two stage durations of every deploy |
| GateChain.DeployOnGreenTestsExactlyWhen | scripts/cron/pipeline.py:615-636 | a deploy starts on green tests if and only if a pytest success of the last 24 h was followed by no other end or exception of a test run |
| GateChain.DeployCanBeThatLate | scripts/cron/pipeline.py:210-218 | the bound is reached, with the test envelope red |
| ImplementCooldown.ImplementGate.Attempts | scripts/cron/pipeline.py:1041-1053 | which runs pass the cooldown: the first, the forced, and those an hour after the last envelope |
| ImplementCooldown.LeavesForNext | scripts/cron/pipeline.py:1262-1268 | the date each run leaves: its end, its start if stopped, what it found if killed |
| ImplementCooldown.StarvedExactlyWhenFrequent | scripts/cron/pipeline.py:1262-1268 | no run after the first gets past the cooldown if and only if none is forced and each starts within an hour of the start of the last run before it that was not killed, or of its end if that is the first |
| ImplementCooldown.StoppedRunRenewsCooldown | scripts/cron/pipeline.py:1262-1268 | three runs of which the third is stopped though the last implementation ended over an hour before |
| TaskQueue.PickPending | scripts/cron/pipeline.py:890-901 | the first unclaimed file in name order, or none |
| TaskQueue.FoundAfterPassingOver | scripts/cron/pipeline.py:1002-1038 | in any interleaving what the file-by-file scan finds passed every gate when read, and every file before it was read earlier in the scan and did not |
| TaskQueue.QuietScanFindsFirst | scripts/cron/pipeline.py:1002-1038 | if nothing is written meanwhile it finds the first file that passes every gate |
| TaskQueue.TakenExactlyWhen | scripts/cron/pipeline.py:1002-1038 | a file read by the scan is taken if and only if it has a saved plan of at most 30 minutes or no stated length, no verdict, no high priority, and only allowed targets |
| TaskQueue.FirstImplementable | scripts/cron/pipeline.py:1002-1038 | the first file that passes every gate |
| TaskQueue.NoUpdateIsLost | scripts/cron/pipeline.py:908-955 | in any interleaving each overwrite from a stale copy has the effect of editing the current file's own fields |
| TaskQueue.ImplementerWrites | scripts/cron/pipeline.py:1389-1510 | in every behaviour the file holds after a fail, a no-op and a finish exactly the verdict of that outcome and its note, and everything else as before |
| TaskQueue.PlannerWrites | scripts/cron/pipeline.py:911-955 | in every behaviour a claim sets the date, and later the path is set under which the plan was last saved; everything else stays |
| TaskQueue.OnlyWritesChangeFiles | scripts/cron/pipeline.py:842-853 | a new task holds what was proposed, unclaimed and unplanned; no other event touches a file |
| TaskQueue.InvAlways | scripts/cron/pipeline.py:883-963 | in every reachable state files in the planner's hands have no result, files in the implementer's have one and pass the bounds, and both copies are current |
| TaskQueue.ClaimedFormPrefix | scripts/cron/pipeline.py:890-913 | the claimed files are exactly those before the first unclaimed one |
| TaskQueue.FieldsAreWrittenOnce | scripts/cron/pipeline.py:1254-1524 | over any run claim, result and verdict are written at most once, and verdicts only on planned tasks within bounds |
| TaskQueue.AtMostOneVerdictIffProposed | scripts/cron/pipeline.py:842-853 | a task ever carries at most one of branch, failed, obsolete if and only if its proposal did |
| TaskQueue.ProposalWithTwoVerdicts | scripts/cron/pipeline.py:842-853 | a kept proposal that creates a task with two verdicts |
| ResearchFilter.KeptIsWithinBoundsExactlyWhen | scripts/cron/pipeline.py:723-777 | a kept proposal passes the implementer's gates on priority and targets if and only if its priority is not high and no target begins with a blank |
| ResearchFilter.KeptButOutOfBounds | scripts/cron/pipeline.py:723-777 | a high priority, and a leading blank, pass the filter and fail the gates |
| ResearchFilter.TargetExactlyWhen | scripts/cron/pipeline.py:740-762 | the filter takes a target if and only if it reads as blanks, a source path without a colon, blanks, and perhaps a colon and more |
| ResearchFilter.KeptExactlyWhen | scripts/cron/pipeline.py:723-777 | what a proposal needs to be kept: texts, priority, kind, targets, a checkable acceptance |
| TaskQueue.PickedUpExactlyWhen | scripts/cron/pipeline.py:724-728 | some interleaving hands a kept proposal to the implementer if and only if its priority is not high, no target begins with a blank and it carries no verdict |
| TaskQueue.CollectStats | scripts/cron/pipeline.py:295-326 | the counters are the true counts and add up to the files |
| TaskQueue.StatsMean | scripts/cron/pipeline.py:295-326 | what the five counters count, in the files' own fields |
| TaskQueue.PendingComplementsPrefix | scripts/cron/pipeline.py:295-326 | in every reachable state the pending count is exactly what the claimed prefix leaves |
| RbacTheory.StepKeepsInv | src/services/rbac_service.py:185-416 | every call of either service keeps rows unique and references and tenants consistent |
| RbacTheory.RunKeepsInv | src/services/rbac_service.py:488-531 | so does every run |
| RbacOutcomes.SucceedsExactlyWhen | src/services/rbac_service.py:185-416 | for each of the nine calls, on the rows alone, if and only if which it succeeds |
| RbacOutcomes.FailsAs | src/services/rbac_service.py:185-416 | with which error the others end |
| RbacOutcomes.RefusedChangesNothing | src/services/rbac_service.py:185-416 | a refused call changes no table |
| RbacOutcomes.RolesAfter | src/services/rbac_service.py:185-274 | the role table after each call, column by column |
| RbacOutcomes.RolePermissionsAfter | src/services/role_service.py:61-158 | the role-permission table after each call, row by row |
| RbacOutcomes.UserRolesAfter | src/services/rbac_service.py:351-531 | the user-role table after each call, row by row |
| RbacOutcomes.SystemRolesLiveOn | src/services/rbac_service.py:264-274 | over any run of any tenant's calls a system role is never removed and keeps its flag, name and tenant |
| RbacTheory.ReachOfCall | src/services/role_service.py:121-158 | a call changes no role and no permission set of another tenant, except permissions of tenant 0's non-system roles |
| RbacTheory.SharedRoleCanBeChanged | src/services/role_service.py:121-158 | a call by which any tenant changes a tenant-0 role that is not a system role |
| RbacTheory.SystemRolesUntouched | src/services/role_service.py:135-139 | over any run of other tenants' calls tenant 0's system roles keep row and permissions |
| RbacTheory.SharedRoleOpenExactlyWhenNotSystem | src/services/role_service.py:127-139 | another tenant can change a tenant-0 role's permissions if and only if it is not a system role (and any permission exists) |
| RbacTheory.OtherTenantsGrantsUntouched | src/services/rbac_service.py:264-274 | of other tenants' user-role rows a call adds none and removes exactly those of the role it deletes, which only tenant 0 can |
| RbacTheory.JoinsAgree | src/services/rbac_service.py:432-482 | both permission joins agree, and mean that some role of the user carries the permission |
| RbacTheory.PermissionsRoundTrip | src/services/rbac_service.py:299-345 | the permission names read back are exactly those set, through either service |
| RbacTheory.CustomRoleRoundTrip | src/services/role_service.py:61-99 | a created custom role has exactly the permissions given |
| RbacTheory.UserRolesRoundTrip | src/services/rbac_service.py:488-531 | after set_user_roles the user has exactly the given roles and exactly their permissions |
| RbacTheory.RevokeUndoesAssign | src/services/rbac_service.py:351-416 | revoking a role just assigned restores the database |
| RbacService.AllSeenExactlyWhenCountsAgree | src/services/rbac_service.py:501-515 | comparing the two lengths detects unknown role ids exactly |
| RbacService.RbacTables.SetRolePermissions | src/services/rbac_service.py:318-345 | outcome and tables after the call, loop by loop |
| RbacService.RbacTables.UpdateRolePermissions | src/services/role_service.py:121-158 | outcome and tables after the call, with tenant 0's roles visible |
| RbacService.RbacTables.CreateCustomRole | src/services/role_service.py:61-99 | outcome and tables after the call |
| RbacService.RbacTables.CreateRole | src/services/rbac_service.py:185-205 | outcome and tables after the call; a taken name meets the unique index |
| RbacService.RbacTables.UpdateRole | src/services/rbac_service.py:246-262 | only the given texts and priority of an own role change |
| RbacService.RbacTables.DeleteRole | src/services/rbac_service.py:264-274 | an own non-system role goes with all its rows |
| RbacService.RbacTables.AssignRoleToUser | src/services/rbac_service.py:351-397 | outcome and tables; already assigned exactly when the row existed |
| RbacService.RbacTables.RevokeRoleFromUser | src/services/rbac_service.py:399-416 | the row count tells not found exactly when there was no row |
| RbacService.RbacTables.SetUserRoles | src/services/rbac_service.py:488-531 | outcome and tables after the call |
| LikeEscape.EscapeIsOnePass | src/services/chat_service.py:33-35 | the three sequential replacements equal a one-pass escape |
| LikeEscape.PatternIsWellFormed | src/services/chat_service.py:102-106 | every pattern built obeys the standard's escape syntax |
| LikeEscape.SearchMeansContains | src/services/chat_service.py:101-108 | the pattern matches a text exactly when the keyword occurs in it |
| LikeEscape.EscapeInjective | src/services/chat_service.py:33-35 | two terms have the same escaped form exactly when they are equal |
| LikeEscape.SearchSelectsExactly | src/services/chat_service.py:100-108 | which rows the customer and ticket searches select |
| Churn.GroupIsOwnRows | src/services/churn_prediction_service.py:346-356 | a customer's group in the batch query is the customer's own filtered rows |
| Churn.CountByOwner | src/services/churn_prediction_service.py:397-408 | the one-pass grouped count agrees with counting each customer's rows |
| Churn.KindsByOwner | src/services/churn_prediction_service.py:359-373 | the grouped distinct activity types agree with each customer's own |
| Churn.LatestByOwner | src/services/churn_prediction_service.py:375-395 | the grouped maximum agrees with each customer's own |
| Churn.FetchRawMetricsBatch | src/services/churn_prediction_service.py:328-425 | exactly the existing customers of the batch, each with the metrics of the single path |
| Churn.PredictChurn | src/services/churn_prediction_service.py:268-313 | the batch is the single path run on each id in order, duplicates included; skipped are exactly the missing ids in order |
| Churn.BatchIsPiecewise | src/services/churn_prediction_service.py:268-313 | the batch's results and skipped ids are those of its parts in order |
| Churn.BatchOfOne | src/services/churn_prediction_service.py:190-217 | for one id: the prediction from its metrics if the customer exists, else skipped |
| Churn.MetricsCount | src/services/churn_prediction_service.py:80-147 | the metrics are the numbers of the customer's activities, kinds and open tickets in the tenant |
| Churn.RecencyMeans | src/services/churn_prediction_service.py:108-138 | days since the latest win, 0 if it lies ahead, 90 without one |
| Churn.SubScores | src/services/churn_prediction_service.py:149-165 | the four sub-scores between their end points |
| Churn.EndPoints | src/services/churn_prediction_service.py:149-165 | each sub-score at both its end points |
| Churn.NoWorseScoresNoLower | src/services/churn_prediction_service.py:190-217 | more activities or kinds never lower the score, more tickets or an older win never raise it, and the tier goes the other way |
| Churn.ScoreIsMean | src/services/churn_prediction_service.py:167-217 | the score is the rounded mean of the sub-scores; the tier is high exactly from risk 70, medium from 40 |
| Churn.ActionsExactlyWhen | src/services/churn_prediction_service.py:316-326 | exactly when each action is recommended |
| Churn.HealthInRange | src/services/churn_prediction_service.py:149-165 | sub-scores lie in 0..100 for all tables, so the clamp of the weighted sum is idle |
| Churn.TopThreeAreWorst | src/services/churn_prediction_service.py:175-188 | three distinct dimensions, worst first, none better than the one left out |
| Tickets.TicketService.NextAgentOf | src/services/ticket_service.py:66-87 | the agent whose turn the count of assigned tickets says, always one of the pool |
| Tickets.AgentsInTurn | src/services/ticket_service.py:21 | the pool is agents 1, 2 and 3 in turn |
| Tickets.CountMeans | src/services/ticket_service.py:66-87 | the count is of the tenant's tickets that have an assignee |
| Tickets.TicketService.Create | src/services/ticket_service.py:117-141 | the ticket created and the table after it |
| Tickets.TicketService.AutoAssignTicket | src/services/ticket_service.py:436-455 | an unassigned ticket gets the next agent, an assigned one is left as it is |
| Tickets.TicketService.Assign | src/services/ticket_service.py:189-208 | the tenant's ticket gets the assignee; false exactly when it does not exist |
| Tickets.TicketService.Reply | src/services/ticket_service.py:210-256 | an external reply sets the first response time if it is unset |
| Tickets.TicketService.ChangeStatusOf | src/services/ticket_service.py:312-342 | the status, and the resolution time when it is resolved |
| Tickets.CreateWrites | src/services/ticket_service.py:117-141 | the new ticket's every column, and that the others stay |
| Tickets.CallWrites | src/services/ticket_service.py:158-342 | every column of the fetched ticket after each call; the other tickets stay |
| Tickets.StepCounts | src/services/ticket_service.py:66-87 | what every call adds to its own tenant's count, and nothing to another's |
| Tickets.PicksFollowDrifts | src/services/ticket_service.py:66-87 | for every run the j-th pick is the agent j turns on from the initial count, plus what the other calls have added by then |
| Tickets.CyclicExactlyWithoutDrift | src/services/ticket_service.py:66-87 | the picks walk the pool cyclically if and only if at every pick the other calls have added a multiple of the pool's size |
| Tickets.PicksAreCyclic | src/services/ticket_service.py:66-87 | in particular if only picks add assigned tickets |
| Tickets.FairExactlyWhenDriftNeverCatchesUp | src/services/ticket_service.py:66-87 | every window is fair if and only if from no pick to either of the next two the count moves by a multiple of the pool's size |
| Tickets.PicksAreFair | src/services/ticket_service.py:66-87 | in any window of a run without drift two agents' shares differ by at most one |
| Tickets.NamedCreationsSkewPicks | src/services/ticket_service.py:121-122 | with two named creations between picks every pick goes to one agent |
| Tickets.FirstResponseSetOnce | src/services/ticket_service.py:249-252 | over any run the first response time is set at most once |
| Score.CalculateScore | src/services/score_service.py:169-251 | score, tier and top factors, with the clamp idle and the score in 0..100 |
| Score.FactorCounts | src/services/score_service.py:195-204 | a factor counts as itself within 0..100, else as the nearer bound; absent or unreadable 0 |
| Score.OneFullFactorScoresItsWeight | src/services/score_service.py:49-55 | which weight belongs to which field |
| Score.TierExactlyWhen | src/services/score_service.py:57-61 | the range of each tier |
| Score.TopFactorsDescend | src/services/score_service.py:218-219 | the top factors come highest first and are positive |
| Score.FloorSumBounds | src/services/score_service.py:195-210 | for any weight table: at most n - 1 below the floored exact sum, never above; exact if and only if no remainder |
| Score.FloorSumMonotone | src/services/score_service.py:195-210 | raising factors never lowers the total |
| Score.ClampIsIdle | src/services/score_service.py:210 | for weights summing to 100 the clamp does nothing, and 100 means every weighted factor is 100 |
| Score.ScoreNearMean | src/services/score_service.py:206-208 | for the shipped weights: at most 4 low, and exact if and only if no product leaves a remainder |
| Score.NinetyNinesScoreNinetyFive | src/services/score_service.py:206-208 | the bound is reached: all factors 99 score 95 |
| Score.BetterFactorsBetterTier | src/services/score_service.py:57-61 | the tier is monotone in the factors |
| Score.TopFactorsAreHighest | src/services/score_service.py:218-219 | a positive factor left out gives way to three that are at least as high |
| Sorting.SortIsStable | src/services/score_service.py:218 | equal keys keep their order in the descending sort |
| GlobPermission.CheckMeansGlob | src/services/permission_service.py:50-84 | the check grants exactly what some pattern matches; the fast paths are sound and redundant |
| GlobPermission.ExactUnlessBareQuestionMark | src/services/permission_service.py:79-82 | a one-pattern list is exact if and only if a `?` comes with a `*` |
| GlobPermission.BareQuestionMarkDenied | src/services/permission_service.py:79-82 | on a table holding a?b the check would deny a:b, which the pattern matches |
| GlobPermission.RoleCheckMeansGlob | src/services/permission_service.py:7-47 | for every role of the shipped table the check is the meaning of its patterns |
| GlobPermission.RoleMayExactly | src/services/permission_service.py:7-47 | exactly what each role of the shipped table may do |

## Left out

- HTTP, authentication, logging and exception rendering; a failing call is an outcome value.
- Concurrent calls of the database services: apart from the recommendation cache, each call runs to its end before the next.
- The git pull and push of shared memory (`scripts/cron/pipeline.py:124-166`), which can also replace envelope and task files.
- The ORM session and the database: constraints and cascades are taken from the migration `alembic/versions/195a79d95b41_add_rbac_schema.py`; database errors other than a taken role name do not occur.
- GateChain and TaskQueue model the concurrent steps as transitions between values, not as updates of objects; a file write is atomic and replaces the file.
- Agent locks: runs of one agent exclude each other by assumption; the lock file itself is not modelled.
- ResearchFilter.KeptIsWithinBoundsExactlyWhen: fields of other types than the schema's; such a proposal is dropped or fails the run.
- Task files are well-formed JSON, and each new task's name sorts after the existing ones.
- The orchestrator's own summary and report, the manager's heartbeat text, and the judgement prompts: an agent's answer is an arbitrary status.
- LeadRules.Evaluate: booleans, dictionaries and not-a-number as condition values are not modelled; a rule with an unsupported field, which fails validation, is not either.
- A team rule compares the user's role column with the rule's integer; the model gives the role column an integer type and leaves the conversion out.
- LeadRouting.LeadRoutingService.CheckAndRecycleLeads: one clock reading for the whole job, and no database error, so the per-tenant error list is left out; a notice is the attempt, not its delivery.
- LikeEscape.SearchSelectsExactly: ordering and limit of the results, and the customer_id clause of the opportunity search for all-digit keywords; case folding is any function on single characters.
- GlobPermission.CheckMeansGlob: patterns with a character class, of which the table has none.
- Churn.PredictChurn: floating point is replaced by reals, and `round` is one fixed function; stored predictions are not read.
- Score.CalculateScore: the AI annotation and the recommendation texts.
- Tickets.TicketService.Create: subject, channel, priority and the SLA deadline; replies are modelled by their effect on the ticket.
- Default roles and permissions inserted at start-up, listing and paging of roles, the static role check, and grant dates.
- SLA colours, plain CRUD services and pagination, which would only add easy members.
