# Verification model of the autopilot control plane

This project models the parts of the extension's control plane that carry real algorithms or state machines, and
proves what they promise for all inputs, all runs and all reachable states.

- **Line diff.** Exact splitting at newlines, the longest-common-subsequence table in a flat array of 16-bit cells,
  the walk that reads it, and the change statistics.
- **Agent plan.** A dependency graph of nodes with states: the cycle check, reconciliation, guarded transitions and
  append-only growth, over whole runs.
- **Recurring calendar.** The search for the next slot of a daily or weekly schedule, cursors per schedule revision,
  admission, skipping and commit. A time zone is any partial map from local dates and times to instants that obeys
  `ZoneLaws`: later wall times are later instants, and the local date of an instant never runs ahead of its slots.
- **Artifact registry.** Immutable version chains with content-bound inputs, Kahn's check, put and the getters.
- **Approval tickets.** The canonical JSON printer, down to string escapes and number texts (section 7 of RFC 8259 and
  section 6.1.6.1.20 of ECMA-262), the binding payload, and the life of a ticket. The digest is any function on
  well-formed texts; where it matters it is assumed to be collision-free.
- **Route pool and worker allocation.** Eligibility, the total order of candidates, retry times, circuit breaking, round
  robin and manual sharing.
- **Delegated model policy.** Bindings handed from agent to agent, and their use for ranking.
- **Coordinator run.** Reservations, gateway calls and settlements of one request as a trace, against gateways and
  budget lifecycles that may answer anything; the limiter of automatic strong passes over a series of requests.
- **Billing.** Prices as exact fractions, rounding up, and the aggregate.
- **Submission recovery.** The send operation of a session under crashes, other writers, any clock and any page answers.

Records are taken after their own shape checks: identities, texts and instants are values of the right kind, and texts
are sequences of UTF-16 code units. `dafny verify dfyconfig.toml` checks everything.

## Where the code does less than its words

- **Lifecycle failures.** The coordinator means to make no further provider call after a refused reservation or a failed
  settlement. It recognises such a failure by the identity of the thrown object, so a lifecycle that throws a bare value
  (or an object that takes no new properties, where no route is marked for it) is taken for a failing provider, and the
  strong model may be called next. `OrchestratorFailures.CallAfterFailureExactly` says exactly in which runs that
  happens, `OrchestratorFailures.BareRefusalIsFollowedByACall` shows one.
- **Skipping with an older cursor.** With catch-up off, skipping a missed slot sets the active cursor to one millisecond
  before now. While only the cursor of the older revision hash is in use and it is not before now, that moves the cursor
  back. `CalendarRuns.SkipKeepsCursor` is the exact condition, `CalendarRuns.LegacyCursorRegresses` the example.
- **Registries nobody can build.** Normalization checks input edges for cycles, not inputs and parents together.
  `ArtifactReach.ReachableIffLineageAcyclic` says which accepted registries puts can build, and
  `ArtifactReach.AcceptedButNotBuilt` shows one they cannot.
- **One reconciliation.** READY is exact after one pass, BLOCKED and PENDING need not be: one pass settles them in every
  state of the nodes exactly when the list has dependencies first (`AgentPlanOrder.OnePassSettlesExactly`;
  `AgentPlanMeaning.OnePassMayNotSettle` shows a list that needs two).

## Model

| member | source | states |
|---|---|---|
| TextDiff.JoinUndoesSplit | src/core/artifact-text-diff.js:135-146 | joining the lines with newlines gives the text back, for every text |
| TextDiff.LinesDetermineText | src/core/artifact-text-diff.js:135-146 | no two texts have the same lines: the empty text has none, every other one joins back to itself |
| TextDiff.SplitExactLines | src/core/artifact-text-diff.js:135-146 | accepts exactly the texts within the line count and line length bounds, the count being checked first |
| TextDiff.LcsIsMaximal | src/core/artifact-text-diff.js:148-165 | the table's value is not below the length of any common subsequence of the two remaining lists, given by its two index lists |
| TextDiff.LcsSteps | src/core/artifact-text-diff.js:148-165 | neighbouring cells differ by at most one, which is why the greedy choice is safe |
| TextDiff.LcsMatrix | src/core/artifact-text-diff.js:148-165 | every cell of the flat array holds its value; no 16-bit cell wraps as long as one side has fewer than 65536 lines |
| TextDiff.BuildOperations | src/core/artifact-text-diff.js:167-213 | the loop over the array produces the specified walk and reads no cell outside the table |
| TextDiff.WalkKeepsLcs | src/core/artifact-text-diff.js:167-213 | the walk keeps exactly as many lines as the first cell says |
| TextDiff.WalkIsScript | src/core/artifact-text-diff.js:167-213 | replay: every line of both sides occurs once, in order, under its own number |
| TextDiff.ScriptKeepsAtMostLcs | src/core/artifact-text-diff.js:167-213 | no script between the two lists keeps more lines |
| TextDiff.WalkIsOptimal | src/core/artifact-text-diff.js:148-213 | no script has fewer removals and additions, and no common subsequence is longer than the kept lines |
| TextDiff.RemovalsPrecedeAdditions | src/core/artifact-text-diff.js:200-213 | inside a change an addition is never followed directly by a removal |
| TextDiff.SummarizeOperations | src/core/artifact-text-diff.js:215-241 | counts per kind, and as many blocks as there are maximal runs of changes; changed says whether any occurs |
| TextDiff.UnchangedWalk | src/core/artifact-text-diff.js:167-213 | the script is free of changes exactly when the two line lists are equal |
| TextDiff.WalkIsFaithful | src/core/artifact-text-diff.js:135-213 | dropping additions restores the first text exactly, dropping removals the second, and the line counts add up |
| TextDiff.BuildTextDiff | src/core/artifact-text-diff.js:296-359 | fails exactly on a text out of the line bounds (the bound on the size of the plain-text rendering is left out, see below); otherwise the operations are the optimal walk, restore both texts, and contain a change exactly when the texts differ |
| Graph.IsAcyclic | src/core/agent-plan.js:170-182 | the depth-first walk with its visiting and visited sets succeeds exactly when no dependency cycle exists |
| AgentPlan.AssertAcyclic | src/core/agent-plan.js:170-182 | returns normally exactly when all dependencies are known and acyclic; the cycle error is raised only for a real cycle |
| AgentPlan.Normalize | src/core/agent-plan.js:184-216 | accepts exactly the well-formed plans: distinct nodes, valid lists and budgets, sound graph, revision and causal window |
| AgentPlanStates.PlanMeans | src/core/agent-plan.js:184-216 | said of the nodes themselves, accepted are exactly the plans of 1 to 128 distinct nodes with known dependencies in no cycle, lists without repeats, counted budgets, bounded evidence, and times inside the plan's own |
| AgentPlan.Reconcile | src/core/agent-plan.js:219-238 | succeeds exactly where allowed, and leaves the plan of one pass in list order |
| AgentPlan.ReconciledIsWellFormed | src/core/agent-plan.js:219-238 | the closing normalization of a reconciliation never fails |
| AgentPlanMeaning.PassesConverge | src/core/agent-plan.js:225-235 | as many passes as there are nodes reach a state that further passes leave alone |
| AgentPlanMeaning.StableIsUnique | src/core/agent-plan.js:225-235 | READY, BLOCKED and PENDING have one order-free meaning: two stable lists of the same plan agree on every node |
| AgentPlanOrder.OnePassSettlesExactly | src/core/agent-plan.js:225-235 | one pass settles a list of nodes, whatever their states, if and only if the list has dependencies first |
| AgentPlanStates.DeadWorkBlocksAtOnce | src/core/agent-plan.js:225-235 | after one pass in any list order, a node that needs failed or cancelled work, or claims what a running node claims, is blocked |
| AgentPlanStates.LimitMeans | src/core/agent-plan.js:225-235 | in the limit of passes in any list order an open node is blocked exactly if it has such a cause or needs a blocked node, ready exactly if it has none and all it needs is verified, and pending otherwise; running and finished nodes are untouched |
| AgentPlanRuns.ReadyIsExactAfterOnePass | src/core/agent-plan.js:225-235 | in any list order one pass makes READY exact: all dependencies verified and no running node shares a conflict key |
| AgentPlanRuns.Transition | src/core/agent-plan.js:334-353 | allowed exactly for a non-terminal node, READY before RUNNING, RUNNING with evidence before VERIFIED; the revision advances by two |
| AgentPlanRuns.Extend | src/core/agent-plan.js:249-302 | allowed exactly for the current revision, fresh pending nodes, an acyclic result and budgets inside the envelope; the revision advances by one |
| AgentPlanGrowth.ExtendsExactly | src/core/agent-plan.js:249-302 | said of nodes and budgets, an extension is accepted exactly for the current good plan, 1 to 32 fresh good nodes that make a good plan again, and sums of calls, seconds and micros inside the envelope |
| AgentPlanGrowth.BecomesExactly | src/core/agent-plan.js:334-353 | a node may change exactly while it is not terminal, from ready to running, and from running with evidence to verified |
| AgentPlanRuns.Evolve | src/core/agent-plan.js:309-332 | a full replacement is accepted exactly when it echoes the identity and every node and only appends |
| AgentPlanRuns.StepKeepsInv | src/core/agent-plan.js:219-353 | every successful reconciliation, extension, evolution and transition keeps: running nodes share no conflict key, what runs or is verified has verified dependencies, verified nodes carry evidence |
| AgentPlanRuns.RunsStaySound | src/core/agent-plan.js:219-353 | so does every run from an all-pending plan, and a terminal node never changes again |
| AgentPlanRuns.AlwaysProgress | src/core/agent-plan.js:170-238 | after a reconciliation, a plan in which nothing runs, failed or was cancelled is finished or has a READY node |
| Calendar.SelectedDatesBefore | src/core/calendar-schedule.js:97-107 | the closed form over whole weeks plus a remainder equals the day-by-day count of selected weekdays |
| Calendar.WeeksCount | src/core/calendar-schedule.js:97-107 | any run of whole weeks, whatever day it starts on, holds each selected weekday once a week |
| Calendar.FirstDailyCandidateOnOrAfter | src/core/calendar-schedule.js:108-122 | the unbounded search ends within six days of its horizon with the first slot at or after the floor, or with nothing exactly when none is left |
| Calendar.FirstWeeklyCandidateOnOrAfter | src/core/calendar-schedule.js:123-138 | the same for weekly schedules, whose ordinals come from the closed form |
| Calendar.FirstIsUnique | src/core/calendar-schedule.js:108-138 | there is only one first slot, so the search result does not depend on how it is found |
| Calendar.ShortSearchIsFullSearch | src/core/calendar-schedule.js:141-159 | starting at the later of the start date and the cursor's local date finds the same slot as enumerating from the start date, end date and occurrence limit included, unless an earlier slot cannot be resolved |
| CalendarRuntime.BoundedRevisionCursors | src/core/calendar-schedule.js:172-172 | the protected revisions, the active one among them, are never evicted, and the rest of the room goes to the newest |
| CalendarRuntime.CommitCalendarOccurrence | src/core/calendar-schedule.js:173-175 | the whole runtime after a commit, with a cursor that only advances |
| CalendarRuntime.CommitKeepsCursors | src/core/calendar-schedule.js:173-175 | a commit sets its own revision's cursor, keeps every protected one, and never changes a cursor it keeps |
| CalendarRuntime.NextRecurring | src/core/calendar-schedule.js:141-159 | the next slot is the first one past the cursor; due, missed or waiting by comparison with now |
| CalendarLookback.NextIsFirstWanted | src/core/calendar-schedule.js:141-159 | the answer is the first slot of the enumeration past the cursor and, with catch-up off, not before now; nothing is answered only if there is none |
| CalendarLookback.Weekdays | src/core/calendar-schedule.js:60-60 | day numbers count from a Thursday, and weekdays follow each other |
| CalendarRuntime.CursorMeans | src/core/calendar-schedule.js:140-140 | a session continues at its own revision's cursor; without one the older hash counts only while it was used last, its own entry before the common one, and any other revision counts for nothing |
| CalendarRuntime.CalendarSession.CalendarAdmission | src/core/calendar-runtime.js:106-136 | with catch-up off it skips exactly when a slot of the enumeration lies before now and past where it starts to look: the own cursor, without one the start of a bounded schedule or its catch-up variant's cursor, else three or nine days back; it names the first such slot, moves the cursor to just before now, and changes nothing otherwise; the next slot then waits, is due, or is a missed one to catch up, exactly as its instant lies after, at or before now |
| CalendarLookback.LookbackLosesNothing | src/core/calendar-runtime.js:38-78 | an unbounded schedule without a cursor whose slots resolve has something to skip exactly if any slot at all lies before now: three days back are enough for daily slots, nine for weekly ones |
| CalendarRuntime.CalendarSession.CommitVerifiedCalendarOccurrence | src/core/calendar-runtime.js:138-142 | an occurrence of another revision or with another id is refused and leaves the session alone |
| CalendarRuns.CatchUpDeliversInOrder | src/core/calendar-schedule.js:140-175 | with catch-up on, from any starting cursor and whatever the wake times, deliveries are consecutive slots of the enumeration, beginning with the first one past that cursor |
| CalendarRuns.ExhaustedMeansAllDelivered | src/core/calendar-schedule.js:141-159 | when the schedule reports that nothing is left, after any number of deliveries, every slot of the enumeration was delivered or is not past the starting cursor |
| CalendarRuns.CursorNeverRegresses | src/core/calendar-runtime.js:38-142 | under any mix of admissions, skips and commits, and a clock that jumps either way, the active cursor never moves back, except as the next row says |
| CalendarRuns.SkipKeepsCursor | src/core/calendar-runtime.js:80-104 | a skip keeps the cursor from moving back exactly when the cursor in use is not an older revision's at or after now |
| CalendarRuns.LegacyCursorRegresses | src/core/calendar-runtime.js:38-104 | a concrete upgraded session whose cursor a skip moves back by one millisecond |
| Graph.KahnVisitsAll | src/core/artifact-registry.js:380-411 | the in-degree queue visits every node exactly when the graph has no cycle |
| ArtifactRegistry.ExactEntry | src/core/artifact-registry.js:316-348 | accepts exactly the valid chains: exact versions, unique ids, each extending the one before, time never going back, the last one current |
| ArtifactRegistry.LookupFinds | src/core/artifact-registry.js:350-378 | a lookup finds a version exactly when it is the registry's one version with that artifact and version id |
| ArtifactRegistry.AssertAcyclicInputDependencies | src/core/artifact-registry.js:380-411 | succeeds exactly when the bound inputs of all versions form no cycle |
| ArtifactRegistry.NormalizeArtifactRegistry | src/core/artifact-registry.js:413-441 | accepts exactly the registries whose sorted form is valid, and returns that form |
| ArtifactMeaning.RegistryMeans | src/core/artifact-registry.js:316-441 | said of entries and versions themselves, valid are exactly the registries of ascending artifacts with parent chains whose times never go back, globally distinct version ids, a revision that counts them, and inputs that are there, unchanged, older, and in no cycle |
| ArtifactRegistry.ValidIsNormal | src/core/artifact-registry.js:413-441 | a valid registry is its own normal form |
| ArtifactRegistry.PutArtifactVersion | src/core/artifact-registry.js:456-516 | a put fails exactly when normalization or one of its own checks does |
| ArtifactMeaning.PutExactly | src/core/artifact-registry.js:456-516 | a put into a valid registry is accepted exactly if the version is well formed, of the project, with inputs that are there, unchanged and older, and is either stored already or has a new id and heads a new artifact or extends the last version of its own |
| ArtifactRegistry.GetArtifactVersion | src/core/artifact-registry.js:518-527 | a read fails exactly for an invalid registry or an unknown version, and otherwise gives the stored version |
| ArtifactRuns.PutOutcome | src/core/artifact-registry.js:456-516 | an accepted put changes nothing, the same version being there, or adds one version whose id was new to the whole registry |
| ArtifactRuns.PutKeepsValid | src/core/artifact-registry.js:456-516 | the result of a put is a fixed point of normalization, and parents and inputs together stay free of cycles |
| ArtifactRuns.PutKeepsVersions | src/core/artifact-registry.js:456-527 | after a put exactly the old versions and the new one can be read |
| ArtifactRuns.PutCounts | src/core/artifact-registry.js:456-516 | the revision grows by one exactly when a version is added |
| ArtifactRuns.RunsStayValid | src/core/artifact-registry.js:443-516 | every sequence of puts from the empty registry leads to a valid, normal registry with an acyclic lineage |
| ArtifactRuns.NothingIsLost | src/core/artifact-registry.js:456-527 | whatever could be read at some point of a run reads the same at every later point |
| ArtifactRuns.AcceptedOnceIsKept | src/core/artifact-registry.js:456-527 | a version once put stays readable as put, and putting it again at any later time changes nothing |
| ArtifactRuns.PutsCommute | src/core/artifact-registry.js:456-516 | two puts on different artifacts accepted in both orders give the same registry |
| ArtifactReach.ReachableIffLineageAcyclic | src/core/artifact-registry.js:413-516 | an accepted registry is the result of some sequence of puts exactly when parents and inputs together have no cycle |
| ArtifactReach.AcceptedButNotBuilt | src/core/artifact-registry.js:380-441 | a concrete accepted registry that no sequence of puts builds |
| JsNumber.ReadUndoesPrint | src/core/approval-contract.js:177-192 | reading a printed number gives the number back, up to the sign of zero, and stops where it ended |
| CanonicalJson.ReadUndoesEscape | src/core/approval-contract.js:177-192 | reading a quoted string gives the string back, lone surrogates and control characters included |
| CanonicalJson.ReadUndoesPrint | src/core/approval-contract.js:177-192 | reading a printed value gives its canonical form back and stops exactly where the value ended |
| CanonicalJson.PrintOfCanon | src/core/approval-contract.js:177-192 | key order and the sign of zero do not show in the text |
| CanonicalJson.PrintsAlike | src/core/approval-contract.js:177-192 | two values print alike exactly when they are equal up to key order and the sign of zero |
| CanonicalJson.PrintIsEncodable | src/core/approval-contract.js:177-192 | every printed text is well-formed UTF-16, so the digest accepts it |
| Approval.PayloadBinds | src/core/approval-contract.js:194-223 | the payload pins the whole decision, both instants and the invocation up to capability and key order |
| Approval.FingerprintBinds | src/core/approval-contract.js:194-269 | with a collision-free digest fingerprints agree exactly when all of that agrees |
| Approval.FingerprintExactly | src/core/approval-contract.js:225-269 | a fingerprint is made exactly for an approval that is asked for, as of its decision and before its expiry |
| Approval.TicketMeans | src/core/approval-contract.js:271-323 | a stored ticket is accepted exactly if it expires after it was made and its answer fits its status and revision |
| Approval.CreatedTicket | src/core/approval-contract.js:325-360 | when a ticket is made, and what it carries of decision, invocation and times |
| Approval.ResolvedTicket | src/core/approval-contract.js:405-436 | an answer is written into the ticket as given, and nothing else of it changes but revision and status |
| Approval.AnsweredOnce | src/core/approval-contract.js:405-466 | an answered ticket is answered once; approved, its own request passes from the answer on; denied, none ever does |
| Approval.ResolvedOnlyForItsOwn | src/core/approval-contract.js:405-436 | a pending ticket is answered exactly for its own decision, invocation, id and revision, and within its time |
| Approval.ApprovedOnlyForItsOwn | src/core/approval-contract.js:449-466 | an approved ticket passes the resume check exactly for its own decision and invocation, not before its approval |
| RoutePool.CandidatesAreExact | src/core/ai-route-pool.js:356-402 | with switching on the candidates are exactly the eligible routes not blocked, in strictly ascending rank |
| RouteChoice.CandidateExactly | src/core/ai-route-pool.js:356-400 | said of the fields, a route is a candidate exactly if it is enabled, allowed, not denied, affordable, local enough, within both price caps, of the role, capable, able to see where asked, the pinned one if one is pinned, and neither backing off nor behind an open circuit |
| RouteChoice.CandidatesByPreference | src/core/ai-route-pool.js:372-392 | candidates come in the owner's order first, then by higher priority, shorter measured latency, and id |
| RoutePool.SingleCandidateIsBest | src/core/ai-route-pool.js:401-401 | with switching off the candidate is the best of those |
| RoutePool.PoolOrderIsIrrelevant | src/core/ai-route-pool.js:356-402 | the selection depends on which routes the pool holds, not on their order |
| RoutePool.RetryAtIsTheFirstChance | src/core/ai-route-pool.js:394-401 | a retry time is given exactly when routes are eligible and all blocked, and the same request finds a candidate from then on and not before |
| RoutePool.FailuresBlock | src/core/ai-route-pool.js:452-490 | after a retryable failure a route waits out the backoff, and the open circuit once enough outcomes in a row failed; a success frees it |
| RouteChoice.BlockedExactly | src/core/ai-route-pool.js:452-490 | the exact time a route is free again after each outcome: at once after a success, unchanged by a failure not worth a retry, after backoff and open circuit otherwise |
| RouteChoice.CountersCount | src/core/ai-route-pool.js:452-490 | successes and failures count the outcomes, and the latency is the last one measured |
| WorkerAllocation.RoundRobin | src/core/ai-route-pool.js:435-447 | the loop ends, assigns the lesser of the target and the sum of the caps, and its shares are max-min fair with ties to the better rank |
| WorkerAllocation.FairIsUnique | src/core/ai-route-pool.js:435-447 | there is only one such fair share |
| WorkerAllocation.FairIsMaxMin | src/core/ai-route-pool.js:435-447 | any other share that gives somebody more takes it from somebody who would then have less than that |
| WorkerAllocation.TakeInOrder | src/core/ai-route-pool.js:423-433 | the manual loop assigns the lesser of the target and the configured sum, as a prefix of full routes |
| WorkerAllocation.GreedyIsUnique | src/core/ai-route-pool.js:423-433 | there is only one such prefix share |
| WorkerAllocation.AllocateWorkers | src/core/ai-route-pool.js:404-450 | every selected route gets its share, every other route none, and assigned plus unassigned is the target |
| WorkerAllocation.TargetMeans | src/core/ai-route-pool.js:404-409 | the target is what is asked for, in automatic mode at least the minimum once anything is, and never more than run at once |
| WorkerAllocation.CapMeans | src/core/ai-route-pool.js:423-442 | a route takes its own limit if it has one, else all that run at once, in manual mode the lesser of its limit and what the owner wrote, none if nothing |
| PolicyBinding.CreationEndsNormal | src/core/agent-model-policy-binding.js:482-581 | creation is refused by its own checks or not at all: the closing normalization never adds a refusal and changes nothing |
| PolicyBinding.ProjectionIsNormal | src/core/agent-model-policy-binding.js:225-265 | what the projection returns is canonical in authority order and passes the check of a durable binding |
| PolicyMeaning.AcceptedExactly | src/core/agent-model-policy-binding.js:225-581 | a grant is accepted if and only if request and parent belong together, every written field is valid and loosens nothing of the parent's, the written lists fit the agent's reach, some route is in effect, and a pinned route is among them |
| PolicyMeaning.EffectiveExactly | src/core/agent-model-policy-binding.js:225-265 | a route is in effect if and only if it is in the pool, the owner's list and the parent's effective routes, allowed by a written list that is not empty, and not denied by a written list |
| PolicyMeaning.FieldsExactly | src/core/agent-model-policy-binding.js:267-300 | every other field of the binding is the one written, else the parent's, else the default |
| PolicyMeaning.PreferenceExactly | src/core/agent-model-policy-binding.js:255-300 | the preference order is the one written, else what the parent's leaves in reach, else empty |
| PolicyMeaning.ListsInPoolOrder | src/core/agent-model-policy-binding.js:218-265 | authority, allow, deny and effective lists are in pool order |
| PolicyMeaning.BindingMeans | src/core/agent-model-policy-binding.js:332-480 | said of its fields, a stored binding is accepted exactly if its lists are in authority order, what is denied or preferred is allowed, in effect is exactly what is allowed and not denied, a pinned route is among it, and the key names all of it |
| PolicyChain.EffectiveIsGranted | src/core/agent-model-policy-binding.js:520-545 | an effective route is in the owner's list, in the pool and among the parent's effective routes |
| PolicyChain.ChainNarrows | src/core/agent-model-policy-binding.js:225-330 | along a chain of any length routes are only lost and limits only get stricter |
| PolicyChain.ChainNarrowsEligibility | src/core/agent-model-route-candidate-binding.js:120-129 | for every role, capability set, vision flag and route state, a route an agent may use is one every agent above it may use |
| PolicyChain.CreatedAgain | src/core/agent-model-policy-binding.js:482-581 | creating a binding again from its own authority list gives the same binding and key, from any pool that keeps its routes in order, exactly when the pool still knows the parent's routes |
| PolicyChain.CreatedAgainFromItsOwnPool | src/core/agent-model-policy-binding.js:482-581 | so it does from its own pool |
| PolicyChain.RankedCandidatesAreBound | src/core/agent-model-route-candidate-binding.js:137-292 | a candidate offered to an agent is in its binding, among its parent's routes, available, and eligible under limits as strict as the parent's |
| PolicyUse.UsableExactly | src/core/agent-model-route-candidate-binding.js:137-250 | a binding may be used exactly if it is a good one of the current pool revision, its routes are still listed in order, its parent's binding comes with it if and only if it has one, and the same grant would make it again |
| PolicyUse.OfferedByPreference | src/core/agent-model-route-candidate-binding.js:120-292 | the routes offered come in the binding's own order of preference |
| PolicyChain.FreshBindingIsAccepted | src/core/agent-model-route-candidate-binding.js:180-245 | in its pool revision a binding is accepted exactly while its parent's routes are known, whatever else the pool gained |
| StrongLimiter.GuardMeansRoom | src/core/ai-orchestrator.js:259-272 | the guard lets an automatic strong pass through if and only if fewer passes than allowed were completed in the last sixty minutes and each completed one is at least the minimum gap ago, in spite of the day and the thousand entries the record is cut to |
| StrongLimiter.AnyHourHolds | src/core/ai-orchestrator.js:259-272 | without manual passes no sixty minutes hold more completed strong passes than allowed |
| StrongLimiter.RunsAreRecorded | src/core/ai-orchestrator.js:586-601 | what the record forgets is a day old, or the record is full |
| StrongLimiter.ShutUntilRetry | src/core/ai-orchestrator.js:259-272 | the guard stays shut until the retry time it names |
| StrongLimiter.RetryIsWorthwhile | src/core/ai-orchestrator.js:259-272 | nor is that time too early: it lies ahead, and by then the gap is over or a pass has left the hour |
| StrongLimiter.RunsAreCounted | src/core/ai-orchestrator.js:586-601 | the record counts the completed runs and keeps the time of the first |
| Orchestrator.RunState.PerformInvoke | src/core/ai-orchestrator.js:341-438 | one attempt adds to the trace nothing, exactly when the ceiling or a missing lifecycle turns it away, a refused reservation, or one gateway call, with a budget between its own bound reservation and its settlement; it succeeds exactly when that call did and was settled, counts exactly that call, and leaves the route states alone |
| Orchestrator.RunState.PerformCallOn | src/core/ai-orchestrator.js:439-491 | the failover loop, as the specified recursion over the candidates |
| Orchestrator.RunState.Execute | src/core/ai-orchestrator.js:493-585 | the whole run in every mode, as the specified function of settings, request and outside world |
| OrchestratorModes.ForcedRun | src/core/ai-orchestrator.js:526-528 | a forced run, and every run in the strong-only mode, is one call of the strong model and returns its answer alone |
| OrchestratorModes.AnsweredRun | src/core/ai-orchestrator.js:564-585 | after an answer of the primary model the strong one is called exactly when the guard allows it, the answer left output to spend, and the mode asks for it: automatic by the escalation marker, by rules when the request count or the elapsed minutes are due; both answers are returned if it succeeds, the first alone or an error, as the owner keeps it or not, if it fails |
| OrchestratorModes.FailedRun | src/core/ai-orchestrator.js:529-563 | after a failure of the primary model the strong one is called exactly when the failure is not known to be the lifecycle's nor marked final, fallback is on, a strong model is configured and the guard allows it |
| OrchestratorRoutes.CalledExactly | src/core/ai-orchestrator.js:341-390 | an attempt calls the gateway exactly when the ceiling has room and, with a budget, the reservation is granted, for the browser agent with a receipt naming its own job, epoch, call number and route |
| OrchestratorRoutes.FailoverExactly | src/core/ai-orchestrator.js:461-490 | the next route is tried exactly after a provider failure worth a retry that was settled and recorded while switching is on; an answer ends the call; each outcome is recorded for its own route only |
| OrchestratorRoutes.StoppedForGood | src/core/ai-orchestrator.js:475-488 | a provider failure that ends a call lets the strong model take over exactly if it was worth a retry or could not be marked on its route |
| OrchestratorRoutes.RunGoesWhereAllowed | src/core/ai-orchestrator.js:439-585 | every gateway call of every run goes to a configured slot, or to a route of the pool that policy and request accept for the role of the primary or of the strong model |
| OrchestratorTrace.RunIsSound | src/core/ai-orchestrator.js:307-585 | in every run reservations are numbered 1, 2, 3, ..., each bound to the call that follows and settled once; calls stay within the ceiling, and the reported count is the number of gateway calls |
| OrchestratorTrace.EveryCallIsReserved | src/core/ai-orchestrator.js:341-438 | with a budget every gateway call stands between its own bound reservation and one settlement attempt |
| OrchestratorFailures.CallAfterFailureExactly | src/core/ai-orchestrator.js:330-585 | in every run a gateway call follows a refused reservation or a failed settlement if and only if the primary call ended with one thrown as a bare value, or as a locked object with no route pool or with the failing route's counters full, and fallback is on, a strong model is configured, the guard allows it, and its first attempt reaches the gateway |
| OrchestratorFailures.BareRefusalIsFollowedByACall | src/core/ai-orchestrator.js:335-340 | the trace of a run in which a bare refusal is followed by a gateway call |
| OrchestratorTrace.StrongAttemptsAreGuarded | src/core/ai-orchestrator.js:493-585 | a run nobody forced tries the strong model, successfully or not, only while the completed strong passes of the series before it leave room in the hour and the gap to each of them is over |
| OrchestratorTrace.StrongPassesPerHour | src/core/ai-orchestrator.js:259-601 | a series of completed runs without manual passes stays within the hourly limit of completed strong passes |
| CostMeter.DecimalFractionIsExact | src/core/ai-cost-meter.js:147-165 | the fraction read from a price's text is exactly the price, in plain and exponent form; only exponents beyond a thousand are refused |
| CostMeter.BilledIsLeast | src/core/ai-cost-meter.js:167-175 | a bill is the least whole number of micros not below tokens times price, and is refused exactly when that is no safe integer |
| CostMeter.SplittingNeverSaves | src/core/ai-cost-meter.js:167-175 | splitting usage over two records never lowers the bill |
| CostMeter.BillingIsMonotone | src/core/ai-cost-meter.js:167-175 | more usage is never cheaper, nor billable where less is not |
| CostMeter.AggregateCostRecords | src/core/ai-cost-meter.js:335-358 | succeeds exactly for valid records with distinct invocations whose totals are safe integers, and returns those totals |
| CostMeter.TotalsAreSums | src/core/ai-cost-meter.js:335-358 | each total is the sum of its own field over the records, and the calls are their number |
| CostMeter.RecordMeans | src/core/ai-cost-meter.js:167-272 | a record is accepted exactly if it is one call with counted tokens and readable prices within the cap, and costs the two least amounts not below input and output price, or nothing on a free route |
| CostMeter.AggregateBounds | src/core/ai-cost-meter.js:335-358 | an aggregate never falls below the exact cost and exceeds it by less than two micros a record |
| Submission.Draft.ApplyInteractionResult | src/core/execution.js:7-182 | no page answer rearms an operation, forgets its started send, or fails it safe after one; it is sent only on the page's word, gets its deadline at most once, and stays untouched by a review or limit that belongs to another task; a session its owner stopped or paused stays so, and only one with manual retries is held |
| Submission.Draft.SettleExpiredOrdinaryAmbiguous | src/core/automatic-executor.js:467-523 | exactly the expected uncertain operation ends failed safe, its send history intact; nothing can be sent from there, and the next attempt waits for the earlier retry time, five seconds and the send cadence, whichever is latest; any other session is left alone |
| Submission.Draft.MarkSubmitting | src/core/runner.js:125-140 | the checkpoint passes exactly for the active session's operation that has waited out its delay; it records when the send began, changes nothing else, and passes for nothing afterwards, at no time |
| Submission.Draft.CloseSubmission | src/core/runner.js:142-207 | a send ends sent exactly on the page's word, failed safe and as if never started exactly on the proof that it had no effect, and otherwise uncertain, remembered as started, with a deadline 15 to 120 seconds away unless it had one, and a check no later than it; nothing can be sent from there |
| Submission.Draft.ReconcileForStartup | src/core/recovery.js:91-124 | after a restart no send is half done and no session runs unrecovered; only what was waiting to be sent may still be sent; a started send is failed safe only under the lease's proof; other operations, unattended holds aside, are left alone |
| SubmissionRuns.AnswersNeverRearm | src/core/execution.js:7-182 | no page answer puts an operation back in front of a send by itself |
| SubmissionRuns.StepKeepsInv | src/core/automatic-executor.js:467-988 | every step of the executor and of the cycle around it, a crash or another writer keeps: only an operation whose sends were all answered as not sent may be sent |
| SubmissionPhases.PhasesExactly | src/core/automatic-executor.js:467-988 | for every step of the executor, the exact conditions under which an operation comes to wait for its send, is being sent, counts as sent, is given up, becomes uncertain, or is held for review |
| SubmissionPhases.RearmedExactly | src/core/automatic-executor.js:632-690 | a verification gives an operation back its send if and only if it is still this uncertain one, the page says inserted and not sent, and the deadline has not come |
| SubmissionPhases.LateAnswer | src/core/automatic-executor.js:572-640 | at or past the deadline, without the word that it was sent: held for review with manual retries, verified on with a later deadline when managed, given up otherwise |
| SubmissionPhases.TimelyAnswer | src/core/automatic-executor.js:632-700 | what each answer in time does to an uncertain send |
| SubmissionPhases.PreparedExactly | src/core/automatic-executor.js:747-808 | a ready page leads to the durable mark only while the operation waits in an active session; inserted text waits at least half a second more |
| SubmissionPhases.StartsExactly | src/core/automatic-executor.js:828-850 | what a cycle sets out to do, for every phase, run state, retry time and rate limit |
| SubmissionPhases.GivingUpWaits | src/core/runtime-execution.js:420-461 | giving up before a send makes the next attempt wait out the backoff, of at least a second |
| SubmissionPhases.DeadlineMeans | src/core/automatic-executor.js:534-541 | a deadline counts from the operation's own record, never from the clock where there is one |
| SubmissionCycles.CyclesInOrder | src/core/automatic-executor.js:747-988 | in every run a send is requested only after this cycle found the page ready and passed the mark, and an operation begun, recorded ready and inserting only in that order after a check that found the page ready |
| SubmissionRuns.NeverSentTwiceBlindly | src/core/automatic-executor.js:467-988 | in every run two requests to send for one operation are separated by the answer, for that operation, that it is inserted and not sent |
| SubmissionRuns.ExpiredIsSettled | src/core/automatic-executor.js:525-836 | a step at or after the deadline of an unattended, unmanaged uncertain send sets out to settle it if and only if the session is active and the profile is not rate limited; it then ends failed safe with no page answer, unless another writer moves it or the worker dies before the next update |
| SubmissionRuns.DeadlineStands | src/core/automatic-executor.js:525-700 | however often it is verified, such an operation keeps its deadline |
| SubmissionRuns.UncertainHasADeadline | src/core/execution.js:55-92 | an unattended send that comes back uncertain gets a deadline between 15 and 45 seconds away |

## Left out

- Chrome tabs, alarms, storage and messages, network requests, the native host and the service worker's wiring.
- Property descriptors, prototypes, symbols, freezing, text and id patterns, trimming: values arrive already checked.
- SHA-256 and Web Crypto: a digest is any function, assumed collision-free where a theorem says so.
- Time zone resolution: a zone is any map that obeys `ZoneLaws`, and an unresolvable wall time is the error it is in the code.
- One-time and explicit-date schedules, the legacy revision hash itself, and calendar dates as text (days are numbers).
- TextDiff.BuildTextDiff: the plain-text rendering is not built, so a diff refused only for the size of its rendering (src/core/artifact-text-diff.js:277-279) succeeds here.
- The plain-text rendering of a diff, and the byte length and digest checks of its material.
- Comparing two versions and listing an artifact's versions: they only read what the getters read.
- Which of several errors is raised first, except where a row says so.
- TextDiff.LcsMatrix: asks for one side below 65536 lines, far above the 1024 the program allows.
- CalendarRuntime.CalendarSession.CalendarAdmission: with catch-up off a slot is due only at its own instant, so nothing is claimed about every such slot being run.
- Calendar.ShortSearchIsFullSearch: an unresolvable slot before the short search's first day stops only the full enumeration.
- RoutePool: the endpoint, model and prompt texts of a route, error classification by text, and the worker policy's own validation.
- Orchestrator: prompt assembly, output texts and usage sums beyond the output ceiling; a provider error thrown with its own call count.
- StrongLimiter.GuardMeansRoom: needs a positive clock that never goes back, as a clock that does can hide earlier passes.
- CostMeter: routes, providers and models of a record, and its timestamp.
- SubmissionRuns.NeverSentTwiceBlindly: one flow a session, as the service worker keeps a single execution cycle in flight; two flows could each hold an old answer. Operation ids are fresh, as they contain the growing state revision.
- Submission: the retry time is the operation's task's; the answer to a check of another task moves that task's time in the program and the same one here, and a cycle held back by the calendar or by a missing execution permission makes no step.
- Submission: leases, logs, tab cleanup, rate limit settings, the session's other tasks and the text of task states.
- Other writers are any change that drops the operation, keeps its phase, or makes it uncertain, failed safe, held for review or verified.
