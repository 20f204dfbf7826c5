# LaCrew: a verified model of the cores that decide, claim and translate

LaCrew runs crews of software agents on an organisation chart whose spending is policed onchain. Five
small cores of the repository carry promises that no single function body shows:

- **Cadence.** A five-field cron expression is parsed and matched in a time zone, its smallest gap is held
  to a floor of ten minutes, and replicas claim a firing minute by inserting a row. Together: a crew's
  checklist runs at most once per minute it fires and at most ceil(n / 10) times in any n minutes, as long
  as no sweep commits after a prune that may have dropped its minute.
- **Escalation.** A static walk over what was read of a policy stack claims that a later call cannot be
  ALLOWed; on the strength of that claim a session key is stripped of settlement authority. The walk is
  proved sound against a step semantics of the deployed modules, exact where everything was read, and the
  stripping is proved invisible to the caller.
- **Run state and metering.** Workers, operators and pruners share tables through single SQL statements.
  Every interleaving keeps one waker per parking, the operator's request, the delegation link, a cursor
  that agrees with its checkpoints, and counters that lose nothing.
- **Seats.** Blueprint roles are matched to accounts by stored id first and unique label second. The matcher
  is injective, every outcome is explained by what was claimed at its turn, and persisting the outcome
  makes it survive any renaming.
- **Printers and readers.** Flow definitions are printed as builder code and run again; root challenge
  statements are printed and checked before they are signed. Both round trips are proved, together with
  exactly what each loses or refuses.

## How the model is laid out

One module per source file, with theorems that span files in modules of their own.

| file | models |
|---|---|
| `Cron.dfy`, `CronClock.dfy` | parser, matcher and gap of `packages/flows/src/cron.ts`, and the match hand by hand |
| `Heartbeat.dfy` | validation, quiet hours, due decision of `packages/flows/src/heartbeat.ts` |
| `TickLedger.dfy`, `Cadence.dfy` | the tick table of `packages/db/src/heartbeat.ts`, and runs of replicas over it |
| `Policy.dfy` | the policy contracts and their state over time |
| `Escalation.dfy`, `SessionScopes.dfy` | `packages/core/src/types.ts` and the router that reads its masks |
| `FlowRunStore.dfy`, `FlowRuns.dfy` | `packages/db/src/flows.ts`, and every interleaving of its statements |
| `Metering.dfy` | `packages/db/src/budgets.ts` |
| `CrewSeats.dfy`, `CrewBindings.dfy`, `CrewExternal.dfy`, `SeatRename.dfy` | the seat resolvers of `packages/flows/src` and the rename theorem across them |
| `FlowBuilders.dfy`, `Camel.dfy`, `FlowCode.dfy` | `packages/flows/src/builder.ts` and `packages/flows/src/codegen.ts` |
| `RootAuth.dfy` | the statements of `packages/core/src/rootAuth.ts` |
| `Text.dfy`, `Maybe.dfy` | trimming, splitting, decimal numerals, sorting; optional values |

Code that changes things step by step is a method or a class here, tied by its `ensures` to a function of
the old state; the properties are lemmas about that function. Each SQL statement is one atomic step, a
replica is nothing but a source of steps, and a run is any sequence of steps.

Five readings of the source matter for the statements:

- The cron matcher requires all five fields to match. It does not join day of month and day of week by
  "or" as some cron implementations do (`CronClock.MatchesHandByHand`).
- Text after a second slash of a cron term is ignored by the parser (`*/5/x` is `*/5`), and a bare number
  with a step runs to the end of the range (`5/10` is `5-59/10`). The header comment of the file names
  neither; the model follows the code.
- "A stored role id always wins" is not what the resolver does: an earlier role may take the account by its
  label. `CrewSeats.StoredIdWinsExactly` says when it wins and `CrewSeats.LabelTakesStoredAccount` shows a chart
  where it loses.
- The printer leaves out not only a step's canvas data, as `packages/flows/src/types.ts:90` says, but also its `note` and
  `idempotent`. A step that declared it may be run twice comes back from its code without that declaration.
- The printed code does not load for every id. The exported constant is named after the id, and `new`, `flow`
  and every id without a Latin letter, digit or underscore give a name the module cannot declare beside its import.
  `FlowCode.CodeRoundTrip` therefore says exactly when the round trip holds, through `FlowCode.Loads`.

`dafny verify dfyconfig.toml` checks the whole project.

## Model

| member | source | states |
|---|---|---|
| `Cron.ParseField` | packages/flows/src/cron.ts:16-42 | the loops compute exactly the field's value set, and nothing when any comma part is malformed |
| `Cron.AddSteps` | packages/flows/src/cron.ts:39-39 | the stepping loop adds every value a whole number of steps from the start, no other, with 7 folded to Sunday |
| `Cron.FieldMeetsGrammar` | packages/flows/src/cron.ts:16-42 | a field is accepted with a set exactly when it is a comma list of admissible terms whose meaning is that set |
| `Cron.FieldBounds` | packages/flows/src/cron.ts:38-41 | an accepted field is non-empty and inside its bounds, and 7 never survives in the day of week |
| `Cron.ParseCron` | packages/flows/src/cron.ts:45-55 | the five-field loop yields the five sets or refuses |
| `Cron.CronMeetsGrammar` | packages/flows/src/cron.ts:45-55 | the parser accepts exactly the five-field grammar, whatever white space surrounds the fields, and each set is what its field denotes |
| `CronClock.MatchesHandByHand` | packages/flows/src/cron.ts:61-73 | an expression matches a minute exactly when it is five fields and each one, by the terms it is written with, covers its own hand of the clock: minute, hour, day, month and weekday, Sunday written 0 or 7 |
| `CronClock.OneHandForbids` | packages/flows/src/cron.ts:136-148 | one hand its field does not cover is enough for no match, day of month and day of week alike |
| `CronClock.SetsFitTheClock` | packages/flows/src/cron.ts:8-14 | the parsed sets hold only what the five hands can show |
| `CronClock.ReachedByStep` | packages/flows/src/cron.ts:39-39 | the values the stepping loop reaches are those a multiple of the step away from its start |
| `Cron.TrimmedSame` | packages/flows/src/heartbeat.ts:146-150 | validating the trimmed text and scheduling the raw text read the same sets |
| `Cron.CronMinuteGap` | packages/flows/src/cron.ts:159-173 | the result is the least wait between two firing minutes of the hour, 60 for one minute, and is absent exactly when parsing fails |
| `Cron.SmallestStep` | packages/flows/src/cron.ts:168-172 | the loop over sorted minutes bounds every neighbouring pair and the wrap past the hour, and is attained by some pair |
| `Cron.GapIsLowerBound` | packages/flows/src/cron.ts:150-158 | two firing minutes of a valid expression are at least the gap apart, whatever the other four fields say, in every zone with a steady minute hand |
| `Cron.GapIsAttained` | packages/flows/src/cron.ts:150-158 | with the other fields wildcards, after any start some two firing minutes are exactly the gap apart |
| `Cron.GapAcrossShift` | packages/flows/src/cron.ts:136-158 | in a zone put forward or back once by d minutes the gap still holds, whatever the other fields say, when no minute moved by d is followed by another within the gap |
| `Cron.GapLostAcrossShift` | packages/flows/src/cron.ts:136-158 | for every other minute set, with the other fields wildcards, some zone moved once by d has two firing minutes closer than the gap |
| `Heartbeat.ClockReads` | packages/flows/src/heartbeat.ts:128-133 | a text reads as minute m exactly when, trimmed, it is the clock face of m |
| `Heartbeat.QuietIsArc` | packages/flows/src/heartbeat.ts:245-247 | the two-branch comparison is membership in the arc of the day from start to end |
| `Heartbeat.QuietMinutes` | packages/flows/src/heartbeat.ts:238-248 | a day has exactly (end - start) mod 1440 quiet minutes, and swapping the ends gives the exact complement |
| `Heartbeat.InQuietHoursIsArc` | packages/flows/src/heartbeat.ts:238-248 | a configured, readable window is quiet exactly on its arc; an unreadable one never is |
| `Heartbeat.ValidateHeartbeat` | packages/flows/src/heartbeat.ts:142-197 | exactly the faults of the configuration are reported, and it is accepted exactly when there is none |
| `Heartbeat.AcceptedExactly` | packages/flows/src/heartbeat.ts:142-197 | a configuration is accepted exactly when it meets every requirement at once: crew, parsed schedule with minutes ten apart, known zone, readable quiet hours, work when on and at most twenty items, well-formed items and principal |
| `Heartbeat.ItemComplaints` | packages/flows/src/heartbeat.ts:182-190 | each checklist item's faults are reported with its index, and no others |
| `Heartbeat.AcceptedIsSparse` | packages/flows/src/heartbeat.ts:101-110 | an accepted configuration parses and no two of its minutes are closer than the ten-minute floor |
| `Heartbeat.DueAsWritten` | packages/flows/src/heartbeat.ts:262-281 | due exactly when on, with work, every field of the schedule's text covering its hand of the wall clock, and off the arc between the two clock faces; otherwise the reason is the first of off, no work, quiet, not scheduled |
| `TickLedger.CrewHeartbeatTicks.ClaimCrewHeartbeatTick` | packages/db/src/heartbeat.ts:94-116 | the insert wins exactly when the key was free, the key is taken afterwards, and no row that was there changes |
| `TickLedger.CrewHeartbeatTicks.SettleCrewHeartbeatTick` | packages/db/src/heartbeat.ts:118-145 | the named row gets its outcome and finish and keeps its start; no other row changes, appears or goes |
| `TickLedger.CrewHeartbeatTicks.PruneCrewHeartbeatTicks` | packages/db/src/heartbeat.ts:168-174 | a row stays, as it is, exactly when it started no earlier than the cutoff; none appears |
| `Cadence.EachMinuteAtMostOnce` | packages/db/src/heartbeat.ts:94-116 | over any interleaving of sweeps, redeliveries, manual runs, settles and prunes, on clocks that need not agree, no minute's tick is won twice, provided no sweep of the crew commits after a prune that may have dropped its minute |
| `Cadence.ExactlyTheDispatchedMinutes` | packages/orchestrator/src/heartbeat.ts:555-594 | from an empty table the minutes won are exactly those some sweep found due and claimed |
| `Cadence.TickBound` | packages/flows/src/heartbeat.ts:101-110 | under the same proviso, in a zone with a steady minute hand, an accepted schedule wins at most ceil(n / 10) ticks in any n consecutive minutes, each once, whatever else of the heartbeat is edited on the way |
| `Cadence.TickBoundAcrossShift` | packages/flows/src/heartbeat.ts:101-110 | the same bound in a zone put forward or back once, for minutes that keep the floor across the shift |
| `Cadence.SpacedCount` | packages/flows/src/heartbeat.ts:101-110 | a set spaced by the floor has at most ceil(n / 10) members in n minutes |
| `Cadence.PruneBetweenRepeats` | packages/db/src/heartbeat.ts:168-174 | between two sweeps of a due minute a prune lets it be won again exactly when its clock is past the first claim by more than the retention |
| `Cadence.LateRedeliveryRepeats` | packages/db/src/heartbeat.ts:168-174 | with clocks in order, a redelivery later than the retention wins its minute again |
| `Cadence.PruneAheadRepeats` | packages/db/src/heartbeat.ts:168-174 | a prompt redelivery does too, when a pruner whose clock ran ahead committed first |
| `Policy.LeavesDecide` | contracts/src/policies/PolicyStack.sol:26-39 | a tree of modules denies when some leaf denies, escalates when some leaf escalates and none denies, and allows otherwise |
| `Policy.OneDenialDecides` | packages/core/src/types.ts:299-302 | a target off a whitelist or a time outside a window denies the whole stack, whatever else is in it |
| `Policy.AllowanceIsSpent` | contracts/src/policies/RateLimitPolicy.sol:54-82 | after k actions in a fresh window a rate limit escalates exactly when its allowance is spent and the window has not lapsed |
| `Escalation.EscalationIsSound` | packages/core/src/types.ts:287-333 | a proof from a faithful, possibly partial read stands: at every time up to the margin and after any events that do not raise the agent's own cap to the call's value, the stack does not ALLOW |
| `Escalation.StaysStuck` | packages/core/src/types.ts:335-357 | recording more actions, waiting up to the deadline, any foreign change and any other cap write keep a forcing module forcing |
| `Escalation.ProvenExactly` | packages/core/src/types.ts:308-357 | from any faithful read, however partial, and for every margin, the walk is true exactly when some spend cap or rate limit that was read escalates as the margin runs out |
| `Escalation.EscalationIsExact` | packages/core/src/types.ts:308-357 | with everything read, for every margin, the walk is true exactly when some leaf escalates as the margin runs out, hence decides the stack's verdict then wherever no leaf denies |
| `Escalation.EscalationIsTheVerdict` | packages/core/src/types.ts:308-357 | on fully read trees of spend caps and rate limits, for every margin, the walk is true exactly when the stack escalates as the margin runs out |
| `Escalation.ProofSpansTheMargin` | packages/core/src/types.ts:276-285 | on such trees the walk is true exactly when the stack escalates at every moment from the read to the end of the margin |
| `Escalation.LoneCapExactly` | contracts/src/policies/SpendCapPolicy.sol:38-59 | after any events a lone spend cap allows the call exactly when the cap last written for the agent, or else the one it had, covers the value |
| `Escalation.CapRaiseBreaksTheProof` | packages/core/src/types.ts:317-325 | a proven call is let through by one cap write exactly when the new cap covers it |
| `SessionScopes.SessionScopeMask` | packages/core/src/types.ts:251-262 | either every name is known and the mask is theirs, or the first unknown name is refused |
| `SessionScopes.MaskHolds` | packages/core/src/types.ts:251-262 | a scope's bit is set exactly when the scope was listed |
| `SessionScopes.NamesHeld` | packages/core/src/types.ts:234-262 | the mask of known names has bit 0 exactly when `propose:intent` is listed, bit 1 exactly when `spend:whitelist` is, and no other |
| `SessionScopes.MaskRoundTrip` | packages/core/src/types.ts:264-267 | decoding an encoded list gives its scopes, each once and in canonical order |
| `SessionScopes.KnownBits` | packages/core/src/types.ts:264-267 | encoding a decoded mask keeps its two known bits and drops every other |
| `SessionScopes.NarrowingIsSubset` | packages/core/src/types.ts:359-380 | narrowing never adds a scope, never empties a list, and drops settlement exactly when escalation is proven and proposing is left |
| `SessionScopes.NarrowedExactly` | packages/core/src/types.ts:359-380 | a proven list that can propose keeps exactly its proposing entries; any other list stands as it is |
| `SessionScopes.NarrowingIsUnobservable` | packages/core/src/types.ts:359-380 | when escalation is proven and the agent's cap is not raised to the call's value meanwhile, a propose with the narrowed key ends as it would with the standing key, revert data included, at every time of the margin |
| `SessionScopes.NarrowedIsIssuable` | contracts/src/SessionRegistry.sol:220-220 | the narrowed mask can be issued exactly when the standing one can |
| `SessionScopes.ProposeOutcomes` | contracts/src/EscalationRouter.sol:136-183 | an admitted call becomes an intent exactly on ESCALATE with an approver, and settles exactly on ALLOW unless the key lacks settlement; admission is spelled out |
| `SessionScopes.NarrowingShowsOnAllow` | contracts/src/EscalationRouter.sol:159-166 | on an ALLOW the narrowed key is refused where the standing key settles, so the proof is needed |
| `FlowRunStore.FlowStore.UpsertFlowRunState` | packages/db/src/flows.ts:173-221 | column by column: a row that is there takes flow, status, principal, trigger, cursor, state, pause, attempt and update time and keeps its request, link and start; a new row takes every column with no request; no other row changes; it fails, changing nothing, exactly when another row has the same parent run and step |
| `FlowRunStore.FlowStore.ClaimWaitingFlowRun` | packages/db/src/flows.ts:260-280 | returns the row exactly when it was waiting; then only its status, request and update time changed, and no other row; otherwise nothing did |
| `FlowRunStore.FlowStore.SetFlowRunAttempt` | packages/db/src/flows.ts:282-292 | the named row gets the attempt; every other column but the update time, and every other row, is as it was |
| `FlowRunStore.FlowStore.SetFlowRunRequest` | packages/db/src/flows.ts:294-304 | the named row gets the request; every other column but the update time, and every other row, is as it was |
| `FlowRunStore.FlowStore.RecordFlowCheckpoint` | packages/db/src/flows.ts:333-398 | both tables move together, column by column, or neither when the transaction does not commit: the run's status, cursor, state, pause and attempt move and nothing else of it; a new run has no link; a checkpoint of the same number is overwritten but for its flow |
| `FlowRunStore.FlowStore.PruneFlowRunState` | packages/db/src/flows.ts:423-451 | exactly the rows completed, failed, cancelled or out of steps and older than the cutoff go, with their checkpoints and no others, and are counted |
| `FlowRuns.SingleWaker` | packages/db/src/flows.ts:260-280 | in every interleaving the winning claims on a run, plus one if it waits now, never exceed the writes that parked it |
| `FlowRuns.LosingClaimsAreSilent` | packages/db/src/flows.ts:266-268 | a whole run ends, and wakes each run as often, as it would had its losing claims never been made |
| `FlowRuns.LiveRunsSurvive` | packages/db/src/flows.ts:423-431 | over any run, however many pruners with whatever cutoffs, a row that nobody ended stays and stays unended |
| `FlowRuns.RecentRowsSurvive` | packages/db/src/flows.ts:432-440 | ended or not, a row written no earlier than every cutoff outlives all the prunes |
| `FlowRuns.IntentAndLinkSurvive` | packages/db/src/flows.ts:173-183 | over any run a row's request starts unset and is what operators and winning claims last made it, and its parent link is the inserting upsert's, or none when a checkpoint announced it, until the row is pruned |
| `FlowRuns.DelegationIsUnique` | packages/db/src/flows.ts:223-230 | in every reachable state no step of a run has delegated two runs |
| `FlowRuns.CheckpointAndCursorAgree` | packages/db/src/flows.ts:333-340 | for a run whose cursor moves only by checkpoints that name it and do not go back, and that is not announced over leftovers of a prune, in every reachable state, aborted transactions and cut-short prunes included, the cursor is the next step of the highest checkpoint; other runs may do anything |
| `FlowRuns.PruneNeverStrips` | packages/db/src/flows.ts:423-451 | for a run that is not announced over leftovers of a prune, no step of any run takes a checkpoint from its surviving row |
| `FlowRuns.StripsExactly` | packages/db/src/flows.ts:442-449 | a step takes a checkpoint from a row that survives it exactly when it is the second delete of a pruner that holds the run |
| `FlowRuns.NeverPrunedIsClean` | packages/db/src/flows.ts:442-449 | a run that was never pruned has no leftovers, so the proviso is met when pruned ids are not announced again |
| `FlowRuns.ReinsertionStrips` | packages/db/src/flows.ts:442-449 | announcing a pruned run again between the prune's two deletes loses its new trail, so that hypothesis is needed |
| `Metering.InferenceMeter.AddInferenceUsage` | packages/db/src/budgets.ts:118-168 | one statement adds the call to each counter of its own row and touches no other; the row returned is the row it left |
| `Metering.InferenceMeter.ClaimInferenceAlert` | packages/db/src/budgets.ts:198-219 | the caller wins exactly when the state stood where it says; then only that row's state moves, and counters never do |
| `Metering.MeteringConserves` | packages/db/src/budgets.ts:118-126 | under any interleaving every counter is what it was plus the sum over all calls of its key |
| `Metering.ReturnedRowsArePrefixSums` | packages/db/src/budgets.ts:118-126 | the row a caller gets back is the total of every call served up to and including its own |
| `Metering.OneCallerCrosses` | packages/db/src/budgets.ts:118-126 | for every limit and every metered dimension exactly one call crosses it when the run as a whole does, and none otherwise |
| `Metering.AlertsBalance` | packages/db/src/budgets.ts:198-202 | winning departures from an alert state plus one if it stands now equal its arrivals plus one if it stood before |
| `Metering.AlertFiresOnce` | packages/db/src/budgets.ts:198-202 | while states only move forward, each state of a scope and period is left by at most one winner |
| `CrewSeats.ResolveCrewSeats` | packages/flows/src/crewSeats.ts:86-146 | the loop with its in-place maps computes the resolution the lemmas below describe |
| `CrewSeats.IndexByRole` | packages/flows/src/crewSeats.ts:102-107 | the index holds, for each carried id, the first node that carries it |
| `CrewSeats.NoAccountTwice` | packages/flows/src/crewSeats.ts:94-139 | no account, compared without case, answers for two roles or for a role and the root |
| `CrewSeats.BoundOrMissing` | packages/flows/src/crewSeats.ts:109-145 | every role is bound exactly once or missing, never both, and every ambiguous role is missing |
| `CrewSeats.DecidedAtItsTurn` | packages/flows/src/crewSeats.ts:109-139 | each role has its unclaimed stored account, else the only unclaimed match of its label, else nothing, and is ambiguous exactly when several matched |
| `CrewSeats.DecidedByTheNodes` | packages/flows/src/crewSeats.ts:102-139 | the same over the nodes themselves: the first node storing the role's id if its account is unclaimed, else the one and only unclaimed node with the label, else nothing, ambiguous exactly when two or more fit |
| `CrewSeats.RootIsFirstHuman` | packages/flows/src/crewSeats.ts:96-100 | the root is the account of the first node whose kind says human, in any case, and that has an account |
| `CrewSeats.TakenIsClaimed` | packages/flows/src/crewSeats.ts:94-119 | what counts as claimed at a turn is the root's account and every account bound before it |
| `CrewSeats.RenamedAreDrifted` | packages/flows/src/crewSeats.ts:66-71 | exactly the bindings made by a stored id whose seat no longer carries the role's label are reported as renamed |
| `CrewSeats.StoredIdWinsExactly` | packages/flows/src/crewSeats.ts:109-124 | a stored id wins exactly when neither the root nor an earlier turn has claimed its account |
| `CrewSeats.StoredIdsWin` | packages/flows/src/crewSeats.ts:109-124 | on a chart where stored accounts are distinct and not offered by label to an earlier role, every stored id wins |
| `CrewSeats.LabelTakesStoredAccount` | packages/flows/src/crewSeats.ts:126-138 | a stored id can lose: an earlier role's label takes the account and the later role goes missing |
| `CrewBindings.NormalizedIsCanonical` | packages/flows/src/crewBindings.ts:84-107 | a stored binding normalizes to itself, and keeps the caller's scope and account key |
| `CrewBindings.NormalizedExactly` | packages/flows/src/crewBindings.ts:84-107 | a binding is stored exactly when it names a role and a well-formed account, and stored as given but for white space and the account's case |
| `CrewBindings.ScopesCoincide` | packages/flows/src/crewBindings.ts:56-73 | two bindings share a scope exactly when they name the same crew, or neither a crew and the same blueprint, or neither anything, up to white space and case |
| `CrewBindings.CrewBindingRoles` | packages/flows/src/crewBindings.ts:109-125 | the loop computes the roles of a scope described by the next two rows |
| `CrewBindings.LastInScopeWins` | packages/flows/src/crewBindings.ts:114-125 | a role reads as its last binding in the scope |
| `CrewBindings.OtherScopesAreLeftOut` | packages/flows/src/crewBindings.ts:109-113 | a role bound only in other scopes is not read |
| `CrewBindings.ReadsItsOwn` | packages/flows/src/crewBindings.ts:109-125 | a role is read exactly when a binding that belongs to the crew, blueprint or workspace asked for names it, with the account of the last such binding |
| `CrewBindings.OtherCrewsAreNotRead` | packages/flows/src/crewBindings.ts:56-63 | a crew never reads an account that is stored only for other crews |
| `CrewBindings.ApplyCrewRoleIds` | packages/flows/src/crewBindings.ts:127-150 | node by node: one with an id, without an account or with an account nobody bound is served as it came; any other gets the role of the first binding of its account and keeps every other field |
| `SeatRename.SeatRoleMapIsRoles` | packages/flows/src/crewSeats.ts:148-157 | what is persisted is the resolution without the root |
| `SeatRename.CarriersAreTheSeat` | packages/flows/src/crewBindings.ts:127-150 | after layering, exactly the nodes of a role's account carry its id |
| `SeatRename.RenameSurvives` | packages/flows/src/crewSeats.ts:148-157 | persisting a resolution with nothing missing, on a chart without foreign ids, and layering it over the same accounts under any new labels gives the same role map, root included, account for account, with every role bound by its stored id |
| `CrewExternal.ResolveExternalSeats` | packages/flows/src/crewExternal.ts:110-145 | the loop computes the resolution the next rows describe |
| `CrewExternal.PoolCounts` | packages/flows/src/crewExternal.ts:85-120 | a reference's pool holds each candidate with the seat's role, an account, the blueprint the seat names and the crew the operator chose as often as it was served, and nobody else |
| `CrewExternal.BoundOnlyWhenSure` | packages/flows/src/crewExternal.ts:110-145 | a reference is bound, to that account and reported with its crew and blueprint, exactly when one candidate could be meant, missing otherwise, ambiguous exactly when several could |
| `CrewExternal.RefsCounted` | packages/flows/src/crewExternal.ts:116-144 | every reference is reported once, bound or missing, and the reports are sorted |
| `CrewExternal.NeverRetargets` | packages/flows/src/crewExternal.ts:98-109 | more candidates, in any order, may make a bound reference ambiguous but never bind it to another account |
| `FlowBuilders.FlowBuilder.constructor` | packages/flows/src/builder.ts:40-42 | a new builder holds the id, the name and no steps |
| `FlowBuilders.FlowBuilder.Source` | packages/flows/src/builder.ts:66-69 | the source is replaced and nothing else changes |
| `FlowBuilders.FlowBuilder.Scope` | packages/flows/src/builder.ts:71-85 | the scope is replaced as a whole, limits included |
| `FlowBuilders.FlowBuilder.Tool` | packages/flows/src/builder.ts:92-100 | one tool step is added after the others |
| `FlowBuilders.FlowBuilder.Keyed` | packages/flows/src/builder.ts:87-154 | one step of the method's own kind is added after the others, with exactly the options given |
| `FlowCode.FlowToCode` | packages/flows/src/codegen.ts:130-150 | pushing lines and ending the last one with a semicolon spells the header and then one call per setting and step, in order |
| `FlowCode.ChainReadsBack` | packages/flows/src/codegen.ts:6-11 | the spelling of a chain of calls determines the calls, their order and every argument |
| `FlowCode.StepCallMakesStep` | packages/flows/src/codegen.ts:12-119 | the call printed for a step of any kind makes that step again, less what is erased |
| `FlowCode.KeysAreDeclared` | packages/flows/src/codegen.ts:12-119 | for every kind the printer lists the label and exactly the fields the step type declares of its own |
| `FlowCode.TypedFieldsArePrinted` | packages/flows/src/codegen.ts:12-119 | whatever of its own a well-typed step sets is among the options printed for it, with its value |
| `FlowCode.TypedStepComesBack` | packages/flows/src/types.ts:71-100 | a well-typed step comes back whole exactly when it sets no note, no canvas data, no `idempotent` and no empty arguments |
| `FlowCode.SettersInOrder` | packages/flows/src/codegen.ts:137-147 | description, trigger, schedule, scope and entry are printed in this order, each at most once |
| `FlowCode.RunCode` | packages/flows/src/builder.ts:33-164 | making the calls of a program on a builder object gives the program's meaning, or nothing when it is not builder code or its constant cannot be declared |
| `Camel.CamelIsIdentifier` | packages/flows/src/codegen.ts:121-124 | whatever the id, the exported name is spelled like an identifier |
| `Camel.WordsBecomeCamel` | packages/flows/src/codegen.ts:121-124 | an id of plain words with dashes, underscores or blanks between them is named by its words run together, each but the first raised, behind `flow` when it starts with a digit |
| `Camel.TrailingUnderscoreStays` | packages/flows/src/codegen.ts:121-124 | an underscore with nothing behind it separates nothing and stays in the name |
| `FlowCode.CodeRoundTrip` | packages/flows/src/codegen.ts:126-150 | running the code printed for a definition gives the definition less exactly what is erased, steps and order intact, exactly when its exported name can be declared; otherwise the code does not load |
| `FlowCode.LoadsExactly` | packages/flows/src/codegen.ts:121-134 | the printed module can declare its constant exactly when the name is not reserved, is not `flow`, and is not `undefined` while some tool step prints the placeholder |
| `FlowCode.WordlessIdDoesNotLoad` | packages/flows/src/codegen.ts:121-134 | an id without one word character is exported as `flow`, which collides with the import, so its code does not load |
| `FlowCode.LanguageWordDoesNotLoad` | packages/flows/src/codegen.ts:121-134 | nor does the code of a flow whose id is a word of the language or `flow` itself |
| `FlowCode.HeaderNamesTheFlow` | packages/flows/src/codegen.ts:130-136 | the module exports, under the name made of the id, a flow of that id and then that name, and ends with a semicolon |
| `FlowCode.WholeExactlyWhenSurvives` | packages/flows/src/codegen.ts:126-150 | a definition comes back whole exactly when its code loads and it holds no source, manual trigger, empty text, scope limits, org reference, missing team reference, empty tool arguments or unprinted step key |
| `FlowCode.TypedFlowComesBack` | packages/flows/src/codegen.ts:126-150 | a definition of well-typed steps comes back whole exactly when its code loads and neither it nor a step sets anything the printer leaves out |
| `FlowCode.PrintedAgain` | packages/flows/src/codegen.ts:126-150 | printing the definition that came back gives identical code, and erasing twice is erasing once |
| `FlowCode.SameCodeSameFlow` | packages/flows/src/codegen.ts:126-150 | two definitions print the same code exactly when they differ only in what is erased |
| `RootAuth.StatementDeterminesFields` | packages/core/src/rootAuth.ts:128-142 | over fields without line breaks a statement determines action, subject, challenge and chain id |
| `RootAuth.StatementText` | packages/core/src/rootAuth.ts:128-142 | the statement is its title and one labelled line per field, in order |
| `RootAuth.PrintedIsAccepted` | packages/core/src/rootAuth.ts:157-192 | the check takes the printer's statement exactly when its chain id is absent or has at most 15 digits |
| `RootAuth.OnlyCanonicalIsReturned` | packages/core/src/rootAuth.ts:144-192 | whatever is issued, what is returned is byte-identical to it and canonical for the action and subject the caller asked for |
| `RootAuth.ReturnedExactlyWhenCanonical` | packages/core/src/rootAuth.ts:157-192 | an issued statement is returned exactly when it was issued for the action and subject asked for and is canonical for no chain id or for one of at most 15 digits |
| `RootAuth.NeverSignsAnother` | packages/core/src/rootAuth.ts:144-156 | no statement the printer makes for another action, subject or challenge is ever returned |
| `RootAuth.LineBreakDefeatsTheCheck` | packages/core/src/rootAuth.ts:170-191 | a challenge with a chain line of its own prints another challenge's statement and is refused, so one-line fields are needed |
| `Text.DecimalRoundTrip` | packages/core/src/rootAuth.ts:140-177 | printing a number in decimal and reading it back gives the number |
| `Text.AsciiSpaces` | packages/flows/src/cron.ts:46-46 | among the ASCII characters, `trim` and `\s` take exactly tab, line feed, vertical tab, form feed, carriage return and blank |
| `Text.LowerIgnoresCase` | packages/flows/src/crewSeats.ts:74-74 | two texts are equal in lower case exactly when they are equal character by character but for the case of letters |
| `Text.AtMostExactly` | packages/flows/src/crewSeats.ts:141-145 | the order of the reported ids: a text comes first when it begins the other or is smaller where they first differ |
| `Text.HexDigits` | packages/flows/src/crewBindings.ts:54-54 | the digits an address is written with |

## Left out

- Command line, HTTP clients, documentation site, database connection and migrations: input and output around the cores.
- `Intl` time-zone lookup: a zone is any function from minutes to wall-clock fields; the gap theorems ask that its minute hand be steady, which covers UTC and whole-hour shifts, or that it be moved once by any number of minutes.
- Window keys as text: the crew id and the ISO minute are kept as a pair; the text `crew@minute` itself and crew ids that contain `@` are not modelled.
- Manual off-schedule runs: modelled as claims of other keys, and outside the tick bound. The sweep's extra refusals (a busy crew, an exhausted budget) only remove steps from a run.
- The engine that runs flows, `validateFlow` and `build()`: the builder is modelled up to `toJSON()`.
- FlowCode.FlowToCode: prints tokens, not characters; indentation, blanks and the spelling of JSON literals are not modelled.
- JSON literals run as code: a tool argument keyed `__proto__`, which JavaScript reads as a prototype when the literal is run, is not modelled.
- Option keys of builder calls: a step is a map from keys to JSON values, so key order inside a step is not modelled, nor is the difference between an absent key and one set to `undefined`.
- Ten step methods of the builder: one method with the kind as a parameter; which name means which kind is in `FlowCode.KindNamed`. The raw `step` method is modelled but never printed.
- Number widths: JavaScript doubles above 2^53, SQL integer limits and `uint256` overflow are not modelled; the narrowing to `uint64` of a window start and the `uint32` counter limit are.
- Text a cap is written in: a cap either reads as an integer or does not; the grammar of `BigInt` is not modelled.
- Lower-casing outside ASCII, Unicode normalisation, and sorting by UTF-16 units where that differs from code points.
- Role ids, reference ids and scope names that are inherited properties of a plain object (`constructor`, `toString`): records are maps here.
- Error message texts: refusals carry which fault was found, not its wording.
- Alert ordering: the code compares and sets whatever states it is given. `Metering.AlertFiresOnce` therefore asks that claims move forward; `Metering.AlertsBalance` needs no such thing.
- Aliasing of nodes and bindings between callers: served lists are values.
- Signatures, WebAuthn and address recovery: only the statement a wallet signs is modelled.
- `normalizeHeartbeat`, `crewBindingConflicts`, `crewBindingKey`, audit inserts, webhook claims and the plain list helpers: they would only add easy or repeated members.
