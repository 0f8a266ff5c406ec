# primal-ai: a verified model of its stateful kernels

This project models, in Dafny 4.11, the parts of primal-ai that keep state and decide something from it, and proves what
they promise over whole runs. `dafny verify dfyconfig.toml` checks the whole project.

| file | component |
|---|---|
| Bandit.dfy, BanditHistory.dfy, NoStarvation.dfy, BanditStore.dfy | bandit selectors: arms per provider and context, UCB1 scores, what arms remember, exploration over whole runs, saving and loading |
| Health.dfy, Backoff.dfy, Cascade.dfy | provider health, exponential cooldowns, the fallback cascade |
| Routing.dfy, Facade.dfy, Ledger.dfy | the routing decision, the facade that holds registry, health records and selector, and its two sets of books |
| RateLimit.dfy, DollarCap.dfy | sliding-window policies over trimmed deques |
| RoutedLearning.dfy | UCB1 behind the facade, over whole runs of its steps |
| Guardian.dfy, CallLog.dfy, Flattening.dfy, DryRun.dfy | policy evaluation, what a call does told from its log, nested combinators, the dry-run mode |
| Redaction.dfy | scrubbing of results in place, on the heap |
| Scheduler.dfy | the job scan |
| Trajectory.dfy | span pairing and the summary |
| Schema.dfy | the JSON-schema subset |
| Profile.dfy, Continuity.dfy | profiles, their merge, and learning into a store |
| Prelude.dfy | options and insertion-ordered dictionaries |

Code that changes state is a class whose methods have the source's loops and are proved against functions on values;
the laws are lemmas about those functions, mostly by induction over whole runs. Times, costs, rewards and confidences
are reals. Lemmas whose names end in InPlainTerms tell what an operation does from its inputs' fields, literal
constants, sets of places or logs, without the functions the methods are proved against. Clock readings, random draws,
provider replies and extracted facts are arguments. Names, keys, payloads, results, exceptions and hook code are
uninterpreted, so every lemma holds for all of them.

## Assumptions

- UCB1's logarithm is nonnegative and nondecreasing from 1 on, its square root is nonnegative and squares to its argument,
  and where the lemmas say so the logarithm is unbounded (`Bandits.Faithful`, `NoStarvation.LnUnbounded`). Nothing else is
  assumed of them.
- Bandit rewards lie between 0 and 1 (documented at `src/primal_ai/atlas/bandit.py:50`); clocks do not go backwards
  where a lemma requires it.
- Each locked section is one step. Cascade runs follow one another: the counter is read outside the lock, so two runs at
  once could use one streak position twice.
- Context keys are strings or absent, for which the two ways of reading them (`src/primal_ai/atlas/router.py:462-467`,
  `src/primal_ai/atlas/cascade.py:273-277`) agree.
- The step ids of calls are generated and distinct (`src/primal_ai/trajectory/_step.py:81`); `Recording.FreshIds` says so
  where a lemma needs it.

## Where the code and its promises differ

The model follows the code. Each difference is named with the lemma that shows it or gives the exact condition under
which the promise holds; where none is named, the model's definitions say it outright.

- The hourly cost cap bounds every hour only while no cost is negative: a refund makes room that outlives it
  (`CostCapping.HoursAreSafeIffCostsAreNonnegative`, by the run of `CostCapping.RefundBreaksTheHourlyCap`). A refused
  call's cost is spent all the same but never counted (`CostCapping.DollarCap.CheckPost`).
- UCB1 explores for ever only with a positive constant; the constructor accepts any
  (`NoStarvation.NeverStarvesIffExploring`, by the runs of `NoStarvation.GreedyStarves`).
- Asking for "ucb1" by name learns nothing: every call gets a new bandit (`Routing.NamedUcb1IsFirstFit`).
- A selector of the caller's own making can decline, which is reported as NO_CANDIDATES although there are healthy
  candidates, or name a provider that was filtered out, which is then called (`Routing.DecisionIsExact`). An unknown
  selector name makes routing raise, which is otherwise said always to return a string.
- A scan leaves a job due when its interval is not positive (`Scheduling.NothingDueAfterScanIffIntervalsPositive`,
  `Scheduling.JobWithoutIntervalStaysDue`).
- A dry run does not invoke the agent when a pre-hook fails with anything other than a violation
  (`DryRun.DryRunInvokesTheAgent`, `DryRun.FailingHookStopsTheDryRun`), and a nested AllOf hides violations that its
  flat list would record (`DryRun.NestingHidesLaterViolations`).
- Patterns are said to apply to every string anywhere in the result; strings inside tuples and dictionary keys stay as
  they are. A container that occurs twice is scrubbed twice, which is harmless for all results exactly when the
  substitutions are idempotent (`Redaction.ExactWithSharingIffIdempotent`, `Redaction.SharedListIsScrubbedTwice`).
- `from_dict` reads a zero confidence as 1, an empty source as "user" and a zero time stamp as now
  (`Profiles.RoundTripIff`), so a fact learned with no confidence at all becomes certain for ever
  (`Learning.DoubtBecomesCertainty`).
- `ProviderHealth.reset` is said to clear the failure counters; it keeps `total_failures`. `reset_health` with an unknown
  name resets every provider (`Routing.ResettingAStrangerResetsAll`).
- The selector's books and the health's drift apart through outcomes fed in by hand, per-call selectors, calls made while
  no built-in selector is installed, selectors exchanged, and providers unregistered after they were called
  (`Ledgers.LedgersAgreeThroughoutIff`, by the runs of `Ledgers.FeedbackPartsTheBooks` and
  `Ledgers.ReregisteringPartsTheBooks`).
- A trajectory entered again before it was left loses a span that is never ended
  (`Recording.SpansEndOnceIffNeverReentered`, `Recording.EnteringTwiceLosesASpan`).
- A cascade in which every provider is unregistered, or which has none, ends FAILED; ALL_UNHEALTHY needs every attempt to
  have met a cooldown (`Cascading.CascadeOutcomeIsExact`).
- The schema subset is not the standard's (compare sections 6.1.1 and 6.5.3 of JSON Schema Validation 2020-12): "number"
  accepts booleans, an unknown type accepts everything beneath it, `required` and `properties` act only under type
  "object".

## Model

| member | source | states |
|---|---|---|
| `NoStarvation.NeverStarvesIffExploring` | src/primal_ai/atlas/bandit.py:394-451 | UCB1 gives every one of at least two distinct candidates any number of pulls, from any sound arms and whatever else it learns, if and only if the exploration constant is positive |
| `NoStarvation.EveryCandidateIsPulledAgain` | src/primal_ai/atlas/bandit.py:394-451 | once `ln(total) * c^2 >= 4m`, `k * (4m + 1)` more rounds among `k` candidates leave none with `m` pulls or fewer, in every run with rewards between 0 and 1 |
| `NoStarvation.OftenPulledLoses` | src/primal_ai/atlas/bandit.py:413-424 | at that total an arm pulled more than `4m` times scores strictly below every arm pulled at most `m` times |
| `NoStarvation.PickIsNotOftenPulled` | src/primal_ai/atlas/bandit.py:405-425 | so while some candidate is at `m` pulls or fewer, the pick is an arm with at most `4m` |
| `NoStarvation.StuckRoundsCost` | src/primal_ai/atlas/bandit.py:394-451 | the sum of `max(0, 4m + 1 - pulls)` falls by one in every round in which a candidate is stuck |
| `NoStarvation.DeficitFalls` | src/primal_ai/atlas/bandit.py:441-451 | that sum never grows when pulls grow, and shrinks when a candidate short of the goal is pulled |
| `NoStarvation.GreedyStarves` | src/primal_ai/atlas/bandit.py:415-425 | with a constant of zero or less there is, for every number of rounds, a run in which the second candidate keeps at most one pull |
| `NoStarvation.ExplorationSuffices` | src/primal_ai/atlas/bandit.py:394-451 | with a positive constant and an unbounded logarithm a number of rounds that suffices exists for every `m` |
| `NoStarvation.FirstRoundsTryEachCandidate` | src/primal_ai/atlas/bandit.py:413-425 | in a fresh context the first `k` rounds pick the `k` candidates once each, in order |
| `NoStarvation.RoundLearnsThePick` | src/primal_ai/atlas/bandit.py:394-451 | a select-then-update round changes the statistics of the picked arm only, and only its own context's total, by one |
| `NoStarvation.RunKeepsSound` | src/primal_ai/atlas/bandit.py:434-451 | over every run, each arm has pulls = successes + failures and a total reward between 0 and its pulls |
| `NoStarvation.OtherContextsDoNotInterfere` | src/primal_ai/atlas/bandit.py:405-424 | outcomes filed under other contexts leave every score of a context as it was |
| `RoutedLearning.NobodyStarvesIffExploring` | src/primal_ai/atlas/router.py:240-292 | the same behind the facade: over all runs of its steps with UCB1 installed, enough calls served among the same survivors give each of them any number of pulls, if and only if the exploration constant is positive |
| `RoutedLearning.EverySurvivorIsCalledAgain` | src/primal_ai/atlas/router.py:359-392 | the bound, for runs in which providers come and go, other calls are routed, cascades run and outcomes are fed in: `k * (4m + 1)` such calls once `ln(total) * c^2 >= 4m` |
| `RoutedLearning.RunsArePlayed` | src/primal_ai/atlas/router.py:252-292 | every run of the facade is a run of select and update at the installed bandit, the calls served among the survivors in question being its rounds |
| `RoutedLearning.GreedyCallsStarve` | src/primal_ai/atlas/router.py:258-292 | without exploration there is, for every number of calls, a run of the facade in which the second survivor is called at most once |
| `BanditHistory.ArmsCountTheRun` | src/primal_ai/atlas/bandit.py:434-451 | over any run of outcomes, as sizes of sets of places: an arm's pulls are the outcomes reported for it, its successes and failures those of either kind, its reward the sum of theirs (a success without one earns 1), its time the last one's |
| `BanditHistory.SamplingArmsCountTheRun` | src/primal_ai/atlas/bandit.py:344-352 | the sampling selector's arms count successes and failures in the same sense, and nothing else |
| `Bandits.EnsuringChangesNoStatistic` | src/primal_ai/atlas/bandit.py:213-224 | arms that select creates change no statistic and no total, hence no later score |
| `Bandits.LearnChangesOneArm` | src/primal_ai/atlas/bandit.py:434-451 | an outcome changes its own arm and its own context's total, nothing else |
| `Bandits.BestIsTheFirstMaximum` | src/primal_ai/atlas/bandit.py:425 | the choice is a candidate that no other beats, and the first such one |
| `Bandits.BestOfDeduplicated` | src/primal_ai/atlas/bandit.py:403-425 | scoring into a dictionary makes a candidate listed twice count once, without changing the choice |
| `Bandits.UCB1Bandit.SelectWithMetadata` | src/primal_ai/atlas/bandit.py:394-430 | in place: every candidate's score from its arm's fields, with x >= 0, x * x * pulls == ln(max(total, 1)) and (score - c * x) * pulls == total reward, infinite when untried; the choice has the largest and is the first such; the term reported is c * x; exactly the missing arms are created |
| `Bandits.ScoresFollowTheFormula` | src/primal_ai/atlas/bandit.py:413-424 | the score of every arm satisfies that description |
| `Bandits.LesserEarnerIsNeverPicked` | src/primal_ai/atlas/bandit.py:419-425 | of two candidates pulled equally often the one that earned less is never the pick |
| `Bandits.UCB1Bandit.CountPulls` | src/primal_ai/atlas/bandit.py:407-412 | the nested sum counts exactly the pulls of one context |
| `Bandits.UCB1Bandit.Update` | src/primal_ai/atlas/bandit.py:434-451 | in place: the new arms are those of the learning function |
| `Bandits.ThompsonBandit.Update` | src/primal_ai/atlas/bandit.py:344-352 | in place: only the success and failure counters and the time stamp of one arm move |
| `Bandits.MaxKey` | src/primal_ai/atlas/bandit.py:425 | `max` over the score dictionary yields the first key with the largest score |
| `Persistence.SaveThenLoad` | src/primal_ai/atlas/bandit.py:239-267 | saving and loading restores every arm and their order |
| `Persistence.LoadedBanditContinuesTheRun` | src/primal_ai/atlas/bandit.py:239-267 | a run interrupted by saving and loading into a bandit with the same constants goes on as if uninterrupted |
| `Persistence.LoadBandit` | src/primal_ai/atlas/bandit.py:256-267 | in place: the stored arms, whoever stored them under that name, replace whatever had been learned; nothing stored means nothing changes; missing entries read as zero |
| `Persistence.SaveBandit` | src/primal_ai/atlas/bandit.py:236-254 | in place: name, algorithm, time and a snapshot of every arm overwrite what was stored under the bandit's name, other names stay |
| `ProviderHealths.ProviderHealth.RecordFailure` | src/primal_ai/atlas/_health.py:44-50 | in place: one more failure in the streak, the calls and the failures, and the new cooldown deadline |
| `ProviderHealths.ProviderHealth.RecordSuccess` | src/primal_ai/atlas/_health.py:37-42 | in place: one more call; streak and cooldown are cleared, the failure total stays |
| `ProviderHealths.ProviderHealth.Reset` | src/primal_ai/atlas/_health.py:52-56 | in place: clears streak and cooldown and, unlike its docstring says, keeps both totals |
| `ProviderHealths.ProviderHealth.CheckHealthy` | src/primal_ai/atlas/_health.py:32-35 | healthy exactly when the clock has reached the cooldown deadline |
| `Backoff.RetriesAreSpaced` | src/primal_ai/atlas/cascade.py:261-332 | in a streak from a clean counter, failure `k` comes at least the sum over `i < k` of `min(base * 2^i, max)` after the first |
| `Backoff.BelowTheCapTheSumIsGeometric` | src/primal_ai/atlas/cascade.py:330-331 | below the cap that sum is exactly `(2^k - 1) * base` |
| `Backoff.CooldownsNeverShrink` | src/primal_ai/atlas/cascade.py:330-331 | successive cooldowns of a streak never shrink and never exceed the cap |
| `Backoff.StreakState` | src/primal_ai/atlas/_health.py:44-50 | through a streak the health shows exactly its failures and the deadline set by the last one |
| `Cascading.BackoffSpacesRetries` | src/primal_ai/atlas/cascade.py:134-224 | the spacing, for whole cascade runs one after another: failures of a provider that never succeeds are spaced by the cooldowns |
| `Cascading.CascadeOutcomeIsExact` | src/primal_ai/atlas/cascade.py:162-222 | attempts are a prefix of the providers, only the last can be a success and is then the chosen one with its output, ALL_UNHEALTHY iff there are attempts and all were in cooldown; one started event, one per attempt in order, one terminal event |
| `Cascading.CascadeInPlainTerms` | src/primal_ai/atlas/cascade.py:162-197 | over distinct providers, from the state at the start: each attempt is NO_CANDIDATES iff unregistered, ALL_UNHEALTHY iff cooling down, SUCCESS iff callable and it returned, FAILED otherwise with its exception; the first success is chosen |
| `Cascading.CallInPlainTerms` | src/primal_ai/atlas/cascade.py:278-332 | one turn that calls, field by field: counters, `min(base * 2^n, max)` after the end of a failed call, the outcome taught |
| `Cascading.IdleTurnInPlainTerms` | src/primal_ai/atlas/cascade.py:249-271 | a turn that calls nobody changes nothing but the bus |
| `Cascading.WalkIsAPrefix` | src/primal_ai/atlas/cascade.py:167-177 | the loop stops early only after a success |
| `Cascading.WalkVisits` | src/primal_ai/atlas/cascade.py:249-332 | each provider's health moves exactly by its own turns, no other health changes |
| `Cascading.WalkCountsCalls` | src/primal_ai/atlas/cascade.py:278-305 | a provider's call total rises by exactly its SUCCESS and FAILED attempts |
| `Cascading.Cascade.Run` | src/primal_ai/atlas/cascade.py:134-224 | in place: the loop over the providers computes the run function, on the shared facade |
| `Cascading.Cascade.TryProvider` | src/primal_ai/atlas/cascade.py:230-320 | in place: one attempt, with its booking on health, selector and event bus |
| `Cascading.Cascade.ApplyExponentialCooldown` | src/primal_ai/atlas/cascade.py:322-332 | in place: the cooldown is the base doubled once per earlier failure of the streak, capped; only this provider's health changes, and none if the provider is gone |
| `Routing.RoutingConservesCandidates` | src/primal_ai/atlas/router.py:310-357 | as multisets, candidates considered = names skipped + healthy survivors, in every decision |
| `Routing.FiltersCompose` | src/primal_ai/atlas/router.py:310-348 | the three filters in a row keep exactly the names without any objection, in order |
| `Routing.RoutingRefinesOnePass` | src/primal_ai/atlas/router.py:310-392 | without a selector the choice is the first candidate that is registered, capable, fully tagged and healthy when checked |
| `Routing.DecisionIsExact` | src/primal_ai/atlas/router.py:359-392 | NO_CANDIDATES exactly when the pool is empty or a selector of the caller's own making, asked about survivors, declined; ALL_UNHEALTHY exactly when there is a pool and none of it is healthy; a choice is a healthy candidate without objection unless such a selector was asked, and then it is that one's answer; an exception exactly for an unknown selector name or such a selector's own |
| `Routing.ChoiceIsASurvivor` | src/primal_ai/atlas/router.py:377-392 | without a selector, and with a built-in one, installed or passed with the call, the choice is a survivor |
| `Routing.Ucb1DecidesTheRoute` | src/primal_ai/atlas/router.py:377-388 | with UCB1 in force and survivors, the choice is the first survivor, in order, whose score in the query's context no survivor beats |
| `Routing.LesserEarnerIsNotRouted` | src/primal_ai/atlas/router.py:377-388 | of two survivors called equally often the one that earned less is not chosen |
| `Routing.FiltersInPlainTerms` | src/primal_ai/atlas/router.py:310-357 | who is in the pool and who survives, from registration, capabilities, tags, cooldown deadlines and clock readings |
| `Routing.SkippedInPlainTerms` | src/primal_ai/atlas/router.py:325-357 | every skipped name carries the reason that applies to it |
| `Routing.InvocationInPlainTerms` | src/primal_ai/atlas/router.py:258-292 | one call, told field by field: counters, a cooldown of 30.0 seconds or none, the output reported, a reward of one or nothing taught to one arm, nothing else changed |
| `Routing.UncalledInPlainTerms` | src/primal_ai/atlas/router.py:244-250 | an exception changes nothing; without a choice, or with one not registered, nobody is called; each decision is published once |
| `Routing.RegistrationInPlainTerms` | src/primal_ai/atlas/_registry.py:30-42 | a new provider has unused health and is healthy at once, one unregistered is gone, the others stay |
| `Routing.ResetInPlainTerms` | src/primal_ai/atlas/_registry.py:78-86 | resetting a registered name clears that provider's streak and cooldown and nothing else |
| `Routing.NamedUcb1IsFirstFit` | src/primal_ai/atlas/router.py:451-454 | asking for "ucb1" by name is asking for no selector: each call gets a bandit that has tried nothing and takes the first survivor |
| `Routing.ResettingAStrangerResetsAll` | src/primal_ai/atlas/_registry.py:78-86 | resetting a name that is not registered ends every registered provider's cooldown |
| `Facade.Atlas.MakeDecision` | src/primal_ai/atlas/router.py:299-412 | in place: the decision or the exception; of the state, only the installed selector's arms may be created |
| `Facade.Atlas.Route` | src/primal_ai/atlas/router.py:181-213 | in place: publishes the decision; an exception publishes and changes nothing |
| `Facade.Atlas.Filter` | src/primal_ai/atlas/router.py:310-357 | the append loops compute the pool and the skipped names with their reasons |
| `Facade.Atlas.Select` | src/primal_ai/atlas/router.py:359-392 | in place: what the selector in force answers, and the arms the installed one creates if it was asked |
| `Facade.Atlas.Invoke` | src/primal_ai/atlas/router.py:240-292 | in place: routes, calls and books the reply; a chosen name that is not registered is reported without a call |
| `Facade.Atlas.Record` | src/primal_ai/atlas/router.py:258-292 | in place: a failure costs thirty seconds, a success clears, on this provider's own record; the installed selector learns it unless the call brought its own |
| `Facade.Atlas.ResetHealth` | src/primal_ai/atlas/_registry.py:78-86 | in place, on the health records: resets one provider; an unknown name, like no name, resets all |
| `Facade.Atlas.RegisterProvider` | src/primal_ai/atlas/_registry.py:30-36 | in place: refuses a taken name, otherwise files provider and fresh health |
| `Facade.Atlas.UnregisterProvider` | src/primal_ai/atlas/_registry.py:38-42 | in place: removes provider and health; an absent name changes nothing |
| `Facade.Atlas.UpdateSelector` | src/primal_ai/atlas/router.py:166-174 | in place: the installed selector learns the outcome; without one nothing changes |
| `Ledgers.LedgersBalance` | src/primal_ai/atlas/router.py:252-292 | over any run of registering, unregistering, installing selectors, routing, invoking, cascades, resets and feedback, the selector's books minus the health's move by exactly the outcomes fed in, the records lost to unregistration and what new selectors bring along, less the calls that reached no arm |
| `Ledgers.LedgersAgreeIff` | src/primal_ai/atlas/router.py:252-292 | books that agreed at the start agree at the end exactly when these amounts even out |
| `Ledgers.LedgersAgreeThroughoutIff` | src/primal_ai/atlas/router.py:252-292 | they agree at every moment exactly when they do at the start and no step feeds an outcome in, diverts a call, unregisters a called provider, or installs a selector that knows of more or fewer |
| `Ledgers.LedgersAgree` | src/primal_ai/atlas/cascade.py:273-332 | with a built-in selector installed from the start, no outside feedback, no selectors passed or exchanged and no called provider unregistered, successes + failures over all contexts equals total_calls, and failures equals total_failures, throughout |
| `Ledgers.ReregisteringPartsTheBooks` | src/primal_ai/atlas/_registry.py:30-42 | from any state with agreeing books: one call, unregistering and registering again, and they differ |
| `Ledgers.FeedbackPartsTheBooks` | src/primal_ai/atlas/router.py:166-174 | from any state with agreeing books one outcome fed in by hand parts them |
| `Ledgers.CountersStaySane` | src/primal_ai/atlas/_health.py:37-56 | always consecutive_failures <= total_failures <= total_calls |
| `Ledgers.SetArmMovesOneTotal` | src/primal_ai/atlas/bandit.py:213-224 | an arm update moves its own provider's total, summed over context keys, and no other |
| `RateLimiting.EveryWindowIsBounded` | src/primal_ai/guardian/_builtins/rate_limit.py:43-81 | in every run with a nondecreasing clock, every closed interval of a configured window's length, wherever it lies, holds at most the limit of accepted calls, for all windows at once |
| `RateLimiting.NoWindowIsOverrun` | src/primal_ai/guardian/_builtins/rate_limit.py:76-81 | with the lengths spelled out: no interval of 1.0, 60.0 or 3600.0 seconds holds more accepted calls, counted as a set, than the limit per second, minute or hour |
| `RateLimiting.VerdictInPlainTerms` | src/primal_ai/guardian/_builtins/rate_limit.py:54-72 | the verdict with the lengths spelled out: the shortest full window rejects, with its limit and the count |
| `RateLimiting.RejectsOnlyWhenFull` | src/primal_ai/guardian/_builtins/rate_limit.py:54-72 | a call is rejected if and only if accepting it would overfill some configured window ending now |
| `RateLimiting.DecisionIsExact` | src/primal_ai/guardian/_builtins/rate_limit.py:54-72 | allowed iff no configured window is full; a rejection names the first full one and the observed count |
| `RateLimiting.DroppedDoNotCount` | src/primal_ai/guardian/_builtins/rate_limit.py:48-52 | entries popped from the deque lie outside every configured window |
| `RateLimiting.RateLimit.CheckPre` | src/primal_ai/guardian/_builtins/rate_limit.py:43-74 | in place: the trimmed deque decides exactly as the never-trimmed log of accepted calls; a rejected call is not logged |
| `RateLimiting.RateLimit.Trim` | src/primal_ai/guardian/_builtins/rate_limit.py:50-52 | in place: the loop drops a prefix of entries older than the cut-off and no other |
| `RateLimiting.RateLimit.CheckWindows` | src/primal_ai/guardian/_builtins/rate_limit.py:54-72 | the loop over the three windows on the trimmed deque gives the verdict of the full log |
| `RateLimiting.CountCalls` | src/primal_ai/guardian/_builtins/rate_limit.py:57 | the sum counts exactly the calls since the window's start |
| `CostCapping.EveryHourIsWithinTheCap` | src/primal_ai/guardian/_builtins/dollar_cap.py:69-86 | with nonnegative costs and a nondecreasing clock, accepted costs in every closed 3600-second interval sum to at most the cap |
| `CostCapping.HoursAreSafeIffCostsAreNonnegative` | src/primal_ai/guardian/_builtins/dollar_cap.py:69-86 | every hour of every run is within the cap if and only if no cost may be negative |
| `CostCapping.RefundBreaksTheHourlyCap` | src/primal_ai/guardian/_builtins/dollar_cap.py:72-86 | a negative cost followed an hour later by a larger one: both accepted, an hour over the cap |
| `CostCapping.TheHourEndingAtAnAcceptedCallIsWithinTheCap` | src/primal_ai/guardian/_builtins/dollar_cap.py:69-86 | for costs of any sign, the hour ending at an accepted call is within the cap |
| `CostCapping.EveryAcceptedCallIsWithinItsCap` | src/primal_ai/guardian/_builtins/dollar_cap.py:61-67 | no accepted call costs more than the per-call cap, whatever the signs |
| `CostCapping.RefusesOnlyOverACap` | src/primal_ai/guardian/_builtins/dollar_cap.py:61-86 | a call with a cost is accepted iff it exceeds neither cap |
| `CostCapping.DollarCap.CheckPost` | src/primal_ai/guardian/_builtins/dollar_cap.py:44-87 | in place: decides exactly as the policy that keeps every accepted charge, refused calls are not charged, a missing cost is warned of once |
| `CostCapping.DollarCap.Trim` | src/primal_ai/guardian/_builtins/dollar_cap.py:72-73 | in place: the loop drops only charges older than the hour |
| `CostCapping.TotalCost` | src/primal_ai/guardian/_builtins/dollar_cap.py:74 | the sum over what remains is the sum of the last hour |
| `Flattening.FlatteningPreservesMeaning` | src/primal_ai/guardian/_combinators.py:32-56 | enforcing, a policy list with arbitrarily nested AllOf behaves as its flattened leaf list: hook calls, order, arguments, leaf states, result or exception, and escalations |
| `Flattening.FlattenIsFlat` | src/primal_ai/guardian/_combinators.py:15-30 | the flattened list has no AllOf left, and at any depth none directly inside another AllOf |
| `Flattening.FlattenKeepsAllPre` | src/primal_ai/guardian/_combinators.py:32-37 | the pre-hooks: same calls, states and first exception |
| `Flattening.FlattenKeepsThread` | src/primal_ai/guardian/_combinators.py:39-56 | the post-hooks: threading a replacement through a nested AllOf is threading it through its parts |
| `Flattening.TidyKeepsAnyPost` | src/primal_ai/guardian/_combinators.py:93-114 | flattening inside an AnyOf keeps which alternative accepts and what it returns |
| `Flattening.EnforcedPreIsAllOf` | src/primal_ai/guardian/_core.py:57-66 | enforcing, the guard's pre-phase is one AllOf followed by at most one escalation |
| `Flattening.EnforcedPostIsAllOf` | src/primal_ai/guardian/_core.py:69-87 | enforcing, the guard's post-phase is one AllOf followed by at most one escalation |
| `Flattening.AtMostOneEscalation` | src/primal_ai/guardian/_core.py:90-115 | one enforcing call escalates at most once, and then it raises |
| `CallLogs.CallInPlainTerms` | src/primal_ai/guardian/_core.py:271-296 | any nesting, either mode: pre-hooks, then the agent at most once, then post-hooks, all with the caller's arguments; the first post-hook called is given the agent's own result, and if none raises or replaces, that result is the call's |
| `CallLogs.LeavesInPlainTerms` | src/primal_ai/guardian/_core.py:57-87 | for a list of leaves: each hook once in order, the first post-hook given the agent's result, each later one what the one before passed on; the value returned is the last passed on, an exception that of the last hook called |
| `CallLogs.NestedCallInPlainTerms` | src/primal_ai/guardian/_combinators.py:32-56 | the same, enforcing, for any nesting of AllOf |
| `CallLogs.CallsAreLogged` | src/primal_ai/guardian/_core.py:57-87 | every hook runs in the state its leaf's own earlier calls left, and what it answers is what happens |
| `CallLogs.AnyOfPreInPlainTerms` | src/primal_ai/guardian/_combinators.py:78-91 | an AnyOf of leaves tries them in order up to the first that raises no violation, and ends as that one does; all used up, the last violation stands |
| `CallLogs.AnyOfPostInPlainTerms` | src/primal_ai/guardian/_combinators.py:93-114 | likewise for post-hooks, each given the AnyOf's own result |
| `DryRun.DryRunPredictsEnforcement` | src/primal_ai/guardian/_core.py:57-115 | from the same states the enforcing call escalates exactly the first violation the dry run records, and raises for it; if none is recorded both end alike in result and states |
| `DryRun.DryRunInvokesTheAgent` | src/primal_ai/guardian/_core.py:271-296 | the dry run invokes the agent once, unless a pre-hook fails with something other than a violation; then never |
| `DryRun.FailingHookStopsTheDryRun` | src/primal_ai/guardian/_core.py:57-66 | one such pre-hook, and the dry run raises its exception without invoking the agent |
| `DryRun.NestingKeepsTheFirstViolation` | src/primal_ai/guardian/_combinators.py:32-56 | under dry run flattening keeps the first recorded violation, and clean runs entirely |
| `DryRun.NestingHidesLaterViolations` | src/primal_ai/guardian/_combinators.py:34-37 | under dry run an AllOf records one violation where its flat list records two |
| `Guarding.ModeIsKept` | src/primal_ai/guardian/_core.py:90-104 | a call neither enters nor leaves the dry-run mode |
| `Guarding.Guard.Call` | src/primal_ai/guardian/_core.py:271-296 | in place: the wrapper with its three phases computes the call function |
| `Guarding.Guard.DryRunCall` | src/primal_ai/guardian/_core.py:237-257 | in place: a fresh buffer for the block, the enclosing one restored afterwards |
| `Guarding.Guard.HandleViolation` | src/primal_ai/guardian/_core.py:90-115 | in place: records under dry run, otherwise escalates and raises |
| `Guarding.Guard.AllOfPost` | src/primal_ai/guardian/_combinators.py:39-56 | in place: the loop with `current` and `replaced` |
| `Guarding.Guard.AnyOfPre` | src/primal_ai/guardian/_combinators.py:78-91 | in place: the first policy that passes or lacks the hook ends the loop; otherwise the last violation is raised |
| `Guarding.Guard.AnyOfPost` | src/primal_ai/guardian/_combinators.py:93-114 | in place: as for the pre-hooks, returning the accepting policy's replacement |
| `Guarding.Guard.RunPostHooks` | src/primal_ai/guardian/_core.py:69-87 | in place: the loop that rebinds the result |
| `Redaction.RedactionIsExact` | src/primal_ai/guardian/_builtins/pii_redact.py:61-80 | on every tree, or any acyclic graph if the scrubber is idempotent, exactly the reachable containers change: configured keys hold the marker, other strings their scrubbed image, all else is as before |
| `Redaction.SecondPassChangesNothing` | src/primal_ai/guardian/_builtins/pii_redact.py:61-80 | with an idempotent scrubber a second pass changes nothing |
| `Redaction.ExactWithSharingIffIdempotent` | src/primal_ai/guardian/_builtins/pii_redact.py:61-80 | results that share containers are scrubbed correctly, all of them, if and only if the scrubber is idempotent |
| `Redaction.SharedListIsScrubbedTwice` | src/primal_ai/guardian/_builtins/pii_redact.py:71-74 | a list that occurs twice has its strings scrubbed twice |
| `Redaction.SameShapeSameReach` | src/primal_ai/guardian/_builtins/pii_redact.py:61-75 | scrubbing never changes which containers are reached |
| `Redaction.PIIRedact.CheckPost` | src/primal_ai/guardian/_builtins/pii_redact.py:51-59 | on the heap, for results without cycles: the containers end up as the graph function says, others are untouched, and the value returned is the image |
| `Redaction.PIIRedact.RedactContainer` | src/primal_ai/guardian/_builtins/pii_redact.py:64-74 | on the heap, for results without cycles: the loops over dictionary keys and list items, recursing depth first |
| `Redaction.PIIRedact.RedactString` | src/primal_ai/guardian/_builtins/pii_redact.py:77-80 | the text passes through every pattern's substitution, each once and in order: a trace of texts from the first to the last |
| `Redaction.RedactionInPlainTerms` | src/primal_ai/guardian/_builtins/pii_redact.py:61-80 | in every container reached, a configured key's value becomes the marker, every other string is the end of such a trace, everything else stays |
| `Redaction.ReachIsClosed` | src/primal_ai/guardian/_builtins/pii_redact.py:64-74 | what is reached contains the value's container and leads nowhere else |
| `Redaction.ReachIsLeast` | src/primal_ai/guardian/_builtins/pii_redact.py:64-74 | any closed set with the value's container contains all that is reached |
| `Scheduling.DispatchesFollowTheDeadline` | src/primal_ai/harness/scheduler.py:163-185 | whatever other jobs are added, removed or scanned, by however many loop threads, a registered job is dispatched at exactly the scans whose clock has reached its own deadline |
| `Scheduling.DispatchesAreSpaced` | src/primal_ai/harness/scheduler.py:169-183 | consecutive dispatches of one registered job have scan clocks at least its interval apart |
| `Scheduling.DispatchesPerSpan` | src/primal_ai/harness/scheduler.py:169-183 | a span of scan clocks of length D holds at most floor(D / interval) + 1 of them |
| `Scheduling.ScanDispatchesTheDueJobs` | src/primal_ai/harness/scheduler.py:167-183 | a scan dispatches every due enabled job exactly once and no other |
| `Scheduling.NothingDueAfterScanIffIntervalsPositive` | src/primal_ai/harness/scheduler.py:169-183 | a scan leaves nothing due if and only if every job it dispatched has a positive interval |
| `Scheduling.JobWithoutIntervalStaysDue` | src/primal_ai/harness/scheduler.py:169-183 | a job without a positive interval is still due after the scan that dispatched it |
| `Scheduling.OnlyTheDeadlineMoves` | src/primal_ai/harness/scheduler.py:176-183 | rewriting a job changes its deadline and nothing else, over whole runs |
| `Scheduling.DisabledJobsNeverRun` | src/primal_ai/harness/scheduler.py:169-171 | a disabled job is never dispatched and never rewritten |
| `Scheduling.RemovedJobsNeverRun` | src/primal_ai/harness/scheduler.py:121-124 | a removed job is gone, and only that job: it is not dispatched until it is added again |
| `Scheduling.AddingInPlainTerms` | src/primal_ai/harness/scheduler.py:114-119 | an added job is filed as given unless its name is taken, the others stay |
| `Scheduling.Scheduler.ScanJobs` | src/primal_ai/harness/scheduler.py:165-183 | in place: the loop that collects due jobs and replaces their entries |
| `Scheduling.Scheduler.AddJob` | src/primal_ai/harness/scheduler.py:114-119 | in place: refuses a taken name, otherwise appends |
| `Scheduling.Scheduler.RemoveJob` | src/primal_ai/harness/scheduler.py:121-124 | in place: removes a job; an absent name changes nothing |
| `Recording.EverySpanEndsOnce` | src/primal_ai/trajectory/_core.py:152-213 | after a block every span it started has been ended exactly once, and the orphaned ones are exactly the calls no later result named |
| `Recording.BlockRecordsEverything` | src/primal_ai/trajectory/_core.py:152-168 | a block records every step handed to it, in order, with the exception it is left with at the end; its status says whether there was one |
| `Recording.SpansEndOnceIffNeverReentered` | src/primal_ai/trajectory/_core.py:131-213 | for every sequence of entering, calls, results, other steps and leaving that ends outside a block, with generated call ids: every span has been ended exactly once if and only if the trajectory was never entered before it was left |
| `Recording.SpansEndOnceIffNoMisstep` | src/primal_ai/trajectory/_core.py:131-284 | the same for ids of any origin: if and only if, besides, no call took an id still open |
| `Recording.ReenteringIsNeverMended` | src/primal_ai/trajectory/_core.py:131-150 | entering while a session is held leaves that session's span unended, whatever follows |
| `Recording.MisstepLosesASpan` | src/primal_ai/trajectory/_core.py:258-264 | either misstep leaves a span that nothing can end any more |
| `Recording.FreshIdsAreNotReused` | src/primal_ai/trajectory/_core.py:286-306 | calls with ids of their own never take one that is open |
| `Recording.OpenSetIsTheAwaitingCalls` | src/primal_ai/trajectory/_core.py:258-386 | inside a block the open set is exactly the ids of the calls without a later result |
| `Recording.BlockStaysPaired` | src/primal_ai/trajectory/_core.py:258-386 | every recording step keeps open spans and unmatched calls in correspondence |
| `Recording.UnknownResultMatchesNothing` | src/primal_ai/trajectory/_core.py:277-279 | a result for an unknown or already matched id changes no call |
| `Recording.RecordsAreExact` | src/primal_ai/trajectory/_core.py:286-386 | a call counts as matched iff some later result names its id |
| `Recording.EnteringTwiceLosesASpan` | src/primal_ai/trajectory/_core.py:131-150 | the shortest such run: entering twice and leaving |
| `Recording.Trajectory.RecordCall` | src/primal_ai/trajectory/_core.py:286-306 | in place: opens the span, then appends the step |
| `Recording.Trajectory.RecordResult` | src/primal_ai/trajectory/_core.py:308-334 | in place: ends the matching span if there is one, then appends the step |
| `Recording.Trajectory.ExitContext` | src/primal_ai/trajectory/_core.py:152-213 | in place: error step and status, leftovers ended as orphans, then the session span |
| `Recording.Trajectory.EndLeftovers` | src/primal_ai/trajectory/_core.py:178-181 | in place: the loop ends every open span once and empties the open set |
| `Recording.Trajectory.Summary` | src/primal_ai/trajectory/_core.py:445-475 | step_count is the number of steps and the sum of the per-kind counts; each count, the cost and the first error are exact |
| `Recording.SummaryInPlainTerms` | src/primal_ai/trajectory/_core.py:448-456 | each count is the size of the set of steps of its kind, the error the first ERROR step's data |
| `Recording.CostsAddUp` | src/primal_ai/trajectory/_core.py:453-454 | the cost is additive over the steps and the step's own on one |
| `Schemas.FirstErrorIsExact` | src/primal_ai/_jsonschema.py:45-81 | `first_error` is None iff the value conforms; otherwise it reports the first violation |
| `Schemas.WalkDecides` | src/primal_ai/_jsonschema.py:55-81 | the recursion decides the declarative meaning of the subset, for all schemas and values |
| `Schemas.WalkReportsTheFirstViolation` | src/primal_ai/_jsonschema.py:55-81 | the reported path leads to a real violation, and everything before it in required-then-properties order conforms |
| `Schemas.FirstViolationIsUnique` | src/primal_ai/_jsonschema.py:71-80 | there is only one first violation, so the report is determined |
| `Profiles.MergeIsPointwise` | src/primal_ai/continuity/profile.py:165-178 | the merge loop decides each key by its own two fields |
| `Profiles.MergeInPlainTerms` | src/primal_ai/continuity/profile.py:165-178 | "self" keeps every field of the first profile, "other" every field of the second, otherwise the surer field stays and in a tie the first profile's; what only one has is kept |
| `Profiles.MergedRestInPlainTerms` | src/primal_ai/continuity/profile.py:179-187 | identity of the first, the earlier creation, metadata of both with the second's first |
| `Profiles.MergeIsAssociative` | src/primal_ai/continuity/profile.py:165-178 | merging is associative for every strategy |
| `Profiles.MergeIsIdempotent` | src/primal_ai/continuity/profile.py:165-178 | merging fields with themselves changes nothing |
| `Profiles.SelfMirrorsOther` | src/primal_ai/continuity/profile.py:171-175 | "self" and "other" are mirror images |
| `Profiles.MergeKeepsEveryKey` | src/primal_ai/continuity/profile.py:165-178 | the merged keys are the union |
| `Profiles.FoldKeepsTheLeftmostSurest` | src/primal_ai/continuity/profile.py:176-178 | folding merges yields, for each key, the leftmost field of maximal confidence, and nothing for a key no profile has |
| `Profiles.RoundTripIff` | src/primal_ai/continuity/profile.py:44-63 | a profile survives to_dict and from_dict exactly when no field has zero confidence, an empty source or a zero time stamp |
| `Profiles.ReadBackInPlainTerms` | src/primal_ai/continuity/profile.py:54-63 | what each part of a field comes back as |
| `Profiles.UserProfile.Merge` | src/primal_ai/continuity/profile.py:149-187 | a new profile; the loop computes the merge function, both arguments are unchanged |
| `Profiles.UserProfile.Set` | src/primal_ai/continuity/profile.py:118-137 | in place: one field and the time change |
| `Profiles.UserProfile.Remove` | src/primal_ai/continuity/profile.py:139-145 | in place: an absent key changes nothing, not even the time |
| `Learning.AutolearnIsExact` | src/primal_ai/continuity/_core.py:203-219 | what one learning step stores under each key, for every user |
| `Learning.IncomingIsTheLast` | src/primal_ai/continuity/_core.py:227 | of several extracted facts for one key exactly the last counts |
| `Learning.UpdateInPlainTerms` | src/primal_ai/continuity/_core.py:140-142 | an edit stores exactly the new field and touches nothing else |
| `Learning.DeleteInPlainTerms` | src/primal_ai/continuity/_core.py:156-161 | deleting leaves nothing of the user and all of the others |
| `Learning.StrangersInPlainTerms` | src/primal_ai/continuity/_core.py:81-88 | whom nothing is stored of has an empty profile made now |
| `Learning.LearningIsMonotone` | src/primal_ai/continuity/_core.py:187-235 | through any run in which a user is only learned about, keys never vanish and no confidence falls, as stored or as read |
| `Learning.CertainFieldsStay` | src/primal_ai/continuity/_core.py:187-235 | a field read with confidence 1 is never displaced by learning with confidences up to 1 |
| `Learning.DoubtBecomesCertainty` | src/primal_ai/continuity/profile.py:55-63 | a fact learned with confidence 0 is read back as certain and then can never be displaced |
| `Learning.AutolearnProfile` | src/primal_ai/continuity/_core.py:187-219 | load, merge, save: the store holds the learning function's result |
| `Learning.UpdateProfile` | src/primal_ai/continuity/_core.py:124-154 | load, set, save: the profile returned has the new field and time, and so has the store |
| `Learning.SaveProfile` | src/primal_ai/continuity/_core.py:90-118 | stores under the user's key with the identity of that key; without a store nothing is kept |
| `Learning.LoadProfile` | src/primal_ai/continuity/_core.py:70-88 | the stored profile or a fresh one |
| `Learning.FieldsByKey` | src/primal_ai/continuity/_core.py:227 | of several extracted facts for one key the last counts |

## Left out

- OpenTelemetry spans and attributes other than a trajectory's open and close events; logging; event subscribers.
- Storage backends: a store is a map from key to value, and JSON encoding itself is not part of this model.
- Locks, threads, `Thread.join` timeouts and the asynchronous wrapper: locked sections are atomic steps. The scheduler's
  results hold for any interleaving of its locked sections.
- Floating point: rounding, NaN, and the overflow of `base * 2 ** n` at about 1024 consecutive failures.
- Thompson sampling's draw: its choice is any survivor, an argument of the query.
- Aliasing of arms: `state_for` hands out the live arm; here an arm is a value in the selector's dictionary.
- A provider unregistered or replaced in the middle of its own call, apart from
  `Cascading.Cascade.ApplyExponentialCooldown`, which finds nothing to book then.
- Persistence.LoadBandit: covers the UCB1 selector; the sampling one inherits the same two methods.
- What a selector passed with a call learns from it: it belongs to the caller. What a selector of the caller's own making
  answers is an argument of the query. Names registered for factories of the caller's own count as such selectors.
- Agents, providers and hooks that call back into the guard, the facade or the selector while running.
- Regular expressions: a pattern's substitution is an uninterpreted function on strings.
- Redaction.PIIRedact.CheckPost: requires a result without cycles; on a cyclic one the code recurses until the
  interpreter stops it.
- Redaction.PIIRedact.RedactContainer: requires the same. Subclasses of dict and list with behaviour of their own.
- `_extract_cost`, the string forms of policies, allow and block lists, and the schema policy around `first_error`.
- Schemas whose `type` is a list, or whose sub-schemas are not dictionaries; the error path is a sequence of keys rather
  than its rendered string.
- Scheduler start, stop and the bodies of jobs; trajectory replay, find_steps and storage; plain to_dict/from_dict records.
- Profile accessors, `list_users`, and the event published after each profile change.
- The conductor, the verifier, the event bus itself, and the rest of the harness.
