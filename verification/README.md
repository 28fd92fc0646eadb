# Sippycup model

Sippycup is a voice-test toolbox. This project models the algorithms under its I/O shell and proves what they
promise: the constrained covering-array generator and its constraint solver, the campaign plan compiler, the matrix
campaign compiler, the load-envelope compiler and its ramp controller, the behaviour-diff normal form, the scenario
compiler with its reference interpreter, SIP transaction and dialog reconstruction, the capture watchdog, the media
stripper, the paired-observation matcher, and the RTP and telephone-event plan with its validator.

`dafny verify dfyconfig.toml` checks everything.

## How it is built

| file | component |
|---|---|
| `Constraints.dfy`, `Covering.dfy`, `CoveringMeaning.dfy` | three-valued constraints, both backtracking searches, unsatisfiable cores, t-way rows, and what is requested |
| `ActionTraces.dfy`, `Subsequences.dfy` | call-action traces and the greedy ordered-sequence cover |
| `CampaignPlan.dfy`, `PlanMeaning.dfy`, `MatrixCampaign.dfy` | the frozen campaign plan, its verification, what a plan is, and the matrix campaign built on both generators |
| `Envelope.dfy`, `LoadBounds.dfy`, `RampMeaning.dfy` | the ramp ladder and 64-bit step budgets, the loads a budget bounds, and what a ramp is |
| `EnvelopeController.dfy`, `ControllerOutcomes.dfy` | the controller's event loop, and how a controlled run can fail |
| `Json.dfy`, `BehaviorDiff.dfy`, `BehaviorModel.dfy`, `BehaviorChanges.dfy`, `ChangesMeaning.dfy` | placeholder renaming, clock rebasing, the change walk, and what it lists |
| `Scenario.dfy`, `ScenarioMeaning.dfy` | compiling a dialog to scenario nodes and running them on a second clock; what the nodes and the run are |
| `Transactions.dfy`, `FilingMeaning.dfy` | filing frames into transactions, and which frame goes where |
| `Dialogs.dfy`, `DialogMeaning.dfy` | dialogs over transactions, and what their states, events and completeness say about the frames |
| `Bytes.dfy`, `Pcap.dfy`, `MediaStripper.dfy`, `CaptureWatchdog.dfy`, `WatchdogMeaning.dfy` | classic capture files, payload removal, live ceilings, and what a capture deserves |
| `PairMeasurement.dfy`, `RtpPlan.dfy` | pairing of observations; RTP header as in section 5.1 of RFC 3550, telephone events as in sections 2.3 and 2.5.1 of RFC 4733 |
| `Prelude.dfy`, `Sorting.dfy` | result types, checked 64-bit arithmetic, stable sorting |

Algorithms that update state are methods with loops and objects (the search over one shared assignment, transaction
builders, timing windows, the normalizer, the watchdog), each tied to a function of its inputs; the lemmas are about
those functions. For each compiler, reconstruction and comparison a lemma named `...Exactly` or `...Means` then says
what the function's result is without using the function: by positions, counts and witnesses instead of by recursion.
Hashes, digests and fingerprints are arbitrary function parameters and nothing assumes they differ, so every result
holds for every tie-break; where a hash only picks a minimum the model picks freely. Capture timestamps are integer
microseconds. The text of a session description is an integer and SIP fields are optional text.

## What the code does that its callers may not expect

Each of these is a lemma with a witness or an exact condition.

- A legal but late resume makes the controller fail on 64-bit clock arithmetic, for every validated plan
  (`ControllerOutcomes.LateResumeOverflows`). `ControllerOutcomes.FailuresAreExact` says exactly which schedules fail on
  the clock and which on an illegal resume, and `ControllerOutcomes.ClockBound` exactly how late the last command must be
  before some schedule fails on the clock.
- Compilation of an envelope is refused for overflow when the first level it cannot fund overflows, although the levels
  before it fit (`Envelope.OverflowInsteadOfExhaustion`); `Envelope.PlanExists` says exactly when a plan is produced.
- A final response followed by a provisional one leaves a transaction "proceeding" (`Transactions.RingsLate` is a capture
  of one); `Transactions.StateMeaning` says exactly when each state is reported.
- A repeated response that carries a session description is never filed as a retransmission, although the dialog
  documentation says that exact repeats are: the record kept of a description names its frame, so two never agree
  (`Transactions.AnsweredTwice` is a capture of one). `Transactions.RetransmissionExactly` says exactly which responses are.
- A dialog reported complete need not be over: completeness asks for acknowledgements and hang-ups anywhere in the dialog,
  not at its end (`Dialogs.CompleteButUp` is a capture of a call that is complete and up). `Dialogs.OverExactly` says exactly
  when a dialog has ended, and `Dialogs.DialogFromRoot` when it is complete; the separate test for cancelled calls never
  decides anything (`Dialogs.WalkDialog`).
- The change walk cannot tell a member that is null from one that is missing (`BehaviorChanges.NullLooksMissing`);
  `BehaviorChanges.SilentMeansSame` says exactly when it stays silent.
- A scenario carries the first section of the first offer that has one, but is compared with all sections of the first
  offer. A codec in a second section, or behind an empty offer, shows as a difference (`Scenario.SecondSectionDiffers`,
  `Scenario.EmptyOfferDiffers`); `Scenario.CodecsSurvive` says exactly when none does, and `Scenario.ValidationOutcome`
  exactly when validation reports nothing.
- Matrix validation looks for duplicates before it strips texts, so a risk may name a factor twice. The generator then
  files tuples that ask one factor for two values as required, and its second loop never ends (`Covering.TwoCodecsAtOnce`,
  `Covering.NeverEnds`); the model reports this as `Endless`. `Covering.NeverCoveredExactly` says exactly for which
  matrices. A domain may repeat a value for the same reason; tuples of it are then gone through, and excluded, as often
  as `Covering.Listing` says.
- The matrix compiler can divide by zero, which the model reports as an error. `NoSequences`: the allowed actions make no
  call trace as long as the asked strength (`MatrixCampaign.NoLongTrace` and `ActionTraces.LongTraces` say exactly for
  which actions, `ActionTraces.OnlyHangup` is an instance). `ZeroBudget`: a per-run budget of the template is zero, which
  nothing has checked yet. `MatrixCampaign.CompileMatrixCampaign` says exactly when each is reported.

## Model

| member | source | states |
|---|---|---|
| Prelude.CheckedAdd | lib/sippycup/campaign.py:126-130 | the sum, and a refusal exactly when it exceeds 64 bits |
| Prelude.CheckedMul | lib/sippycup/envelope.py:86-90 | the division test refuses exactly the products that exceed 64 bits |
| Constraints.PredicateState | lib/sippycup/campaign.py:345-355 | the loop computes false, unknown or true as the three-valued reading of a predicate |
| Constraints.AllowsIsMeaning | lib/sippycup/campaign.py:358-368 | once every mentioned factor is assigned, the partial test is the constraint's two-valued meaning |
| Constraints.RefutationPersists | lib/sippycup/campaign.py:358-368 | a partial assignment that some extension satisfies is never refuted, so pruning loses nothing |
| Constraints.CompletionSearch.Rank | lib/sippycup/covering.py:107-122 | candidates are tried in order of newly compatible tuples and none is lost, whatever breaks ties |
| Constraints.CompletionSearch.Search | lib/sippycup/covering.py:101-129 | the search over one shared assignment finds a completion if one exists, and restores the assignment when it fails |
| Constraints.RemainingCompletes | lib/sippycup/covering.py:93-99 | searching only the unfixed factors, smallest domain first, loses and adds no completion |
| Constraints.CompleteAssignment | lib/sippycup/covering.py:84-131 | a total constraint-satisfying extension of the fixed values is returned if and only if one exists, for every digest and uncovered set |
| Constraints.SatisfiabilitySearch.Search | lib/sippycup/campaign.py:378-399 | the counted search decides satisfiability of the rest or reports the state limit, restores the shared assignment, and visits exactly the states of the search function |
| Constraints.MatrixSatisfiable | lib/sippycup/campaign.py:371-399 | the answer is true if and only if a satisfying assignment exists, and there is an answer exactly when the search function stays within the state limit, which it does whenever the unpruned search tree is |
| Constraints.MinimalUnsatCore | lib/sippycup/campaign.py:402-414 | the core is an ordered sub-list, as satisfiable as the whole, and satisfiable once any one member is removed, though each was tested only once |
| Constraints.CompletesIsValid | lib/sippycup/covering.py:84-131 | completions of typed fixed values are exactly the valid rows that extend them |
| Constraints.MandatoryDecided | lib/sippycup/campaign.py:502-549 | a mandatory case reports no violated constraint exactly when it is a valid row |
| Constraints.ValidateMatrix | lib/sippycup/campaign.py:417-628 | accepted exactly when the search ends, finds a row, and the mandatory cases are valid; a refused matrix comes with a minimal unsatisfiable core or an invalid case |
| Subsequences.ScanIsEmbedding | lib/sippycup/matrix_compile.py:53-55 | the iterator test for ordered containment holds exactly when increasing positions embed the needle |
| Subsequences.CombinationsAreScans | lib/sippycup/covering.py:268-272 | membership in the ordered subsequences of a strength agrees with the iterator test |
| Covering.SubsetsAreDistinct | lib/sippycup/covering.py:134-147 | requested subsets list factors of the matrix, and repeat one only when a risk's focus does |
| Covering.PermittedIsCompletable | lib/sippycup/covering.py:165-191 | a requested tuple is covered by some valid row exactly when it asks no factor for two values and the completion search succeeds on it |
| Covering.Classify | lib/sippycup/covering.py:168-191 | one tuple is filed as required exactly when the completion search succeeds on it, and else excluded once more, with its reasons |
| Covering.ClassifyAll | lib/sippycup/covering.py:163-191 | required are exactly the requested tuples the search completes; each other one is excluded as often as the loops come by it; the limit error occurs only when they come by more than the limit |
| Covering.ListedRequested | lib/sippycup/covering.py:163-167 | the loops come by a tuple exactly when it is requested |
| Covering.ListedOnce | lib/sippycup/covering.py:163-167 | and only once when no domain repeats a value |
| Covering.AddRow | lib/sippycup/covering.py:204-220 | completing a filed tuple always succeeds, so the "cannot be completed" error is unreachable; the row is valid, and covers the tuple exactly when it asks no factor for two values |
| Covering.CoverRequired | lib/sippycup/covering.py:193-223 | the loop ends exactly when no required tuple asks a factor for two values, with mandatory rows first, every row valid, every required tuple covered, and at most one row a tuple |
| Covering.NeverEnds | lib/sippycup/covering.py:202-223 | otherwise, whatever targets and completions are picked, every run of turns leaves something uncovered and can go on |
| Covering.NeverCoveredExactly | lib/sippycup/covering.py:150-191 | some tuple filed as required is covered by no valid row exactly when some risk's focus names twice a factor that can take two values |
| Covering.TwoCodecsAtOnce | lib/sippycup/covering.py:165-183 | a matrix with such a tuple |
| Covering.GenerateCoveringArray | lib/sippycup/covering.py:150-233 | required is exactly the requested and permitted tuples, excluded exactly the requested and impossible ones with their reasons, as often as listed; rows valid and covering; a matrix validation accepts, within the tuple limit, is endless exactly when a risk's focus clashes |
| Covering.ReasonsMeaning | lib/sippycup/covering.py:184-191 | an excluded tuple that violates no constraint by itself is the one reported as not extendable |
| CoveringMeaning.RequestedMeans | lib/sippycup/covering.py:134-167 | a tuple is requested exactly when it gives known values to as many of the matrix factors as the matrix asks for, in order, or to as many of a risk's focus as the risk asks for |
| CoveringMeaning.ReasonsMean | lib/sippycup/covering.py:184-191 | the reasons of a tuple are the constraints it breaks as a partial row, in order, or that it cannot be extended |
| CoveringMeaning.BrokenMeans | lib/sippycup/campaign.py:345-368 | a partial row breaks a requirement when an assigned value is not allowed, an exclusion when all its clauses hold, an implication when the one is granted and the other denied |
| ActionTraces.ValidActionSequence | lib/sippycup/covering.py:236-265 | the generator's automaton accepts exactly the valid calls |
| ActionTraces.CheckGeneratedActions | lib/sippycup/campaign.py:658-683 | the campaign compiler's own automaton accepts exactly the same traces |
| ActionTraces.EnumerateCandidates | lib/sippycup/covering.py:308-324 | the candidates are exactly the valid calls of at most the allowed number of permitted actions; the limit is reported only when there are more prefixes than it |
| ActionTraces.FewPrefixes | lib/sippycup/covering.py:308-324 | with the supported actions and the length limit there are never that many |
| ActionTraces.LongTraces | lib/sippycup/covering.py:236-265 | some valid call of the allowed actions reaches a length exactly when an action or a pair of actions can be repeated, or hold and failure suffice |
| ActionTraces.OnlyHangup | lib/sippycup/covering.py:236-265 | with only a hangup allowed no call has two actions |
| ActionTraces.BestCandidate | lib/sippycup/covering.py:340-348 | the pick has a maximal score, whatever breaks ties |
| ActionTraces.GreedyStep | lib/sippycup/covering.py:339-352 | a pick of score s leaves at most s times k tuples to any k candidates that cover the rest, so a zero score never occurs |
| ActionTraces.GreedyDecay | lib/sippycup/covering.py:337-352 | after m picks at most the fraction ((k-1)/k)^m of the required tuples is left, for every cover by k candidates |
| ActionTraces.GreedyCover | lib/sippycup/covering.py:337-352 | greedy picks from the candidates, each made because a tuple was uncovered, cover every required tuple with at most one trace a tuple |
| ActionTraces.FewSequences | lib/sippycup/covering.py:337-352 | n generated traces are needed where k valid traces would do only if k^(n-1) is at most (k-1)^(n-1) times the number of required tuples |
| ActionTraces.GenerateEventSequences | lib/sippycup/covering.py:275-361 | exactly the bad arguments are refused, so the candidate limit is out of reach; selected traces are valid, picked greedily among all valid ones, and cover every reachable tuple; excluded are exactly the tuples no valid trace contains |
| CampaignPlan.ReductionsSettle | lib/sippycup/campaign.py:230-244 | reductions only lower ceilings, and applying the result to itself changes nothing |
| CampaignPlan.AnswersSettle | lib/sippycup/campaign.py:825-833 | sorted, deduplicated answers sort and deduplicate to themselves |
| CampaignPlan.ResolveTargets | lib/sippycup/campaign.py:809-876 | the loop resolves the targets in order or stops at the first refusal; which targets resolve, and to what, is `PlanMeaning.ResolvedExactly` |
| CampaignPlan.PinsRecorded | lib/sippycup/campaign.py:826-830 | every resolved name is pinned to what the resolver answered |
| CampaignPlan.PinsReplay | lib/sippycup/campaign.py:1092-1127 | answering from the recorded pins resolves every target as the original resolver did |
| CampaignPlan.Accumulate | lib/sippycup/campaign.py:899-1008 | the accumulation loop gives the totals and steps of its cases or the first refusal |
| CampaignPlan.TotalsAreSums | lib/sippycup/campaign.py:899-1008 | the totals are the sums of the budgets of the steps |
| CampaignPlan.CompilePlan | lib/sippycup/campaign.py:692-1089 | the compiler gives the plan function of the manifest, which `PlanMeaning.CompiledExactly` says in full; its matrix is authorized and accepted, its totals are within the lowered ceilings and are the sums over its steps |
| CampaignPlan.CompiledPlansVerify | lib/sippycup/campaign.py:1092-1127 | verification accepts every plan the compiler emits, for every set of reductions and every functional resolver |
| CampaignPlan.VerifiedPlansAreCompiled | lib/sippycup/campaign.py:1092-1127 | every accepted plan is inside its ceilings, and they never exceed the reviewed ones |
| CampaignPlan.AcceptedExactly | lib/sippycup/campaign.py:1092-1127 | a plan is accepted exactly when some resolver and some lowering compile the manifest to it |
| PlanMeaning.ResolvedExactly | lib/sippycup/campaign.py:809-876 | targets resolve exactly when names differ, every target has a literal or an answer, all its addresses are approved, and transport, port and credential are authorized; the result has one entry a target with those very fields, and pins exactly the answers for names |
| PlanMeaning.CompiledExactly | lib/sippycup/campaign.py:692-1089 | a plan is compiled exactly when it has the lowered ceilings, granted targets, pinned answers, cases that are distinct, targeted, countable and, if generated, valid rows and calls for their target, one step a run in order, and the summed cost within every ceiling |
| PlanMeaning.StepAims | lib/sippycup/campaign.py:899-1008 | every step runs its case at a granted target of the name the case gives, and a generated one at addresses of the row's family over the row's transport |
| MatrixCampaign.MandatoryRankedEarly | lib/sippycup/matrix_compile.py:230-238 | mandatory cases rank before all others |
| MatrixCampaign.SelectionKeepsMandatory | lib/sippycup/matrix_compile.py:230-239 | truncation to the capacity keeps every mandatory case and never keeps a lower-ranked case over a higher one; the rank itself is spelled out in `MatrixCampaign.SelectionIsMet` |
| MatrixCampaign.SelectionIsMet | lib/sippycup/matrix_compile.py:196-239 | the selection has as many rows as the capacity allows, each with its own trace, target and scores, in the order mandatory first, then more history, then more risk, then the earlier row, and each before every row dropped |
| MatrixCampaign.RiskScoreMeans | lib/sippycup/matrix_compile.py:206-210 | a risk score is the sum of the weights of the rules the row satisfies |
| MatrixCampaign.HistoryScoreMeans | lib/sippycup/matrix_compile.py:211-218 | a history score is the sum of the weights of the failures whose factors hold and whose actions embed in the trace |
| MatrixCampaign.CapacityIsMost | lib/sippycup/matrix_compile.py:71-86 | the capacity is the greatest number of runs that every ceiling and the limit pay for |
| MatrixCampaign.CoverageLists | lib/sippycup/matrix_compile.py:296-323 | a ledger entry lists, in order, exactly the selected rows that give the tuple its values, or the selected traces it embeds in |
| MatrixCampaign.UntruncatedFactorCoverage | lib/sippycup/matrix_compile.py:296-309 | without truncation every covered factor tuple stays covered by the selection |
| MatrixCampaign.UntruncatedTraceCoverage | lib/sippycup/matrix_compile.py:310-323 | without truncation, and with rows at least as many as sequences, every action tuple stays covered |
| MatrixCampaign.CaseIdsDiffer | lib/sippycup/matrix_compile.py:243-251 | case identifiers differ by their ordinal, whatever the fingerprints |
| MatrixCampaign.UniformCases | lib/sippycup/matrix_compile.py:62-68 | equal cases within the ceilings add up to the per-case budget times their number |
| MatrixCampaign.IndexTargets | lib/sippycup/matrix_compile.py:89-107 | accepted exactly when all targets are literal and no two share a place; the index then holds exactly their places, under their names |
| MatrixCampaign.RewrittenPlan | lib/sippycup/matrix_compile.py:241-294 | compiling the rewritten manifest gives exactly the first of unauthorized matrix transports, refused targets and too many steps, or else the uniform totals |
| MatrixCampaign.PlanSelection | lib/sippycup/matrix_compile.py:239-323 | without that fault, and only then, the selected cases compile into one step each, inside every counted ceiling, with exact ledgers |
| MatrixCampaign.Prepare | lib/sippycup/matrix_compile.py:195-229 | every row is dealt a sequence and a target; refused exactly for unusable targets, for actions that make no long enough trace, and for a row no target serves, in that order |
| MatrixCampaign.CompileMatrixCampaign | lib/sippycup/matrix_compile.py:149-392 | given rows and traces, the outcome is the first fault of template, budget, targets or actions, else a row without a target, else a fault of the campaign compiler, else a compilation: the most runs that are paid for, selected by mandatory flag, history, risk and row, one named step each of the first call case at a target of the row's place, totals equal budget times selected count, ledgers list the reachable tuples and exactly who covers them, complete without truncation |
| MatrixCampaign.FaultsAre | lib/sippycup/matrix_compile.py:175-194 | each fault of template, budget and limit, by what is wrong: no call case or a first one that does not run once, a zero budget, a limit outside 64 bits, one run not paid for, the mandatory cases not paid for |
| MatrixCampaign.SelectedRun | lib/sippycup/matrix_compile.py:243-294 | step k of the plan runs the k-th selected row and trace once, for the budget of the template, at the target of that row |
| MatrixCampaign.CaseIdReads | lib/sippycup/matrix_compile.py:243-251 | a case identifier spells its ordinal in at least four decimal digits |
| MatrixCampaign.MatrixNameReads | lib/sippycup/matrix_compile.py:280-282 | the plan is named by at most 56 characters of the source name, without the hyphens they end in, and a suffix |
| MatrixCampaign.TemplateIsFirst | lib/sippycup/matrix_compile.py:175-182 | the template is the first call case |
| MatrixCampaign.FundedIsCountable | lib/sippycup/matrix_compile.py:185-189 | a template of which one run is paid for is countable, so the planner never refuses its budget |
| MatrixCampaign.NoLongTrace | lib/sippycup/matrix_compile.py:198-200 | there is nothing to sequence exactly when the allowed actions are not enough for the strength |
| Envelope.ReductionsSettle | lib/sippycup/envelope.py:149-166 | reductions only lower maxima, and re-applying the result changes nothing |
| Envelope.CeilDiv | lib/sippycup/envelope.py:92-93 | the rounded-up quotient, without overflow |
| Envelope.Levels | lib/sippycup/envelope.py:257-267 | the ladder rises strictly from start to the exact maximum in gaps of at most the step, so its append branch is dead |
| Envelope.StepBudget | lib/sippycup/envelope.py:270-296 | the checked computation is the worst case exactly when it fits 64 bits; that the worst case is the most any load can do is `LoadBounds.StepBudgetExactly` |
| LoadBounds.StepBudgetExactly | lib/sippycup/envelope.py:270-296 | a step budget is exactly the most that can happen in a hold, when that fits 64 bits: calls that start within it with so many up at once or so many starts a second, whichever allows more, packets at their rate, and seconds of talk; no load does more and some load reaches each |
| LoadBounds.ConcurrencyBounds | lib/sippycup/envelope.py:278-282 | calls of one length with a limited number up at once start at most that number in every call length |
| LoadBounds.RateBounds | lib/sippycup/envelope.py:276-277 | calls with a limited number of starts a second start at most that number in every second |
| Envelope.TryLevel | lib/sippycup/envelope.py:324-378 | one turn of the compiler loop adds a step, stops, or refuses an overflow |
| Envelope.AdvanceOutcome | lib/sippycup/envelope.py:324-378 | which of the three happens, in terms of unbounded sums of step costs |
| Envelope.ClimbOutcome | lib/sippycup/envelope.py:324-378 | the loop stops at the first unaffordable level, or at the first overflow |
| Envelope.ClimbOverflows | lib/sippycup/envelope.py:324-378 | the loop is refused exactly when evaluating some level it reaches overflows |
| Envelope.CompileNormalized | lib/sippycup/envelope.py:299-413 | the method computes the plan function, which `RampMeaning.CompiledRampExactly` says in full |
| Envelope.PlanExists | lib/sippycup/envelope.py:299-413 | a plan is produced exactly when the tail fits, the first level is affordable and no examined level overflows |
| Envelope.PlanIsLongestAffordable | lib/sippycup/envelope.py:316-413 | the plan is the longest affordable prefix of the ladder, totals are sums, and the reason is the ceiling exactly when the whole ladder was emitted |
| RampMeaning.LadderIs | lib/sippycup/envelope.py:257-267 | level i is the start raised i times by the step but never above the ceiling, and there is one when the level before was still below it |
| RampMeaning.CompiledRampExactly | lib/sippycup/envelope.py:299-413 | a ramp is compiled exactly when its levels climb the ladder one hold after another, each budget is the peak of its load, the totals are their sums within the maxima, and the next level is missing or would pass a maximum without passing 64 bits |
| RampMeaning.CompiledManifestExactly | lib/sippycup/envelope.py:149-256 | a manifest compiles exactly when the reductions only lower, the reviewed load is within the lowered maxima and starts the ramp, and the ramp is the compiled one |
| Envelope.CompiledPlansVerify | lib/sippycup/envelope.py:427-507 | validation and verification accept every compiled plan, for every set of reductions |
| Envelope.VerifiedPlansAreCompiled | lib/sippycup/envelope.py:484-507 | every accepted plan is the compilation of that manifest under its own maxima |
| Envelope.AcceptedExactly | lib/sippycup/envelope.py:484-507 | a plan is accepted exactly when some lowering compiles its manifest to it |
| Envelope.ValidatedIsLongest | lib/sippycup/envelope.py:427-481 | a validated plan, wherever it came from, is a longest affordable prefix |
| Envelope.OverflowInsteadOfExhaustion | lib/sippycup/envelope.py:324-352 | a manifest whose first level fits and which is refused for overflow all the same |
| EnvelopeController.GroupsFacts | lib/sippycup/envelope.py:510-533 | grouping ordered commands by second rises strictly and loses nothing |
| EnvelopeController.GroupCommands | lib/sippycup/envelope.py:510-533 | commands are refused exactly when their times decrease |
| EnvelopeController.OnlyTheClock | lib/sippycup/envelope.py:616-656 | for a validated plan only the wall clock can refuse a step for budget or overflow |
| EnvelopeController.NextKeepsInv | lib/sippycup/envelope.py:574-668 | each turn keeps the invariant or ends in an illegal resume or a clock overflow |
| EnvelopeController.EveryRunIsSafe | lib/sippycup/envelope.py:536-682 | under every ordered control schedule: started steps are a prefix, none while paused or after the end, times never decrease, consumption is the exact sum within the maxima, every hold with its tail fits the duration |
| EnvelopeController.NoControlsRunsThePlan | lib/sippycup/envelope.py:573-668 | without controls every planned step starts at its planned second, the run completes, and consumption is the planned totals |
| EnvelopeController.Turn | lib/sippycup/envelope.py:574-668 | one pass of the event loop is the step function |
| EnvelopeController.Simulate | lib/sippycup/envelope.py:536-682 | the event loop terminates and computes the simulation function |
| ControllerOutcomes.DriveHeads | lib/sippycup/envelope.py:574-668 | the event loop ends as the account by command groups says, which counts starts and holds by division instead of turns |
| ControllerOutcomes.FailuresAreExact | lib/sippycup/envelope.py:536-682 | a run fails on the clock exactly when, after some obeyed start or resume, the first hold that does not fit the duration is attempted before the next command, with steps left, and does not fit 64 bits; it fails on a resume exactly when a running controller lives to see one |
| ControllerOutcomes.ClockBound | lib/sippycup/envelope.py:600-632 | some schedule with no command after a given second overflows exactly when one hold from there does, or the authorized duration reaches the end of the clock and the whole ramp from there does |
| ControllerOutcomes.WellFormedControlsSucceed | lib/sippycup/envelope.py:536-682 | resumes that follow pauses, at times that leave room on the clock, never make a run fail |
| ControllerOutcomes.LateResumeOverflows | lib/sippycup/envelope.py:600-632 | a legal late resume overflows the clock of every validated plan |
| ControllerOutcomes.RunsArePaced | lib/sippycup/envelope.py:574-668 | in every run each step, completion or budget stop comes at the second of the resume just before it, or a full hold after the step just before it |
| ControllerOutcomes.ResumeStartsNextStep | lib/sippycup/envelope.py:594-668 | an obeyed resume with steps left and room starts the next step at its own second for a full hold |
| BehaviorDiff.NormSucceeds | lib/sippycup_learn/diff.py:78-101 | a document is refused exactly when it holds a malformed placeholder |
| BehaviorDiff.NormRenames | lib/sippycup_learn/diff.py:78-101 | normalizing is masking ports, then renaming by the final numbering, which is injective within each kind |
| BehaviorDiff.MaskedExactly | lib/sippycup_learn/diff.py:85-88 | a number is masked exactly when it is above 1023 and its field ends in port, whatever the case |
| BehaviorDiff.CanonicalReads | lib/sippycup_learn/diff.py:94-97 | a canonical name is the kind, a hyphen and the number in decimal |
| BehaviorDiff.LabelExactly | lib/sippycup_learn/diff.py:89-93 | an object is a placeholder exactly when it has just a name and a known type, and malformed exactly when the name is no text or the type cannot be looked up |
| BehaviorDiff.NormBlind | lib/sippycup_learn/diff.py:78-101 | renaming the input consistently changes neither the result nor which names are in use |
| BehaviorDiff.Factor | lib/sippycup_learn/diff.py:78-101 | documents that rename alike differ by a bijection of names |
| BehaviorDiff.NormalFormsAgree | lib/sippycup_learn/diff.py:78-101 | normal forms are equal exactly when, ports masked, some per-kind bijection of placeholder names maps one document to the other |
| BehaviorDiff.RenamingIsInvisible | lib/sippycup_learn/diff.py:78-101 | consistent renaming never shows |
| BehaviorDiff.NormalIsIdempotent | lib/sippycup_learn/diff.py:78-101 | normalizing a normal form changes nothing |
| BehaviorDiff.PlaceholderNormalizer.Normalize | lib/sippycup_learn/diff.py:82-101 | the object's stateful traversal computes the normal form and the new numbering |
| BehaviorModel.RebasedAgree | lib/sippycup_learn/diff.py:110-127 | windows rebase alike exactly when one common shift turns one list into the other |
| BehaviorModel.RebasedStartsAtZero | lib/sippycup_learn/diff.py:110-127 | after rebasing the first time mentioned is zero |
| BehaviorModel.NormalizeTiming | lib/sippycup_learn/diff.py:110-127 | the windows are rebased in place |
| BehaviorModel.TransactionDocumentIs | lib/sippycup_learn/diff.py:145-171 | a transaction is compared by exactly its method, direction, flow, description flag, rebased window and the status and optional flag of each response |
| BehaviorModel.RevisionDocumentIs | lib/sippycup_learn/diff.py:172-183 | a revision is compared by exactly its role, method, status and media |
| BehaviorModel.PacketDocumentIs | lib/sippycup_learn/diff.py:184-207 | a media packet is compared by exactly its source, sequence, timestamp, payload type and rebased offset |
| BehaviorModel.SemanticsAgree | lib/sippycup_learn/diff.py:130-216 | two models have the same semantics exactly when outcomes agree and one bijection, shared by transactions, revisions and media, maps the rebased documents |
| BehaviorModel.ClocksAreInvisible | lib/sippycup_learn/diff.py:130-216 | shifting either clock never shows |
| BehaviorModel.SemanticModel | lib/sippycup_learn/diff.py:130-216 | one normalizer run over all parts in order computes the semantics |
| BehaviorChanges.ChangesAreReal | lib/sippycup_learn/diff.py:403-432 | the path of every listed change leads to the two values shown, and they differ |
| BehaviorChanges.SilentMeansSame | lib/sippycup_learn/diff.py:403-432 | nothing is listed exactly when the documents agree once null members are dropped |
| BehaviorChanges.SilentMeansEqual | lib/sippycup_learn/diff.py:403-432 | without null members every difference is listed |
| ChangesMeaning.ListedExactly | lib/sippycup_learn/diff.py:403-432 | a change is listed exactly when it shows the values at a place that both documents share and where they differ with no way further down on both sides |
| BehaviorChanges.NullLooksMissing | lib/sippycup_learn/diff.py:403-432 | a null member and a missing one differ without being listed |
| BehaviorChanges.WalkSwaps | lib/sippycup_learn/diff.py:403-432 | exchanging the sides exchanges the values of every change and nothing else |
| Scenario.Compile | lib/sippycup_learn/generate.py:155-205 | the compiler loop emits the nodes of every transaction, and refuses exactly the models whose request description has no offer |
| Scenario.CompileTransaction | lib/sippycup_learn/generate.py:160-199 | nodes, clock and challenge flag of one transaction |
| Scenario.RunIsolated | lib/sippycup_learn/validate.py:91-153 | the interpreter loop computes the run of the nodes on its own clock |
| Scenario.InterpretTransaction | lib/sippycup_learn/validate.py:91-153 | interpreting the nodes of one transaction advances both clocks alike and observes its meaning |
| Scenario.CompiledScenarioRuns | lib/sippycup_learn/generate.py:155-205 | after every transaction the interpreter's clock is the compiler's clock, and each request is at the later of that clock and its earliest time |
| Scenario.CompiledScenarioMeans | lib/sippycup_learn/validate.py:91-153 | the whole compiled scenario gives back methods, directions, statuses and codecs in order |
| ScenarioMeaning.RunShows | lib/sippycup_learn/validate.py:91-153 | running a compiled scenario shows one request a transaction, with its method, direction, known statuses and first described section, each as early as its window and the 20 ms turns before it allow |
| ScenarioMeaning.CompilableExactly | lib/sippycup_learn/generate.py:299-311 | a scenario is refused exactly when a local request carries a description and no offer of its frame has a section |
| ScenarioMeaning.ScenarioIs | lib/sippycup_learn/generate.py:155-205 | a compiled scenario is one block of nodes a transaction; credentials go with an INVITE or a REGISTER once a response that asks for them was awaited |
| Scenario.SemanticDiff | lib/sippycup_learn/validate.py:156-213 | every difference is listed once, in order, and exactly when it is there: the count, a field in which transaction and observation disagree (method, description, direction, status classes, codecs of all sections of the first offer, time outside the widened window), or a teardown other than the last BYE's; nothing is listed exactly when nothing disagrees |
| Scenario.DifferencesExactly | lib/sippycup_learn/validate.py:156-213 | the same of the list as a function, for every model and every list of observations |
| Scenario.ClassesExactly | lib/sippycup_learn/validate.py:172-178 | response classes agree exactly when there is one status for one known status, in order, with the same hundreds |
| Scenario.CodecsExactly | lib/sippycup_learn/validate.py:179-182 | codecs agree exactly when they are the encodings of all sections, one after another, of the first offer of the frame, or none without a description or an offer |
| Scenario.TeardownExactly | lib/sippycup_learn/validate.py:195-203 | the observed teardown is by whoever sent the last BYE |
| Scenario.ValidationOutcome | lib/sippycup_learn/validate.py:156-202 | a compiled scenario validates without difference exactly when no remote request carries a description, no offer loses a codec, no request starts too late, and the teardown matches |
| Scenario.SingleSectionCodecsAgree | lib/sippycup_learn/validate.py:205-213 | codecs survive whenever the offer has one media section |
| Scenario.CodecsSurvive | lib/sippycup_learn/validate.py:205-213 | codecs survive exactly when the first offer lists none after its first section or, having no section, when the offer read in its place lists none in its first |
| Scenario.SecondSectionDiffers | lib/sippycup_learn/generate.py:299-311 | an offer with a codec in its second section that does not survive |
| Scenario.EmptyOfferDiffers | lib/sippycup_learn/generate.py:299-311 | an offer behind an empty one that does not survive |
| Transactions.EveryFrameIsFiled | lib/sippycup_oracle/dialogs.py:260-349 | every SIP frame is a request, response, retransmission or orphan exactly once, the opener of a request-less transaction being also an orphan; request keys are unique, responses answer their transaction's key, no two agree in status, tags, reliable sequence and description record, and ambiguity has a second holder of the key |
| Transactions.OrderIndependent | lib/sippycup_oracle/dialogs.py:260-349 | with distinct known frame numbers the result does not depend on input order |
| Transactions.RetransmissionExactly | lib/sippycup_oracle/dialogs.py:318-338 | with distinct frame numbers, a response to one transaction is a retransmission exactly when an earlier one has its status, tags and reliable sequence and neither carries a description |
| Transactions.AnsweredTwice | lib/sippycup_oracle/dialogs.py:318-338 | a capture of three frames in which the repeated answer is a second response |
| Transactions.HistoryFacts | lib/sippycup_oracle/dialogs.py:206-240 | the transitions chain from the request to the last status |
| Transactions.StateMeaning | lib/sippycup_oracle/dialogs.py:206-257 | exactly when each state is reported |
| Transactions.LateProvisionalReopens | lib/sippycup_oracle/dialogs.py:222-246 | a success followed by a ringing response is reported as proceeding |
| Transactions.RingsLate | lib/sippycup_oracle/dialogs.py:222-349 | a capture of three frames whose only transaction is answered and proceeding |
| Transactions.TransactionBuilder.Close | lib/sippycup_oracle/dialogs.py:206-257 | the loop over responses computes the record |
| Transactions.FileRequest | lib/sippycup_oracle/dialogs.py:273-299 | a request opens a builder or is a retransmission of the first match |
| Transactions.FileResponse | lib/sippycup_oracle/dialogs.py:301-344 | a response is an orphan, a retransmission, a new response, or makes every match ambiguous |
| Transactions.ReconstructTransactions | lib/sippycup_oracle/dialogs.py:260-349 | the growing list of mutable builders computes the reconstruction |
| FilingMeaning.FiledExactly | lib/sippycup_oracle/dialogs.py:260-349 | read by frame number, a frame opens a transaction exactly when nothing alike or facing it opened one before; each transaction lists its request, the responses that face it alone and differ from those kept, and the repetitions; responses that face two go to none and make both ambiguous; orphans are exactly the rest |
| Dialogs.MovesChain | lib/sippycup_oracle/dialogs.py:420-425 | every move starts where the one before ended |
| Dialogs.NeverFreshAgain | lib/sippycup_oracle/dialogs.py:429-561 | an answered or refused INVITE ends the first state for good |
| Dialogs.HowItEnds | lib/sippycup_oracle/dialogs.py:539-561 | a terminated dialog saw an accepted hang-up or a cancelled INVITE |
| Dialogs.SetsDecide | lib/sippycup_oracle/dialogs.py:565-573 | the collected CSeq sets decide what the frames themselves say about setup, acknowledgement and refusal |
| Dialogs.WalkDialog | lib/sippycup_oracle/dialogs.py:429-573 | the walk is conclusive exactly when the call was carried through or turned down |
| Dialogs.OverExactly | lib/sippycup_oracle/dialogs.py:429-561 | a dialog ends terminated or rejected exactly when a hang-up, a cancelled INVITE or a refused initial one settled it and no later frame brought it back |
| Dialogs.ConclusiveButUp | lib/sippycup_oracle/dialogs.py:565-573 | an acknowledged refusal followed by an answer is conclusive and confirmed |
| Dialogs.CompleteButUp | lib/sippycup_oracle/dialogs.py:379-682 | a capture of five frames whose dialog exists and is reported complete and confirmed |
| Dialogs.DialogFromRoot | lib/sippycup_oracle/dialogs.py:379-636 | moves, state, whether it is over, completeness and keys of one dialog in terms of its frames; what they say about the frames is `DialogMeaning.ReportedMeans` |
| Dialogs.CalleeTags | lib/sippycup_oracle/dialogs.py:661-668 | the callee tags of a root, each once, challenges aside |
| Dialogs.ReconstructDialogs | lib/sippycup_oracle/dialogs.py:639-682 | exactly one dialog for each root and callee, or one without callee, and each as its frames say; which dialogs those are is `DialogMeaning.ExistsMeans` |
| DialogMeaning.StateExactly | lib/sippycup_oracle/dialogs.py:429-561 | for each state, exactly which frames leave a dialog there: the last frame that leads to a state, and the INVITEs after it |
| DialogMeaning.EventExactly | lib/sippycup_oracle/dialogs.py:420-561 | exactly which event each frame adds to the log after which state; a remote BYE is one that runs against the flow of the root |
| DialogMeaning.ConcludedMeans | lib/sippycup_oracle/dialogs.py:565-573 | a walk is conclusive exactly when a success, every success acknowledged under its number and a confirmed BYE are there, or an acknowledged refusal of the first INVITE |
| DialogMeaning.ItemsMean | lib/sippycup_oracle/dialogs.py:352-400 | the frames of a dialog are, by frame number, those of the call from the caller without or with this callee's tag, those back, and demands for credentials |
| DialogMeaning.ForksApart | lib/sippycup_oracle/dialogs.py:357-376 | a frame with both tags that demands no credentials concerns one callee only |
| DialogMeaning.UnsureMeans | lib/sippycup_oracle/dialogs.py:379-418 | a dialog is uncertain exactly when an unreadable frame has its call or runs between its ends, or a transaction that takes part is ambiguous |
| DialogMeaning.KeysMean | lib/sippycup_oracle/dialogs.py:379-418 | its keys are those of the transactions that take part, in order |
| DialogMeaning.ExistsMeans | lib/sippycup_oracle/dialogs.py:639-682 | there is a dialog for each callee that answers an INVITE without a callee, challenges aside, and one without callee for a call nobody answers |
| DialogMeaning.OrderMeans | lib/sippycup_oracle/dialogs.py:673-680 | dialogs come by call, then by the caller's address and port, then by callee tag |
| DialogMeaning.ReportedMeans | lib/sippycup_oracle/dialogs.py:379-636 | a reported dialog has the state its frames mean, the keys of its transactions, and is complete exactly when it is concluded and nothing is uncertain |
| Pcap.WrittenReads | lib/sippycup/integration.py:356-372 | a record written in either byte order reads back |
| Pcap.ReadWrites | lib/sippycup/integration.py:356-372 | a record read writes back to its own bytes |
| MediaStripper.StripMediaPayload | lib/sippycup/integration.py:336-378 | malformed captures are refused with the reason; otherwise the output is the header and the stripped records |
| MediaStripper.StrippingParses | lib/sippycup/integration.py:336-378 | stripping commutes with parsing, so count, order, times and wire lengths survive |
| MediaStripper.StrippedTwice | lib/sippycup/integration.py:336-378 | stripping twice equals stripping once |
| MediaStripper.NothingToStrip | lib/sippycup/integration.py:336-378 | a capture without media comes back byte for byte |
| MediaStripper.EachRecordKept | lib/sippycup/integration.py:366-372 | each packet becomes a prefix of itself, cut exactly when it is media longer than its fixed headers |
| MediaStripper.CutExactly | lib/sippycup/integration.py:381-414 | a packet is cut exactly when it holds UDP over IPv4 or IPv6, no signaling port and at least one port of the range, and keeps its UDP header and twelve bytes |
| MediaStripper.OthersKept | lib/sippycup/integration.py:381-414 | a packet without a UDP header, such as one over TCP, is never cut |
| MediaStripper.HeadersSurvive | lib/sippycup/integration.py:381-414 | a cut packet shows the same headers and is not cut again |
| MediaStripper.FindsUdpInIpv4 | lib/sippycup/integration.py:386-396 | in an IPv4 frame with any options, tagged or not, the UDP header is found |
| MediaStripper.FindsUdpInIpv6 | lib/sippycup/integration.py:386-400 | in an IPv6 frame, tagged or not, the UDP header is found |
| CaptureWatchdog.TallyFacts | lib/sippycup/integration.py:106-116 | the incremental counters are totals and trimmed deques of what was seen |
| CaptureWatchdog.VerdictsAgree | lib/sippycup/integration.py:106-126 | until something is exceeded the counters and the brute-force one-second windows give the same verdict, although calls are trimmed only at calls |
| CaptureWatchdog.FirstExceeded | lib/sippycup/integration.py:106-128 | the record at which the counters first exceed a ceiling is the first at which the brute-force counts do, for the same reason |
| CaptureWatchdog.TakeKeeps | lib/sippycup/integration.py:88-105 | one poll counts at most the next record of the capture |
| CaptureWatchdog.CountsAPrefix | lib/sippycup/integration.py:63-130 | what was counted is always a prefix of the capture's records |
| CaptureWatchdog.WatchdogIsExact | lib/sippycup/integration.py:63-130 | a reported violation is the brute-force one, reported with exactly the records up to the first that exceeds a ceiling counted; after enough polls of the whole capture the report is exact either way |
| WatchdogMeaning.VerdictExactly | lib/sippycup/integration.py:106-128 | the verdict at a record is the first broken of five ceilings: packets, wire bytes, packets of the last second, calls, calls of the last second |
| WatchdogMeaning.OutcomeExactly | lib/sippycup/integration.py:63-130 | a capture is reported exactly when its magic is unknown, when some record breaks a ceiling and none before did, or when none does and the header behind the records announces more than a mebibyte |
| WatchdogMeaning.ReportsExactly | lib/sippycup/integration.py:63-130 | whatever prefixes the watchdog is shown, it reports only what the capture deserves, with the records counted up to the one that breaks the ceiling; shown the whole capture often enough, it reports exactly that |
| CaptureWatchdog.Watchdog.Look | lib/sippycup/integration.py:71-130 | one turn of the polling loop updates the fields as the poll function says |
| CaptureWatchdog.Watchdog.Follow | lib/sippycup/integration.py:63-130 | the loop computes the run over its snapshots |
| CaptureWatchdog.DropOld | lib/sippycup/integration.py:110-116 | the deque loop trims exactly the leading old times |
| PairMeasurement.MeasurePair | lib/sippycup_chaos/lifecycle.py:1229-1265 | refused exactly when a pair goes back in time; the matched identities are the multiset intersection, matched plus lost is sent, matched plus duplicates is received, nothing is reordered exactly when matched positions rise |
| PairMeasurement.PartnersDiffer | lib/sippycup_chaos/lifecycle.py:1243-1258 | no sent packet is used twice |
| PairMeasurement.MatchedIsIntersection | lib/sippycup_chaos/lifecycle.py:1243-1258 | the identities paired first in, first out are the multiset intersection |
| PairMeasurement.NoInversions | lib/sippycup_chaos/lifecycle.py:1259-1265 | the high-water count is zero exactly when positions rise |
| PairMeasurement.CountsIgnoreArrivalOrder | lib/sippycup_chaos/lifecycle.py:1229-1265 | arrival order never changes which identities match, nor how many |
| RtpPlan.RevisionAt | lib/sippycup_media/rtp.py:491-498 | the scan finds the revision active at a time |
| RtpPlan.MakePacket | lib/sippycup_media/rtp.py:501-544 | the packet carries its slot's fields and the active revision's payload type |
| RtpPlan.BuildPacketPlan | lib/sippycup_media/rtp.py:547-620 | every valid session with its asset intact gets the specified plan, within the packet limit |
| RtpPlan.PlanIsOrdered | lib/sippycup_media/rtp.py:547-620 | sequence numbers are consecutive, and neighbours rise in time |
| RtpPlan.ScheduleRises | lib/sippycup_media/rtp.py:547-620 | schedule times strictly increase over the whole plan |
| RtpPlan.RevisionsStartOnTime | lib/sippycup_media/rtp.py:396-498 | each revision's first packet falls exactly on its activation |
| RtpPlan.WireRoundTrip | lib/sippycup_media/rtp.py:104-112 | the wire bytes parse back to the header fields and payload |
| RtpPlan.PlannedPacketsFit | lib/sippycup_media/rtp.py:547-620 | every planned packet's fields fit their wire widths |
| RtpPlan.PlanSpellsDigits | lib/sippycup_media/rtp.py:547-620 | the plan of a valid session spells its digits |
| RtpPlan.GroupEvents | lib/sippycup_media/rtp.py:686-693 | the grouping loop splits events at timestamp changes, and never fails on a list that spells the digits |
| RtpPlan.ValidateTelephoneEvents | lib/sippycup_media/rtp.py:662-750 | a packet list is accepted exactly when its event packets spell the digits at the given clock rate |
| RtpPlan.DigitsAreUnique | lib/sippycup_media/rtp.py:662-750 | no packet list is accepted for two digit strings, even at different clock rates |

## Left out

- Envelope documents, campaign manifests, sessions and models: schema checks, YAML and JSON parsing and field typing are preconditions on typed values, not modelled branches.
- CampaignPlan: DNS answers are a function of the name, addresses are a version and a number, and cidr text is not parsed; capture filters, assumptions and provider fields of the plan are omitted.
- CampaignPlan.AnswersSettle: two spellings or scope identifiers of one IPv6 address are one answer here, where the source keeps both texts, tied and in set order.
- CampaignPlan.CompiledPlansVerify: holds for answers without such ties; with them the source's own recompilation may order its pins differently.
- CampaignPlan.CompilePlan: which of its faults a matrix is refused for is left to `Constraints.ValidateMatrix`.
- ActionTraces.CheckGeneratedActions: actions are compared after the surrounding blanks are stripped, which the campaign compiler does and the generator does not.
- MatrixCampaign: the rendered Markdown report, the JSON rendering of the ledgers, and the identifiers of the past failures that a case matches.
- EnvelopeController.Simulate: the field text of events beyond their kind, time, step and phase.
- BehaviorDiff: numbers are integers (floats have no exact renaming behaviour to state), text is ASCII for lower-casing, and objects hold their fields in key order, the order the traversal visits them.
- BehaviorModel.SemanticModel: a timing member that is absent is modelled as null; evidence stripping and the oracle results are not modelled.
- BehaviorChanges: a path is a list of steps rather than rendered text, and change categories and evidence references are omitted.
- Scenario: header lines, SDP text, authentication lines, linting and the files written to disk; a codec without an encoding name is not modelled.
- Dialogs.DialogFromRoot: SDP roles, route sets and unknown-field notes are omitted; each is a table lookup on one frame.
- CaptureWatchdog.WatchdogIsExact: times are exact microseconds where the source adds a float fraction, so a window boundary inside float rounding is not captured; a poll that cannot open the file at all changes nothing and is omitted, and threads and sleeps are not modelled.
- MediaStripper.StripMediaPayload: the temporary file and atomic replacement.
- PairMeasurement.MeasurePair: delay statistics, percentages and tolerances, which are floating-point summaries of the pairs.
- RtpPlan: SDP parsing, RTP sending, and audio synthesis; the asset is a byte string whose hash check is a flag.
- Network namespaces, traffic control, process supervision, TURN, WebRTC and WSS fixtures, MCP servers, OpenSSL and SQLite use: operating-system and library behaviour.
