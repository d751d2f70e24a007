# Verified model of CED-1

A Dafny model of the parts of CED-1 where a mistake would be hardest to see: the
worklist algorithms, the exact arithmetic and canonical text behind the account
rules, the interval reasoning over partly unknown periods, the task graph of a
mission, the registration protocol and governed dispatch, and the candle
analyzers that promise not to look ahead. Loops are methods with invariants,
objects that change in place are classes, and the rest is functions; what the
code promises is proved about them as lemmas, for all inputs and all runs.

`dafny verify dfyconfig.toml` checks the whole project.

## Modules

- Worklists: `Digraph` (walks, cycles, sinks), `AuthorizationData`,
  `SupersessionResolver`, `LifecycleEvidence`.
- Arithmetic and text: `Arithmetic`, `DecimalNotation`, `Fractions`,
  `DecimalAmounts`, `TrailingThreshold`, `CodePoints`, `Sorting`, `CanonicalText`,
  `JsonLiterals` (reading string literals back).
- Intervals: `Periods`, `Regimes`, `DailySession`, `HistoricalApplicability`,
  `ApprovalMerge`, `RegimeAssessment`, `RegimeOutcome` (its stages, by which periods hold).
- Missions: `Tasks`, `TaskGraph` (the operations as functions), `LiveTaskGraph`
  (the class), `TaskMeaning` (the tables and approval decisions), `FailurePropagation`, `TaskRuns`,
  `TaskSafety`, `TaskPlan`, `PlanApprovals`, `PlanPropagation`, `TaskLog`, `PreventionFlag`.
- Governance: `PolicyEvaluation`, `PolicyMeaning`, `Registrations`, `ReservationProtocol`, `Dispatch`,
  `DispatchMeaning` (errors, authorization and reply), `GovernedMission` (a dispatch as an operation on a task graph), `DispatchRace`
  (several dispatchers of one task), `PlainTrees` (heaps and the trees copied from them).
- Candles: `Swings`, `MarketStructure`, `LevelClusters`, `LiquidityHistory`,
  `LiquidityPrices`, `LiquidityCausality`, `Displacement`, `FairValueGaps`.

## Assumptions

- A candle's timestamp is its text and the instant it denotes, which the model does
  not parse from the text. In the account rules, which normalise their times first,
  times are integers in the order of the instants.
- Clocks, fresh identities and what a callable does are parameters. Fresh identities
  are distinct.
- Digests and fingerprints are injective: a context's fingerprint is the context
  without its time of evaluation, a level's identity is its boundary record. The
  contracts compared in a dispatch (mission_control/runtime.py:456) are compared
  as values. The code compares JSON text in both places, and there neither keys nor
  values need encode as UTF-8: a text holding a pair of surrogates and one holding the
  character they encode are different values with the same JSON text, so the code can
  take two such contexts or contracts for one. The first finding shows this for keys.
- Floats, prices among them, are reals, so nothing is said about rounding. In a
  context or payload a float is a finite one.
- Dictionaries are read as maps; where iteration order matters the model sorts as
  the code does, or takes the order as given.
- Each critical section under the registration lock is one atomic step. `Dispatch`
  is verified with no other thread between its own steps; what others may do to the
  registry there is the subject of `ReservationProtocol`, and what they may do to the
  task that of `DispatchRace`, where the checks, the look at the state, the tests of a
  change and its writes are one step each.
- A dictionary has each key once.
- A schema's required fields are a list of texts, when there is one.

## Findings

Where the code does less than a reader would expect, each with its input and the
exact condition. Paths are below src/ced_one/.

- business_divisions/trading/current_intraday_trailing_loss_threshold_state.py:124-132.
  The canonical text does not decide equality of all printable values: dictionary
  keys may hold lone surrogates, and a key made of a surrogate pair prints like the
  character it encodes (`CanonicalText.SurrogateKeysCollide`). Texts are equal exactly
  when the ordered code-unit trees are (`CanonicalText.TextDecides`), and on values with
  scalar keys exactly when the values are (`CanonicalText.CanonicalIsInjective`).
- mission_control/tasks.py:320. `terminally_prevented` is overwritten by a later spread:
  a failure with retries left clears it behind a task refused for good
  (`PreventionFlag.FlagIsCleared`, reached in `PreventionFlag.PlansGetThere`). Which calls
  clear a flag is exactly known, in every reachable graph
  (`PreventionFlag.FlagClearedExactlyWhen`); where something downstream is running, that
  condition names the tasks which the search stops before it raises. In the graph of a plan
  it stops none then, and the condition can be checked before the call
  (`PlanPropagation.UnflaggedExactlyWhen`). It costs no safety: nothing behind a refused task
  starts in any continuation (`TaskSafety.NothingStartsBehindDoomed`).
- mission_control/tasks.py:318-319. `propagate_failure` raises exactly when something
  downstream is running (`TaskSafety.PropagationRaisesWhen`), which needs a completed
  start; every two-step plan without approvals gets there
  (`PlanPropagation.SomeSpreadRaises`). In the graph of a plan it then has changed nothing
  (`PlanPropagation.RaisingChangesNothing`).
- business_divisions/trading/market_structure.py:185-273. One close can confirm a
  continuation and a reversal at once (`MarketStructure.BothCanHappen`), exactly when it
  lies beyond both swings and its timestamp reads later than theirs
  (`MarketStructure.ConfirmedExactlyWhen`); the anchor reported is then the continuation's.
- business_divisions/trading/market_structure.py:193-199 and 238-244. Timestamps are compared
  as text, while business_divisions/trading/validation.py:49-56 checks the order of the
  instants only. With mixed offsets a later candle can read earlier, and a close beyond a
  swing is then not confirmed (`MarketStructure.MixedOffsetsHideBreaks`); where the texts
  sort as the instants do this cannot happen (`MarketStructure.UniformTexts`).
- mission_control/runtime.py:504-505. The dispatcher records a start only in a log it is
  handed, and the parameter defaults to none; the mission service hands it the graph's
  (mission_control/service.py:145-147). The log of a graph tells a task's state exactly
  when every dispatch that started the task was handed it (`TaskLog.LogTellsStates`), and
  after one that was not it says READY of a task that runs (`TaskLog.SilentStartIsLost`).
- mission_control/runtime.py:499-503 and tasks.py:104-121. Nothing locks a task while it is
  dispatched. Two dispatchers can both run it when one tests a change of state before the
  other has written it (`DispatchRace.TwoCanRun`); when tests and writes are not torn apart
  at most one runs it (`DispatchRace.AtMostOneRuns`). A dispatcher past the checks raises
  exactly when another has moved the task on (`DispatchRace.RaisesExactlyWhen`), and then
  reports an execution performed without a call of the executor, runtime.py:521-528
  (`DispatchRace.LoserClaimsExecution`).
- business_divisions/trading/causal_account_rule_regime_assessment.py:122-130. Membership
  of a period stays open although every completion contains the time in exactly two
  cases: an unknown start with an end at the next instant, and a start at this very
  instant with an unknown end (`RegimeAssessment.ContainsMeaning`).

## Model

| member | source | states |
|---|---|---|
| AuthorizationData.ValidateContextData | src/ced_one/mission_control/policy.py:12-38 | The stack search ends on every finite heap, shared or cyclic, and reports no error exactly when everything reachable is acyclic, has text keys only and allowed leaves; the error it reports is the one depth-first order meets first. |
| AuthorizationData.CheckMeaning | src/ced_one/mission_control/policy.py:12-38 | The recursive check that specifies the search is sound and complete: an answer of no error means an acceptable value, any other answer names a fault that is there. |
| AuthorizationData.OpenContainer | src/ced_one/mission_control/policy.py:21-31 | Entering a container keeps the invariant: the ancestors are the containers whose leave marker is on the stack. |
| AuthorizationData.NestedOpened | src/ced_one/mission_control/policy.py:21-31 | Entering a container keeps the nesting: every container whose leave marker is on the stack encloses everything above its marker. |
| PlainTrees.AcceptedExactlyWhenTree | src/ced_one/mission_control/policy.py:12-38 | A value is accepted exactly when a finite tree can be read from it, all of whose containers are lists or dictionaries with text keys and whose leaves are plain: the same check as the policies make of the copied tree. |
| SupersessionResolver.HasCycle | src/ced_one/business_divisions/trading/causal_instrument_specification_applicability_resolver.py:77-94 | Kahn's traversal answers True exactly when the edge set has a directed cycle. |
| SupersessionResolver.CountEdges | src/ced_one/business_divisions/trading/causal_instrument_specification_applicability_resolver.py:79-84 | After the first loop every node is known and its count is the number of its incoming edges. |
| SupersessionResolver.Resolve | src/ced_one/business_divisions/trading/causal_instrument_specification_applicability_resolver.py:97-160 | The method's answer is the one that the standing claims in scope determine, by the stages of the source: corrections replace their targets wholly, and any conflict leaves the question unresolved. |
| SupersessionResolver.OutcomeIsUnique | src/ced_one/business_divisions/trading/causal_instrument_specification_applicability_resolver.py:106-160 | The set of assertions, the coverage and the two times determine the outcome, whatever the order of the assertions. |
| SupersessionResolver.CandidateReached | src/ced_one/business_divisions/trading/causal_instrument_specification_applicability_resolver.py:147-155 | Without a cycle every positive revision is overtaken by some candidate: a sink always exists. |
| SupersessionResolver.UniqueExactlyWhen | src/ced_one/business_divisions/trading/causal_instrument_specification_applicability_resolver.py:147-159 | A unique revision is reported exactly when nothing conflicts and that positive revision supersedes every other, directly or through a chain. |
| SupersessionResolver.NoneExactlyWhen | src/ced_one/business_divisions/trading/causal_instrument_specification_applicability_resolver.py:147-160 | No applicable revision is reported exactly when nothing positive is active; with conflicts ruled out a candidate always exists. |
| SupersessionResolver.NoneMeaning | src/ced_one/business_divisions/trading/causal_instrument_specification_applicability_resolver.py:97-160 | Read off the evidence: on conclusive coverage, no applicable revision is reported exactly when every active claim is a withdrawal. |
| SupersessionResolver.UniqueMeaning | src/ced_one/business_divisions/trading/causal_instrument_specification_applicability_resolver.py:97-160 | The reported revision is supported by an active claim, opposed by none, known, and already effective. |
| SupersessionResolver.UniqueOvertakes | src/ced_one/business_divisions/trading/causal_instrument_specification_applicability_resolver.py:138-159 | The reported revision has superseded, through a chain of active claims, every other revision an active claim supports. |
| SupersessionResolver.UniqueAt | src/ced_one/business_divisions/trading/causal_instrument_specification_applicability_resolver.py:118-160 | In the scope's own fields: on conclusive evidence a unique revision has a standing claim in its favour whose scope has begun and, where it has an end, not ended; no standing claim in scope at that time withdraws or supersedes it, and it is effective by then. |
| SupersessionResolver.NoneAt | src/ced_one/business_divisions/trading/causal_instrument_specification_applicability_resolver.py:133-160 | In the scope's own fields: on conclusive evidence none is reported exactly when every standing claim whose scope contains the time is a withdrawal. |
| SupersessionResolver.ConflictsAt | src/ced_one/business_divisions/trading/causal_instrument_specification_applicability_resolver.py:138-160 | On conclusive evidence a withdrawal conflict is reported exactly when some revision both applies and is withdrawn at the time, and a start conflict exactly when one applies before its start. |
| LifecycleEvidence.CheckCorrections | src/ced_one/business_divisions/trading/causal_instrument_specification_lifecycle_evidence_snapshot.py:118-145 | Passes exactly when no correction is faulty and their references have no cycle; a cycle is reported exactly when that is all that is wrong, and otherwise the first faulty correction's error. |
| LifecycleEvidence.FaultlessExactlyWhen | src/ced_one/business_divisions/trading/causal_instrument_specification_lifecycle_evidence_snapshot.py:118-135 | A correction has no fault exactly when it corrects another assertion whose observation and, as far as both are known, publication came no later than its own. |
| LifecycleEvidence.CorrectionsCycle | src/ced_one/business_divisions/trading/causal_instrument_specification_lifecycle_evidence_snapshot.py:136-145 | The memoised walk finds a cycle of correction references exactly when there is one. |
| DecimalNotation.IntegerText | src/ced_one/business_divisions/trading/current_intraday_trailing_loss_threshold_state.py:111-119 | Printing in blocks of a thousand digits gives plain decimal notation, for integers of any size and sign. |
| DecimalNotation.IntegerTextInChunks | src/ced_one/business_divisions/trading/current_intraday_trailing_loss_threshold_state.py:111-119 | The same for any block length. |
| DecimalNotation.ParseInteger | src/ced_one/business_divisions/trading/current_intraday_trailing_loss_threshold_state.py:155-162 | Reading in blocks gives the number the text denotes. |
| DecimalNotation.IntegerRoundTrip | src/ced_one/business_divisions/trading/current_intraday_trailing_loss_threshold_state.py:111-119 | Printing and reading an integer returns it. |
| DecimalAmounts.Money | src/ced_one/business_divisions/trading/current_intraday_trailing_loss_threshold_state.py:165-169 | Accepts exactly the canonical notations and yields the reduced fraction denoted. |
| DecimalAmounts.AmountOfIsInjective | src/ced_one/business_divisions/trading/current_intraday_trailing_loss_threshold_state.py:165-169 | Two accepted notations of the same amount are the same text. |
| DecimalAmounts.Decimal | src/ced_one/business_divisions/trading/current_intraday_trailing_loss_threshold_state.py:177-194 | Succeeds exactly on reduced fractions whose denominator has no prime factors but 2 and 5, and prints the notation that reads back as the fraction. |
| DecimalAmounts.RoundTrip | src/ced_one/business_divisions/trading/current_intraday_trailing_loss_threshold_state.py:165-194 | Printing what was read gives back every accepted text. |
| DecimalAmounts.ShowsValue | src/ced_one/business_divisions/trading/current_intraday_trailing_loss_threshold_state.py:188-189 | The scaled numerator over the power of ten is the fraction's value. |
| Fractions.SameValue | src/ced_one/business_divisions/trading/current_intraday_trailing_loss_threshold_state.py:165-169 | Reduced fractions are equal exactly when their values are. |
| TrailingThreshold.CheckClose | src/ced_one/business_divisions/trading/current_intraday_trailing_loss_threshold_state.py:385-389 | A close passes exactly when its net delta is the sum of its parts and its balances differ by it. |
| TrailingThreshold.Reconcile | src/ced_one/business_divisions/trading/current_intraday_trailing_loss_threshold_state.py:700-707 | No finding exactly when the balances chain from the initial capital to the snapshot; a chain finding names the first break. |
| TrailingThreshold.Establish | src/ced_one/business_divisions/trading/current_intraday_trailing_loss_threshold_state.py:730-742 | Every figure printed shows initial capital plus the deltas so far, the maximum of the capital and all balances so far, and that maximum less a tenth of the capital; printing never fails. |
| TrailingThreshold.Evaluate | src/ced_one/business_divisions/trading/current_intraday_trailing_loss_threshold_state.py:385-742 | Checks, reconciliation and state together: a state is established exactly when every close adds up and the balances chain to the snapshot; it then prints back the very texts of the capital and of every balance, the snapshot's last. |
| TrailingThreshold.HighestIsMaximum | src/ced_one/business_divisions/trading/current_intraday_trailing_loss_threshold_state.py:735-737 | The watermark bounds the capital and every balance so far, and is one of them. |
| TrailingThreshold.ThresholdNeverFalls | src/ced_one/business_divisions/trading/current_intraday_trailing_loss_threshold_state.py:735-739 | The threshold never decreases and stays at or above nine tenths of the initial capital. |
| TrailingThreshold.AddTerminates | src/ced_one/business_divisions/trading/current_intraday_trailing_loss_threshold_state.py:386-389 | Sums of terminating decimals terminate, so no emitted amount can fail to print. |
| CanonicalText.TreeUnique | src/ced_one/business_divisions/trading/current_intraday_trailing_loss_threshold_state.py:122-139 | A canonical text, followed by anything that delimits it, has one reading: delimiters settle where integers end. |
| CanonicalText.TextDecides | src/ced_one/business_divisions/trading/current_intraday_trailing_loss_threshold_state.py:122-139 | Canonical texts are equal exactly when the ordered code-unit trees agree: strings read as UTF-16, and keys in the order in which they were sorted by code point. |
| CanonicalText.CanonicalIsInjective | src/ced_one/business_divisions/trading/current_intraday_trailing_loss_threshold_state.py:122-139 | On values whose keys are scalar text, canonical texts are equal exactly when the values are. |
| CanonicalText.SurrogateKeysCollide | src/ced_one/business_divisions/trading/current_intraday_trailing_loss_threshold_state.py:124-132 | Two different dictionaries whose canonical texts agree: keys, unlike text values, are not checked for lone surrogates. |
| JsonLiterals.LiteralReads | src/ced_one/business_divisions/trading/current_intraday_trailing_loss_threshold_state.py:124-132 | Reading a string literal back, escapes included, gives the UTF-16 code units of the text that was written, for every text. |
| JsonLiterals.SurrogatesAre | src/ced_one/business_divisions/trading/current_intraday_trailing_loss_threshold_state.py:124-132 | The surrogates are exactly the two halves into which characters beyond the basic plane are split. |
| JsonLiterals.PrintableExactlyWhen | src/ced_one/business_divisions/trading/current_intraday_trailing_loss_threshold_state.py:122-139 | A value can be printed exactly when nothing in it, at any depth, is a float, a foreign object, a dictionary with a key that is no text, or a text value with a surrogate. |
| JsonLiterals.ScalarKeysExactlyWhen | src/ced_one/business_divisions/trading/current_intraday_trailing_loss_threshold_state.py:124-128 | The condition of the injectivity result: no dictionary at any depth has a key with a surrogate in it. |
| JsonLiterals.ListText | src/ced_one/business_divisions/trading/current_intraday_trailing_loss_threshold_state.py:124-130 | The text of a list, item by item: brackets around, commas between, no blanks. |
| JsonLiterals.DictText | src/ced_one/business_divisions/trading/current_intraday_trailing_loss_threshold_state.py:124-130 | The text of a dictionary, from its least key on: braces around, each quoted key before its value, commas between. |
| CanonicalText.UniquePairs | src/ced_one/business_divisions/trading/current_intraday_trailing_loss_threshold_state.py:408-414 | Builds the dictionary of the pairs, or raises, exactly on a repeated key. |
| CanonicalText.BuildNormal | src/ced_one/business_divisions/trading/current_intraday_trailing_loss_threshold_state.py:417-427 | Decoding the tree of a printed value with the duplicate-rejecting hook returns the value. |
| CanonicalText.AnyReadingDecodes | src/ced_one/business_divisions/trading/current_intraday_trailing_loss_threshold_state.py:417-427 | Whatever tree of scalar text a parser reads from a canonical text, decoding it returns the value that was printed. |
| DailySession.CoversMeaning | src/ced_one/business_divisions/trading/as_of_daily_reset_loss_floor_state.py:560-562 | A period covers the window exactly when it certainly holds at every instant of it. |
| DailySession.MayOverlapMeaning | src/ced_one/business_divisions/trading/as_of_daily_reset_loss_floor_state.py:565-571 | Answers True exactly when some completion of the unknown bounds makes all the periods share an instant of the half-open window. |
| DailySession.UnionCovers | src/ced_one/business_divisions/trading/as_of_daily_reset_loss_floor_state.py:574-588 | True exactly when every period that may meet the window has settled bounds and every instant of the window lies in some period. |
| DailySession.Session | src/ced_one/business_divisions/trading/as_of_daily_reset_loss_floor_state.py:591-623 | True exactly when the frame covers the session, no rival assignment or package and no rejection may meet it, and bindings and approvals cover it. |
| DailySession.SessionExactlyWhen | src/ced_one/business_divisions/trading/as_of_daily_reset_loss_floor_state.py:591-623 | A session is accepted exactly when each of its instants is safe (frame, some binding and some approval certainly in force, no rival, other package or rejection possible) and no bearing bound is open. |
| DailySession.SessionMeaning | src/ced_one/business_divisions/trading/as_of_daily_reset_loss_floor_state.py:591-623 | At every instant of an accepted session the frame, some binding and some approval are certainly in force, and no rival assignment, other package or rejection can be, however unknown bounds are settled. |
| HistoricalApplicability.CoversMeaning | src/ced_one/business_divisions/trading/current_intraday_trailing_loss_threshold_state.py:554-556 | A period covers the closed window exactly when it certainly holds at every instant of it, the last included. |
| HistoricalApplicability.MayOverlapMeaning | src/ced_one/business_divisions/trading/current_intraday_trailing_loss_threshold_state.py:559-565 | The same overlap question for the closed window, where the last instant counts. |
| HistoricalApplicability.SweepClosed | src/ced_one/business_divisions/trading/current_intraday_trailing_loss_threshold_state.py:597-607 | The frontier sweep answers True exactly when every instant of the closed window lies in an interval, given intervals that the overlap filter let through. |
| HistoricalApplicability.Historical | src/ced_one/business_divisions/trading/current_intraday_trailing_loss_threshold_state.py:568-607 | True exactly when the frame covers the history, nothing rivals it, every bearing binding is settled and the package is bound throughout. |
| HistoricalApplicability.HistoricalExactlyWhen | src/ced_one/business_divisions/trading/current_intraday_trailing_loss_threshold_state.py:568-607 | The regime applied throughout exactly when every instant from inception on is safe and no binding of the package that may meet them has an open bound. |
| HistoricalApplicability.HistoricalMeaning | src/ced_one/business_divisions/trading/current_intraday_trailing_loss_threshold_state.py:568-607 | At every instant from inception on, enrollment, phase, package and one of its bindings are certainly in force, and nothing rivals them, however unknown bounds are settled. |
| ApprovalMerge.Merge | src/ced_one/business_divisions/trading/causal_account_rule_regime_assessment.py:514-526 | The growing loop ends with exactly the periods linked to the time by chains of overlapping or touching periods, and leaves no gap. |
| ApprovalMerge.OrderDoesNotMatter | src/ced_one/business_divisions/trading/causal_account_rule_regime_assessment.py:514-526 | Any two results for the same periods have the same members and the same hull. |
| ApprovalMerge.TouchesMember | src/ced_one/business_divisions/trading/causal_account_rule_regime_assessment.py:518-521 | Touching the hull of a gapless stretch means touching one of its members, so comparing with the hull is enough. |
| RegimeAssessment.ContainsMeaning | src/ced_one/business_divisions/trading/causal_account_rule_regime_assessment.py:122-130 | The answer is definite exactly when every completion of the period agrees on it, except in two boundary cases that stay open although every completion holds: an unknown start with an end at the next instant, and a start at this instant with an unknown end. |
| RegimeAssessment.IntersectionHolds | src/ced_one/business_divisions/trading/causal_account_rule_regime_assessment.py:437-440 | The intersection holds exactly where all the periods hold. |
| RegimeAssessment.UnionHolds | src/ced_one/business_divisions/trading/causal_account_rule_regime_assessment.py:494-501 | Several bindings that all contain the time stand for exactly their union. |
| RegimeAssessment.MergeApprovals | src/ced_one/business_divisions/trading/causal_account_rule_regime_assessment.py:514-526 | The approvals kept are exactly the approving, settled ones linked to the time. |
| RegimeAssessment.Assess | src/ced_one/business_divisions/trading/causal_account_rule_regime_assessment.py:443-527 | The outcome by stages, with every reason; an established regime reports its stretch of approvals and the cut of all its periods. |
| RegimeAssessment.EstablishedRegime | src/ced_one/business_divisions/trading/causal_account_rule_regime_assessment.py:443-527 | Whenever a regime is established its period contains the time, and its instants are exactly those at which the enrollment, the phase, the package, one of the package's bindings that contain the time and one of the reported approvals are certainly in force. |
| RegimeAssessment.StretchIsMaximal | src/ced_one/business_divisions/trading/causal_account_rule_regime_assessment.py:514-526 | The stretch of approvals cannot be longer: one that counts and is in force at, right before or right after an instant of a reported one is reported too. |
| RegimeOutcome.CoverageStage | src/ced_one/business_divisions/trading/causal_account_rule_regime_assessment.py:443-454 | Each reason of the first stage is given exactly when the evidence is limited, of unknown completeness, cut off before the knowledge boundary, or does not certainly cover the time. |
| RegimeOutcome.AssignmentStage | src/ced_one/business_divisions/trading/causal_account_rule_regime_assessment.py:455-470 | Each reason of the second stage, by which assignments certainly hold and which possibly do. |
| RegimeOutcome.AssignedExactlyWhen | src/ced_one/business_divisions/trading/causal_account_rule_regime_assessment.py:455-470 | The second stage is passed exactly when one assignment alone may apply, certainly does and is identified. |
| RegimeOutcome.PackageStage | src/ced_one/business_divisions/trading/causal_account_rule_regime_assessment.py:471-493 | Each reason of the third stage, by which of the assignment's bindings, with their packages, certainly hold and which possibly do. |
| RegimeOutcome.PackagedExactlyWhen | src/ced_one/business_divisions/trading/causal_account_rule_regime_assessment.py:471-493 | The third stage is passed exactly when bindings of one package certainly hold and no other binding possibly does. |
| RegimeOutcome.ApprovalStage | src/ced_one/business_divisions/trading/causal_account_rule_regime_assessment.py:503-513 | Once assignment and package are settled: exactly when the answer is that no approval is recorded, its timing unknown, a conflict, a rejection, one not effective, or an established regime, by which approvals and rejections hold. |
| RegimeOutcome.EstablishedExactlyWhen | src/ced_one/business_divisions/trading/causal_account_rule_regime_assessment.py:443-513 | A regime is established exactly when the evidence covers the time, one identified assignment and one package may apply and certainly do, their judgements are settled, some approval is in force and no rejection is. |
| RegimeOutcome.NoRejectionInForce | src/ced_one/business_divisions/trading/causal_account_rule_regime_assessment.py:506-513 | No rejection of an established regime's assignment and package can be in force at the time, however unknown bounds are settled. |
| Tasks.MissionTask.TransitionTo | src/ced_one/mission_control/tasks.py:104-121 | Follows the table, the compatibility map, the dependency gate and the retry budget, with the error of the first check that fails; a raising call changes nothing. |
| TaskMeaning.TransitionTable | src/ced_one/mission_control/tasks.py:29-39 | The transitions of the table, listed by where each state can be entered from. |
| TaskMeaning.ApprovalTable | src/ced_one/mission_control/tasks.py:84-102 | The compatible pairs, listed by the states that each approval fits. |
| TaskMeaning.TransitionMeaning | src/ced_one/mission_control/tasks.py:104-121 | A transition goes through exactly when the table has it, the approval fits, no dependency is open for a start and a retry is within the budget; it sets state, approval and reason, counts a retry and changes nothing else. |
| LiveTaskGraph.MissionTaskGraph.FromExecutionPlan | src/ced_one/mission_control/tasks.py:198-262 | Building in place gives the plan's graph, tasks, links and log entries in order, each task with the approval that its step and the plan call for. |
| PlanApprovals.FirstApprovals | src/ced_one/mission_control/tasks.py:207-217 | Of every plan and step: its task's approval is not required exactly when the step needs none, given exactly when it needs one and the plan is approved, and pending exactly when it needs one and the plan is not. |
| PlanApprovals.StartNeedsApproval | src/ced_one/mission_control/tasks.py:104-121 | In every run of an unapproved plan, a step that needs approval is started only after an earlier operation of the run gave its task one or waived it. |
| LiveTaskGraph.MissionTaskGraph.TransitionTask | src/ced_one/mission_control/tasks.py:295-300 | The whole graph afterwards, whether the call returned or raised. |
| LiveTaskGraph.MissionTaskGraph.PropagateFailure | src/ced_one/mission_control/tasks.py:302-325 | The queue loop gives the graph and the list of the specified breadth-first search, also when it raises half-way. |
| LiveTaskGraph.MissionTaskGraph.ApproveTask | src/ced_one/mission_control/tasks.py:327-371 | The whole graph after any approval decision, the ignored one included. |
| TaskMeaning.GrantMeaning | src/ced_one/mission_control/tasks.py:347-357 | Granting goes through exactly for a known task that is not over; it sets that task's approval and changes nothing else of the graph but the log. |
| TaskMeaning.RequestMeaning | src/ced_one/mission_control/tasks.py:358-371 | Asking for approval, or escalating, goes through exactly for a known task that is PENDING, BLOCKED, READY, ASSIGNED or waiting for a retry; the task is then BLOCKED with the approval as asked, and no other changes. |
| LiveTaskGraph.MissionTaskGraph.MarkTaskResult | src/ced_one/mission_control/tasks.py:373-394 | The whole graph after a result, with the failure spread when there are errors. |
| LiveTaskGraph.MissionTaskGraph.ResolveMissionState | src/ced_one/mission_control/tasks.py:396-418 | The mission's state, by precedence of the task states. |
| TaskMeaning.MissionMeaning | src/ced_one/mission_control/tasks.py:396-418 | Rejected exactly when some task is; failed exactly when none is and one failed or is blocked for good; cancelled exactly when neither and one is; completed exactly when there are tasks and all are. |
| FailurePropagation.PropagationMeaning | src/ced_one/mission_control/tasks.py:302-325 | The search ends; it raises exactly when some unfinished task downstream can neither stay nor be blocked, and otherwise stops exactly the unfinished tasks downstream, lists each once and changes nothing else, searching through finished ones too. |
| TaskRuns.ApplySteps | src/ced_one/mission_control/tasks.py:295-394 | In any graph, whatever is called or dispatched and whether or not it raises, every task keeps its state and retries, makes one move of the table past its gates, or is dispatched from READY or ASSIGNED to IN_PROGRESS; finished tasks do not change. |
| TaskSafety.RunSound | src/ced_one/mission_control/tasks.py:27-39 | In every reachable graph tasks past BLOCKED have all dependencies completed, and every state fits its approval. |
| TaskSafety.CannotBeFooled | src/ced_one/mission_control/runtime.py:346-353 | In a reachable graph a dispatcher's check passes, on whatever set of completed tasks it was told, only if it passes on the tasks that are completed. |
| TaskSafety.StartedWhenDone | src/ced_one/mission_control/tasks.py:104-121 | In a reachable graph whatever call or dispatch starts a task, all its dependencies are completed and its approval is given or not needed. |
| TaskSafety.TerminalIsFinal | src/ced_one/mission_control/tasks.py:29-39 | A completed, rejected or cancelled task never changes again in any respect. |
| TaskSafety.OutcomeIsFinal | src/ced_one/mission_control/tasks.py:396-418 | A mission reported completed or rejected stays so in every continuation. |
| TaskSafety.BoundedExecution | src/ced_one/mission_control/tasks.py:104-121 | Entries into IN_PROGRESS equal the retry count, plus one once started in the current round, so there are never more than the retry limit plus one. |
| TaskSafety.NothingStartsBehindDoomed | src/ced_one/mission_control/tasks.py:302-387 | Once a task is rejected, cancelled or failed without budget, no continuation starts or finishes a task downstream of it. |
| TaskSafety.PropagationNeverRaises | src/ced_one/mission_control/tasks.py:302-325 | From a task that is not completed, in a reachable graph, spreading a failure never raises and leaves every listed task BLOCKED. |
| TaskSafety.PropagationRaisesWhen | src/ced_one/mission_control/tasks.py:302-325 | From any task, it raises exactly when something downstream is running. |
| TaskSafety.RefusalMeaning | src/ced_one/mission_control/tasks.py:331-346 | A refusal goes through exactly for a known task neither finished nor running, never raises after its first change, and blocks everything unfinished downstream for good. |
| TaskSafety.ResultMeaning | src/ced_one/mission_control/tasks.py:373-394 | A result is taken exactly for a running task, never raises after its first change, and a failure without budget blocks everything unfinished downstream. |
| TaskPlan.PlanIsChain | src/ced_one/mission_control/tasks.py:198-262 | The graph of a plan is a chain of distinct pending tasks, each depending on the one before. |
| TaskPlan.StepsRunInOrder | src/ced_one/mission_control/tasks.py:198-262 | In every run of a plan a step gets past BLOCKED only when all earlier steps are completed, so the completed steps are a prefix. |
| TaskPlan.OneStepAtATime | src/ced_one/mission_control/tasks.py:198-262 | In every run of a plan at most one step is past BLOCKED without being finished. |
| TaskLog.LogTellsStates | src/ced_one/mission_control/runtime.py:498-505 | In every run of graph calls, raised or not, and dispatches, the log tells a task's state (replaying its recorded changes and starts, each a move from where the last one ended) exactly when every dispatch that started the task was handed the log. |
| TaskLog.MissionLogTells | src/ced_one/mission_control/tasks.py:168-300 | The same for a mission started from a plan, whose log tells every state at first. |
| TaskLog.SilentStartIsLost | src/ced_one/mission_control/runtime.py:504-505 | In every plan whose first step needs no approval: once that step was made ready and dispatched without the log, the log says READY of a task that runs. |
| TaskLog.LostForGood | src/ced_one/mission_control/runtime.py:504-505 | Once a task was started without the log, no later call or dispatch makes the log tell its state again. |
| GovernedMission.DispatchTask | src/ced_one/mission_control/service.py:145-147 | Dispatching a task of a graph with the graph's own log is one operation on the graph: a logged start when it executes, otherwise nothing or one policy entry in the log; reservations are as before. |
| PreventionFlag.FlagClearedExactlyWhen | src/ced_one/mission_control/tasks.py:302-387 | For every operation on every reachable graph, a set prevention flag is cleared exactly when a spread that is not terminal (a call's own, or that of a running task failing with retries left) stops the task. |
| PreventionFlag.PropagateFlags | src/ced_one/mission_control/tasks.py:302-325 | Raised or not, a spread sets the flag of the tasks it stops to its own and leaves all others. |
| PlanPropagation.UnflaggedExactlyWhen | src/ced_one/mission_control/tasks.py:198-387 | In every run of a plan: exactly when a spread with terminal false starts from a task with nothing running downstream, or a running task fails with retries left, and the flagged task is unfinished and downstream of that start. |
| PlanPropagation.RaisingChangesNothing | src/ced_one/mission_control/tasks.py:302-325 | In every run of a plan, a spread that raises has changed nothing: all steps before the running one are completed, so the search passes them by. |
| PlanPropagation.SomeSpreadRaises | src/ced_one/mission_control/tasks.py:302-325 | Every two-step plan without approvals has a run after which spreading a failure from its completed first step raises. |
| PreventionFlag.FlagIsCleared | src/ced_one/mission_control/tasks.py:320-387 | The prevention flag of a task behind a refused one is cleared by the failure, with retries left, of a task before that. |
| PreventionFlag.PlansGetThere | src/ced_one/mission_control/tasks.py:198-325 | Every three-step plan that needs no approval reaches the situation in which that happens. |
| PolicyEvaluation.EvaluateMatch | src/ced_one/mission_control/policy.py:173-186 | Exactly the applicable rules, in the policy's order. |
| PolicyEvaluation.Winner | src/ced_one/mission_control/policy.py:266-291 | The loop ends with a rule of top priority that no other such rule beats by severity, version, start and smallest id. |
| PolicyEvaluation.Evaluate | src/ced_one/mission_control/policy.py:240-315 | DENY for an invalid context, the default when no rule applies, otherwise the deciding rule and the list of applicable ones. |
| PolicyEvaluation.OrderDoesNotMatter | src/ced_one/mission_control/policy.py:266-315 | Permuting the rules changes neither the decision nor the rule and version reported. |
| PolicyEvaluation.AllowedExactlyWhen | src/ced_one/mission_control/policy.py:266-315 | Execution is allowed exactly when the context is valid and every applicable rule of top priority allows it, or none applies and the default does; a DENY at top priority always wins. |
| PolicyMeaning.AppliesMeaning | src/ced_one/mission_control/policy.py:110-144 | A rule applies exactly when it is enabled and complete, the time lies within its period, both ends included, and every selector it sets equals the context's own field. |
| PolicyMeaning.StrictestWins | src/ced_one/mission_control/policy.py:240-315 | Among applicable rules of top priority DENY goes before ESCALATE before REQUIRE_APPROVAL before ALLOW, exactly; the rule reported is the newest, then latest, then least named of that decision. |
| PolicyMeaning.ValidMeaning | src/ced_one/mission_control/policy.py:205-238 | A context is valid exactly when every name it must carry has a character that is no white space, it is classified and dated, approval fits state, the version is positive and its data is plain. |
| Registrations.LocalExecutionRuntime.Register | src/ced_one/mission_control/runtime.py:253-259 | Replaces the entry of the key, or raises and changes nothing while the key is reserved. |
| Registrations.LocalExecutionRuntime.GetRegistration | src/ced_one/mission_control/runtime.py:261-264 | Shows the current identity and contract of a key, if it has an entry. |
| Registrations.LocalExecutionRuntime.Reserve | src/ced_one/mission_control/runtime.py:270-278 | Succeeds exactly for the current identity of the key, counts one more and shows the registered contract. |
| Registrations.LocalExecutionRuntime.Release | src/ced_one/mission_control/runtime.py:281-285 | Counts one less and drops a count of zero. |
| Registrations.LocalExecutionRuntime.Execute | src/ced_one/mission_control/runtime.py:287-300 | Calls the registered executor of the request's key once, and nothing else; a missing entry or another permission scope raises before the call. |
| Registrations.ReleaseUndoesReserve | src/ced_one/mission_control/runtime.py:270-285 | A reservation taken and released leaves the registry as it was. |
| Registrations.SameDataSameContract | src/ced_one/mission_control/runtime.py:456 | Contracts that compare equal as data are the same contract: no field goes uncompared. |
| ReservationProtocol.EveryRunKeeps | src/ced_one/mission_control/runtime.py:248-300 | In every interleaving by any number of holders, the count of each key is the number of open reservations, absent when zero, and every held entry is the registered one. |
| ReservationProtocol.ExecutesWhatWasReserved | src/ced_one/mission_control/runtime.py:270-293 | Whatever others do meanwhile, what a holder executes is the executor it reserved, under the contract it was shown. |
| ReservationProtocol.EveryCallWasReserved | src/ced_one/mission_control/runtime.py:287-300 | In every interleaving, every logged call of an executor is of the one its holder reserved. |
| ReservationProtocol.ExecuteNeverFails | src/ced_one/mission_control/runtime.py:287-293 | A holder always finds the entry to execute. |
| ReservationProtocol.RegisterRaisesWhenHeld | src/ced_one/mission_control/runtime.py:256-259 | Registering a key raises exactly while someone holds it. |
| ReservationProtocol.ReleaseNeverFails | src/ced_one/mission_control/runtime.py:281-285 | A holder's release always finds its own count. |
| ReservationProtocol.IssuedOnce | src/ced_one/mission_control/runtime.py:259-277 | An identity stands for one contract and executor for ever. |
| ReservationProtocol.ReplacedStaysStale | src/ced_one/mission_control/runtime.py:274-276 | A replaced registration can never be reserved again. |
| Dispatch.InputClear | src/ced_one/mission_control/runtime.py:410-432 | The first round of checks is silent exactly for well-formed calls. |
| Dispatch.PreDispatchClear | src/ced_one/mission_control/runtime.py:310-372 | The binding checks are silent exactly when the task may start and task, assignment, contract and input agree. |
| Dispatch.StartCannotRaise | src/ced_one/mission_control/runtime.py:500-503 | Once the checks are silent the two transitions on starting cannot raise. |
| Dispatch.AuthorizedMeansUnchanged | src/ced_one/mission_control/runtime.py:459-475 | An authorized call's snapshot still describes the task, its approval, the policy version, the payload and the reserved registration. |
| Dispatch.MissionExecutionDispatcher.Dispatch | src/ced_one/mission_control/runtime.py:374-530 | The executor is called exactly when the call is authorized, once, and is the reserved one, with the payload, context and bindings of the call; a rejection reports exactly the errors found and leaves the task and the call log as they were; in every case, executor exceptions included, the reservations are as before. |
| Dispatch.RequestCarries | src/ced_one/mission_control/runtime.py:483-498 | The request of an authorized call carries the payload given, or else the stored one, or else an empty one; the context given, or else an empty one; and the ids, specialist, division, capability and permission of the task's binding. |
| DispatchMeaning.BindingErrorsMeaning | src/ced_one/mission_control/runtime.py:310-345 | Each error of the binding is reported exactly when the field is missing, the division unknown, or the assignment gives the field otherwise. |
| DispatchMeaning.TaskErrorsMeaning | src/ced_one/mission_control/runtime.py:346-362 | Each error of the task is reported exactly when a dependency is not completed or prevented, the approval is pending, refused or escalated, or the state forbids a start. |
| DispatchMeaning.ContractErrorsMeaning | src/ced_one/mission_control/runtime.py:364-370 | A mismatch is reported exactly when contract and binding differ in capability, division or permission, and a missing input exactly for each required field that the payload lacks. |
| DispatchMeaning.AuthorizedCall | src/ced_one/mission_control/runtime.py:410-475 | When the executor is called the task is READY or ASSIGNED, approved or in no need of it, with every dependency reported completed, and the assignment contradicts nothing of the binding. |
| DispatchMeaning.AuthorizedRegistration | src/ced_one/mission_control/runtime.py:410-475 | ... and the registry's entry for the binding's own division and capability is the one that the authorization names, for the same permission. |
| DispatchRace.RaisesExactlyWhen | src/ced_one/mission_control/runtime.py:499-503 | In every interleaving of any number of dispatchers of one task, one that is past the checks raises exactly when the task has left the state that its next change starts from. |
| DispatchRace.UndisturbedNeverRaises | src/ced_one/mission_control/runtime.py:499-503 | A dispatcher in whose time no other writes the task never raises. |
| DispatchRace.AtMostOneRuns | src/ced_one/mission_control/runtime.py:499-506 | If no step of another comes between the tests of a change of state and its writes, at most one dispatcher ever runs the task, and the task is then IN_PROGRESS. |
| DispatchRace.TwoCanRun | src/ced_one/mission_control/tasks.py:104-121 | Otherwise, for every task that may be started, two dispatchers can both run it. |
| DispatchRace.LoserClaimsExecution | src/ced_one/mission_control/runtime.py:521-528 | Even with atomic changes of state, for every task that may be started, one of two dispatchers can raise and report an execution while its executor was never called. |
| Dispatch.Concluded | src/ced_one/mission_control/runtime.py:506-528 | An execution counts as succeeded exactly when the reply is a dictionary with every required output. |
| DispatchMeaning.ConcludedMeaning | src/ced_one/mission_control/runtime.py:506-528 | An exception is a failure with its message; any other reply is handed on as it is, with exactly the required outputs it lacks, and fails exactly when something is wrong with it. |
| Swings.FindConfirmedSwings | src/ced_one/business_divisions/trading/market_structure.py:121-144 | The index loop finds the swings of both sides. |
| Swings.SwingsMeaning | src/ced_one/business_divisions/trading/market_structure.py:121-144 | Exactly the candles strictly beyond both neighbours, each once, in order. |
| Swings.PrefixSwings | src/ced_one/business_divisions/trading/market_structure.py:124-143 | Later candles do not change which swings a prefix has confirmed. |
| MarketStructure.AnchorsConfirmedBefore | src/ced_one/business_divisions/trading/market_structure.py:286-289 | The anchors a break is judged against are exactly the swings confirmed before the last candle, which neither is one nor confirms one. |
| MarketStructure.StructureMeaning | src/ced_one/business_divisions/trading/market_structure.py:147-183 | Bullish exactly when the last two swing highs and the last two swing lows both rise, bearish exactly when both fall. |
| MarketStructure.BreakInPrices | src/ced_one/business_divisions/trading/market_structure.py:185-340 | In prices and texts: going beyond the latest swing on the structure's own side is the continuation, beyond the other the reversal; a wick makes a candidate, a close with a later text confirms, and the side reported is the first confirmed. |
| MarketStructure.BreakMeaning | src/ced_one/business_divisions/trading/market_structure.py:317-340 | A confirmed break is a candidate too, an anchor is reported exactly when a break is confirmed, and an unresolved structure has neither. |
| MarketStructure.ConfirmedExactlyWhen | src/ced_one/business_divisions/trading/market_structure.py:185-273 | A break is confirmed exactly when the last close lies beyond the latest prior swing of that side and its timestamp, as text, sorts after the swing's; so one close confirms both exactly when both conditions hold on both sides. |
| MarketStructure.UniformTexts | src/ced_one/business_divisions/trading/market_structure.py:193-199 | Where the texts sort as the instants do, as under one offset, only the prices decide. |
| MarketStructure.MixedOffsetsHideBreaks | src/ced_one/business_divisions/trading/market_structure.py:193-199 | A chronological history of proper candles, written with two offsets, whose last close lies beyond both swings and confirms neither break. |
| MarketStructure.BothCanHappen | src/ced_one/business_divisions/trading/market_structure.py:185-228 | A chronological history of proper candles in which both are confirmed. |
| LevelClusters.BuildClusters | src/ced_one/business_divisions/trading/liquidity_intelligence.py:308-343 | The nested loops find the specified runs of the sorted pivots. |
| LevelClusters.RunsAreClusters | src/ced_one/business_divisions/trading/liquidity_intelligence.py:312-343 | The clusters are disjoint runs in order, within the tolerance, of the minimum size and not extendable to the right; a pivot left out and those after it are too few or too spread. |
| LevelClusters.ClusterMeaning | src/ced_one/business_divisions/trading/liquidity_intelligence.py:308-343 | Any two members of a cluster are pivots of its side within the tolerance of each other. |
| LiquidityHistory.FindConfirmedPivots | src/ced_one/business_divisions/trading/liquidity_intelligence.py:275-305 | One pivot for each swing, highs before lows, confirmed by the candle after it. |
| LiquidityHistory.PivotMeaning | src/ced_one/business_divisions/trading/liquidity_intelligence.py:275-305 | The pivots are exactly the confirmed swings, each with its own extreme and time, and confirmed by the next candle at that candle's time. |
| LiquidityHistory.InteractionMeaning | src/ced_one/business_divisions/trading/liquidity_intelligence.py:365-392 | A candle meets a boundary exactly when it reaches the near edge; it closes beyond when the close passes the far edge, breaches when only the wick does, and touches when the wick ends inside, each exactly then. |
| LiquidityHistory.BuildHistory | src/ced_one/business_divisions/trading/liquidity_intelligence.py:424-450 | The loop with its dictionary of ranks yields the specified history. |
| LiquidityPrices.HistoryInPrices | src/ced_one/business_divisions/trading/liquidity_intelligence.py:365-450 | Of every entry of the history, in prices: its boundary reaches from the lowest member less the tolerance to the highest plus it, its kind is read off wick and close, and its status off the strongest meeting with that boundary so far. |
| LiquidityPrices.EveryMeetingIsEntered | src/ced_one/business_divisions/trading/liquidity_intelligence.py:428-449 | No meeting is passed over: every level in view of a candle whose near edge the candle reaches has an entry for it. |
| LiquidityPrices.LevelsMeaning | src/ced_one/business_divisions/trading/liquidity_intelligence.py:400-432 | The levels in view of a candle are exactly the clusters of the pivots known at it and, if asked for, the pivots in no cluster. |
| LiquidityCausality.NoLookAhead | src/ced_one/business_divisions/trading/liquidity_intelligence.py:400-450 | For every n, the history of the first n candles equals the entries of the full history for those candles, boundaries, members and statuses included. |
| LiquidityCausality.EntriesAreCausal | src/ced_one/business_divisions/trading/liquidity_intelligence.py:431-432 | Every member of a boundary in the history was confirmed, and inside the lookback, before the candle that met it. |
| LiquidityCausality.StatusesAreStrongest | src/ced_one/business_divisions/trading/liquidity_intelligence.py:439-447 | Each entry's status is that of the strongest meeting with its boundary so far. |
| Displacement.TrueRangeMeaning | src/ced_one/business_divisions/trading/displacement_intelligence.py:290-307 | A candle's true range is the length of the smallest interval that holds the candle and the close before it. |
| Displacement.MedianMeaning | src/ced_one/business_divisions/trading/displacement_intelligence.py:338-346 | The baseline is the mean of the two middle values in rising order, so half of the values lie at or below it and half at or above. |
| Displacement.QualifiesExactlyWhen | src/ced_one/business_divisions/trading/displacement_intelligence.py:309-378 | A candle is a bullish displacement exactly when it rises, its body is the required share of its height, its close the required share up, and its true range the required multiple of the median before it; bearish likewise, downwards. |
| Displacement.MarksAreCausal | src/ced_one/business_divisions/trading/displacement_intelligence.py:309-378 | Whether a candle qualifies is settled when it closes. |
| Displacement.Analyze | src/ced_one/business_divisions/trading/displacement_intelligence.py:400-544 | The sequences are exactly the maximal same-direction runs of the whole history that start in the candidate window and are long enough, in order and disjoint. |
| Displacement.FindSequences | src/ced_one/business_divisions/trading/displacement_intelligence.py:487-544 | The run state with its boundary exclusion reports exactly those runs. |
| FairValueGaps.FindGaps | src/ced_one/business_divisions/trading/fvg_imbalance_intelligence.py:308-379 | Exactly the gaps of the scanned candles that are wide enough, in order. |
| FairValueGaps.GapInPrices | src/ced_one/business_divisions/trading/fvg_imbalance_intelligence.py:308-345 | The gaps, in prices: bullish from the high before to the low after, bearish from the high after to the low before, wide enough and among the scanned candles. |
| FairValueGaps.TrackFill | src/ced_one/business_divisions/trading/fvg_imbalance_intelligence.py:389-463 | The loop state equals the closed form: deepest fill, its share of the width, status, first, last and first full interaction, and one record for each interacting candle. |
| FairValueGaps.EventInPrices | src/ced_one/business_divisions/trading/fvg_imbalance_intelligence.py:404-425 | A candle is a full fill exactly when its wick gets to the far side, a partial one when it only enters, and a touch when it only comes within the tolerance. |
| FairValueGaps.DepthInPrices | src/ced_one/business_divisions/trading/fvg_imbalance_intelligence.py:404-425 | The depth is the distance of the wick from the near side, nothing outside and the whole width when closed. |
| FairValueGaps.FillMeaning | src/ced_one/business_divisions/trading/fvg_imbalance_intelligence.py:404-442 | The status is full exactly when some later candle closed the gap, which is when a full-fill time is set, open exactly when none entered it, and an interaction is recorded exactly when one entered or came near. |
| FairValueGaps.NeverUnfills | src/ced_one/business_divisions/trading/fvg_imbalance_intelligence.py:429-442 | Later candles never undo depth, status, records or the times once set. |

## Left out

- SHA-256, base64, UUIDs, time zones, regular expressions as engines and the JSON grammar: no part of this model.
- `json.loads` itself: the decoder is modelled from the parse tree on, with its duplicate-key hook.
- Field-by-field schema checks, reference resolution and the long lists of findings before a balance is reconciled: many easy branches.
- RecursionError on deeply nested data, and other limits of the interpreter.
- Text of error messages, summaries, counters, metadata and evidence dictionaries, and the output scans for forbidden words.
- Envelopes, multi-timeframe context, composition, synthesis, chronology, connectors, adapters, routing and the service that drives a mission.
- Tasks added to a graph from outside its methods, task time stamps, and a retry count set by the creator: tasks start with none.
- The executor's own effects on the runtime or the task, and result bindings of other runtimes: the local runtime fills them from the request.
- Event and sequence numbering, and the candidate levels of the current candle: liquidity is modelled as history.
- SupersessionResolver.Resolve: corrections are validated beforehand, as the snapshot it receives has been.
- HistoricalApplicability.SweepClosed: assumes intervals that do not end before the window, which the filter in front of it guarantees.
- RegimeAssessment.Assess: reasons are a set, so their order and repetition are not modelled.
- PolicyEvaluation.Evaluate: rule versions and priorities are integers, so a rule without one is not modelled; and a context is invalid or not, without the list of its errors.
- Displacement.Analyze: the figures of a sequence beyond its members are not modelled.
- Dispatch.MissionExecutionDispatcher.Dispatch: an invalid context or snapshot is one error, not the list of what is wrong with it; audit entries carry the task, the decision and the resulting state only.
