# SignalForge: verified models of its algorithms and protocols

SignalForge answers research questions about companies with specialists, deterministic calculations and
recorded evidence. Most of the repository moves data; this project models the parts that decide something,
and proves what they decide. Run `dafny verify dfyconfig.toml` in this directory (Dafny 4.11).

The model keeps the form of the code: loops are loops, updated records are classes or working variables, and
each is proved against a specification whose own properties are then proved as lemmas. Map iteration order is
an arbitrary choice (`x :| x in todo`), so every result holds for all orders. The modules named `...Terms` (and
CompiledConflicts, ComparabilityRecords and CrawlOrder) say again what the specification functions compute, each time over the
fields of the inputs and without those functions, and prove that the two agree.

| file | what it models |
|---|---|
| ResearchPlan.dfy, PlanExecution.dfy, PlanTerms.dfy | the plan validator with its three-colour cycle search, executions of accepted plans, and acceptance in raw fields |
| ContextPacket.dfy, PacketTerms.dfy, NumericalContext.dfy, NumericalTerms.dfy | the packet validator with its reference closure, the numerical relations, and acceptance of both in raw fields |
| ContextMerge.dfy, ContextCompiler.dfy, CompiledContext.dfy, CompiledTerms.dfy, CompiledConflicts.dfy, DeliveryOrder.dfy, CompilerCases.dfy | merging, ranking and packing of packets, and what a compiled context is worth, also read off the delivered packets |
| Dcf.dfy, Bisection.dfy, ReverseDcf.dfy | the discounted-cash-flow formula over exact reals, the sensitivity grid, and the search for the implied growth |
| WorkerPool.dfy, Limiter.dfy, ToolCalls.dfy | the benchmark worker pool and completion limiter as transition systems, and tool-call reassembly |
| ModelCache.dfy | the resumable model cache, with a crash possible after every file operation |
| BreadthFirst.dfy, CrawlPages.dfy, CrawlWork.dfy, CrawlOutput.dfy, Crawler.dfy, CrawlTerms.dfy, CrawlOrder.dfy | the bounded breadth-first crawl, its work bound and its dedupe indexes, and what it files and notes for what the outside world answers |
| PythonText.dfy, Chunking.dfy, JsonWalk.dfy, JsonPlaces.dfy, JsonTerms.dfy | overlapping text windows, and the explicit-stack walk of a JSON document with the places, locators and contents of its blocks |
| Comparability.dfy, ComparabilityTerms.dfy, ComparabilityRecords.dfy, Alignment.dfy | comparability receipts and their validator, both also in raw fields, period alignment and in-place deduplication |
| ProcessTree.dfy, Environment.dfy, EnvironmentTerms.dfy | the process-tree fixpoint, and the environment-file printer and reader, the latter also on arbitrary text |
| Common.dfy, Strings.dfy, Graphs.dfy | results, string order and sorting, paths and cycles |

## Where a promise is not kept in general

Each of these is stated with its exact condition, most of them with a concrete case.

- **Operand order of a comparison** (internal/comparability/evaluate.go:63, 88-92, 220-225). `consolidated_dimensions`
  looks at the left operand alone, and the distance of period ends saturates at the smallest duration, whose
  negation in 64 bits is itself. So reasons depend on operand order exactly when one side alone is consolidated or, under
  the annual policy, the ends are at least 2^63 ns apart (about 292 years), and the disposition exactly under
  `!EndsDoNotDecide`. Years ending about 1732 and 2024 are released in one order and refused in the other.
- **Source order of equal ranks** (internal/contextcompiler/compiler.go:104). The key `packetIndex*1000 + findingIndex`
  follows delivery order exactly when each packet p has at most `(q - p)*1000 + 1` findings for every later nonempty
  packet q. For distinct claims of one rank within the budget that is also exactly when the output follows it.
- **Staleness** (internal/contextcompiler/compiler.go:82-90). Too old evidence in the output is always flagged, and the flag can be
  read off the delivered evidence. A flagged id is listed with a fresh copy exactly when the last copy of the content
  that came first is fresh and an earlier one is not, as two accepted packets show.
- **Waves as an execution order** (internal/contracts/validate_research.go:143). A context step may depend on a review or
  synthesis step; running waves in order is an execution exactly when none does, and an accepted plan where one does
  is given.
- **Receipts with caveats** (internal/contracts/activation.go:411-414). The validator does not look at failed invariants of a
  caveated receipt, and there is a released receipt with nothing but a failed one that it accepts; that they are absent
  rests on the evaluator.
- **Streamed tool calls** (internal/benchmark/client.go:184-190). Calls are lost exactly when the indices are not 0 to n-1.
- **Environment round trip** (scripts/radeon_preflight.py:557-560, scripts/radeon_manifest.py:166). The printer refuses two characters,
  the reader splits lines at ten; the round trip holds exactly for values free of all ten, and a full table whose
  persistent root is a directory named by a next-line character does not read back.
- **Pages found at one place** (scripts/ir_collect.py:642-653). A page whose final URI was filed before is noted as a duplicate
  without a look at its content. So a page that belongs has its content among the documents when no other such page was
  found where it was, and otherwise one of those pages has; a crawl of two pages with one final URI and different
  contents files only the first.
- **The cheap readiness test** (scripts/radeon_preflight.py:206-221). It is right for every manifest whose pinned size differs from, or
  whose contents equal, those of the manifests the cache was hydrated under; otherwise two crashes can mislead it.
- **Implied growth of a negative flow** (internal/finance/formulas.go:253-257). The search takes it that value rises with growth. For a
  positive flow enough rounds succeed exactly when some growth in reach is within the tolerance; otherwise the search
  succeeds in its first round or never, and there is no implied growth to find.
- **Locators of JSON texts** (scripts/ir_transform.py:160-170). Every text is emitted once, in preorder; two of them can share a locator
  when a key holds a full stop, and none do when no key holds a full stop or an opening bracket.
- **Worker pool without workers** (cmd/signalforge-benchmark/main.go:114-116). With jobs and a concurrency of zero the sender blocks for
  ever, and a negative concurrency panics in `wait.Add`; every run returns exactly when the concurrency is at least
  one, or zero without jobs. The caller's flag check is needed.

One promise holds more widely than written: the enterprise value falls with the rate and rises with growth for
every rate above -1 and every growth below the rate, because the last flow and the terminal value together are
the last flow over (rate - growth)(1 + rate)^(n-1). And the numerical relations describe an order up to their
tolerances: strict ones alone have no cycle, and around a circle with equalities in between the strict drops add up
to no more than the tolerances.

## Model

| member | source | states |
|---|---|---|
| ResearchPlan.CycleSearch.constructor | internal/contracts/validate_research.go:351-357 | A search starts with no colours, in a valid state for the graph that the steps describe |
| ResearchPlan.CycleSearch.Visit | internal/contracts/validate_research.go:358-375 | A true answer means the dependency graph has a cycle; a false one leaves every node reachable from the visited step finished, in an order in which dependencies come first |
| ResearchPlan.CycleSearch.Enter | internal/contracts/validate_research.go:364 | Colouring a step as being visited extends the chain of open visits |
| ResearchPlan.CycleSearch.Leave | internal/contracts/validate_research.go:371 | Finishing a step appends it to a topological order and closes the innermost visit |
| ResearchPlan.ClosingEdgeMakesCycle | internal/contracts/validate_research.go:359-361 | Meeting a step that is being visited closes a cycle of the graph |
| ResearchPlan.HasPlanCycle | internal/contracts/validate_research.go:351-381 | The search answers true exactly when the dependency graph has a cycle, self-loops included, for every map iteration order |
| ResearchPlan.CycleIgnoresDependencyOrder | internal/contracts/validate_research.go:366-370 | Neither the order nor the repetition of dependencies inside a step changes the answer |
| ResearchPlan.CheckCapabilities | internal/contracts/validate_research.go:122-128 | A step's capabilities pass exactly when none is blank and none occurs twice |
| ResearchPlan.CheckStep | internal/contracts/validate_research.go:95-132 | One round of the step loop extends the accepted prefix or names a fault that holds of this very step |
| ResearchPlan.ScanSteps | internal/contracts/validate_research.go:92-133 | The step loop accepts all steps and counts the kinds, or stops at the first step at fault |
| ResearchPlan.ValidateSteps | internal/contracts/validate_research.go:95-136 | Step loop and count check together: all in order, or a fault that holds |
| ResearchPlan.ValidateDependencies | internal/contracts/validate_research.go:137-147 | Every dependency is known and every context-to-context dependency goes to an earlier wave, or the first offender is named |
| ResearchPlan.ValidateResearchPlan | internal/contracts/validate_research.go:79-152 | No refusal exactly for the acceptable plans; every refusal names a fault that holds. What is acceptable is said in raw fields by PlanTerms.AcceptedIffMeets |
| ResearchPlan.FaultExcludesAcceptance | internal/contracts/validate_research.go:79-152 | A plan with any of the faults is not acceptable, so no refusal is spurious |
| ResearchPlan.FaultUnique | internal/contracts/validate_research.go:79-152 | At most one fault holds of a plan, so the refusal is determined by the plan: it is the first in checking order |
| PlanTerms.AcceptedIffMeets | internal/contracts/validate_research.go:79-159 | Acceptance read off the fields: header, every step (a context step has a wave from 0 to 4, where 0 stands for one left out), distinct ids, at most eight context steps and one synthesis, waves 0 and 1 together and each of 2, 3 and 4 no wider than allowed, known dependencies that go to earlier waves, and no circle of steps each depending on the next |
| PlanTerms.MissingWaveIsFirst | internal/contracts/validate_research.go:102-105 | Two plans that differ only in that context steps without a wave in the one have wave 1 in the other are both accepted or both refused |
| PlanTerms.MissingWaveAccepted | internal/contracts/validate_research.go:154-159 | An accepted plan whose context step has no wave |
| PlanTerms.ScheduleTerms | internal/contracts/validate_research.go:100-109 | The first list of an accepted plan's schedule holds the context steps of wave 1 and those without a wave, every other list those of one wave |
| PlanTerms.FaultTells | internal/contracts/validate_research.go:79-152 | Each refusal says in raw fields what is wrong with the plan and where |
| PlanExecution.AcceptedIsSchedulable | internal/contracts/validate_research.go:137-150 | In an accepted plan every dependency is a step, ids are distinct and the graph is acyclic |
| PlanExecution.Progress | internal/contracts/validate_research.go:137-150 | Whatever is finished, if work is left then some step has all its dependencies finished |
| PlanExecution.AcceptedPlanProgresses | internal/contracts/validate_research.go:79-152 | An accepted plan never deadlocks, whatever subset of its steps is finished |
| PlanExecution.RunIsDistinct | internal/contracts/validate_research.go:129-132 | An execution runs each step at most once |
| PlanExecution.MaximalRunCompletes | internal/contracts/validate_research.go:79-152 | An execution that cannot be continued has run every step of the plan exactly once |
| PlanExecution.RunExtendsToCompletion | internal/contracts/validate_research.go:79-152 | Every partial execution of a schedulable graph extends to one that finishes everything |
| PlanExecution.AcceptedRunsComplete | internal/contracts/validate_research.go:79-152 | No choice an executor makes on an accepted plan is a dead end |
| PlanExecution.AcceptedWavesOrdered | internal/contracts/validate_research.go:100-147 | In an accepted plan waves are 1 to 4 and context steps depend only on context steps of earlier waves |
| PlanExecution.ScheduleIsWaveTable | internal/contracts/validate_research.go:101-109 | The wave lists hold each context step exactly once, in its own wave |
| PlanExecution.WaveScheduleSound | internal/contracts/validate_research.go:100-147 | Running context steps wave by wave respects context-to-context dependencies, with at most max_parallel_specialists per wave and four waves |
| PlanExecution.WaveOrderIsRunIffSelfContained | internal/contracts/validate_research.go:137-147 | The waves alone are an execution exactly when no context step depends on a step of another kind |
| PlanExecution.AcceptedWavesMayNotRun | internal/contracts/validate_research.go:137-147 | An accepted plan of a review, a context step that depends on it and a synthesis, whose waves in order are no execution |
| NumericalContext.ValidateVariables | internal/contracts/numerical.go:107-116 | The variable loop passes exactly when every variable is in order and ids are distinct, else names the first offender: all before it were in order and distinct |
| NumericalContext.ValidateBaselines | internal/contracts/numerical.go:117-123 | The baseline loop passes exactly when every baseline reference is a variable of the context, else names the first that is not |
| NumericalContext.ValidateRelations | internal/contracts/numerical.go:124-136 | The relation loop passes exactly when relation ids are fresh and every relation agrees with its variables, else names the first offender and the first check it fails |
| NumericalContext.ValidateNumericalContext | internal/contracts/numerical.go:100-138 | No refusal exactly for the acceptable contexts; every refusal names a fault that holds, reached after every earlier check passed |
| NumericalContext.FaultExcludesAcceptance | internal/contracts/numerical.go:100-138 | A context with any of the faults is not acceptable |
| NumericalContext.FaultUnique | internal/contracts/numerical.go:100-138 | At most one fault holds of a context, so the refusal is determined by the context: it is the first in checking order |
| NumericalTerms.AcceptedIffMeets | internal/contracts/numerical.go:100-257 | Acceptance read off the fields: every variable's ids, dates, period, kind and method, baselines and relation sides that are variables of the context, and for each relation either different classes with a warning and no difference, or one class with the exact distance of the two values and the operator that their order beyond the tolerance calls for |
| NumericalContext.OperatorMeaning | internal/contracts/numerical.go:211-249 | A comparable relation of an accepted context carries the exact difference of two values of one comparability class, and says what is true of them: greater or less by more than the tolerance, or within it |
| NumericalContext.StrictEdgeMeaning | internal/contracts/numerical.go:236-249 | A strict relation orders the two values and links variables of one comparability class |
| NumericalContext.EqualEdgeMeaning | internal/contracts/numerical.go:236-249 | A relation of equality links variables of one class, of equal value when tolerances are zero |
| NumericalContext.AcceptedOrderIsAcyclic | internal/contracts/numerical.go:196-250 | The strict relations of an accepted context contain no cycle, whichever way each is written |
| NumericalContext.AcceptedOrderIsAntisymmetric | internal/contracts/numerical.go:196-250 | No two relations on a pair point in opposite directions |
| NumericalContext.ComparableFlagIsClass | internal/contracts/numerical.go:211-220 | A relation is marked comparable exactly when its variables lie in the same comparability class |
| NumericalContext.LinkedVariablesShareClass | internal/contracts/numerical.go:252-257 | Variables linked by any chain of comparable relations are comparable with each other |
| NumericalContext.ExactEqualityKeepsOrder | internal/contracts/numerical.go:236-249 | With zero tolerances no circle of strict and equal relations contains a strict one |
| NumericalContext.CircleDropsWithinTolerances | internal/contracts/numerical.go:236-249 | Around any circle of relations, the recorded differences of the strict ones add up to no more than those of the equalities, hence to no more than their tolerances |
| ContextPacket.CheckUniqueTrimmed | internal/contracts/validate.go:42-52 | The seen-map loop passes exactly when no entry is blank and none repeats after trimming |
| ContextPacket.CheckResolves | internal/contracts/validate.go:247-272 | A finding resolves exactly when each of its references is declared in the packet |
| ContextPacket.CheckFindings | internal/contracts/validate.go:316-345 | The finding loop passes exactly when every finding is well-formed and resolves |
| ContextPacket.ValidateContextPacket | internal/contracts/validate.go:15-144 | The validator passes exactly the acceptable packets; acceptance includes that every reference of every finding resolves inside the packet |
| PacketTerms.AcceptedIffMeets | internal/contracts/validate.go:15-144 | Acceptance read off the fields: envelope and texts written, evidence and receipts distinct and not of the future, the numerical context of this run, and for every finding the support and the origin its kind of claim demands, with each evidence, calculation, numerical and assumption reference leading to something in the same packet and none repeated |
| PacketTerms.RefersTerms | internal/contracts/validate.go:247-272 | A finding resolves exactly when each of its four lists is free of blanks and repeats and leads to evidence, receipts, variables or relations, and assumptions of the packet |
| ContextMerge.MergedConsistent | internal/contextcompiler/compiler.go:82-91 | Every held evidence item stands under its own id with its own primary flag |
| ContextMerge.MergedSettles | internal/contextcompiler/compiler.go:69-105 | After the loop every delivered item is settled: its identity is held, and its conflict or staleness is on record |
| ContextMerge.SecondCopyAgrees | internal/contextcompiler/compiler.go:59-106 | Packets delivered again change no claim, ranking, conflict, missing or stale entry |
| ContextMerge.HeldIsLastCopy | internal/contextcompiler/compiler.go:82-86 | Of several copies with the content that came first, the last one is held |
| ContextMerge.HeldHasFirstContent | internal/contextcompiler/compiler.go:82-86 | Exactly the delivered ids are held, each with the content that came first |
| ContextMerge.ReplayIsIdentity | internal/contextcompiler/compiler.go:82-86 | Replaying a whole evidence stream over its own result changes nothing |
| ContextMerge.DuplicateDeliveryMerges | internal/contextcompiler/compiler.go:59-106 | Delivering every packet twice leaves the very same maps |
| ContextCompiler.AbsorbPacket | internal/contextcompiler/compiler.go:69-105 | The inner loops over one packet compute the merge step |
| ContextCompiler.RefusePacket | internal/contextcompiler/compiler.go:60-68 | The head of the main loop refuses a packet for the first of its three reasons: invalid, of another run, dated in the future |
| ContextCompiler.RefusalStops | internal/contextcompiler/compiler.go:59-68 | The first packet refused decides the refusal of the whole list |
| ContextCompiler.MergePackets | internal/contextcompiler/compiler.go:59-106 | The main loop refuses at the first packet at fault, and otherwise merges all |
| ContextCompiler.StableSortSorts | internal/contextcompiler/compiler.go:110-116 | The ranked list is sorted by rank and order key |
| ContextCompiler.StableSortIsStable | internal/contextcompiler/compiler.go:110-116 | An earlier finding that a later one does not beat stays in front of it |
| ContextCompiler.TokensIsCeilingDivision | internal/contextcompiler/compiler.go:121-128 | Adding chars_per_token - 1 before dividing counts the tokens needed to cover the characters |
| ContextCompiler.PackGreedily | internal/contextcompiler/compiler.go:118-128 | The budget loop computes the greedy packing |
| ContextCompiler.PackWithinBudget | internal/contextcompiler/compiler.go:118-128 | The character count is that of the kept findings and its tokens stay within the budget |
| ContextCompiler.PackPartitions | internal/contextcompiler/compiler.go:119-127 | Every ranked finding is kept or dropped, none twice and none invented |
| ContextCompiler.PackIsMaximal | internal/contextcompiler/compiler.go:119-127 | A dropped finding does not fit beside everything finally kept |
| ContextCompiler.PackKeepsOrder | internal/contextcompiler/compiler.go:119-127 | Kept findings stand in ranked order |
| ContextCompiler.CollectEvidence | internal/contextcompiler/compiler.go:130-135 | The evidence loop and its sort list the cited evidence by id whatever the map iteration order |
| ContextCompiler.AssembleContext | internal/contextcompiler/compiler.go:108-139 | Everything after the main loop computes the compiled context of the merged maps |
| ContextCompiler.Compile | internal/contextcompiler/compiler.go:39-140 | Compile computes the compilation specified on the packet list, refusals included; the order, budget, evidence, conflicts and refusals of that compilation are said in raw fields by the theorems of CompiledTerms and CompiledConflicts |
| CompiledContext.MergedRanksFirsts | internal/contextcompiler/compiler.go:92-105 | The ranked list holds exactly the first finding of every claim, in delivery order |
| CompiledContext.KeptAndDroppedPartitionClaims | internal/contextcompiler/compiler.go:92-127 | Every claim delivered is kept or dropped, exactly once, and nothing else is |
| CompiledContext.KeptFindingIsFirst | internal/contextcompiler/compiler.go:92-99 | A kept finding is the first one delivered for its claim, unaltered |
| CompiledContext.CompiledWithinBudget | internal/contextcompiler/compiler.go:118-128 | The estimated token count is the cost of what was kept and is at most the budget |
| CompiledContext.CompiledIsMaximal | internal/contextcompiler/compiler.go:119-127 | No dropped claim's finding would fit into the final kept set |
| CompiledContext.KeptInRankOrder | internal/contextcompiler/compiler.go:108-127 | The kept list never falls in rank; which kinds of claim rank before which is said by CompiledTerms.OutputOrder |
| CompiledTerms.OutputOrder | internal/contextcompiler/compiler.go:108-156 | Along the findings, facts that cite primary evidence come first, then calculations, then other facts, then inferences, then the rest; primary is read off the evidence delivered up to the finding's packet, in the copy in force, and the policy's primary sources without regard to case |
| CompiledTerms.DroppedTerms | internal/contextcompiler/compiler.go:110-127 | A first finding that is not listed has a place in that order, ties going by 1000 for each packet and one for each finding before it: beside the listed findings before that place it overflows the budget |
| CompiledTerms.DroppedInOrder | internal/contextcompiler/compiler.go:119-127 | The dropped claims are listed in that order too |
| CompiledTerms.EstimateTerms | internal/contextcompiler/compiler.go:118-128 | The token estimate is the least number that covers the UTF-8 bytes of the listed statements and 32 for each, at the policy's characters per token or 4, and is within the budget |
| CompiledTerms.ClaimTerms | internal/contextcompiler/compiler.go:92-99 | Every listed finding is the first one delivered for its claim |
| CompiledTerms.EvidenceTerms | internal/contextcompiler/compiler.go:82-135 | Listed evidence is exactly, for each id that a listed finding cites, the last delivered copy with the content that came first, in the order of ids |
| CompiledTerms.StaleTerms | internal/contextcompiler/compiler.go:88-90 | An id is listed as stale exactly when a delivered copy with the content that came first is older than a positive maximum age |
| CompiledTerms.CompiledIff | internal/contextcompiler/compiler.go:39-68 | A context is compiled exactly from at least one packet, all acceptable, of the first one's run and not dated after the policy, under a dated policy with a positive budget; it carries that run and date |
| CompiledTerms.RefusalTerms | internal/contextcompiler/compiler.go:59-68 | A refusal names the first packet at fault and says what is wrong with it |
| CompiledConflicts.ConflictTerms | internal/contextcompiler/compiler.go:70-105 | The conflicts are exactly those delivered, one for each evidence id delivered with a content other than the first, and one for each claim delivered with a statement or kind other than the first; missing evidence is exactly what was reported; both are in order |
| CompiledContext.TiesInDeliveryOrder | internal/contextcompiler/compiler.go:104-116 | Kept findings of equal rank stand in delivery order whenever every packet p has at most (q - p)*1000 + 1 findings for each later nonempty packet q |
| CompiledContext.KeysFollowDeliveryIff | internal/contextcompiler/compiler.go:104 | The keys packet*1000+index ascend in delivery order exactly for these packet sizes |
| CompiledContext.TiesFollowKeys | internal/contextcompiler/compiler.go:104-127 | For all packets and budgets: kept findings of equal rank stand in delivery order exactly when their keys ascend in it |
| DeliveryOrder.ListedAsDeliveredIff | internal/contextcompiler/compiler.go:104-127 | With distinct claims, one rank and a sufficient budget nothing is dropped, and the compiled findings are listed as delivered exactly for these packet sizes |
| CompilerCases.LargePacketsAreReordered | internal/contextcompiler/compiler.go:104-116 | Two accepted packets, of n findings and of one, are compiled in delivery order exactly when n is at most 1001 |
| CompiledContext.EvidenceChecksSubsumed | internal/contextcompiler/compiler.go:76-81 | The compiler's own evidence checks never fire on a packet that passed the validator and the scope check |
| CompiledContext.EvidenceIsExactlyCited | internal/contextcompiler/compiler.go:130-135 | The evidence ids are exactly those cited by kept findings, sorted and distinct, and none is dated after the policy as-of |
| CompiledContext.OldEvidenceIsFlagged | internal/contextcompiler/compiler.go:88-90 | Evidence in the output that is older than the maximum age is listed as stale |
| CompiledContext.FlaggedIffSomeCopyOld | internal/contextcompiler/compiler.go:82-90 | Read off the delivered evidence: an id is listed as stale exactly when some item with that id, and with the content that was delivered first under it, is too old |
| CompiledContext.ListedIsLastCopy | internal/contextcompiler/compiler.go:82-86 | An evidence item in the output is the last one delivered with its id and the content that came first |
| CompiledContext.FlaggedAndFreshIff | internal/contextcompiler/compiler.go:82-90 | A flagged id is listed with a copy that is not too old exactly when it is cited, some copy of the content that came first is too old, and the last such copy is not |
| CompilerCases.FlaggedMayBeFresh | internal/contextcompiler/compiler.go:82-90 | Two accepted packets that deliver an old and a fresh copy of one item compile to a context that lists the fresh one and flags it as stale |
| CompiledContext.DuplicateDeliveryHarmless | internal/contextcompiler/compiler.go:39-140 | Compiling a packet list followed by a second copy of itself gives the same result, refusals included |
| Dcf.FcffDcf | internal/finance/formulas.go:140-204 | The valuation refuses exactly an empty forecast, a rate of at most -1 and a rate of at most the growth, in this order; otherwise the result meets the terms of Values: each present value is its flow times a factor that starts at 1/(1 + rate) and falls by 1 + rate, the explicit value is their sum, the terminal value times (rate - growth) is the last present value times (1 + growth), and the enterprise value is the sum of the two |
| Dcf.SpecifiedValues | internal/finance/formulas.go:153-203 | The reference formula meets those terms |
| Dcf.ValuesUnique | scripts/reference_finance.py:39-48 | No other result does: the terms determine the valuation |
| Dcf.DiscountSteps | internal/finance/formulas.go:153-170 | The first present value times 1 + rate is the first flow, and each next one is discounted once more than the one before it |
| Dcf.OneFlow | scripts/reference_finance.py:43-48 | A single flow is worth the flow over rate less growth |
| Dcf.GoldenValuation | fixtures/tier0-golden-cases.json:22 | Flows of 10, 11 and 12 at 10% with 3% growth are worth 159.858 to the third decimal, 27.197 of it explicit |
| Dcf.GordonForm | scripts/reference_finance.py:43-48 | The last explicit flow and the terminal value together are the last flow over (rate - growth)(1 + rate)^(n-1) |
| Dcf.ValueFallsWithRate | scripts/reference_finance.py:39-48 | A higher discount rate makes a healthy forecast worth strictly less, for every rate above -1 and every growth below the rate |
| Dcf.ValueRisesWithGrowth | scripts/reference_finance.py:39-48 | A higher terminal growth makes it worth strictly more |
| Dcf.DcfGrid | internal/finance/comparison.go:81-108 | The grid stores every cell at its row-major place, the flags report the neighbour comparisons, and a refusal names a cell at fault; GridTerms says so without the valuation function |
| Dcf.GridTerms | internal/finance/comparison.go:81-108 | For every pair of a rate and a growth the cell at its place carries the two and the one enterprise value that meets the terms of Values; the flags say exactly that neighbours fall along the rates and rise along the growths |
| Dcf.GridFaultTerms | internal/finance/comparison.go:81-91 | A refusal is for a missing axis, or for the first cell in row order whose rate is at most -1 or at most its growth |
| Dcf.FlagOrdersColumn | internal/finance/comparison.go:92-97 | A true rate flag orders any two cells of a column, not only neighbours |
| Dcf.FlagOrdersRow | internal/finance/comparison.go:98-103 | A true growth flag orders any two cells of a row |
| Dcf.RateFlagIffAscending | internal/finance/comparison.go:81-108 | For a healthy forecast the rate flag is true exactly when the rate axis is strictly ascending |
| Dcf.GrowthFlagIffAscending | internal/finance/comparison.go:81-108 | For a healthy forecast the growth flag is true exactly when the growth axis is strictly ascending |
| Bisection.BracketHalves | internal/finance/formulas.go:228-257 | Each round keeps the orientation of the bracket and halves its width |
| Bisection.RightWayConvergesIff | internal/finance/formulas.go:228-257 | Where the value rises from the lower end to the upper one and moves steadily, the search succeeds sooner or later exactly when some point between the ends is within the tolerance |
| Bisection.WrongWayConvergesIff | internal/finance/formulas.go:228-257 | Where the value never rises on that way, the search succeeds in its first round or never |
| ReverseDcf.ReverseDcf | internal/finance/formulas.go:212-260 | The bisection reports its first growth within the tolerance, or that none of its rounds found one; a refusal names a check that fails, after rounds that all missed |
| ReverseDcf.StartTerms | internal/finance/formulas.go:219-227 | The search starts between -0.99 and a ten-billionth below the discount rate |
| ReverseDcf.FoundTerms | internal/finance/formulas.go:228-252 | A growth that is found gives a valuation of the level forecast, by the terms of Values, within the tolerance of the target |
| ReverseDcf.NoRoundRefused | internal/finance/formulas.go:219-240 | With a discount rate above -0.99 the valuation never refuses |
| ReverseDcf.FirstRoundRefused | internal/finance/formulas.go:219-240 | The first round is refused exactly when the discount rate is at most -0.99 less the gap of 10^-10 |
| ReverseDcf.SucceedsIffWithinReach | internal/finance/formulas.go:228-257 | For a positive flow and a discount rate more than the gap above -0.99 (or a negative flow over an interval with its ends swapped), with a positive tolerance: enough rounds succeed exactly when some growth strictly between the ends of the search is within the tolerance |
| ReverseDcf.SucceedsIffAtOnce | internal/finance/formulas.go:253-257 | Otherwise, for any discount rate above -0.99, a negative flow being the usual case: more rounds never help, the search succeeds in its first round or not at all |
| ReverseDcf.ImpliedGrowthIsNear | internal/finance/formulas.go:228-257 | What is found after k rounds is within k halvings of the search interval from the true implied growth |
| ReverseDcf.NoImpliedGrowth | internal/finance/formulas.go:216-218 | A flow that is not positive has no implied growth: no growth the formula accepts gives a positive value |
| WorkerPool.JobPosition | cmd/signalforge-benchmark/main.go:126-129 | Index repetition*cases + case determines repetition and case |
| WorkerPool.StepInvariant | cmd/signalforge-benchmark/main.go:110-134 | Every step of sender or worker keeps: each job sent is in flight at one worker or written once in its own slot |
| WorkerPool.NoDeadlock | cmd/signalforge-benchmark/main.go:110-134 | With at least one worker, or with neither workers nor jobs, the pool can always step until it has returned |
| WorkerPool.NoWorkersDeadlocks | cmd/signalforge-benchmark/main.go:114-129 | With jobs to do and a concurrency of zero the sender blocks at once |
| WorkerPool.NegativeConcurrencyPanics | cmd/signalforge-benchmark/main.go:114-116 | A negative concurrency, and no other, ends the call in a panic of wait.Add before anything is sent |
| WorkerPool.ReturnedIffNothingRemains | cmd/signalforge-benchmark/main.go:131-133 | The call has returned exactly when the step count has run down |
| WorkerPool.ExecutionInvariant | cmd/signalforge-benchmark/main.go:110-134 | Along every interleaving the invariant holds and each step uses up one unit of the remaining work |
| WorkerPool.ExecutionIsBounded | cmd/signalforge-benchmark/main.go:114-124 | At every moment at most as many cases run as the concurrency and the number of jobs allow, and no slot has been written twice |
| WorkerPool.PoolFills | cmd/signalforge-benchmark/main.go:114-129 | Some interleaving does run as many cases at once as these allow |
| WorkerPool.MaximalExecutionCompletes | cmd/signalforge-benchmark/main.go:110-134 | With at least one worker, or with neither workers nor jobs, every maximal interleaving returns after the same number of steps with slot i holding the result for case i mod n, repetition i div n |
| WorkerPool.ResultTerms | cmd/signalforge-benchmark/main.go:110-134 | With a positive concurrency every maximal interleaving ends with the slot at repetition*cases + case holding what runCase returned, in a step of this very interleaving, for that case and repetition |
| WorkerPool.DoneHoldsResult | cmd/signalforge-benchmark/main.go:119-121 | At every moment a slot that is done holds what runCase returned for its own case and repetition |
| WorkerPool.ReturnsIffSufficient | cmd/signalforge-benchmark/main.go:110-134 | Every maximal interleaving returns exactly when the concurrency is at least one, or is zero and there are no jobs |
| WorkerPool.ExecutionsAreFinite | cmd/signalforge-benchmark/main.go:110-134 | No interleaving goes on for longer than that |
| Limiter.NewLimiter | internal/benchmark/limiter.go:14-19 | A limiter is made exactly for a positive limit, empty and with that capacity |
| Limiter.ActionInvariant | internal/benchmark/client.go:96-103 | Every action of a call keeps tokens equal to holders and within the limit |
| Limiter.SlotsAreHolders | internal/benchmark/limiter.go:21-37 | In every interleaving, at every moment, slots in use equal the calls between acquire and release and never exceed the limit |
| Limiter.ReleaseNeverBlocks | internal/benchmark/limiter.go:33-37 | A holder's deferred release can always proceed |
| Limiter.WaitingCallIsServed | internal/benchmark/limiter.go:21-31 | A waiting call can be served at once or after some holder's return |
| Limiter.CheckDecides | internal/benchmark/client.go:96-100 | A call with an incomplete request fails for good and takes no token; a complete one goes on to wait |
| Limiter.CompletedHeldToken | internal/benchmark/client.go:96-103 | A call that completed held a token just before and gave it back |
| ToolCalls.Collect | internal/benchmark/client.go:172-177 | The fragments of each index are joined in arrival order |
| ToolCalls.JoinedInStreamOrder | internal/benchmark/client.go:172-177 | The name of an index is the names of its fragments, one after the other in stream order and each from where the last one ends; and so are its arguments |
| ToolCalls.Reassemble | internal/benchmark/client.go:184-190 | The listing loop lists the joined calls at 0, 1, ... and the nonempty names among them |
| ToolCalls.NamesInOrder | internal/benchmark/client.go:184-190 | The names listed are exactly those of the calls that have one, in order |
| ToolCalls.FaithfulIffContiguous | internal/benchmark/client.go:184-190 | The listing loses no call exactly when the streamed indices are 0 to n-1 |
| ToolCalls.IndexGapLosesCall | internal/benchmark/client.go:184-190 | A single call streamed under index 1 comes out blank |
| ModelCache.CheapTestAgrees | scripts/radeon_preflight.py:206-221 | On a disk where only validated contents stand beside a marker, the cheap test agrees with the full one |
| ModelCache.CheapTestLiesIff | scripts/radeon_preflight.py:206-221 | Without that invariant the cheap test accepts, under a verified marker of this version and these pinned contents, exactly the files of the right size; it lies exactly about those with other contents |
| ModelCache.FullCheckMeans | scripts/radeon_model_cache.py:107-143 | The full check asks for the pinned contents in the pinned size, and a marker matches exactly when it is one that a run under the manifest writes |
| ModelCache.JoinedPrefix | scripts/radeon_model_cache.py:227-228 | What has been read so far is a prefix of the whole answer |
| ModelCache.Cache.AppendChunks | scripts/radeon_model_cache.py:227-228 | The read loop only lengthens the partial file, keeping it a prefix of the payload |
| ModelCache.Cache.Rewind | scripts/radeon_model_cache.py:222-225 | What precedes the read loop keeps the partial file when the answer continues it and empties it otherwise |
| ModelCache.KeptContinues | scripts/radeon_model_cache.py:222-228 | What was kept and an honest answer together begin the payload; a full answer completes it |
| ModelCache.Cache.Attempt | scripts/radeon_model_cache.py:219-241 | One attempt touches only the partial file and keeps it a prefix of the payload under an honest answer, whatever goes wrong |
| ModelCache.Cache.DownloadResumable | scripts/radeon_model_cache.py:182-244 | At most `retries` requests, and exactly that many on failure unless an error leaves the retry loop; only the partial file is touched, it stays a prefix of the payload across early ends, errors, ignored ranges and restarts, a normal return means it is the whole payload, and it does return normally when some permitted attempt brings everything before any error leaves the loop |
| ModelCache.Cache.CopyExisting | scripts/radeon_model_cache.py:167-179 | A regular source replaces the partial file in one step; any other is refused without a change |
| ModelCache.Cache.PublishVerified | scripts/radeon_model_cache.py:247-262 | A valid partial file becomes the model and then gets its marker; an invalid one loses marker and partial file |
| ModelCache.Cache.Discard | scripts/radeon_model_cache.py:307-308 | Both unlinks of a rejected model, in the order that the branch uses |
| ModelCache.Cache.Recover | scripts/radeon_model_cache.py:292-327 | The first half reuses, repairs the marker, or clears what failed the full check, with these very file operations |
| ModelCache.Cache.Fetch | scripts/radeon_model_cache.py:329-356 | Licence, source and fetch touch only the partial file and journal every change |
| ModelCache.Cache.Hydrate | scripts/radeon_model_cache.py:290-371 | From any disk: success means a fully valid model with its marker, failure leaves no model and no marker of this manifest, and a good copy or a server that delivers within the retries succeeds; every intermediate disk keeps the cheap test truthful for this and every compatible manifest |
| ModelCache.Life | scripts/radeon_model_cache.py:290-371 | Over any number of runs, each cut short after any file operation, the cheap test never accepts invalid contents as long as the manifests are compatible, and under one manifest a marker on disk implies a valid model |
| ModelCache.SwitchingManifestsMisleads | scripts/radeon_model_cache.py:290-371 | With two manifests that pin different contents of one size, two crashes do bring the cheap test to accept the wrong contents |
| BreadthFirst.DropVisited | scripts/ir_collect.py:526-529 | Skipping an entry already seen loses nothing: it was seen no deeper |
| BreadthFirst.VisitNew | scripts/ir_collect.py:526-636 | Visiting a new page and appending its links one level down keeps the breadth-first frontier |
| BreadthFirst.TrailIsVisited | scripts/ir_collect.py:520-529 | With an empty queue every page of a trail of links within the limit was visited, no deeper than its place on the trail |
| BreadthFirst.DryQueueIsComplete | scripts/ir_collect.py:520-636 | With an empty queue the visited pages are exactly those within the depth limit, each at its least depth |
| CrawlWork.StepLightens | scripts/ir_collect.py:594-636 | Taking the head of the queue and adding its links one level down strictly lowers a depth-weighted sum |
| CrawlOutput.IndexedGrows | scripts/ir_collect.py:654-656 | A new document with new content and URI keeps both dedupe indexes in agreement with the list |
| CrawlOutput.TracedGrows | scripts/ir_collect.py:526-583 | The notes of a new visit keep every URI fetched at most once and only with permission |
| CrawlOutput.ExplainedGrows | scripts/ir_collect.py:642-685 | Admitting one more page keeps every duplicate explained: it names the document its final URI is mapped to |
| Crawler.AdmitKeepsIndexes | scripts/ir_collect.py:642-685 | Admitting a page keeps the indexes and accounts for its final URI |
| Crawler.AdmitKeepsTrace | scripts/ir_collect.py:642-653 | A recorded duplicate names a document in the list |
| Crawler.FrontierAfter | scripts/ir_collect.py:520-636 | After any number of turns queue and seen pages are a breadth-first frontier of the link graph, unless the clock cut in |
| Crawler.WorkIsBounded | scripts/ir_collect.py:520-525 | Pages seen plus pages still possible never exceed what depth and links per page allow |
| Crawler.OutputAfter | scripts/ir_collect.py:520-685 | After any number of turns the documents, indexes and observations agree, and every duplicate is explained by the indexes |
| Crawler.OutputIsSound | scripts/ir_collect.py:520-685 | Contents and URIs of documents are pairwise distinct, no URI is fetched twice, every document is that of a visited page, every page that gave a document is in the list or noted as a duplicate, and a duplicate names the document its final URI is mapped to, one with the content that a visited page of that URI had; which pages give documents is said by CrawlTerms.OutputTerms |
| CrawlTerms.OutputTerms | scripts/ir_collect.py:520-685 | After any number of turns, over the answers of rules, robots, server and store: every visit stems from the root or a link of a visited page one level up; each visited page has exactly the observations that its answers call for; every document is the record of a visited page that belongs, with its digest, final URI and title; and every visited page that belongs, or one that belongs and was found at the same place, has its content among the documents |
| CrawlTerms.BelongsTerms | scripts/ir_collect.py:582-639 | A page gives a document exactly when it is allowed by rules and robots, fetched, stored and not a broken feed above the depth limit, and is the root up to closing slashes or material both as asked for and as found; the document is the record of that page |
| CrawlTerms.OwnContentFiled | scripts/ir_collect.py:642-685 | A page that belongs and was found where no other such page was has its own content among the documents |
| CrawlTerms.SharedPlaceLosesContent | scripts/ir_collect.py:642-653 | A crawl of two pages that are found at one place: the second belongs and is visited, and its content is in no document |
| CrawlTerms.SaidAfter | scripts/ir_collect.py:530-636 | The observations of a visited page are exactly those its answers call for |
| CrawlTerms.StemsAfter | scripts/ir_collect.py:594-636 | Every entry that was queued or visited is the root's, or a link of a visited page that the rules allow and that is worth discovering, one level down and within the depth limit |
| CrawlTerms.LinkTerms | scripts/ir_collect.py:594-636 | The link graph of the completeness theorem has an edge exactly where an obtained page holds an allowed link worth discovering to the canonical URI |
| CrawlOrder.VisitsInOrder | scripts/ir_collect.py:520-685 | The documents stand in the order in which their pages were visited, and the index pages counted are exactly the visited pages that are allowed, fetched, stored and HTML |
| CrawlOrder.FollowedInOrder | scripts/ir_collect.py:594-636 | The links queued for a page are its allowed links worth discovering, in the order of the page |
| Crawler.CrawlIsBounded | scripts/ir_collect.py:520-525 | Pages, documents and index pages stay within their limits without help from the clock |
| Crawler.DryQueueSawAll | scripts/ir_collect.py:686-695 | A summary with an empty queue and time left means exactly the pages within the depth limit were seen |
| Crawler.Examine | scripts/ir_collect.py:582-639 | Parsing and filing of a fetched page give its disposition, links and document, which CrawlTerms states over what the rules, the robots guard, the server and the store say |
| Crawler.VisitPage | scripts/ir_collect.py:529-583 | The branches from the source rules to the fetch give the whole answer for one page |
| Crawler.FileDocument | scripts/ir_collect.py:642-685 | The dedupe branches admit the page or record the first document with its content |
| Crawler.CrawlSource | scripts/ir_collect.py:503-695 | The loop ends after finitely many turns without help from the clock: with an empty queue, at a limit or when time ran out; its result is that of those turns |
| PythonText.StripKeeps | scripts/ir_transform.py:189 | Stripping keeps every character that is not white space in place |
| Chunking.CutsAtSpaces | scripts/ir_transform.py:184-188 | A cut falls on the last space of the second half of the window, and at full length only if there is none |
| Chunking.RestIsOneWindow | scripts/ir_transform.py:184-185 | What still fits into a window is not cut |
| Chunking.WindowsTile | scripts/ir_transform.py:183-195 | The windows start with the text and end with it, none is longer than max_chars, and each next one starts exactly the overlap before the last one's end |
| Chunking.OnlyLastEnds | scripts/ir_transform.py:192-193 | Only the last window reaches the end of the text |
| Chunking.WindowsRejoin | scripts/ir_transform.py:183-195 | The first window followed by each later one minus its overlap gives the text back |
| Chunking.ChunksAreWindows | scripts/ir_transform.py:189-191 | Every chunk is a nonblank window, stripped, under its own part number, and no longer than max_chars |
| Chunking.ChunksTerms | scripts/ir_transform.py:183-195 | The chunks of a block are exactly its windows that are not blank, in order; each carries the block's section and page, its window's number after the locator, and all of the window but the white space at its ends |
| PythonText.DecimalWrites | scripts/ir_transform.py:191 | A number is written in digits without leading zeros, and reads back |
| Chunking.NothingIsLost | scripts/ir_transform.py:183-195 | Every character that is not white space stands in some chunk |
| Chunking.CutWindow | scripts/ir_transform.py:184-191 | One round of the loop gives the window's end and its chunk unless it is blank |
| Chunking.ChunkBlock | scripts/ir_transform.py:181-195 | The loop over one block ends and emits the chunks of its nonblank windows in order |
| Chunking.ChunkBlocks | scripts/ir_transform.py:174-196 | The chunks of all blocks, in order |
| Chunking.BlocksInOrder | scripts/ir_transform.py:181-196 | The chunks of a block stand after those of the blocks before it and before those of the blocks after it |
| JsonWalk.LeafIsEmitted | scripts/ir_transform.py:166-170 | Every long enough string anywhere in the document gives its block |
| JsonWalk.EmittedIsLeaf | scripts/ir_transform.py:166-170 | Every block is that of a long enough string in the document |
| JsonTerms.BlockTerms | scripts/ir_transform.py:166-170 | The blocks are exactly those that the strings of the document describe: at least thirty characters of text with each run of white space made one blank and none at its ends, the locator of the whole path, and the title of what follows its last full stop with blanks for underscores |
| JsonTerms.NormalisedFolds | scripts/ir_transform.py:167 | Character by character, the text of a block is its string with nothing passed over but the rest of each run of white space and the white space at both ends |
| JsonTerms.FoldsUnique | scripts/ir_transform.py:167 | Only one text does that |
| JsonTerms.NameTerms | scripts/ir_transform.py:169 | The name that is titled is what follows the last full stop of the path, with blanks for underscores |
| JsonTerms.KidTerms | scripts/ir_transform.py:159-165 | The kids of an object are its members in key order, each at the path with a full stop and its key; those of a list its elements in order, each at the path with its index in brackets |
| JsonWalk.PushMembers | scripts/ir_transform.py:160-162 | Pushing members in reverse key order stacks them so that they come off in key order |
| JsonWalk.PushElements | scripts/ir_transform.py:163-165 | Pushing elements in reverse index order stacks them so that they come off in index order |
| JsonWalk.PopOne | scripts/ir_transform.py:155-165 | Replacing the top item by its kids keeps what is pending and takes one node off the count |
| JsonWalk.ExtractJson | scripts/ir_transform.py:150-171 | The explicit stack emits exactly the blocks of the recursive preorder walk, and fails exactly when the document has more than 100000 nodes |
| JsonPlaces.TextAtPlace | scripts/ir_transform.py:154-170 | The block of a long enough string stands at its place: the number of blocks given before it in preorder |
| JsonPlaces.PlaceOfText | scripts/ir_transform.py:154-170 | Every block is that of a string with this very place |
| JsonPlaces.PlacesAreOrdered | scripts/ir_transform.py:154-170 | Different strings have different places, in preorder: none is emitted twice |
| JsonPlaces.LocatorsDiffer | scripts/ir_transform.py:160-170 | When no key holds a full stop or an opening bracket, no two blocks share a locator |
| JsonPlaces.DotsShareLocator | scripts/ir_transform.py:160-162 | The keys "x.y", and "x" with "y" inside, give two blocks of one locator, for all x, y and long enough texts |
| Comparability.CheckInputs | internal/contracts/activation.go:551-580 | The accounting-input loop passes exactly complete inputs with distinct ids, and collects signature and eligibility |
| Comparability.CheckAuthority | internal/contracts/activation.go:551-590 | An operand is authorised exactly when signature, eligibility and class agree with its inputs |
| Comparability.ValidateComparisonOperands | internal/contracts/activation.go:517-596 | The operand loop passes exactly the operand lists that are complete, timely, of one metric and of distinct issuers |
| Comparability.ValidateMetricComparabilityReceipt | internal/contracts/activation.go:381-429 | The validator accepts exactly the receipts that meet every rule of their disposition |
| ComparabilityRecords.ReceiptTerms | internal/contracts/activation.go:381-429 | Acceptance of a receipt read off its fields, with the rules of each disposition |
| ComparabilityRecords.OperandsTerms | internal/contracts/activation.go:517-596 | Acceptance of an operand list read off its fields; the perimeter of an operand under v2 is the marks of its inputs in order, between semicolons |
| ComparabilityRecords.EvaluableTerms | internal/comparability/evaluate.go:42-53 | What Evaluate demands of a request and a time, read off their fields |
| Comparability.Evaluate | internal/comparability/evaluate.go:42-148 | A receipt exactly for evaluable requests, and it is the specified one; what it says is stated in raw fields by ComparabilityTerms.ReceiptTerms and ReleasedTerms |
| ComparabilityTerms.ReleasedTerms | internal/comparability/evaluate.go:54-134 | A pair is released exactly when the operands are of different companies and agree on metric, version, unit, currency, scale, sign policy, consolidated dimensions, period type, definition, perimeter and restatement state, are reviewed, eligible and active, keep the policy on periods, market dates and taxonomy, and under v2 are not for context only |
| ComparabilityTerms.ReceiptTerms | internal/comparability/evaluate.go:54-148 | The fields of the receipt, and for every code: it is among the failed invariants and the reasons exactly when its own fields differ, such as same_currency for currencies; the disposition and the caveats likewise |
| ComparabilityTerms.AgainstTerms | internal/comparability/evaluate.go:54-114 | A code stands for a failed check exactly when the fields of that code are at odds |
| ComparabilityTerms.ReviewedTerms | internal/comparability/evaluate.go:179-210 | A perimeter is reviewed, or eligible for ranking, exactly when each of its parts between semicolons names one of the listed perimeters after its first equals sign |
| ComparabilityTerms.NearTerms | internal/comparability/evaluate.go:88-92 | The bounded end check in whole days, with the durations of 64 bits |
| Comparability.EvaluatedIsAccepted | internal/comparability/evaluate.go:135-147 | Every receipt Evaluate returns is accepted by the validator |
| Comparability.ReleasableMeans | internal/comparability/evaluate.go:116-134 | A receipt is releasable exactly when no invariant failed; under v2 every accounting input on both sides is then ranking-eligible |
| Comparability.ValidatorTrustsCaveats | internal/contracts/activation.go:411-414 | The validator alone accepts a caveated receipt whatever its invariants say |
| Comparability.FailedReceiptAccepted | internal/contracts/activation.go:411-414 | For any failed invariant there is a released receipt that consists of it alone and that the validator accepts |
| Comparability.EndDeltaMeans | internal/comparability/evaluate.go:88-92 | The bounded end check holds within the limit, and also whenever the left end is at least 2^63 ns before the right one |
| Comparability.SwapKeepsReasons | internal/comparability/evaluate.go:54-134 | Swapping the operands keeps the reasons exactly when both or neither are consolidated and, under annual periods, the ends are less than 2^63 ns apart |
| Comparability.SwapKeepsDisposition | internal/comparability/evaluate.go:54-134 | Swapping the operands keeps the disposition exactly when the saturated distance of the period ends does not decide it: the ends are comparable either way, or something else fails in both orders, or the accounting authority is only context, or the left operand is not consolidated |
| Comparability.SwapKeepsCaveats | internal/comparability/evaluate.go:54-134 | Whenever the disposition survives a swap, so do the caveats |
| Comparability.CenturiesApartDependOnOrder | internal/comparability/evaluate.go:88-92 | If the left end is that far before the right one and the pair is released, the swapped pair is refused |
| Comparability.ReasonsCanChange | internal/comparability/evaluate.go:63 | Two evaluable requests that differ in the order of their operands, one of them consolidated, and give different reasons |
| Comparability.ReleaseCanDependOnOrder | internal/comparability/evaluate.go:220-225 | Two evaluable requests that differ in the order of their operands, with fiscal years ending about 1732 and 2024, one released and the other refused |
| ProcessTree.ClosedIsDescendants | scripts/capture_rocm_telemetry.py:70-77 | A closed selection of descendants around the root is all descendants |
| ProcessTree.Pass | scripts/capture_rocm_telemetry.py:73-77 | One pass adds only descendants, in any order, and reports no change only when nothing more can be added |
| ProcessTree.Select | scripts/capture_rocm_telemetry.py:70-77 | The passes end, and select exactly the root and every process whose parent chain reaches it |
| ProcessTree.TotalTakesOut | scripts/capture_rocm_telemetry.py:78 | The sum does not depend on the order in which processes are added |
| ProcessTree.ProcessTreeRss | scripts/capture_rocm_telemetry.py:57-79 | Each known selected process counts once in memory and number; without a root there is nothing |
| Environment.GeneratedKeysPlain | scripts/radeon_manifest.py:21-37 | Every approved key consists of capital letters, digits and underscores |
| Environment.ScanConcat | scripts/radeon_manifest.py:166 | Text that ends with a line feed splits into lines apart from what follows |
| Environment.NoReturnsLeft | scripts/radeon_manifest.py:167-168 | After newline translation the carriage-return check never fires |
| Environment.ReadsLine | scripts/radeon_manifest.py:169-178 | A line of an approved key is read to its value, equals signs included |
| Environment.ReadGeneratedEnvironment | scripts/radeon_manifest.py:165-179 | The line loop computes the reading of the text, with its four refusals |
| EnvironmentTerms.ReadTerms | scripts/radeon_manifest.py:165-179 | On arbitrary lines: the reading succeeds exactly when every line is empty, a comment, or an approved key that no earlier line gives with its value; then the table holds exactly what the lines give, under approved keys; otherwise the error is that of the first line that does not, and says what that line lacks |
| EnvironmentTerms.SplitTerms | scripts/radeon_manifest.py:166 | A line runs up to the next boundary, and what follows is split in the same way |
| EnvironmentTerms.UniversalConcat | scripts/radeon_manifest.py:166 | Newline translation goes character by character, save that a carriage return and the line feed after it are one newline |
| Environment.GeneratedEnvironment | scripts/radeon_preflight.py:557-597 | Printing succeeds exactly when no value holds a line feed or carriage return, and prints the keys in order |
| Environment.RoundTrip | scripts/radeon_manifest.py:157-179 | For any approved keys: printing and reading back gives the same values exactly when no value holds any line boundary of splitlines |
| Environment.GeneratedRoundTrip | scripts/radeon_preflight.py:563-597 | The same over the thirteen approved keys |
| Environment.LetThroughIsLost | scripts/radeon_preflight.py:557-560 | Whatever the other values: a full printable table with a line boundary in any value, line feed and carriage return apart as these are not printed, does not read back |
| Environment.NextLineIsLost | scripts/radeon_preflight.py:577-597 | For one: all thirteen keys, with the persistent root a directory under /srv named by the next-line character U+0085, are printed and do not read back |
| Alignment.SortedDedupedIsListing | internal/finance/comparison.go:49-50 | Sorting and dropping repeated neighbours lists the set of the values in order |
| Alignment.Unique | internal/finance/comparison.go:54-65 | The kept strings are written over the front of the argument and what follows them stays |
| Alignment.SortedUnique | internal/contracts/activation.go:684-698 | The values in order, once each |
| Alignment.PeriodAligned | internal/finance/comparison.go:23-52 | Refused exactly for fewer than two metrics, another policy or an unnamed metric, in this order; otherwise comparable exactly when all metrics are of one period, unit and currency, and the warnings are in order and exactly: period_mismatch, unit_mismatch and currency_mismatch, each when some metric differs from the first one in that field |
| Strings.SortedKeys | internal/contextcompiler/compiler.go:178-185 | The listing of a set is the same for every map iteration order |
| Strings.LessAtFirstDifference | internal/contextcompiler/compiler.go:178-185 | One string comes before another exactly when it is smaller at their first difference, or is a proper beginning of it |
| Strings.TrimCutsEnds | internal/contracts/validate.go:42-52 | Trimming takes all white space off both ends and nothing else |

## Left out

- Dcf.FcffDcf: exact reals instead of the decimal arithmetic of internal/numeric, whose rounding to a fixed precision is not part of this model; a result that rounding makes equal can clear a monotone flag that the exact grid keeps.
- Dcf.DcfGrid: the same exact arithmetic; comparison errors that the code ignores cannot occur.
- ReverseDcf.ReverseDcf: the same exact arithmetic, so that the interval can be halved for ever; a valuation that rounding makes stand still is not part of this model.
- ReverseDcf.SucceedsIffWithinReach: stated for discount rates above -0.99; from there down to 10^-10 below, some later round may be refused, which only the contract of ReverseDcf describes. Less than 10^-10 above -0.99 the interval starts with its ends swapped, and `RightWay` says which flows that suits.
- NumericalContext.ValidateNumericalContext: values are parsed exact decimals; the text syntax of decimals and apd's exponent range are abstracted to a finiteness flag, and negative zero, which the code refuses as a tolerance, is zero.
- ContextPacket.ValidateContextPacket: a calculation receipt carries the verdict of its own validator, whose rules (internal/contracts/validate.go:199-245) are not modelled.
- ContextCompiler.Compile: primary sources are compared with ASCII case folding, where the code folds Unicode; errors are identified by kind and packet, not by message.
- Comparability.Evaluate: the length of a fiscal year is compared exactly, where the code goes through floating-point hours; invariant details, filing accessions, numerator and denominator are not carried. A record encodes as JSON exactly when its instants lie in years 0 to 9999 of UTC; offsets of other time zones are not modelled.
- Comparability.ValidateMetricComparabilityReceipt: record hashes are arbitrary functions of the record with well-formed results.
- ModelCache.Cache.Hydrate: SHA-256 is taken to identify contents; `Unsafe` is an entry that exists() sees and unlink() removes, such as a link to an existing file, so a directory or a dangling link at the model or partial path is outside the model; temporary files, fsync, file modes, the lock file, the status file and missing cache directories are not modelled, and each replace or unlink is one atomic step.
- ModelCache.Cache.DownloadResumable: waiting between attempts is left out; errors are told apart only by whether the retry loop catches them, and a failing local write is a failing read.
- Limiter.SlotsAreHolders: the nil limiter, which limits nothing, is left out.
- WorkerPool.StepInvariant: what runCase does inside one case is one step with an arbitrary outcome; a panic in it is not modelled, nor is a negative repetition count, which the caller refuses (cmd/signalforge-benchmark/main.go:61) and on which make would panic.
- Crawler.CrawlSource: URL canonicalisation, robots, fetching, storage, link extraction, classification and document ids are functions of the URI or page; timestamps and descriptive document fields are left out, and a finite bound on links per page stands for the limit on response bytes.
- Chunking.ChunkBlocks: the lower bound of 500 characters is not needed and not required; the section and locator texts are carried through.
- JsonWalk.ExtractJson: parsing and title casing are not modelled (the latter is a parameter); integers and other leaves are one constructor.
- JsonPlaces.LocatorsDiffer: one way only; keys with a full stop or a bracket may still give distinct locators, depending on what else the document holds.
- Environment.ReadGeneratedEnvironment: file ownership and mode checks are left out; the reader is given the text.
- Environment.GeneratedEnvironment: the table of values is the input; how the facts fill it is data.
- ProcessTree.ProcessTreeRss: the table is one snapshot of readable status files; memory is in bytes as parsed.
- Alignment.PeriodAligned: the numerical value of a metric, which the function does not read.
- `silent_projection`, `extract_json_links` and all HTML, PDF and regular-expression parsing: foreign matching with little state.
- The remaining validators of internal/contracts, activation transitions, peer lanes and comparison bundles: presence checks and table look-ups.
- The SQLite case store, HTTP services, process and GPU control, rendering and reports: foreign effects.
- Machine-integer overflow of counts and indexes: counts are unbounded; durations and their negation are modelled in 64 bits.
