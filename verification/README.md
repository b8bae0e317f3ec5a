# GymAct's decision engine, modelled and proved

GymAct explores what an agent *could* do before anything irreversible is done. A typed possibility graph
holds objects and morphisms; a bounded search walks everything that needs no execution grant and stops at
every DO edge; an explicit cut then names one DO edge and binds it to a grant. Beside that engine stand a
completion planner, a breadth-first discovery of hidden procedures, and environment sessions whose actions
are admitted by rules, checked, and rolled back. This project models those parts and proves what they are
for: that the search is exact, that truncation is reported honestly, that counts count, that rollbacks roll
back, and that no shortcut reaches a DO edge.

## How the model is laid out

| file | what it models |
|---|---|
| `Possibility.dfy` | objects, morphisms, graphs, their validators, edge admission, bounds |
| `Exploration.dfy`, `DepthFirst.dfy` | the explicit-stack search, proved against one stream of events |
| `Closure.dfy` | what a search result means: closure, frontier, truncation |
| `GraphUnion.dfy` | growing and uniting graphs |
| `CartesianProduct.dfy`, `Combinations.dfy` | product enumeration as mixed-radix decoding |
| `AdmissionContexts.dfy` | the verdict on one edge, and how the closure depends on the admission context and the grant |
| `Ecology.dfy`, `EcologyWalks.dfy` | layered ecologies and the bijection of walks with combinations |
| `EcologyContents.dfy`, `EcologyLaws.dfy`, `EcologyExploration.dfy` | what an ecology is made of, when manufacture succeeds, and what exploring it finds |
| `Completion.dfy`, `CompletionKernel.dfy`, `CompletionLaws.dfy`, `CompletionPipeline.dfy` | validation, plan enumeration, selection, the authority fence, the pipeline |
| `CompletionMeaning.dfy` | what frontier, plans, cut and refusals say, in terms of the items alone |
| `Discovery.dfy` | replay-then-act probes and the shortest-plan search over them |
| `HarnessModel.dfy`, `HarnessRuns.dfy` | sessions as functions of their state, the replay record, and whole runs |
| `HarnessAdmission.dfy` | what rules, steps, preflight and resets decide, without the functions that compute it |
| `HarnessCaps.dfy` | the exact condition on a task's rules under which a repetition cap holds |
| `Harness.dfy`, `Chain.dfy` | the runtime, session and chain classes that refine them |
| `CallReach.dfy`, `CallMeaning.dfy` | the static search for I/O behind `observe()`, and the shapes it looks for |
| `RdfStore.dfy`, `RdfRoundTrip.dfy`, `RdfMeaning.dfy` | projection to triples, the store object, reading back, and what store and reading say |
| `Selection.dfy` | Pareto frontiers and deterministic selection |
| `CompiledRoutes.dfy`, `IrreversibleCut.dfy` | compiled routes, the irreversible cut, broker requests |
| `Outcomes.dfy`, `Sequences.dfy`, `Ordering.dfy` | shared datatypes, sequence facts, lexicographic sorting |

Code that works by loops over mutable state is a method or a class here, proved equal to a function of its
inputs or of the old state; the theorems are lemmas about that function. Code that is one expression is a
function. What such a function computes is then said once more without it: costs as sums over the edges of a
walk, verdicts by what stands in the way, contents field by field, orders by the first difference, admission as
the one way through the rules. A raised exception is the `Failure` of a `Result`, with the same checks in the same order.

Digests are injective: the value a digest is taken of stands for the digest. Costs are real numbers. What the
engine meets but does not contain - providers, checkpoint and restore, verification, actuation - is a record
of functions of the environment's state, and a theorem that needs one of them to behave says so in its
`requires` (`RestoreReinstates`, for one).

## Where a plausible claim does not hold

Some properties a reader might expect are not what the code does. Each has a lemma that shows it, at a
concrete input or for a whole family of them, and the exact condition where there is one.

* `with_morphism` does not look at endpoints, so a chain of `with_*` calls can leave the topology law
  (`DanglingEdgeAccepted`); it keeps the law if and only if both endpoints are known (`WithMorphismTopology`).
* Ecology ids are joined with a colon and can collide in an ecology that manufacture accepts
  (`JoinedIdsCanCollide`): one path is announced, and the full walks are endless. The announced count is right
  if and only if no constructed id occurs in two layers (`CountHoldsIffIdsDistinct`).
* An option given twice is accepted and counted twice, and adds its edges once (`RepeatedOptionIsOvercounted`). The
  count of irreversible choices is right if and only if no option repeats another
  (`EcologyCountsIrreversibleChoices`).
* A READ step runs its capability without checkpoint or rollback. If its postcondition fails, the state is as
  before if and only if the read left it so (`FailedReadIsKept`); where a READ counts its uses in what the
  checkpoint holds, it never is, and nothing of it is observed (`FailedReadChangesTheWorld`).
* A step that was rolled back has spent its idempotency key: the same intent under the same key is then
  accepted and recorded without being performed (`RolledBackKeyIsSpent`, for any rules; `SpentKeyLeavesNoMark`
  is such a run). Where restores work and refusals change nothing, after any run of steps the world is the replay of the READs that were admitted and the DOs
  that were accepted under a key new at the time (`WorldIsReplay`); it is the replay of the history where keys
  are distinct and unused and reads preserve the state (`HistoryExplainsWorld`).
* A repetition cap does not cap a capability that a rewrite, conditional or not, produces behind every rule
  that looks at it (`EvadedCapsDoNotCap`, `CapBeforeRewriteIsEvaded`). Over all environments and runs a cap of k
  holds if and only if the rules never let the capability through, or let none through after a run of some
  length from 1 to k (`CapHoldsIff`); a cap behind all rewrites to it meets that (`CapsMeetTheCondition`), and a
  rewrite behind all rules on it violates it for every k (`EvadableSlips`).
* `ChainSession.complete` counts verdicts. Advancing twice on one leg reports a two-leg chain complete
  (`CompleteWithoutTheLastLeg`); a complete run verified every leg if and only if no advance passed twice on one
  leg since the last reset (`CompleteIffOncePerLeg`).
* `rdf_to_graph` asked for a digest checks the root's name only. It returns the graph asked for if and only if
  the root's recorded identifier is that digest (`RequestedIdentityIff`, `MislabelledRoot`).
* A DO edge that leaves a start object directly is on the frontier but cannot be compiled into a route
  (`StartFrontierDoesNotCompile`); exactly the emitted paths with a frontier edge behind them can
  (`CompilesIff`).
* A cut does not compare its action with the edge's consequence binding: an admitted DO edge of a complete
  closure can be cut for any action on any subject, and follows its binding if and only if action, capability
  and subject were the bound ones (`AnyActionIsCut`, `ReadingIsCutForErasing`).
* A broker request is bound to the whole prepared action and grant, but of the action definition only to its
  semantic id and capability (`RequestIff`). Its grant would be admitted again for its action if and only if
  that action expects the effects of the one the cut was taken for (`RequestIsReadmittedIff`;
  `ReadingIsCutForErasing` is a request that expects others).

## Model

| member | source | states |
|---|---|---|
| Possibility.OutgoingOf | src/gymact/combinatorial.py:201-202 | the outgoing edges are exactly the graph's edges with that source |
| Exploration.Explore | src/gymact/combinatorial.py:453-537 | the search fails exactly on an unknown start, and otherwise returns the result its event stream describes; it pops at most `starts + max_paths` paths on any graph, cyclic or not |
| Exploration.Expand | src/gymact/combinatorial.py:487-525 | the loop over one path's edges appends exactly that path's events, or those before the edge that would emit one path too many |
| Exploration.CheckStarts | src/gymact/combinatorial.py:466-470 | an unknown start is found if and only if there is one |
| Closure.PruningLosesNothing | src/gymact/combinatorial.py:337-345 | pruning on the running cost loses nothing: the sums of the edges' five costs are within the limits if and only if the search, which looks at every prefix, lets the walk pass |
| Closure.PathRecords | src/gymact/combinatorial.py:116-130 | a path says of its walk the objects and edge ids in order, of each cost and of the value the sum over the edges, and of confidence the least of 4 and theirs; no other path does |
| Closure.ClosureExactness | src/gymact/combinatorial.py:453-537 | an untruncated result holds exactly the records of the non-empty walks from the starts over admitted non-DO edges of the graph whose cost sums are within the limits, of any length, each once for distinct starts |
| Closure.EmittedPathsSound | src/gymact/combinatorial.py:512-525 | truncated or not, every emitted path is such a walk, no longer than the depth bound, and none is emitted twice |
| Closure.PathDeterminesWalk | src/gymact/combinatorial.py:263-270 | the identity of a path determines its start and its edges |
| Closure.DoEdgesNeverTraversed | src/gymact/combinatorial.py:487-501 | no emitted path, truncated or not, contains a DO edge |
| Closure.FrontierExactness | src/gymact/combinatorial.py:487-501 | an untruncated frontier is exactly the DO edges leaving the last object of a start or emitted path, with the edge's id and target and its own verdict's standing, admission and reason, each pair once |
| Closure.EvaluationsExactness | src/gymact/combinatorial.py:487-512 | an untruncated result evaluates exactly the edges that leave a start or closure walk, each with its verdict, and as exceeding a bound those that are admitted and would |
| Closure.HonestMaxPaths | src/gymact/combinatorial.py:520-523 | MAX_PATHS is reported if and only if the closure up to the depth bound has more than `max_paths` walks |
| Closure.HonestMaxDepth | src/gymact/combinatorial.py:480-485 | without MAX_PATHS, MAX_DEPTH is reported if and only if a start or walk of exactly the depth bound ends where an edge leaves |
| Exploration.RaisingMaxPathsAppends | src/gymact/combinatorial.py:453-537 | a larger `max_paths` only appends to paths, frontier and evaluations, and changes nothing once MAX_PATHS is not reported |
| AdmissionContexts.MoreContextKeepsClosure | src/gymact/combinatorial.py:348-416 | capabilities, policies, evidence or a grant added to the context take no path away |
| AdmissionContexts.GrantOpensNoPath | src/gymact/combinatorial.py:348-416 | the closure of a valid graph is the same with and without an execution grant |
| AdmissionContexts.AdmittedFrontierHasGrant | src/gymact/combinatorial.py:391-416 | an admitted frontier entry was evaluated under a grant and names a DO edge with a consequence binding |
| AdmissionContexts.VerdictExact | src/gymact/combinatorial.py:348-416 | an edge is admitted if and only if nothing stands in its way; otherwise the first obstacle, in the source's order, gives reason and standing |
| AdmissionContexts.MorphismLaw | src/gymact/combinatorial.py:154-162 | a morphism is valid if and only if an actuation is a DO and a grant is required of exactly the DO edges |
| GraphUnion.ValidGraphMeans | src/gymact/combinatorial.py:172-184 | a graph is valid if and only if there are as many ids as objects and edges, ends are known, and every edge is valid |
| GraphUnion.AddGraph | src/gymact/combinatorial.py:225-229 | the two inner loops of `union` add the other graph's objects, then its morphisms, failing at the first clash |
| GraphUnion.Union | src/gymact/combinatorial.py:222-230 | `union` adds the parts of every other graph in turn |
| GraphUnion.AddAllExact | src/gymact/combinatorial.py:204-230 | a run of additions succeeds if and only if no id ever names two values, and holds exactly the old and added values, each id once |
| GraphUnion.AdditionsKeepOrder | src/gymact/combinatorial.py:204-230 | additions go to the end: what is there keeps its place |
| GraphUnion.FirstClashReported | src/gymact/combinatorial.py:204-230 | a failing run of additions reports its first clash |
| GraphUnion.WithObjectKeepsTopology | src/gymact/combinatorial.py:204-211 | `with_object` keeps the topology law although no validator runs |
| GraphUnion.WithMorphismTopology | src/gymact/combinatorial.py:213-220 | `with_morphism` keeps the topology law if and only if both endpoints are known |
| GraphUnion.DanglingEdgeAccepted | src/gymact/combinatorial.py:213-220 | an edge added to the empty graph is accepted and breaks the law |
| GraphUnion.UnionLaw | src/gymact/combinatorial.py:222-230 | `union` of valid graphs succeeds if and only if shared ids carry equal values; the result is valid and holds exactly all their objects and morphisms |
| GraphUnion.UnionCommutes | src/gymact/combinatorial.py:222-230 | order and repetition of the operands change neither success nor, up to order, the result |
| GraphUnion.UnionAssociates | src/gymact/combinatorial.py:222-230 | both ways of uniting three graphs in two steps fail, or give the one-step union |
| GraphUnion.LargerGraphKeepsClosure | src/gymact/combinatorial.py:453-537 | every closure walk of a graph is one of any graph with more objects and edges |
| GraphUnion.UnionKeepsClosure | src/gymact/combinatorial.py:222-230 | with the same starts, verdicts and bounds, every path and frontier entry of untruncated G is in untruncated G united with others |
| CartesianProduct.ProductIsMixedRadix | src/gymact/combinatorial.py:552-556 | entry i of a product is the mixed-radix decoding of i |
| CartesianProduct.DigitAt | src/gymact/combinatorial.py:552-556 | the digit at k of entry i is i divided by the product of the sizes behind k, modulo the size at k: the last factor turns fastest |
| CartesianProduct.ProductExact | src/gymact/combinatorial.py:552-556 | the product lists exactly the choices of one alternative per factor |
| CartesianProduct.ProductNoDup | src/gymact/combinatorial.py:552-556 | each choice once, when no factor repeats an alternative |
| Combinations.ManufactureCombinationSpace | src/gymact/combinatorial.py:540-562 | fails exactly on a repeated factor id; truncation is reported if and only if the total exceeds the bound |
| Combinations.CombinationsAreMixedRadix | src/gymact/combinatorial.py:549-556 | combination i assigns the mixed-radix digits of i, there are min(total, bound) of them, and the total counts the product |
| Combinations.CombinationDigits | src/gymact/combinatorial.py:549-556 | combination i assigns each factor's id that digit of i, and assigns nothing else |
| Combinations.CombinationsDistinct | src/gymact/combinatorial.py:552-556 | distinct alternatives give distinct combinations |
| Combinations.CompleteIffNotTruncated | src/gymact/combinatorial.py:559 | every assignment is present if and only if the space is not reported truncated |
| Combinations.RaisingTheBoundAppends | src/gymact/combinatorial.py:555 | a larger bound only appends combinations |
| Ecology.AddAlternative | src/gymact/ecology.py:117-152 | one alternative: its object, then one edge from every id of the layer before |
| Ecology.AddLayer | src/gymact/ecology.py:116-153 | one dimension: all its alternatives in order, returning the ids of the new layer |
| Ecology.AddLayers | src/gymact/ecology.py:103-153 | the loop over dimensions: graph, last layer, factors and the running product |
| Ecology.AddOption | src/gymact/ecology.py:155-183 | one irreversible option: its target, then one DO edge from every last id |
| Ecology.AddOptions | src/gymact/ecology.py:155-183 | every option, in order |
| Ecology.ManufactureEcology | src/gymact/ecology.py:92-190 | the manufactured ecology or its error, as a function of its inputs |
| EcologyContents.EdgesExact | src/gymact/ecology.py:131-183 | the edges are exactly, from every id of a layer to every alternative of the next, one with the dimension's kind, phase and reversal and the alternative's requirements, objectives, standing and evidence, and from every id of the last layer one DO edge with each option's fields and binding |
| EcologyContents.ObjectsExact | src/gymact/ecology.py:103-165 | the objects are exactly the start, one per alternative with the fields of dimension and alternative, and the options' targets |
| EcologyContents.FactorsExact | src/gymact/ecology.py:109-114 | the factors are the dimensions, with the alternatives' ids in order |
| EcologyContents.PathsPassOpenAlternatives | src/gymact/combinatorial.py:348-416 | exploring an ecology, cut short or not, every object behind the start stands for an alternative that is not blocked, unsupported, refused or stale and whose requirements the context meets |
| EcologyWalks.ChoicesAreCombinations | src/gymact/ecology.py:109-114 | choices of one alternative per dimension are exactly the product of the returned factors |
| EcologyWalks.FullWalksAreChoices | src/gymact/ecology.py:92-190 | with distinct ids, non-DO walks from the start to the last layer are in bijection with the combinations |
| EcologyWalks.EcologyCountsTheProduct | src/gymact/ecology.py:115-188 | `reversible_path_cardinality` is exactly the number of those walks, and the size of the product of the returned factors |
| EcologyLaws.EcologySucceedsIff | src/gymact/ecology.py:92-190 | manufacture succeeds if and only if no dimension id repeats, objects sharing an id are equal, options sharing id and target are equal, and no layer edge asks for actuation or a grant |
| EcologyLaws.EcologyIsValid | src/gymact/ecology.py:103-183 | the manufactured graph satisfies the topology law although it is built by unvalidated copies, and its objects are exactly the start, the alternatives and the targets |
| EcologyLaws.EcologyIsSmall | src/gymact/ecology.py:103-183 | it has no more objects than the start, the alternatives and the options together |
| EcologyLaws.EcologyCountsIrreversibleChoices | src/gymact/ecology.py:189 | full walks paired with a DO edge at their end number `irreversible_choice_cardinality` if and only if no option repeats another's id and target |
| EcologyLaws.RepeatedOptionIsOvercounted | src/gymact/ecology.py:155-189 | any valid option given twice makes an ecology that is manufactured and announces two irreversible choices, and has not two |
| EcologyExploration.ExploringAnEcology | src/gymact/ecology.py:92-190 | exploring a distinct-id ecology whose layers are admitted, without cost bounds and with room enough, is complete, emits each partial and full walk once, as many full ones as announced, and has a frontier without repetition, of the announced size if and only if no option repeats another |
| EcologyWalks.CountHoldsIffIdsDistinct | src/gymact/ecology.py:118 | for a manufactured ecology the count is right if and only if no constructed id occurs in two layers or as the start |
| EcologyWalks.CollisionsMakeWalksEndless | src/gymact/ecology.py:118 | when an id does, no finite set holds all full walks |
| EcologyLaws.JoinedIdsCanCollide | src/gymact/ecology.py:118 | a manufactured ecology with distinct dimension and alternative ids that announces one path and has endlessly many full walks |
| Ordering.SortBySorts | src/gymact/dfcm_finish.py:155-163 | the key sort permutes its input and orders it |
| Ordering.SortForgetsOrder | src/gymact/dfcm_finish.py:118-122 | where keys tell elements apart, the sorted order does not depend on the input order |
| Completion.ValidateMoves | src/gymact/dfcm_finish.py:132-139 | the loop over one item's moves accepts it exactly when its move ids are new and distinct, owned by the item, and no cost is negative, and otherwise reports the first problem |
| Completion.ValidateItems | src/gymact/dfcm_finish.py:125-145 | items pass if and only if they are valid, and otherwise the first problem in the order of the loops is reported, which the items do have |
| CompletionMeaning.FirstProblemIsFirst | src/gymact/dfcm_finish.py:125-139 | nothing is wrong with any item or move before the one reported, and of it the first check that fails is reported |
| CompletionKernel.Partition | src/gymact/dfcm_finish.py:198-208 | unresolved items are split into actionable ones with their move sets and blocked ones |
| CompletionKernel.BuildPlans | src/gymact/dfcm_finish.py:214-225 | one plan per enumerated combination, moves in the order of their ids |
| CompletionKernel.ManufactureFrontier | src/gymact/dfcm_finish.py:167-257 | the frontier of valid items, or the error of the first failing check: blank subject, bound below one, first item problem |
| CompletionKernel.AdmitCut | src/gymact/dfcm_finish.py:301-349 | admission of any cut against any items, refusals in the order of the checks |
| CompletionPipeline.ManufactureAndAdmit | src/gymact/dfcm_finish.py:352-367 | for valid input the pipeline returns its frontier and its cut and never refuses; otherwise it raises the frontier's error |
| CompletionLaws.PlansCounted | src/gymact/dfcm_finish.py:210-226 | there are min(product of move counts, max_plans) plans, none with nothing actionable, pairwise distinct |
| CompletionMeaning.FrontierMeans | src/gymact/dfcm_finish.py:167-257 | for valid items: unresolved are exactly the unfinished ones, blocked exactly those of them with a dependency not ALIVE or no lawful move, both once and in order; the standing, the total as the product of lawful-move counts, truncation, the number of plans, and what the digest covers |
| CompletionMeaning.PlannedExact | src/gymact/dfcm_finish.py:190-226 | an id is in a plan if and only if its item is unfinished, every dependency names an item standing ALIVE, and it has a reversible, authority-free, non-DO move |
| CompletionMeaning.PlanMeans | src/gymact/dfcm_finish.py:214-226 | a plan names one lawful move of each such item, in the order of the move ids, and states the sum of their costs |
| CompletionMeaning.EnumerationOrder | src/gymact/dfcm_finish.py:154-226 | a truncated frontier holds the plans of the first choices of the product, items in the order of their ids, moves by cost, kind and id |
| CompletionMeaning.PlansInOrder | src/gymact/dfcm_finish.py:226 | plans come by cost, then by the ids of their moves |
| CompletionLaws.PlansAreLawful | src/gymact/dfcm_finish.py:214-226 | each plan takes one reversible, authority-free, non-DO move of each actionable item and of nothing else |
| CompletionLaws.OptimalDespiteTruncation | src/gymact/dfcm_finish.py:154-226 | for every `max_plans` >= 1 the first plan costs the sum of the per-item minima, and no lawful choice costs less |
| CompletionLaws.AlwaysAPlanWhenUnblocked | src/gymact/dfcm_finish.py:280-282 | NO_REVERSIBLE_COMPLETION_PLAN is unreachable; a plan is selected if and only if something is actionable |
| CompletionMeaning.CutMeans | src/gymact/dfcm_finish.py:271-300 | the cut's standing and reason follow from the items, it selects the first plan if and only if something can be moved, and its digest covers every field |
| CompletionLaws.OwnCutIsAdmitted | src/gymact/dfcm_finish.py:271-349 | a cut selected from valid items is admitted against them |
| CompletionLaws.AdmissionForgetsOrder | src/gymact/dfcm_finish.py:301-349 | admission of any cut, tampered or not, ignores the order of the items |
| CompletionLaws.FrontierForgetsOrder | src/gymact/dfcm_finish.py:154-300 | valid items in any order have one frontier, plans and digest included, and one selected cut |
| CompletionLaws.FenceHolds | src/gymact/dfcm_finish.py:327-349 | whoever made it, a cut with a selection is admitted if and only if it comes from these items, is unaltered, names no item twice, and names lawful moves of their own items whose costs add up |
| CompletionMeaning.SourceIdentity | src/gymact/dfcm_finish.py:118-122 | two lists have one source identity if and only if they hold the same items in some order |
| CompletionMeaning.FenceRefusesAt | src/gymact/dfcm_finish.py:327-343 | of an intact cut the first place that does not name a lawful move decides the refusal, and says which check it fails |
| Discovery.Probe | src/gymact/discovery.py:153-197 | a probe replays its prefix from the start and then acts once; it fails if and only if the prefix does not replay |
| Discovery.Expand | scripts/run_opaque_procedure_episode.py:70-85 | the loop over actions queues every new state one step further, or finds a shortest plan |
| Discovery.Discover | scripts/run_opaque_procedure_episode.py:64-86 | a returned plan is accepted, non-empty, reaches "done" and is as short as any; "not discovered" means there is none; it ends because queued states are new ones of a finite set |
| Discovery.NoShorterPlan | scripts/run_opaque_procedure_episode.py:66-81 | while an entry is expanded, no goal is reachable in as many steps as lead to it |
| Discovery.ProcedureIsFinite | src/gymact/gyms/opaque_procedure.py:82-100 | every opaque procedure moves within finitely many fact sets |
| Discovery.AchievesMeans | src/gymact/gyms/opaque_procedure.py:82-100 | a plan reaches the goal of an opaque procedure if and only if there are fact sets from the initial one on such that each action's step has its preconditions there and is not already satisfied, the next set is the last less what it removes and what it establishes, and the final one holds "done" |
| Discovery.DiscoverProcedure | scripts/run_opaque_procedure_episode.py:64-86 | for every opaque procedure the search returns a plan that can be carried out in that way and is as short as any, exactly when there is one |
| HarnessModel.FailedReadChangesTheWorld | src/gymact/gyms/gymnasium_env.py:157-184 | for a READ counted in the checkpoint and not in the observation, every such step leaves another state and the same observation, and there is one |
| HarnessModel.FailedStepLeavesTheWorld | src/gymact/envharness.py:565-674 | where reads preserve the state, every step failing its postcondition leaves world and history as before |
| HarnessModel.ResetIsTransactional | src/gymact/envharness.py:319-453 | a stage failing after any number of actions leaves the baseline; a harness failing preflight performs no action |
| HarnessModel.PreflightIff | src/gymact/envharness.py:275-317 | preflight passes if and only if every stage action is a DO capability and every rewrite target exists |
| HarnessAdmission.PreflightExact | src/gymact/envharness.py:275-317 | otherwise it names the first stage action that is not, and why, and only then a missing rewrite target |
| HarnessAdmission.StageRunsIff | src/gymact/envharness.py:402-443 | a stage runs through if and only if each action, in the world the ones before left, is accepted and as expected |
| HarnessModel.AcceptedResetRanTheStage | src/gymact/envharness.py:402-453 | an accepted reset handed its stage to the environment in order, each idempotency key once, which is every action where keys are distinct; history and feedback start empty |
| HarnessAdmission.ContainmentMeans | src/gymact/envharness.py:38-48 | a required state is contained in the observed one if and only if every path of keys leads to the same text, or to a dictionary, in both |
| HarnessAdmission.AdmissionExact | src/gymact/envharness.py:504-552 | there is one way an action passes the rules: a rule fires on its capability, in its state, after a long enough run, and then denies it or gives it capability and payload key by key; the decision, its reason and its notes are those of that way |
| HarnessAdmission.DeniedExactly | src/gymact/envharness.py:504-537 | an action is denied if and only if on its way it meets a denial that fires |
| HarnessAdmission.RuleOutsideItsState | src/gymact/envharness.py:513-514 | a rule whose state is not there might as well not be there |
| HarnessModel.RulesKeepIdentity | src/gymact/envharness.py:504-552 | no rule changes an action's idempotency key or postcondition |
| HarnessModel.CapEnforced | src/gymact/envharness.py:504-552 | an action admitted past a cap extends a run shorter than the cap |
| HarnessModel.RepetitionCapHolds | src/gymact/envharness.py:471-674 | over every run of operations, the history never holds more consecutive actions of a capability than its cap, if the cap follows the rewrites producing it |
| HarnessModel.AtMostOncePerKey | src/gymact/kernel.py:569-603 | over every run of resets, steps, restores and teardowns no idempotency key reaches the environment twice in one episode, not even after a rollback |
| HarnessAdmission.UsedKeyIsAnswered | src/gymact/kernel.py:575-603 | for the rest of the episode a used key answers the same intent with the result it had and any other with a refusal, and changes nothing |
| HarnessModel.LedgerOnlyGrows | src/gymact/envharness.py:353-674 | no reset, step or rollback takes back the record of an intent handed to the environment |
| HarnessRuns.WorldIsReplay | src/gymact/envharness.py:565-674 | over any run of steps, under any keys, in an environment whose restores work and whose refusals change nothing, the history grows by the accepted actions, and the world is the replay of the admitted READs and of the DOs accepted under a key new at the time |
| HarnessRuns.HistoryExplainsWorld | src/gymact/envharness.py:565-674 | where keys are distinct and unused and reads preserve the state, the world is the replay of the accepted history |
| HarnessRuns.RolledBackKeyIsSpent | src/gymact/kernel.py:575-579 | under any rules, after a rollback the same intent under the same key is accepted and recorded but not performed; the world then fits the history if and only if performing it would have changed nothing |
| HarnessRuns.SpentKeyLeavesNoMark | src/gymact/kernel.py:575-579 | a run from the first reset whose history ends with an action the world shows no mark of |
| HarnessRuns.EvadingGoesThrough | src/gymact/envharness.py:504-552 | in a state that a rewrite asks for, an action it turns into another, behind all rules that look at the other, goes through whatever was done before |
| HarnessRuns.EvadedCapsDoNotCap | src/gymact/envharness.py:471-674 | for every such rule list, conditional rewrites included, and every k, a run of steps from the first reset puts k + 1 of the capped capability in a row |
| HarnessRuns.CapBeforeRewriteIsEvaded | src/gymact/envharness.py:504-552 | with a cap of one in front of a rewrite, two steps in a state the rewrite asks for leave two of the capped capability in a row |
| HarnessCaps.DecisionSees | src/gymact/envharness.py:504-552 | admission depends on the asked capability, the observed state and the lengths of the trailing runs, and on nothing else of action and history |
| HarnessCaps.HistoriesAreTraced | src/gymact/envharness.py:353-674 | in every history a run reaches, each action's capability is one the rules let follow the actions before it |
| HarnessCaps.Realize | src/gymact/envharness.py:353-674 | every sequence of capabilities in which each is let through after those before it is the history of a run from the first reset, whatever the task's stages |
| HarnessCaps.CapHoldsIff | src/gymact/envharness.py:471-674 | over every environment and every run of operations no k + 1 actions in a row have the capability, if and only if the rules never let it through or let none through after a run of some length from 1 to k |
| HarnessCaps.CapHoldsIffSomeRunStops | src/gymact/envharness.py:471-674 | where a first one goes through, a cap of k holds if and only if the rules stop one after a run of some length from 1 to k |
| HarnessCaps.CapsMeetTheCondition | src/gymact/envharness.py:504-552 | a cap of k behind every rewrite to the capability stops it after a run of k |
| HarnessCaps.EvadableSlips | src/gymact/envharness.py:504-552 | a rewrite behind every rule on the capability, conditional or not, lets it through after runs of every length |
| Harness.Runtime.Act | src/gymact/kernel.py:569-603 | an intent is performed once for its key in its episode; a repeated key is answered from the record, or refused when the intent differs |
| Harness.Runtime.Read | src/gymact/kernel.py:535-567 | an unknown or DO capability is refused before the environment is run; a READ runs on the current state and leaves no record |
| Harness.HarnessSession.ConsecutiveCount | src/gymact/envharness.py:471-477 | the backward loop counts the run of a capability at the end of the history |
| Harness.HarnessSession.Admit | src/gymact/envharness.py:504-552 | the loop over contracts and rules reaches the decision of the flattened rule list |
| Harness.HarnessSession.AdmitHarness | src/gymact/envharness.py:275-317 | preflight: the first stage action the runtime cannot perform, then unsupported rewrite targets |
| Harness.HarnessSession.ApplyStage | src/gymact/envharness.py:402-453 | the stage loop with its rollback leaves the world and ledger the stage function says |
| Harness.HarnessSession.Reset | src/gymact/envharness.py:353-453 | the whole new session state and result of a reset, as a function of the old state |
| Harness.HarnessSession.Step | src/gymact/envharness.py:565-674 | the whole new session state and result of a step, as a function of the old state |
| Harness.HarnessSession.Teardown | src/gymact/envharness.py:688-695 | the session ends if and only if its teardown stands good |
| Chain.ChainSession.constructor | src/gymact/envharness.py:712-729 | a new chain is on its first leg with no session and no verdict |
| Chain.ChainSession.Complete | src/gymact/envharness.py:734-738 | as many verdicts as tasks, all passed |
| Chain.ChainSession.Reset | src/gymact/envharness.py:740-753 | the whole new chain state: first leg, no verdicts, a fresh session, unless the prior teardown fails |
| Chain.ChainSession.Step | src/gymact/envharness.py:755-758 | a step acts on the current leg's session only |
| Chain.ChainSession.Advance | src/gymact/envharness.py:765-808 | the whole new chain state of an advance, as a function of the old state |
| Chain.ChainDiscipline | src/gymact/envharness.py:740-808 | in every reachable state all verdicts passed, the leg index is in range, verdicts come in leg order and cover every leg below it |
| Chain.LegsReplacedWhenVerified | src/gymact/envharness.py:765-799 | a leg's session is replaced only after its own verifier passed and its teardown stood good |
| Chain.CompleteMeansEveryLeg | src/gymact/envharness.py:734-738 | in a reachable complete state every leg has its verdict if and only if no leg has two |
| Chain.CompleteIffOncePerLeg | src/gymact/envharness.py:734-788 | a complete run verified every leg if and only if since the last reset no advance passed on a leg that already had a verdict |
| Chain.LegStaysIff | src/gymact/envharness.py:777-791 | a passed advance leaves its leg in place if and only if it is the last or its teardown is refused |
| Chain.AdvanceMeans | src/gymact/envharness.py:765-808 | what an advance answers, for every outcome of verifier, teardown and the next leg's reset, and the state it leaves |
| Chain.CompleteWithoutTheLastLeg | src/gymact/envharness.py:734-788 | a run that is reported complete though the second leg never opened |
| CallReach.WalkVisitsEveryNode | scripts/check_observe_independence.py:124-128 | the breadth-first walk meets exactly the nodes of its trees |
| CallReach.DirectIoReason | scripts/check_observe_independence.py:120-129 | the reason of the first I/O call the walk meets, and none if and only if the body contains no I/O call |
| CallMeaning.IoReasonExact | scripts/check_observe_independence.py:81-117 | a node counts as I/O if and only if it is `open(...)`, or calls an attribute that is I/O on anything, `run` on `subprocess`, or an HTTP verb on `httpx` or `requests`; and as which text |
| CallReach.SelfMethodCalls | scripts/check_observe_independence.py:132-143 | exactly the names called on `self` in the body |
| CallReach.BareFunctionCalls | scripts/check_observe_independence.py:146-152 | exactly the bare names called in the body |
| CallReach.Follow | scripts/check_observe_independence.py:174-192 | one loop over a body's calls marks all of them and queues every resolved one not seen before |
| CallReach.NoShorterChain | scripts/check_observe_independence.py:165-192 | while a body is looked at, every shorter call chain has been found free of I/O |
| CallReach.MethodHasIo | scripts/check_observe_independence.py:155-194 | I/O is reported if and only if a chain of resolved calls from `observe` ends in a direct I/O call; the chain reported is real and shortest; mutually recursive helpers are looked at boundedly often |
| CallMeaning.ReachesIoMeans | scripts/check_observe_independence.py:132-192 | a chain reaches I/O if and only if from `observe` on each definition holds the call `self.name(...)` or `name(...)` that the next is the definition of, and the last holds an I/O call |
| CallMeaning.ReportMeans | scripts/check_observe_independence.py:169-192 | a finding in `observe` is reported bare, one behind helpers with the calls that lead there |
| RdfStore.Store.Add | src/gymact/combinatorial_rdf.py:54-55 | a triple already present is not added again, and order of first addition is kept |
| RdfStore.DeclareConcept | src/gymact/combinatorial_rdf.py:53-55 | a concept is declared by its type and notation |
| RdfStore.ProjectObject | src/gymact/combinatorial_rdf.py:58-73 | the triples of one object, in order |
| RdfStore.ProjectMorphism | src/gymact/combinatorial_rdf.py:76-107 | the triples of one morphism, in order |
| RdfStore.ProjectGraph | src/gymact/combinatorial_rdf.py:110-122 | the loops add the root, then every object, then every morphism |
| RdfStore.GraphToRdf | src/gymact/combinatorial_rdf.py:110-122 | the projection of a graph into a fresh store |
| RdfStore.RdfToGraph | src/gymact/combinatorial_rdf.py:125-155 | the graph read from any store, or the error of the first failing check |
| RdfRoundTrip.RoundTrip | src/gymact/combinatorial_rdf.py:110-155 | the projection of every valid graph reads back as that graph, order included |
| RdfRoundTrip.RoundTripByDigest | src/gymact/combinatorial_rdf.py:125-155 | any number of valid graphs that agree on shared ids can share a store, and each reads back unchanged by its digest |
| RdfRoundTrip.RoundTripWithoutDigest | src/gymact/combinatorial_rdf.py:127-136 | without a digest the store reads back if and only if it holds one graph, and is ambiguous otherwise |
| RdfRoundTrip.PartsInOrder | src/gymact/combinatorial_rdf.py:118-140 | a store lists the parts of each of its graphs in the graph's own order, objects first |
| RdfRoundTrip.ProjectionInjective | src/gymact/combinatorial_rdf.py:110-122 | two valid graphs with one projection are one graph |
| RdfRoundTrip.AcceptedIsRecorded | src/gymact/combinatorial_rdf.py:125-155 | a graph accepted from any store is valid and is the one the root's identifier records |
| RdfRoundTrip.RequestedIdentityIff | src/gymact/combinatorial_rdf.py:128-155 | asking by digest returns the graph asked for if and only if the root's own identifier is that digest |
| RdfRoundTrip.MislabelledRoot | src/gymact/combinatorial_rdf.py:128-155 | a store from which asking for one graph returns another |
| RdfRoundTrip.DoQueryExact | src/gymact/combinatorial_rdf.py:234-243 | the DO query lists exactly the DO morphisms of the graphs in the store, each once, ordered by their text |
| RdfMeaning.GraphSays | src/gymact/combinatorial_rdf.py:53-122 | the projection says exactly this of the root, of each object and of each edge, property by property |
| RdfMeaning.StoreSaysOfEdge | src/gymact/combinatorial_rdf.py:76-107 | a store of compatible graphs says of an edge its type, id, concepts, ends, requirements, revision, evidence and payload, and nothing else |
| RdfMeaning.ReconstructExact | src/gymact/combinatorial_rdf.py:125-155 | parts of any store are read in order, each as the store says of it, up to the first that is refused; of all of them a graph is made, or refused for its ids, its ends or its digest |
| Selection.FrontierIsUndominated | src/gymact/dd_ui.py:45-53 | the frontier is exactly the undominated candidates |
| Selection.DroppedAreDominated | src/gymact/dd_ui.py:45-53 | every dropped candidate is dominated by one that is kept |
| Selection.OutranksIsStrict | src/gymact/dd_ui.py:39-42 | dominance of candidates is a strict partial order |
| Selection.FrontierOrder | src/gymact/dd_ui.py:45-53 | the frontier is ordered by identity, and under each identity keeps the order and number of the candidates it keeps |
| Selection.SelectionIsHighest | src/gymact/dd_ui.py:56-62 | no candidate has the greater score where it first differs from the selected one, nor on equal scores the later identity |
| Selection.FrontierIdempotent | src/gymact/dd_ui.py:45-53 | filtering a frontier again changes nothing |
| Selection.SelectTakesFirstBest | src/gymact/dd_ui.py:56-62 | selection fails on the empty input only, and takes the first among the highest by scores, then identity |
| Selection.SelectionSurvivesFiltering | src/gymact/dd_ui.py:45-62 | selecting from the frontier equals selecting from all candidates, repeated identities included |
| Selection.OrderDoesNotMatter | src/gymact/dd_ui.py:45-62 | with one candidate per identity, frontier and selection do not depend on input order |
| Selection.DominatesIsStrict | src/gymact/combinatorial.py:419-440 | dominance of paths is a strict partial order |
| Selection.DominatesMeans | src/gymact/combinatorial.py:419-440 | a path dominates another if and only if, costs counted negatively, no merit is lower and not all are equal |
| Selection.ParetoPathsExact | src/gymact/combinatorial.py:443-450 | the Pareto paths are exactly the undominated ones, and above every dropped path one is kept |
| CompiledRoutes.FrontierNamesDoEdge | src/gymact/combinatorial.py:490-501 | every frontier entry, truncated or not, names a DO edge leaving its path |
| CompiledRoutes.CompiledRoutesReadmit | src/gymact/compileout_graph.py:38-149 | a frontier pair whose path was emitted compiles without tripping the validator and is admitted again for the same path and edge |
| CompiledRoutes.CompilesIff | src/gymact/compileout_graph.py:60-100 | from an explorer's result exactly the emitted paths with a frontier edge behind them compile; the validator adds no condition |
| CompiledRoutes.StartFrontierDoesNotCompile | src/gymact/compileout_graph.py:71-73 | a DO edge that leaves a start object is on the frontier of a complete closure and is refused by compilation |
| CompiledRoutes.AdmittedRoutesAreLawful | src/gymact/compileout_graph.py:103-149 | an admitted recipe follows a lawful walk of the current graph to a DO edge at its end that is not on the walk |
| IrreversibleCut.CutNamesAdmittedDoEdge | src/gymact/cut.py:114-173 | a cut is taken from an explorer's result if and only if the closure is complete, the edge is an admitted DO edge behind a start or closure path, and the grant is admitted; the missing-edge and not-DO checks never fire |
| IrreversibleCut.CutNeedsAnEdge | src/gymact/cut.py:128-145 | an id that names no edge is refused as truncated or not found, never otherwise |
| IrreversibleCut.ExecutionExact | src/gymact/action_contract.py:296-344 | a grant is admitted if and only if nothing bars it; otherwise the first bar, in the source's order, gives the refusal |
| IrreversibleCut.CutDecided | src/gymact/cut.py:133-173 | of the entries and edges with that path and id the first decide the cut, which is refused for the first of: entry not admitted, edge not DO, prepared for another action, grant barred, no selector, a relative basis reference |
| IrreversibleCut.RequestIsReadmittedIff | src/gymact/cut.py:114-193 | a request made from an explorer's cut names an admitted DO edge of a complete closure, and its grant would be admitted again for its action if and only if the action expects the effects of the one that was cut |
| IrreversibleCut.AnyActionIsCut | src/gymact/cut.py:114-173 | the edge's consequence binding is not compared: an admitted DO edge of a complete closure is cut for any action on any subject, and the cut follows the binding if and only if action, capability and subject are the bound ones |
| IrreversibleCut.ReadingIsCutForErasing | src/gymact/cut.py:114-193 | a valid graph with one bound edge that is cut for another action, and requested with other effects |

## Left out

- GymAct's kernel, providers, evidence ledger, receipts and principals: abstracted into the `Provider` record and the `World` of discovery. Of the kernel, the replay record of `act` is modelled; its input limits, authority and scope gates are part of what a provider answers, and receipts are absent.
- Hashing, JSON coding, rdflib's storage and SHACL validation: digests are injective, payload literals decode to what they encode, and the store is an ordered set of triples.
- Literals that are JSON but no object or morphism payload: they count as undecodable, so the model may name a different error than the source when such a part also lacks a supported type.
- Non-empty-string, JSON-canonical and authority-key checks on the fields of objects and morphisms, the checks on the fields of harness actions and rules, and the error for a malformed consequence binding in edge admission: field checks that add only easy members.
- Fields no modelled operation reads: labels, schemas, idempotency and locality of actions, and the observation filter of a session's `observe`.
- Float rounding: costs and scores are exact reals, and the cost of a completion move is an integer as in the source.
- The reversal test on explored edges: it is not made by the explorer but in `maximal.py`, which is not part of this model; an admissible edge here is a non-DO edge that admission accepts.
- Exceptions that the runtime's own calls raise inside a session (a provider error or timeout in a read, a verification or a checkpoint), and a set of capabilities that changes during an episode.
- Clocks, uuids, async scheduling and concurrent sessions: the moment an execution grant is admitted at is a parameter, the rest is absent.
- `CombinatorialBRCEBroker.execute` and the broker behind it: they record a receipt on a runtime that is not part of this model.
- `DiscoveryProbeRunner.replay`, the episode scripts around `_discover`, and report rendering: plumbing around the modelled search.
- `construct8.py`, `decision_cache.py`, `capsule.py`, `algebra.py`, `composition.py`, `autonomic.py`, `crown_runtime.py`: they would add only easy members or rest on code that is not part of this model.
