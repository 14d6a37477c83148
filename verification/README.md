# Monolift: a verified model

Monolift lifts parts of a Go monolith into services. It builds an activation graph of functions,
augments it to a fixpoint, finds a shortest path from the entrypoints to a target, ranks the places
where that path can be cut, and admits or demotes the cuts one by one. Its demo is a social network
on a key-value store with optimistic concurrency. This project models the algorithms behind those
steps in Dafny and proves what they compute.

| area | files |
|---|---|
| graph analyses | `ActivationGraph`, `ShortestPath`, `PathChoice`, `AugmentRules`, `Alternations`, `Augment`, `Analysis`, `MapPropagation`, `CallbackParams`, `StructFieldIndex`, `ImportScope` |
| type graphs | `TypeGraph`, `BoundaryData` |
| cuts | `CutRanking`, `CutAdmission`, `AdmissionRuns` |
| front end | `TopologicalSort`, `Pragma`, `SourceOffsets` |
| demo | `KeyValueStore`, `OptimisticUpdate`, `PostService`, `FollowGraph`, `Timeline` |
| shared | `Collections`, `Functions`, `Orders`, `Reachability`, `Rounds` |

Code that works by updating state is a class or a method with loops, proved equal to a function or
against a stated property; what that function means is then proved by lemmas. The caps, memo tables,
path-local guards and retry loops are modelled as they are, with their constants.

`dafny verify dfyconfig.toml` checks the whole project.

## Where the code and its promises part

- The shared memo of `parameterMayCallback` can hold a wrong false entry once a query answered true
  (`CallbackParams.StaleAnswer`). A query leaves one behind exactly when its parameter is a trap
  (`CallbackParams.StaleIffTrap`), a condition on the program and the order of its instructions; the
  memo is always right exactly in programs without traps (`CallbackParams.SharedMemoRightIffNoTraps`).
  Plain recursion and cycles of harmless parameters are no traps (`CallbackParams.HarmlessCyclesAreSafe`).
- `ShortestPath` promises a deterministic path. Over three functions or more it can depend on how the graph
  was put together exactly when two of them have the same key and name (`PathChoice.DeterminedIffNamed`;
  `PathChoice.TwinsDependOnAppendOrder` is a concrete graph); otherwise it never does.
- `decisiveDifference` reports feasibility as decisive even when an earlier dimension decided
  (`CutRanking.ProxyIsMisreported`). `buildCutCandidates` never makes proxy candidates today.
- `topologicalSort` refuses a graph with a prerequisite listed twice although an order exists
  (`TopologicalSort.DuplicateIsRefused`). Its caller removes duplicates for relevant statements.
- The comment on `ReverseImportScope` says that the result always includes the target; it does so
  exactly when the target is listed or nothing listed depends on it (`ImportScope.TargetInScope`).
- A save without etag overwrites blindly, so two first writers lose one of their calls although both
  succeed (`OptimisticUpdate.FirstWriteRace`); `OptimisticUpdate.NothingLostIff` says exactly when a run does.
- A trim, a failure between the two updates of `Follow`, an overlapping `Unfollow` of the same pair, or
  an overlapping first `Follow` of the same user breaks the agreement of followees and followers
  (`FollowGraph.ConsistentIffNothingLost`, `FollowGraph.HalfIsInconsistent`,
  `FollowGraph.OverlapBreaksAgreement`, `FollowGraph.FirstFollowsRace`).
- An analysis that hits the augmentation limit can miss a target the rules derive; it never misses
  one that calls alone reach (`Analysis.Analyze`).
- `ReadTimeline` returns one post even when none is asked for (`Timeline.ReadTimeline`).
- The errors of the in-memory store do not wrap the sentinel errors, so the retry loops only retry on
  the Redis and Dapr stores; neither the in-memory nor the Redis store has `SaveBulkState`.

## Model

| member | source | states |
|---|---|---|
| Reachability.PathGuardExact | pkg/activation/cut_callbacks.go:102-144 | A search that only refuses types on its current path finds a target exactly when one is reachable; cutting cycles and forgetting finished branches loses nothing |
| Reachability.PathGuardOrCycle | pkg/activation/cut_boundary.go:65-145 | The same search, when a repeated type counts as a find, succeeds exactly when a target or a cycle is reachable |
| Reachability.WithinIsDepth | pkg/activation/mapfunc.go:143-170 | The set after n rounds is exactly what has a derivation of at most n steps |
| Reachability.ClosedWithinIsReached | pkg/activation/mapfunc.go:167-169 | A depth set that is closed is exactly the reachable set |
| Rounds.QuietIsFixpoint | pkg/activation/mapfunc.go:167-169 | The round that changes nothing leaves the least fixpoint of both rules |
| Rounds.QuietStaysQuiet | pkg/activation/mapfunc.go:143-170 | After a quiet round no later round finds anything |
| Rounds.RoundsAreSound | pkg/activation/mapfunc.go:143-170 | However many rounds run, only derivable facts and outputs of derivable facts are recorded |
| Rounds.ShallowIsQuiet | pkg/activation/mapfunc.go:143-170 | If no derivation is longer than d steps, round d+1 is quiet |
| Rounds.LateOutputIsNoticed | pkg/activation/mapfunc.go:143-170 | An output that needs depth d keeps round d busy, so the bound is tight |
| Orders.SortBySorted | pkg/activation/cut.go:196-198 | Stable sorting by a strict weak order yields a sorted arrangement |
| Orders.SortedUnique | pkg/activation/cut.go:196-198 | Under a total order two arrangements of the same elements that are sorted are equal |
| Orders.StringLessIs | pkg/activation/path.go:88-105 | Strings compare at the first place where they differ, a string before its extensions |
| MapPropagation.MapFuncIndex.AddStore | pkg/activation/mapfunc.go:306-320 | Adds exactly that store unless its type is empty or it is known; the result says whether the set grew, and every list stays sorted by function key and duplicate-free |
| MapPropagation.MapFuncIndex.AddParamStore | pkg/activation/mapfunc.go:322-339 | Adds exactly that fact unless its type is empty or it is known; the result says whether the set grew, and every list stays sorted by key and parameter and duplicate-free |
| MapPropagation.MapFuncIndex.InitialFacts | pkg/activation/mapfunc.go:178-195 | Lists exactly the facts held, sorted, whatever order the map is walked in |
| MapPropagation.MapFuncIndex.PropagateFact | pkg/activation/mapfunc.go:197-222 | One fact at one call site adds exactly what the two rules give, and counts it |
| MapPropagation.MapFuncIndex.PropagateFactEverywhere | pkg/activation/mapfunc.go:152-163 | One fact adds exactly what the rules give at all its call sites |
| MapPropagation.MapFuncIndex.PropagateRound | pkg/activation/mapfunc.go:148-166 | A round over a snapshot is one application of both rules: no fact of the round feeds the same round |
| MapPropagation.MapFuncIndex.Propagate | pkg/activation/mapfunc.go:136-171 | After k rounds the facts are exactly those of depth at most k and nothing underivable is ever recorded; without the limit flag the facts are exactly those that chains of calls hand up from the known ones and the stores exactly the known ones and the functions some call passes for a storing parameter; the flag is set exactly when all twenty rounds found something, never when every fact has depth at most eighteen, always when a store has its only sources at depth nineteen; the per-round counters add up to the growth |
| MapPropagation.WholeRound | pkg/activation/mapfunc.go:151-163 | Processing the snapshot fact by fact amounts to one application of the rules to the whole set |
| MapPropagation.RulesByCall | pkg/activation/mapfunc.go:197-222 | What the rules give for a fact, call by call: any call of its function, the first and the last included, that hands a parameter of its caller on, or passes functions, for the storing parameter |
| MapPropagation.LeastIsHanded | pkg/activation/mapfunc.go:136-171 | The least fixpoint of the two rules is what such chains of calls hand up and pass |
| MapPropagation.FactOrderReads | pkg/activation/mapfunc.go:178-195 | Facts are taken by function key, then map key, then parameter |
| TypeSearch.Searcher.ContainsCallback | pkg/activation/cut_callbacks.go:102-144 | The recursive search with its inserted and deleted path set equals the path-guarded search, and leaves the path set as it was |
| TypeSearch.Searcher.MethodContainsCallback | pkg/activation/cut_callbacks.go:146-170 | A method contains a callback exactly when one of its parameter or result types does |
| TypeSearch.Searcher.ContainsChannel | pkg/activation/cut_state.go:136-168 | The channel search equals the path-guarded search over its own edges |
| TypeSearch.TypeContainsCallback | pkg/activation/cut_callbacks.go:102-170 | On any finite, cyclic type graph: true exactly when a function signature is contained at some depth, through pointers, elements, keys, fields, underlying types and what interface methods mention |
| TypeSearch.TypeContainsChannel | pkg/activation/cut_state.go:136-168 | True exactly when a channel type is contained at some depth; interfaces are not looked into |
| BoundaryData.Worse | pkg/activation/cut_boundary.go:350-372 | The worse class has the larger of the two ranks |
| BoundaryData.Classifier.ClassifyType | pkg/activation/cut_boundary.go:65-145 | The class is the worst level the path-guarded search reaches; the path set is restored |
| BoundaryData.Classifier.ClassifyStruct | pkg/activation/cut_boundary.go:147-177 | The worst of the fields, synchronisation fields skipped, unexported or embedded fields at least serializable |
| BoundaryData.Classifier.ClassifyInterface | pkg/activation/cut_boundary.go:179-212 | The worst of the methods, streaming methods infeasible, an empty interface at least serializable |
| BoundaryData.Classifier.ClassifyMethod | pkg/activation/cut_boundary.go:229-248 | The worst of the parameters and results of a method signature |
| BoundaryData.ClassIsWorstReachable | pkg/activation/cut_boundary.go:65-145 | From an empty path a class of rank two or more is reached exactly when a reachable type has it; Trivial exactly when nothing of rank one and no cycle is reachable |
| BoundaryData.ClassifyFresh | pkg/activation/cut_boundary.go:49-63 | One classification of a value type states both of these for the type itself |
| BoundaryData.RankIsShape | pkg/activation/cut_boundary.go:77-145 | Which types are bad by themselves, by shape: channels, functions, unsafe pointers and streaming interfaces are infeasible, every other class above serializable comes from the name tables, through one pointer at most, and the trivial shapes are listed |
| BoundaryData.CarriedIsFollowed | pkg/activation/cut_boundary.go:98-138 | Where the search goes from a type, by shape: pointers, elements other than bytes, keys, fields that are not synchronisation primitives, underlying types and what non-streaming methods mention |
| BoundaryData.ClassifyBoundaryData | pkg/activation/cut_boundary.go:11-47 | Infeasible exactly when some parameter or result carries, at whatever depth, a channel, a function, an unsafe pointer, a streaming interface, a missing type or one known to be infeasible; failing that, in need of a proxy or a reconstruction exactly when it carries a type known to be; Trivial exactly when everything carried is trivial in itself and never carries itself; a missing signature is infeasible |
| ActivationGraph.Graph.AddNode | pkg/activation/graph.go:41-69 | Appends one node for a new function and changes nothing for a known one; ids stay positions, functions stay distinct |
| ActivationGraph.Graph.AddEdge | pkg/activation/graph.go:11-38 | Refuses unknown ends, returns a known edge with the same ends and kind, otherwise appends one edge and keeps the out and in lists equal to the edge list filtered by end |
| ActivationGraph.Graph.NodeByFunction | pkg/activation/path.go:76-86 | Finds the node of a function exactly when there is one |
| ActivationGraph.Graph.FunctionSet | pkg/activation/graph.go:80-91 | The set of functions the nodes hold |
| ActivationGraph.Graph.NewFunctionsSince | pkg/activation/graph.go:94-116 | Exactly the functions outside the snapshot, each once, sorted by key and name; empty exactly when there is none |
| ActivationGraph.IndexedAppend | pkg/activation/graph.go:34-36 | Appending an edge to the list and to one out and one in list keeps the index exact |
| ShortestPath.Search | pkg/activation/path.go:10-57 | Succeeds exactly when some edge walk leads from an entrypoint node to the target node; then the path is such a walk over real edges, of minimum length, visiting no node twice, and of all walks of that length none comes before it: none has a lesser start node, or the same steps up to some place and a lesser edge there |
| ShortestPath.BuildPath | pkg/activation/path.go:59-74 | Following the first-reached edges back terminates and yields a walk from a start node, one node for each level |
| ShortestPath.Expand | pkg/activation/path.go:43-54 | Looking at one node reaches exactly the targets of its edges, each new one by the least edge of that node, and keeps the tree, its depths, the order of the queue and the order of discovery |
| ShortestPath.DepthIsShortest | pkg/activation/path.go:37-42 | The depth of a node taken off the queue is the length of a shortest walk |
| ShortestPath.ExhaustedIsUnreachable | pkg/activation/path.go:56-56 | When the queue runs empty an unreached target is unreachable |
| ShortestPath.EdgeOrderIsTotal | pkg/activation/path.go:107-132 | The edge comparison is a strict total order on edges told apart by id |
| ShortestPath.FoundIsLeast | pkg/activation/path.go:37-57 | When nodes are found in the order of the nodes that lead to them and of their edges, the path found to a node is the least of its shortest paths |
| ShortestPath.EdgeOrderIsDeterministic | pkg/activation/path.go:43-46 | The order in which a node is expanded does not depend on how its edges were listed |
| ShortestPath.NodeOrderReads | pkg/activation/path.go:88-105 | Shorter package paths come first; then package path, function, receiver and name decide |
| ShortestPath.EdgeOrderReads | pkg/activation/path.go:107-132 | The lesser target comes first; then kind, file, line, column and the older edge decide |
| ShortestPath.NodeOrder | pkg/activation/path.go:88-105 | The node comparison is a strict order that only fails to separate nodes with equal key and name |
| PathChoice.OneIsBefore | pkg/activation/path.go:10-57 | Of two paths of one length whose start nodes can be told apart one comes before the other, so only one is least |
| PathChoice.AnswersLookAlike | pkg/activation/path.go:9-57 | The deterministic path: in graphs that show the same functions and edges, whatever ids and order of insertion, with names that tell functions apart, and from the same entrypoints in any order, the answers look the same |
| PathChoice.DeterminedIffNamed | pkg/activation/path.go:9-57 | The path never depends on how the graph was put together exactly when the names tell its functions apart or there are no more than two |
| PathChoice.TwinsDependOnAppendOrder | pkg/activation/path.go:43-46 | With two functions of one name the order in which edges were added decides: a concrete graph |
| Augment.RunPass | pkg/activation/augment.go:109-181 | A pass, on an index of the functions scanned so far, only appends; it leaves every function that was there with all its targets connected, reaches nothing but by its own steps, and changes nothing when that held already |
| Augment.RunPasses | pkg/activation/augment.go:109-181 | The passes of a mode together keep this, on an index of all the functions the graph held when they start; what they add is an anchor or follows from what was there by pass steps alone; on a graph where they are done they add no node and no edge |
| Augment.ExploreCallees | pkg/activation/explore.go:15-34 | Exploration connects the callees of everything reached from the new roots and adds only what calls reach from the functions that were there |
| Augment.MergeCallGraph | pkg/activation/explore.go:57-82 | Merging a call graph adds exactly its functions and exactly their call links |
| Augment.AugmentGraph | pkg/activation/augment.go:37-90 | Without the limit flag the graph is the least fixpoint of passes and calls, the index growing with the functions found, with exactly the rule links between its functions; with it everything recorded is still derived; the iteration count never exceeds ten; the flag stays down when ten alternations find everything in whatever order the passes walk, and is raised when ten miss something even at best; only appends |
| AugmentRules.LeastIsUnique | pkg/activation/augment.go:57-67 | A set that holds the seeds, is closed under the rules once all of it is scanned and is part of every closed set, is the only one of its kind |
| AugmentRules.RulesRead | pkg/activation/augment.go:109-181 | Two functions are linked exactly when the call relation names the callee or a pass of the mode names a target in no generic context, with that kind |
| AugmentRules.ModesRun | pkg/activation/augment.go:110-180 | Which passes each mode runs: none without augmentation, struct fields before the predicates that need them, all seven in the full mode |
| AugmentRules.WiderModeDerivesMore | pkg/activation/augment.go:110-180 | A mode that runs more passes derives everything a narrower one does |
| AugmentRules.RTAOnlyIsCalls | pkg/activation/augment.go:50-52 | Without passes the rules derive exactly what calls reach |
| AugmentRules.LeastIsReached | pkg/activation/augment.go:57-67 | That set is exactly what chains of rules reach from the seeds and the dispatch functions, the index being complete |
| AugmentRules.FixedIsClosedUnder | pkg/activation/augment.go:79-81 | What is closed with all of it scanned is closed with any part of it scanned, so nothing found with a smaller index is outside it |
| AugmentRules.DerivedTarget | pkg/activation/structfield.go:84-96 | A target that a pass finds on any index of derived functions is derived |
| Alternations.Alternates | pkg/activation/augment.go:57-82 | One alternation of passes and exploration finds at least one more level of the slowest walk and at most one more of the fastest |
| Alternations.NotEnough | pkg/activation/augment.go:69-77 | A run that still finds a function after n alternations did not have enough of them |
| Alternations.Enough | pkg/activation/augment.go:63-67 | A run that has found everything after at most n alternations could do with n |
| Alternations.AlternationsCanFallShort | pkg/activation/augment.go:69-77 | For every n there is a program in which n alternations miss a function even at best: passes and calls take turns along a chain |
| AugmentRules.NewGenericIsAnchor | pkg/activation/explore.go:84-104 | The passes add no function in a generic context except as a dispatch function, so exploration passes over no other |
| Augment.ConvergedIsLeast | pkg/activation/augment.go:63-67 | A graph on which the passes, on an index of all of it, find no new function and all calls are explored is the least fixpoint |
| Analysis.BuildRTAGraph | pkg/activation/rta.go:13-63 | The initial graph holds exactly what calls reach from the entrypoints and exactly the call links between them |
| Analysis.FoundIsDerived | pkg/activation/analyzer.go:158-158 | A target found in any justified graph is reached by a chain of rules, the index made of the graph |
| Analysis.DerivedIsFound | pkg/activation/analyzer.go:200-206 | In the least closed graph every target is found that a chain of rules reaches |
| Analysis.EdgePathIsRulePath | pkg/activation/analyzer.go:200-206 | A path of the search is a path over functions: from an entrypoint to the target, every step a link some rule gives |
| Analysis.ShortestWalkIsShortestChain | pkg/activation/analyzer.go:200-206 | In the least closed graph the shortest walk is a shortest chain of rules |
| Analysis.ReachesGrows | pkg/activation/analyzer.go:156-177 | What the search finds in a graph it finds after nodes and edges were appended |
| Analysis.FindAugmented | pkg/activation/analyzer.go:156-206 | Augmentation loses no target the call graph reached; without the limit flag the search is exact and its path a shortest chain |
| Analysis.Analyze | pkg/activation/analyzer.go:145-228 | A verdict found comes with a path of rule links over derived functions from an entrypoint to the target; a target that calls alone reach is always found; without the limit flag the rules have a least fixpoint, found means exactly reachability under the rules with all of it scanned, and the path is a shortest chain; augmentation is skipped exactly when that is asked for and calls alone reach the target |
| Analysis.SkippingChangesNothing | pkg/activation/analyzer.go:156-221 | Where augmentation is skipped, a run that does not skip it finds the target as well, limit or not |
| CallbackParams.Search.ParameterMayCallback | pkg/activation/funcarg.go:109-167 | The method with its memo and visiting maps computes exactly the recursive query, answer and memo, whose meaning the rows below state |
| CallbackParams.Search.ForwardedMayCallback | pkg/activation/funcarg.go:139-144 | The argument loop computes exactly the recursive scan of the arguments |
| CallbackParams.TrueIsSound | pkg/activation/funcarg.go:114-163 | Under any memo whose true entries are right, a true answer has a chain of forwarded parameters ending in an escape |
| CallbackParams.FalseIsSettled | pkg/activation/funcarg.go:117-119 | While the answer is false, every false entry is accounted for by false, visited or harmless receivers |
| CallbackParams.QueryIsExact | pkg/activation/funcarg.go:109-167 | On an exact memo, the empty one included, a query is true exactly when such a chain exists, cycles included; a false answer leaves the memo exact |
| CallbackParams.FoundIffLetOut | pkg/activation/funcarg.go:109-167 | On an exact memo, the empty one included, the answer is true exactly when a chain of calls hands the parameter on to a function with an instruction that calls it, stores it beyond a local, puts it into a map or returns it |
| CallbackParams.InvokedIsFound | pkg/activation/funcarg.go:131-134 | A function that calls its parameter is found at once |
| CallbackParams.MemoServesIffExact | pkg/activation/funcarg.go:114-116 | A shared memo answers every query rightly exactly when every entry on record is right |
| CallbackParams.QueryTrap | pkg/activation/funcarg.go:109-167 | What one query does to an exact memo, at any point of the search: it stays exact exactly when the parameter is no trap, and then the answer is right |
| CallbackParams.StaleIffTrap | pkg/activation/funcarg.go:109-167 | A query leaves a wrong entry behind exactly when its parameter is a trap: the search, stopped by nothing before, follows unanswered parameters to one that may call back although all it is passed on to is on that path or harmless |
| CallbackParams.SharedMemoRightIffNoTraps | pkg/activation/funcarg.go:43-72 | One memo shared by any sequence of queries answers each of them rightly exactly when the program has no trap |
| CallbackParams.HarmlessCyclesAreSafe | pkg/activation/funcarg.go:109-167 | A program has no trap when parameters forwarded to each other are harmless; a parameter handed back to itself does no harm |
| CallbackParams.StaleAnswer | pkg/activation/funcarg.go:43-44 | A concrete program of two functions in which a true answer leaves a wrong false entry behind |
| CallbackParams.ExactIffNoTrapOn | pkg/activation/funcarg.go:43-72 | A given sequence of queries leaves every entry right exactly when none of them meets a trap, given the answers on record by then |
| CallbackParams.NoTrapsAnywhere | pkg/activation/funcarg.go:43-72 | In a program without traps no sequence meets one |
| CallbackParams.AugmentFuncArgs | pkg/activation/funcarg.go:28-85 | Only justified callback edges are registered, with one memo shared by all call sites; when none of the queries of the pass itself meets a trap all of them are |
| CutRanking.BetterIsLexicographic | pkg/activation/cut.go:208-239 | The comparison is the lexicographic order of eight numbers |
| CutRanking.BetterReads | pkg/activation/cut.go:208-246 | Feasible before infeasible; then smaller surface, fewer callbacks, less state, milder errors, better alignment, no proxy and the deeper step decide in this order, each dimension by its list of values |
| CutRanking.BetterIsTotal | pkg/activation/cut.go:208-246 | It is a strict total order on candidates with distinct steps |
| CutRanking.RankingIgnoresInputOrder | pkg/activation/cut.go:196-198 | The ranking does not depend on the input order |
| CutRanking.FeasibleIsPrefix | pkg/activation/cut.go:199-204 | In a ranked list the feasible candidates come first, in ranking order |
| CutRanking.DecisiveNamesFirstDifference | pkg/activation/cut.go:296-322 | Between feasible candidates the reported difference is the first dimension in which the winner is better exactly when both are feasible alike or nothing but feasibility and depth separates them |
| CutRanking.ProxyIsMisreported | pkg/activation/cut.go:300-302 | Otherwise feasibility is reported although an earlier dimension decided: a concrete pair |
| CutRanking.ReasonsRead | pkg/activation/cut.go:249-281 | Whose reason says what: an infeasible candidate keeps its own, a feasible one not recommended names the recommended step and what decided, the recommended one is alone, has no feasible rival or names what decided against the next feasible one; without a recommendation only an empty reason is filled |
| CutRanking.CutResult.Rank | pkg/activation/cut.go:192-206 | Sorts in place, recommends the first feasible candidate and rewrites the reasons from the sorted list |
| CutRanking.CutResult.AnnotateReasons | pkg/activation/cut.go:265-281 | Each feasible candidate gets the reason that belongs to it; nothing else changes |
| CutRanking.CutResult.AnnotateUnrecommended | pkg/activation/cut.go:249-263 | Without a recommendation only empty reasons are filled |
| CutRanking.CutResult.DemoteCandidate | pkg/activation/cut.go:63-81 | Marks exactly the named candidate infeasible and ranks again; an unknown candidate changes nothing |
| CutRanking.DemoteFirst | pkg/activation/cut.go:63-81 | Demoting the recommended candidate removes it from the front and leaves the other feasible ones in order |
| CutRanking.DemoteCandidateIsDemotion | pkg/activation/cut.go:63-81 | Annotations aside, one call is one demotion of the list |
| CutRanking.DemotionOrderIrrelevant | pkg/activation/cut.go:63-81 | Any order of demotions ends in the one ranking that blocking the whole set gives |
| CutRanking.DemotedStaysOut | pkg/activation/cut.go:63-81 | A demoted candidate is never feasible, hence never recommended, again |
| CutRanking.SurfaceThresholds | pkg/activation/cut_surface.go:3-34 | The depth bands as exact integer comparisons |
| CutRanking.ShortPathBands | pkg/activation/cut_surface.go:3-34 | On paths of at most four nodes the end is minimal, the step before it small and the rest medium; the start, and the step after it on longer paths, is very large |
| CutRanking.DeeperIsSmaller | pkg/activation/cut_surface.go:3-34 | For one path the surface rank never grows with the step |
| CutRanking.RecommendedMatchesDeepest | pkg/activation/cut.go:208-222 | After ranking, the recommended cut has the surface class of the deepest feasible candidate |
| CutAdmission.FirstRetryable | pkg/codegen/cut_admit.go:371-378 | The first refusal with a retryable code, if there is one |
| CutAdmission.ParentForbidden | pkg/codegen/cut_admit.go:200-215 | True exactly when a deeper candidate has an adapter class other than none and direct |
| CutAdmission.MarkCandidateAdapter | pkg/codegen/cut_admit.go:257-266 | Writes class and reason into the first candidate of that identity and recommends it; otherwise changes nothing |
| CutAdmission.AdapterPass | pkg/codegen/cut_admit.go:133-170 | The recovery branch accepts, or leaves the candidate with the class recovery found; the ranking survives |
| CutAdmission.Consider | pkg/codegen/cut_admit.go:104-131 | One recommended candidate is settled or refused exactly as a single turn of the walk says, which the rows of AdmissionRuns explain |
| CutAdmission.AdmitCutCandidates | pkg/codegen/cut_admit.go:70-183 | The loop over a list that is re-ranked after every demotion ends exactly as one walk down the initial feasible ranking: same verdict, chain, error and adapter classes; the list ends as the initial one with exactly the chain demoted |
| CutAdmission.ChainIsPrefix | pkg/codegen/cut_admit.go:91-181 | The chain is a prefix of the initial feasible ranking, at most one attempt for each candidate and none twice |
| CutAdmission.AcceptedIsNext | pkg/codegen/cut_admit.go:125-127 | An accepted run accepts the candidate right after the chain, and with the flag on no deeper step then has an adapter class |
| CutAdmission.AcceptedCut | pkg/codegen/cut_admit.go:70-183 | The accepted cut is the best-ranked feasible candidate outside the chain; with the flag on no deeper step, feasible or not, had an adapter class before or after the run |
| CutAdmission.AdaptersStay | pkg/codegen/cut_admit.go:168-169 | Adapter classes are only replaced by adapter classes, and untouched with the flag off |
| CutAdmission.DemotionsAreJustified | pkg/codegen/cut_admit.go:105-131 | Every demotion answers a retryable refusal of that very attempt or the parent rule |
| CutAdmission.NeverGivesUpEarly | pkg/codegen/cut_admit.go:91-182 | Without timeouts, errors and final refusals a run accepts or has demoted every feasible candidate |
| CutAdmission.FlagOffIgnoresAdapters | pkg/codegen/cut_admit.go:65-68 | With the flag off verdict, chain and error do not depend on adapter classes or recovery |
| CutAdmission.FailedLeafBlocksParents | pkg/codegen/cut_admit.go:185-215 | After recovery failed on a candidate nothing above it on the path is accepted |
| AdmissionRuns.WalkIsTold | pkg/codegen/cut_admit.go:91-182 | Every demotion and every end of a run, in the planner's own answers: a candidate is demoted because a deeper step has an adapter class, or because its attempt was refused with a retryable code and not recovered, with that code and message; the run ends where it is accepted, recovered, failed or refused for good, or for want of attempts, time or candidates |
| AdmissionRuns.ToldIsTheRun | pkg/codegen/cut_admit.go:91-182 | That description leaves no choice: whatever answers it has the verdict, chain and error of the run |
| AdmissionRuns.AcceptedIffAdmitted | pkg/codegen/cut_admit.go:119-167 | A run accepts exactly when, in time, the planner accepts the first candidate not demoted: as it is and without failing, or, with the flag on, refused first of all for an eligible shape, suited, adapted and accepted as an adapted plan |
| AdmissionRuns.VerdictIsAnswer | pkg/codegen/cut_admit.go:119-131 | The verdict on that candidate is the planner's last answer about it; a run that ends there without accepting failed, exactly when the attempt did, or got refusals none of which may be retried; any other end neither fails nor accepts |
| AdmissionRuns.OnlyRetriedAreDemoted | pkg/codegen/cut_admit.go:119-181 | No attempt that accepts, fails or refuses for good is followed by another |
| AdmissionRuns.ClassesAreTold | pkg/codegen/cut_admit.go:133-170 | The adapter classes at the end: on every candidate recovery was asked about what its refusal, or its success, says; on every other step what was there before |
| TopologicalSort.TopologicalSort | pkg/compiler/util.go:45-100 | Success is a permutation of the nodes with every prerequisite first; it succeeds exactly when the prerequisite lists are duplicate-free and name only nodes and the graph has no cycle |
| TopologicalSort.Begin | pkg/compiler/util.go:49-59 | In-degrees are list lengths and the queue holds exactly the nodes without prerequisites |
| TopologicalSort.Release | pkg/compiler/util.go:67-82 | After a node is finished every in-degree is the list length minus its finished prerequisites, and exactly the nodes at zero have been queued |
| TopologicalSort.DegreeZero | pkg/compiler/util.go:75-78 | The count reaches zero exactly when the list has no duplicate, does not name its own node and is finished |
| TopologicalSort.OrderedIsAcyclic | pkg/compiler/util.go:42-45 | A list with prerequisites first admits no cycle |
| TopologicalSort.LeftoverIsCyclic | pkg/compiler/util.go:85-97 | Nodes left over mean an improper list or a cycle |
| TopologicalSort.DuplicateIsRefused | pkg/compiler/util.go:51-51 | A prerequisite listed twice is refused although an order exists: a concrete graph |
| Pragma.ParseKey | pkg/compiler/pragma.go:346-370 | The segment loop equals the recursive key scan, result, offset and problem |
| Pragma.ParseValue | pkg/compiler/pragma.go:372-419 | The quoted and bare loops equal the value scan |
| Pragma.ParseLine | pkg/compiler/pragma.go:281-344 | The line parser equals the line scan: prefixes, verb, options, duplicates and spans |
| Pragma.CharacterClasses | pkg/compiler/pragma.go:421-435 | The character classes by code: letters, the continuation of an identifier, bare characters, blanks and separators |
| Pragma.KeyScans | pkg/compiler/pragma.go:346-370 | A text that holds a valid key followed by something else scans as that key |
| Pragma.ScannedIsKey | pkg/compiler/pragma.go:346-370 | Whatever scans as a key is a valid key, the longest there |
| Pragma.TokenScans | pkg/compiler/pragma.go:372-419 | Any spelling of a value, bare or quoted with any mix of raw and escaped characters, scans as that value |
| Pragma.ScannedIsToken | pkg/compiler/pragma.go:372-419 | Whatever scans as a value is such a spelling |
| Pragma.AcceptedIffRendering | pkg/compiler/pragma.go:281-344 | The accepted lines are exactly the pragma head followed by blank-separated key=value items with distinct valid keys and trailing blanks |
| Pragma.RoundTrip | pkg/compiler/pragma.go:281-344 | Rendering any options in any order, with any blanks and any quoting, parses back to exactly these options |
| Pragma.ExpressibleExactly | pkg/compiler/pragma.go:281-435 | A map of options is what some line says exactly when its keys are valid and its values are ASCII without carriage returns, so every accepted line has a canonical equal one |
| Pragma.RejectionSpans | pkg/compiler/pragma.go:281-344 | Every rejection span lies inside the text, and a line is ignored exactly when it carries neither prefix |
| Pragma.RejectionsAreExplained | pkg/compiler/pragma.go:281-419 | Every rejection says what is wrong and where: an older form, another verb, or valid items with distinct keys up to a key or value that breaks off for the reason given, lacks its equals sign, repeats a key or is not followed by a blank |
| KeyValueStore.InMemoryKVStore.SaveState | demo/monolith/database/db.go:86-113 | Fails exactly on a non-empty etag without key or with another current etag; otherwise stores value and new etag under that key alone |
| KeyValueStore.InMemoryKVStore.GetState | demo/monolith/database/db.go:116-131 | What is stored under the key, if anything |
| KeyValueStore.InMemoryKVStore.DeleteState | demo/monolith/database/db.go:134-158 | Removes that key alone; a missing key is no error, a wrong etag is |
| OptimisticUpdate.StepConsistent | demo/monolith/database/redis.go:64-107 | Every step of every client, unconditional saves included, keeps: a client holding the current etag or version holds the outcome on the current value, each failed attempt was overtaken by a write, and each success is in the log once |
| OptimisticUpdate.StepFolds | demo/monolith/database/redis.go:64-107 | From a value that is the fold of the log a step leads to such a value exactly when its write gives on the current value what was computed from the one read |
| OptimisticUpdate.StepKeeps | demo/monolith/database/redis.go:64-107 | Every guarded step keeps all of this, so the value stays the fold of the log |
| OptimisticUpdate.WriteKeepsClients | demo/monolith/database/redis.go:84-90 | After a write under a fresh etag no client holds the current etag or version |
| OptimisticUpdate.NoLostUpdate | demo/monolith/socialgraph/service.go:59-131 | On an existing key, over every interleaving of any number of clients, the stored value is the fold of the calls in commit order and each successful call is in it exactly once, in its client's order |
| OptimisticUpdate.NoLostUpdateFromAbsent | demo/monolith/socialgraph/service.go:71-73 | From an absent key the same holds for every run in which no unconditional save meets an existing key |
| OptimisticUpdate.NothingLostIff | demo/monolith/database/redis.go:64-107 | For every run, guarded or not: the value is the fold of the successful calls all along the run exactly when every unconditional save of it gives on the value it overwrites what was computed from the one read |
| OptimisticUpdate.RunIsEffects | demo/monolith/socialgraph/service.go:59-131 | Every run, from an existing key or an absent one, leaves the effects of the successful calls in the order they took effect, an unconditional save taking effect on the absent value its call had read |
| OptimisticUpdate.PresentSeesAll | demo/monolith/database/redis.go:64-101 | On an existing key no save is unconditional |
| OptimisticUpdate.FirstWriteRace | demo/monolith/socialgraph/service.go:71-73 | Two clients that find the key absent both succeed, and the first call is lost unless the second gives the same on top of it |
| OptimisticUpdate.GaveUpWasOvertaken | demo/monolith/socialgraph/service.go:123-130 | A call that spent its five attempts was overtaken by at least five writes |
| OptimisticUpdate.UndisturbedSucceeds | demo/monolith/socialgraph/service.go:63-121 | A client left alone for one attempt succeeds at it |
| PostService.Toggle | demo/monolith/postservice/service.go:306-320 | The loop removes the user or, if absent, appends it |
| PostService.ToggleParity | demo/monolith/postservice/service.go:306-320 | From the empty list a user is listed exactly after an odd number of toggles, and the list has no duplicates |
| PostService.ToggleKeepsOrder | demo/monolith/postservice/service.go:306-320 | A first upvote goes last, taking it back leaves the other users in their order, and both together change nothing |
| PostService.UpvoteParity | demo/monolith/postservice/service.go:279-347 | After the post was saved, every run leaves a user listed exactly when an odd number of that user's upvotes succeeded |
| PostService.CommentsAllKept | demo/monolith/postservice/service.go:222-277 | Every comment reported added is stored once, in the order the saves took effect |
| FollowGraph.KeysApart | demo/monolith/socialgraph/service.go:47-55 | The two key functions are injective and never meet |
| FollowGraph.AppliedSound | demo/monolith/socialgraph/service.go:82-109 | An update keeps a list duplicate-free and within 2000 entries |
| FollowGraph.AppliedMembers | demo/monolith/socialgraph/service.go:82-109 | Without a trim an update changes the membership of its value alone |
| FollowGraph.TrimDropsOldest | demo/monolith/socialgraph/service.go:95-99 | A trim drops the oldest entry and nothing else |
| FollowGraph.AddGoesLast | demo/monolith/socialgraph/service.go:92-103 | A new value goes last, behind the old entries in their order, of which only the last max-1 stay when a bound is set |
| FollowGraph.RemovalKeepsOrder | demo/monolith/socialgraph/service.go:104-109 | A removal cuts out the first occurrence and keeps the order of the rest |
| FollowGraph.AddsKeepNewest | demo/monolith/socialgraph/service.go:92-103 | Distinct values added one after another leave the newest 2000 of them, in the order in which they were added |
| FollowGraph.FollowsKeepNewest | demo/monolith/socialgraph/service.go:59-131 | However the follows of any number of clients interleave on an existing list, the newest 2000 are left in the order in which the calls took effect |
| FollowGraph.FollowListSafe | demo/monolith/socialgraph/service.go:59-131 | Over every interleaving a list, existing or absent, ends as the effects of the successful calls, duplicate-free and bounded; an existing one as their fold |
| FollowGraph.FollowService.UpdateList | demo/monolith/socialgraph/service.go:82-109 | The search, append, trim and cut equal the list update |
| FollowGraph.FollowService.UpdateFollowList | demo/monolith/socialgraph/service.go:59-131 | With any writes of other clients between the read and the save of each of the five attempts, and a store that breaks at any of them, the loop ends as the recursive description of its attempts says |
| FollowGraph.LoopIs | demo/monolith/socialgraph/service.go:59-131 | A call that succeeds takes effect once: on the list its save met if it had read one, over that list if it had read none; a call that fails writes nothing, and it runs out of attempts exactly after five refusals |
| FollowGraph.FollowService.Update | demo/monolith/socialgraph/service.go:227-274 | The list of the caller first and the other list only when that succeeded, each through its own loop |
| FollowGraph.CallTakesEffect | demo/monolith/socialgraph/service.go:227-274 | A call that succeeds makes each of its two halves at one attempt on the lists its save met, blind exactly when it had read no list |
| FollowGraph.UndisturbedCall | demo/monolith/socialgraph/service.go:227-274 | Undisturbed, a call succeeds and is one call of the sequential graph |
| FollowGraph.LosesIff | demo/monolith/socialgraph/service.go:71-104 | An update that saw its list loses an entry of others exactly when it trims; an unconditional one exactly when the list it overwrites holds anything but its own value |
| FollowGraph.BlindKeepsIff | demo/monolith/socialgraph/service.go:71-104 | An unconditional save of a follow does what one that saw the list would do exactly when it loses nothing |
| FollowGraph.ConsistentIffNothingLost | demo/monolith/socialgraph/service.go:227-274 | A completed call keeps followees and followers in step exactly when neither of its updates loses anything, by a trim or by overwriting |
| FollowGraph.ConsistentIffUntrimmed | demo/monolith/socialgraph/service.go:227-274 | A completed call keeps followees and followers in step exactly when it trims neither list |
| FollowGraph.HalfIsInconsistent | demo/monolith/socialgraph/service.go:242-245 | A call that stops half-way leaves the graph inconsistent exactly when its first half changed anything |
| FollowGraph.GraphIsLastWord | demo/monolith/socialgraph/service.go:227-274 | After any sequence of completed calls that never trims, both directions say what the last call about each pair said |
| FollowGraph.EachDirectionHasItsLastWord | demo/monolith/socialgraph/service.go:227-274 | From any lists and over every interleaving of the two updates of any calls, as long as none loses anything, each direction says what its own last update about the pair said, or else the start |
| FollowGraph.ConsistentIffSameLastWords | demo/monolith/socialgraph/service.go:227-274 | The directions then agree exactly when the last updates about every pair said the same |
| FollowGraph.ApartIsConsistent | demo/monolith/socialgraph/service.go:227-274 | From consistent lists, when calls about the same pair never overlap and no update loses anything, the directions agree once all calls are done, however the others interleave |
| FollowGraph.StoreEndsAsHalves | demo/monolith/database/redis.go:64-107 | A key whose clients interleave step by step ends as the updates of it that took effect say; on a key that was there none of them is unconditional |
| FollowGraph.StoreRunIsHalves | demo/monolith/database/redis.go:64-107 | Every run of the steps of a store, of any clients on any keys in any order, is such a run of updates, in the order in which its steps make them take effect |
| FollowGraph.StoreHasLastWords | demo/monolith/socialgraph/service.go:227-274 | So the lists in the store, over every interleaving of the steps of any calls on every key, say what the last updates said as long as none loses anything |
| FollowGraph.StoreIsConsistent | demo/monolith/socialgraph/service.go:227-274 | And they are consistent once all calls are done, when calls about the same pair never overlap |
| FollowGraph.OverlapBreaksAgreement | demo/monolith/socialgraph/service.go:227-274 | A follow and an unfollow of one pair that overlap can both succeed, lose nothing and leave it out of step: a concrete interleaving |
| FollowGraph.FirstFollowsRace | demo/monolith/socialgraph/service.go:71-73 | Two first follows of one user that overlap, about different users, both succeed; the followees keep only the second while both lists of followers are written: a concrete run of the store on every key |
| Timeline.UpdateEntries | demo/monolith/timelineservice/service.go:131-159 | The add and remove branches equal the list update |
| Timeline.AddKeepsNewest | demo/monolith/timelineservice/service.go:131-150 | Insert, sort and trim keep the newest thousand of everything added so far, also when a trimmed post is added again |
| Timeline.AddsLeaveNewest | demo/monolith/timelineservice/service.go:131-150 | With one timestamp for each post, any additions to the newest thousand of some posts leave exactly the newest thousand of these and all added, newest first |
| Timeline.InterleavedAddsLeaveNewest | demo/monolith/timelineservice/service.go:109-192 | On a store that checks etags, over every interleaving of workers adding to a timeline that holds the newest thousand of some posts, it ends as the newest thousand of these and all posts whose addition succeeded |
| Timeline.FirstAddsLeaveNewest | demo/monolith/timelineservice/service.go:109-192 | From an absent timeline the same holds for every run in which no unconditional save meets an existing one |
| Timeline.NewestIsUnique | demo/monolith/timelineservice/service.go:131-150 | That list is determined by the set of posts: their order of arrival leaves no trace |
| Timeline.RemovedMembers | demo/monolith/timelineservice/service.go:151-159 | Removing drops exactly the post |
| Timeline.RemovalKeepsOrder | demo/monolith/timelineservice/service.go:151-159 | Removing leaves the other entries in their order |
| Timeline.UpdatesKeepShape | demo/monolith/timelineservice/service.go:131-159 | Whatever is added and removed, a timeline stays in order, duplicate-free and bounded and holds only posts it held or that were added |
| Timeline.ReadTimeline | demo/monolith/timelineservice/service.go:224-235 | The first entries at or before the cutoff, as many as were asked for and at least one |
| Timeline.EligibleIsSuffix | demo/monolith/timelineservice/service.go:228-235 | On a timeline in order these are the entries from the first eligible one on |
| Timeline.PageTakesFirst | demo/monolith/timelineservice/service.go:224-235 | A page takes the entries at or before the cutoff in their order, skips none, and stops only when it holds the number asked for, or one |
| Timeline.PageIsNewest | demo/monolith/timelineservice/service.go:224-235 | An eligible post that is not on the page is older than everything on it, and the page is full unless the post had been trimmed |
| Functions.SortedUniqueFunctions | pkg/activation/explore.go:36-55 | Exactly the functions of the list, once each, sorted by key and name |
| Functions.FuncOrderReads | pkg/activation/explore.go:36-55 | Key texts decide, and among equal ones the names |
| StructFieldIndex.FieldIndex.AddStore | pkg/activation/structfield.go:336-349 | A new function and kind is added and the list sorted again; a known one changes nothing |
| StructFieldIndex.FieldIndex.AddRead | pkg/activation/structfield.go:300-313 | A second call of a field from one function is not recorded |
| StructFieldIndex.FieldIndex.ScanFunction | pkg/activation/structfield.go:92-94 | Scanning one function adds exactly its stores and calls |
| StructFieldIndex.FieldIndex.Update | pkg/activation/structfield.go:84-96 | After any updates, overlapping or repeated, the index is that of one scan of everything it was given |
| StructFieldIndex.WithEntryIs | pkg/activation/structfield.go:300-349 | One record adds exactly its tag and keeps every list sorted by function key and duplicate-free |
| StructFieldIndex.IncrementalAgreesWithBatch | pkg/activation/structfield.go:82-96 | Two indexes over the same functions hold the same stores and calls, however the functions were split into updates |
| ImportScope.BuildReverse | pkg/activation/scope.go:41-46 | The reverse map lists exactly the importers |
| ImportScope.ReverseReach | pkg/activation/scope.go:48-60 | The worklist visits exactly the packages with a chain of imports to the target |
| ImportScope.ReverseIsDepends | pkg/activation/scope.go:41-60 | Reverse reachability is dependence through a chain of imports |
| ImportScope.ReverseImportScope | pkg/activation/scope.go:41-74 | The scope is the listed packages that depend on the target, sorted, and the target alone exactly when there is none |
| ImportScope.TargetInScope | pkg/activation/scope.go:23-24 | The target is in its scope exactly when it is listed or nothing listed depends on it |
| ImportScope.UnlistedTargetDropsOut | pkg/activation/scope.go:23-24 | An unlisted target that a listed package imports is not in its scope: a concrete listing |
| SourceOffsets.DecodesEncoded | pkg/compiler/diagnostics/translate.go:332-334 | The decoder takes exactly one encoded scalar value, whatever follows |
| SourceOffsets.DecodesOnlyEncoded | pkg/compiler/diagnostics/translate.go:332-334 | The decoder takes more than one byte only when they encode a scalar value: no overlong form, no surrogate, nothing beyond the last scalar |
| SourceOffsets.ByteOffsetForColumn | pkg/compiler/diagnostics/translate.go:318-341 | The loop equals the column offset |
| SourceOffsets.ColumnCountsCharacters | pkg/compiler/diagnostics/translate.go:318-341 | In well-formed UTF-8 a column is where that many characters have been encoded, and exactly the columns up to one past the last exist |
| SourceOffsets.SplitLinesIs | pkg/compiler/diagnostics/translate.go:288-298 | The lines put together are the file, and newlines end exactly the lines before the last |
| SourceOffsets.LocationIsThere | pkg/compiler/diagnostics/translate.go:300-341 | A location is found exactly when the file has that line and the line that column, and from its offset on the file reads as the rest of that line and all later lines |
| SourceOffsets.ByteOffsetForLocation | pkg/compiler/diagnostics/translate.go:300-316 | The offset of the line plus that of the column, or out of range |
| SourceOffsets.LocationsInOrder | pkg/compiler/diagnostics/translate.go:300-341 | Earlier valid locations have strictly smaller offsets, and every offset lies in the file |
| SourceOffsets.ByteOffsetsForSpan | pkg/compiler/diagnostics/translate.go:267-286 | A span starts at its start, never ends before it and ends at its end when that is later |

## Left out

- Loading packages, building SSA, rapid type analysis, rewriting, templates, rendering and file
  writing: SSA functions, values and types are ids in finite graphs, and what the loaders resolve is input.
- Augment.AugmentGraph: what a pass finds is a function of the functions scanned when the passes start,
  assumed to grow with them; how it is found is left to the models of the single analyses. The call
  graph is assumed to be reachability over one call relation, and a dispatch function of a framework is
  assumed to call nothing if it is generic. Between what ten alternations surely find and what they
  find at best the limit depends on the order in which the passes walk.
- Analysis.Analyze: cancellation, timings and statistics are not modelled; the entrypoints and the
  target are given as functions.
- ShortestPath.Search: start nodes with the same key and name are sorted stably, which is one of the orders
  the unstable sort of the code may give them.
- BoundaryData.ClassifyBoundaryData: the name tables (known types, contexts, synchronisation types,
  streaming methods) are inputs for each type, and the reason texts are not modelled.
- BoundaryData.ClassIsWorstReachable: between Trivial and Serializable a cycle counts as Serializable,
  which is what the code answers for a type met on its own path.
- CallbackParams.AugmentFuncArgs: which parameters a value may carry and which functions it resolves
  to are inputs; completeness is stated for passes whose own queries meet no trap, since after one that
  does an entry on record is wrong (`CallbackParams.ExactIffNoTrapOn`).
- MapPropagation.MapFuncIndex.Propagate: positions and the counters of scanned call sites and functions
  are not modelled; the final lookup edges are left to the graph model.
- StructFieldIndex.IncrementalAgreesWithBatch: positions and types of a record are kept from its first
  occurrence, which depends on the order of scanning, so the agreement is about key, function and kind.
- Classification of callbacks, state, error semantics and edge alignment beyond the two type searches:
  flat tables that the ranking takes as input.
- CutAdmission.AdmitCutCandidates: the planner, its cache, the adapter recovery and the clock are
  functions of the attempt, so that every run is covered; the cut comes ranked with distinct steps, as
  the analysis leaves it; the texts of verdict reasons and of the timeout message are not modelled.
- Reason texts of candidates are kept as structured values, not as formatted strings.
- Pragma.ParseLine: a position is its offset in the text; the suggestion text for the deprecated syntax
  and the grouping of pragmas into regions are not modelled.
- Consistency checking of regions: it compares only some roots, so no completeness could be stated.
- OptimisticUpdate.NoLostUpdate: one key, no deletes and fresh etags; the earlier read of the loop, the
  save's WATCH together with the GET under it, and its EXEC are separate steps (a write between WATCH
  and GET changes the etag that GET sees, as one before WATCH does); failures of the network or of JSON
  are not modelled.
- FollowGraph.GraphIsLastWord: calls complete one after another, from an empty store;
  `FollowGraph.EachDirectionHasItsLastWord` is the form for overlapping calls.
- FollowGraph.LoopIs: etags are assumed to be given out once; a read that fails ends the call like a
  store that breaks.
- KeyValueStore.InMemoryKVStore.SaveState: the mutex makes every call atomic; the clock's etag is a parameter.
- Timeline.InterleavedAddsLeaveNewest: the save goes through a bulk call of the Dapr client; that this
  call refuses a stale etag is an assumption. Ties between timestamps are sorted stably.
- SourceOffsets.ByteOffsetsForSpan: reading the file and turning its path into a relative one.
- Metrics, logging, sleeps, HTTP handlers, JSON encoding, deployment, load generation and scoring.
- Partial paths: the walk is greedy under a matching that is not transitive, so only validity could be stated.
