# Reconfiguration engine of the NP schedulability analysis, modelled in Dafny

The reconfiguration engine sits next to the schedulability search of
np-schedulability-analysis (the search itself is not part of this model). When a job set
with precedence constraints is not schedulable, the engine watches a search through its
callback hooks ("agents") and suggests remedies:

- extra precedence constraints, found by rating the explored graph, cutting it at
  "regret" edges and trying one constraint after another;
- or pessimistic timing for the jobs on failing paths, followed by a minimisation that
  reverts every job that does not need it.

The model keeps the program's structure, one Dafny module per header. The header
`include/reconfiguration/agent/X.hpp` becomes `agent_X.dfy`; every other header X.hpp
becomes `X.dfy`. The one extra module, `GraphCutterSpec` (`graph_cutter_spec.dfy`), describes the
depth-first pass of `cut_rating_graph` as values: which nodes the pass examines, which of their
edges it cuts, and the invariant its loop keeps.

- **Mutable objects.** Objects whose fields the C++ code updates in place are Dafny
  classes with those fields. This covers `Index_collection`, `Job_sequence`,
  `Sub_graph`, `Rating_graph`, `Rating_tree`, every agent, the reconfigurators and the
  working copy of a problem.
- **Loops.** The loops are `while` loops with invariants. Each method is proved against
  a value-level specification function, and the lemmas about those functions state what
  the code promises.
- **Shared types.** The external types the engine consumes live in `problem.dfy`:
  `Job`, `JobID`, `Interval`, `Precedence_constraint`, `Scheduling_problem` and the
  search engine's `Index_set`.
- **The search.** `Global::State_space::explore` is not shown, so the model does not
  contain it. A search run is a list of hook calls supplied by the caller (the `Event`s
  of `search.dfy`). Each driver replays these calls through the agent's hooks. The
  schedulability verdict a driver reads from the search is a further input.

## Model

| member | source | states |
|---|---|---|
| ProblemModel.PessimisticArrival | include/reconfiguration/pessimistic.hpp:19 | `assume_pessimistic_arrival` keeps the job's identity, index, execution window and deadline |
| ProblemModel.PessimisticRunningTime | include/reconfiguration/pessimistic.hpp:20 | `assume_pessimistic_running_time` keeps the job's identity, index, arrival window and deadline |
| ProblemModel.Problem.constructor | include/reconfiguration/pessimistic.hpp:49 | the working copy of a problem starts equal to the problem it copies |
| ProblemModel.IndexSet.Add | include/reconfiguration/index_collection.hpp:37-38 | adding an index adds exactly that member and grows the word storage to cover it, never shrinking it |
| IndexCollections.LargestCovered | include/reconfiguration/index_collection.hpp:64-66 | inserting the larger of two largest indices adds nothing new, unless both collections are empty, in which case it adds index 0 |
| IndexCollections.IndexCollection.constructor | include/reconfiguration/index_collection.hpp:10-14 | a new collection is empty, in vector form, with largest index 0 |
| IndexCollections.IndexCollection.Size | include/reconfiguration/index_collection.hpp:20-22 | `size` is the number of distinct indices held |
| IndexCollections.IndexCollection.Contains | include/reconfiguration/index_collection.hpp:24-27 | `contains(x)` holds iff x is held, in either form |
| IndexCollections.IndexCollection.Members | include/reconfiguration/index_collection.hpp:77-119 | iteration yields every held index exactly once: ascending in set form, in insertion order in vector form |
| IndexCollections.IndexCollection.SwitchToSet | include/reconfiguration/index_collection.hpp:35-41 | the vector-to-set conversion keeps every index, adds the new largest index and leaves the set form in use |
| IndexCollections.IndexCollection.SwitchToVector | include/reconfiguration/index_collection.hpp:43-50 | the set-to-vector conversion keeps exactly the held indices, in ascending order, and leaves the vector form in use |
| IndexCollections.IndexCollection.Insert | include/reconfiguration/index_collection.hpp:29-62 | after `insert(x)` the collection holds its old indices plus x; the largest index is the maximum; the set form is in use iff `(max/64)*8 <= 10*(old size+1)*sizeof(Job_index)`; staying in vector form appends x at the end exactly when it was absent; switching to vector form lists the old indices in ascending order, followed by x when it is new |
| IndexCollections.IndexCollection.AddIfAbsent | include/reconfiguration/index_collection.hpp:52-60 | the last step of `insert` adds x to whichever form is in use, keeping the form and the largest index; in vector form x is appended at the end exactly when it was absent |
| IndexCollections.IndexCollection.Merge | include/reconfiguration/index_collection.hpp:64-68 | `merge` yields the union of both collections when either is non-empty, and {0} when both are empty |
| IndexCollections.IndexCollection.InsertAll | include/reconfiguration/index_collection.hpp:67 | the loop of `merge` adds exactly the other collection's indices |
| IndexCollections.IndexCollection.IsSubsetOf | include/reconfiguration/index_collection.hpp:70-75 | `is_subset_of(o)` holds iff every held index is held by o |
| JobSequences.PrefixReflexive | include/reconfiguration/job_sequence.hpp:44-53 | a sequence is a non-strict prefix of itself and never a strict prefix of itself |
| JobSequences.PrefixTransitive | include/reconfiguration/job_sequence.hpp:44-53 | the prefix relation is transitive, and strict when either step is |
| JobSequences.PrefixOfExtension | include/reconfiguration/job_sequence.hpp:27-53 | a sequence is a strict prefix of its one-step extension |
| JobSequences.CopyOf | include/reconfiguration/job_sequence.hpp:32-33 | copying a step by merging it into a fresh collection gives a new collection with the same indices |
| JobSequences.JobSequence.constructor | include/reconfiguration/job_sequence.hpp:10-11 | a new sequence has no steps |
| JobSequences.JobSequence.Merge | include/reconfiguration/job_sequence.hpp:14-20 | `merge` needs equal lengths, keeps the length and makes every step the union of the two steps at that position |
| JobSequences.JobSequence.AddNext | include/reconfiguration/job_sequence.hpp:22-25 | `add_next(j)` appends one new step {j} and leaves the earlier steps untouched |
| JobSequences.JobSequence.ExtendedCopy | include/reconfiguration/job_sequence.hpp:27-42 | `extended_copy(j)` returns a new sequence of fresh steps: copies of this sequence's steps followed by {j} |
| JobSequences.JobSequence.Push | include/reconfiguration/job_sequence.hpp:34-39 | appending a step that is not yet part of the sequence adds exactly that step and its indices at the end and leaves the earlier steps untouched |
| JobSequences.JobSequence.Snapshot | include/reconfiguration/agent/failure_search.hpp:70-89 | reading every step through its collection's iteration gives exactly the sequence's steps, the value `add_failure` records |
| JobSequences.JobSequence.IsPrefixOf | include/reconfiguration/job_sequence.hpp:44-53 | `is_prefix_of(o, strict)` holds iff o is at least as long (longer when strict) and every step is a subset of o's step at the same position |
| JobSequences.JobSequence.Last | include/reconfiguration/job_sequence.hpp:55-57 | `last` is the final step of a non-empty sequence |
| JobSequences.JobSequence.Get | include/reconfiguration/job_sequence.hpp:59-61 | `get(i)` is step i |
| JobSequences.JobSequence.Length | include/reconfiguration/job_sequence.hpp:63-65 | `length` is the number of steps |
| SubGraphs.FirstMatch | include/reconfiguration/sub_graph.hpp:28-32 | the position of the first edge labelled with the job, or -1 exactly when no edge carries it |
| SubGraphs.SuccessorAfterAppend | include/reconfiguration/sub_graph.hpp:25-33 | appending an edge changes what `can_take_job` answers only for its own job, and only when no earlier edge had that job |
| SubGraphs.WalkLength | include/reconfiguration/sub_graph.hpp:35-45 | when first edges lead forward, the first-edge walk from a node ends within the remaining node count |
| SubGraphs.MirrorInvolution | include/reconfiguration/sub_graph.hpp:80-84 | the index mirroring of `reversed` undoes itself |
| SubGraphs.MirrorArcsCount | include/reconfiguration/sub_graph.hpp:73-89 | mirrored arcs occur exactly as often as the arcs they mirror |
| SubGraphs.ArcsAfterAppend | include/reconfiguration/sub_graph.hpp:64-71 | appending an edge at a node adds exactly its arc to the graph |
| SubGraphs.ForwardAfterAppend | include/reconfiguration/sub_graph.hpp:52-62 | appending an edge to a higher index keeps every edge pointing forward |
| SubGraphs.SubGraph.constructor | include/reconfiguration/sub_graph.hpp:21-23 | a new sub-graph is the root alone, without edges |
| SubGraphs.SubGraph.CanTakeJob | include/reconfiguration/sub_graph.hpp:25-33 | `can_take_job(s, j)` is the target of the first edge of s labelled j, a node of the graph, and -1 iff no edge of s carries j |
| SubGraphs.SubGraph.IsLeaf | include/reconfiguration/sub_graph.hpp:47-50 | `is_leaf(n)` holds iff no job can be taken from n |
| SubGraphs.SubGraph.Length | include/reconfiguration/sub_graph.hpp:35-45 | `length` counts the steps of the first-edge walk from the root, which stays below the node count |
| SubGraphs.SubGraph.AddEdgeToNewNode | include/reconfiguration/sub_graph.hpp:52-62 | the result is the old node count; a new leaf is appended with one edge to it from the start node; `can_take_job` from the start node changes only if the job was not yet taken there; forward edges stay forward |
| SubGraphs.SubGraph.AddEdgeBetweenExistingNodes | include/reconfiguration/sub_graph.hpp:64-71 | exactly one edge is added, between two existing nodes, and the node count is kept |
| SubGraphs.SubGraph.Reversed | include/reconfiguration/sub_graph.hpp:73-89 | the reversal is a new graph with the same node count, built in the source's order: for each node u in turn and each of its edges u→v labelled j in turn, the edge N-1-u labelled j is appended to node N-1-v (`ReversedNodes`); each arc therefore occurs as often as its mirror in the original, and forward graphs stay forward |
| SubGraphs.SubGraph.AddMirroredEdges | include/reconfiguration/sub_graph.hpp:79-85 | the inner loop of `reversed` appends the mirrors of one node's edges in edge order (`MirrorEdges`), adding exactly their mirrored arcs and keeping forward graphs forward |
| SubGraphs.SubGraph.AddMirroredEdge | include/reconfiguration/sub_graph.hpp:80-84 | one step of that loop appends the mirrored edge at the end of node N-1-child's edge list and changes no other node, adding exactly one mirrored arc |
| SubGraphs.SubGraph.AddEmptyNodes | include/reconfiguration/sub_graph.hpp:74-76 | the result graph starts with the same node count as the original, every node without edges |
| SubGraphs.SubGraph.AddMirroredGraph | include/reconfiguration/sub_graph.hpp:78-86 | the outer loop of `reversed` turns the empty graph into `ReversedNodes` of the original, adding exactly the mirrored arcs and keeping forward graphs forward |
| SubGraphs.SubGraph.AddMirroredNode | include/reconfiguration/sub_graph.hpp:78-85 | one turn of that loop extends the reversal from the first `own` nodes to the first `own + 1` |
| SubGraphs.MirroredGraphStep | include/reconfiguration/sub_graph.hpp:78-85 | one more node of the original extends `ReversedNodes` and the mirrored arcs by that node's edges, whose destinations are in range and, in a forward graph, higher |
| RatingGraphs.ChildCountPrefix | include/reconfiguration/rating_graph.hpp:95-101 | one more edge raises the child count of `compute_ratings` exactly when it leads to a higher index |
| RatingGraphs.FinalRatingNonNegative | include/reconfiguration/rating_graph.hpp:87-104 | when every recorded rating is -1 or non-negative, `compute_ratings` leaves no negative rating, and in particular no -1 |
| RatingGraphs.ChildSumNonNegative | include/reconfiguration/rating_graph.hpp:96-101 | under the same condition, the children's summed final ratings are non-negative |
| RatingGraphs.FinalRatingInUnitInterval | include/reconfiguration/rating_graph.hpp:87-104 | when the recorded ratings are 0, -1 or 1 and only childless nodes are rated 1, every final rating lies in [0, 1] |
| RatingGraphs.ChildSumBounds | include/reconfiguration/rating_graph.hpp:96-101 | under the same condition, the children's summed final ratings lie between 0 and the number of children |
| RatingGraphs.RatingGraph.constructor | include/reconfiguration/rating_graph.hpp:34-36 | a new rating graph is one root node, rated 0, without edges |
| RatingGraphs.RatingGraph.WillMissDeadline | include/reconfiguration/rating_graph.hpp:78-85 | `will_miss_deadline(p, j)` holds iff p is rated -1 or an edge of p labelled j leads to a node rated -1 |
| RatingGraphs.RatingGraph.AddNode | include/reconfiguration/rating_graph.hpp:38-47 | when a miss is known, the parent is returned and nothing changes; otherwise the old node count is returned and exactly one node is appended, with a forward edge from the parent and a back edge to it, both labelled j |
| RatingGraphs.RatingGraph.InsertEdge | include/reconfiguration/rating_graph.hpp:49-56 | with `0 <= p < c < size`, exactly the forward edge p→c and the back edge c→p are added; ratings and all other nodes are unchanged |
| RatingGraphs.RatingGraph.SetMissedDeadline | include/reconfiguration/rating_graph.hpp:58-62 | only node n changes, and its rating becomes -1 |
| RatingGraphs.RatingGraph.SetSuccessful | include/reconfiguration/rating_graph.hpp:64-76 | every higher-index edge destination of n is rated 1; n itself is rated 1 only when it has none; nothing else changes |
| RatingGraphs.RatingGraph.ComputeRatings | include/reconfiguration/rating_graph.hpp:87-104 | edges are kept, and every node's rating becomes its `FinalRating`: 0 for a node rated -1; otherwise its own rating plus its forward children's final ratings, divided by the child count when that count exceeds 1 |
| RatingGraphs.SameEdgesWellFormed | include/reconfiguration/rating_graph.hpp:87-104 | changing ratings alone keeps the graph's shape: a root, edges in range, a back edge from every non-root node |
| RatingGraphs.WellFormedAfterAdd | include/reconfiguration/rating_graph.hpp:42-46 | the new node with its edge pair keeps the graph's shape and its recorded ratings |
| RatingGraphs.WellFormedAfterInsert | include/reconfiguration/rating_graph.hpp:54-55 | a forward edge plus its back edge keep the graph's shape and its recorded ratings |
| RatingGraphs.ChildrenPrefix | include/reconfiguration/rating_graph.hpp:68-72 | one more edge adds its destination to the children exactly when it leads to a higher index |
| RatingGraphs.RatingGraphAgent.constructor | include/reconfiguration/rating_graph.hpp:116-117 | the agent records into the given graph |
| RatingGraphs.RatingGraphAgent.CreateInitialNodeAttachment | include/reconfiguration/rating_graph.hpp:127-129 | the root of the search maps to rating node 0 |
| RatingGraphs.RatingGraphAgent.CreateNextNodeAttachment | include/reconfiguration/rating_graph.hpp:131-139 | when taking the job is known to miss, the child maps to its parent's node and the graph is unchanged; otherwise it maps to the old node count, the parent gains an edge to it labelled with the job, and a new node rated 0 is appended whose only edge leads back to the parent |
| RatingGraphs.RatingGraphAgent.MergeNodeAttachments | include/reconfiguration/rating_graph.hpp:141-151 | the parent gains an edge to the destination and the destination an edge back to the parent, both labelled with the job and appended last; no rating, no other node and the node count change |
| RatingGraphs.RatingGraphAgent.MissedDeadline | include/reconfiguration/rating_graph.hpp:153-158 | the graph is unchanged except that the failing node is rated -1 |
| RatingGraphs.RatingGraphAgent.FinishedNode | include/reconfiguration/rating_graph.hpp:160-164 | the edges are kept; every forward child of the finished node is rated 1, the node itself is rated 1 when it has no forward child, and every other rating is unchanged |
| RatingGraphs.RatingGraphAgent.IsAllowed | include/reconfiguration/rating_graph.hpp:166-171 | a job is allowed iff taking it is not known to miss a deadline |
| RatingGraphs.RatingGraphAgent.AllowMerge | include/reconfiguration/rating_graph.hpp:173-186 | a merge is allowed iff the destination is not rated -1 and taking the job from the parent is not known to miss |
| RatingGraphs.Record | include/reconfiguration/rating_graph.hpp:131-186 | one call of the search into the agent changes the graph and the attachments exactly as `GraphStep` says: the hooks' updates `add_node`, `insert_edge`, `set_missed_deadline` and `set_successful`, behind the `is_allowed`/`allow_merge` answers; it aborts, changing nothing, exactly when an allowed merge's parent node does not come before the destination's |
| RatingGraphs.GraphReplayAborted | include/reconfiguration/rating_graph.hpp:49-56 | once `insert_edge`'s assertion fails, the recording of the rest of the pass stays aborted |
| RatingGraphs.GraphReplayFailsAtMerge | include/reconfiguration/rating_graph.hpp:141-151 | a recording aborts only at a merge: a pass without merges always completes |
| RatingGraphs.GraphReplayGrows | include/reconfiguration/rating_graph.hpp:38-56 | a completed recording never loses a rating node or a search node's attachment |
| RatingGraphs.Generate | include/reconfiguration/rating_graph.hpp:115-125 | the pass completes exactly when its replay `GraphReplay` from the root does; then every node keeps the replay's edges and gets the `FinalRating` of the replayed graph, so no node is rated -1 and every rating is non-negative |
| RatingTrees.WillMissAsWrittenDisagrees | include/reconfiguration/rating_tree.hpp:78-82 | the edge test as written compares a node index with a job index, so it misses a failing child reached with the job and flags one reached with another job |
| RatingTrees.RunFrom | include/reconfiguration/rating_tree.hpp:85-98 | running the reverse loop of `compute_ratings` from index i down to the root keeps the node count and the nodes after i |
| RatingTrees.AccumulatedIsChildSum | include/reconfiguration/rating_tree.hpp:93-95 | in a tree whose edges all lead forward, the additions at a node sum its own rating and its children's final ratings |
| RatingTrees.RunFromComputesTreeRating | include/reconfiguration/rating_tree.hpp:85-98 | in a forward tree, the loop leaves every node at its `TreeRating`: 0 after a missed deadline, otherwise its own rating plus its children's ratings, divided by the child count when it exceeds 1 |
| RatingTrees.ComputedRatingsOfForwardTree | include/reconfiguration/rating_tree.hpp:85-98 | the whole `compute_ratings` loop gives every node of a forward tree its `TreeRating` |
| RatingTrees.TreeRatingInUnitInterval | include/reconfiguration/rating_tree.hpp:85-98 | when the recorded ratings are 0, -1 or 1 and only childless nodes are rated 1, every tree rating lies in [0, 1] |
| RatingTrees.ChildSumBounds | include/reconfiguration/rating_tree.hpp:93-95 | under the same condition, k children contribute between 0 and k |
| RatingTrees.ProcessedInRange | include/reconfiguration/rating_tree.hpp:88-96 | processing a node, including clearing a failed node's children, keeps every edge in range |
| RatingTrees.SameChildren | include/reconfiguration/rating_tree.hpp:57-73 | changing ratings alone keeps edges in range and forward |
| RatingTrees.ChildSetPrefix | include/reconfiguration/rating_tree.hpp:70-72 | one more edge adds exactly its child to the rated children |
| RatingTrees.RatingTree.constructor | include/reconfiguration/rating_tree.hpp:33-35 | a new tree is one root node, rated 0, without children |
| RatingTrees.RatingTree.WillMissDeadline | include/reconfiguration/rating_tree.hpp:75-83 | corrected: holds iff the parent is rated -1 or an edge labelled with the job leads to a node rated -1 |
| RatingTrees.RatingTree.AddNode | include/reconfiguration/rating_tree.hpp:37-46 | corrected: when a miss is known, the parent is returned and nothing changes; otherwise the old node count is returned, one forward child edge is added and a fresh node is appended (no back edge) |
| RatingTrees.RatingTree.InsertEdge | include/reconfiguration/rating_tree.hpp:48-55 | with both endpoints in range, exactly one edge is appended at the parent; `parent < child` is not required, and forward trees stay forward only when it holds |
| RatingTrees.RatingTree.SetMissedDeadline | include/reconfiguration/rating_tree.hpp:57-61 | only node n changes, and its rating becomes -1 |
| RatingTrees.RatingTree.SetSuccessful | include/reconfiguration/rating_tree.hpp:63-73 | a childless node is rated 1 and so is every child of the node; nothing else changes |
| RatingTrees.RatingTree.ComputeRatings | include/reconfiguration/rating_tree.hpp:85-98 | the nodes become exactly the result of the reverse loop, `RunFrom`, whose meaning for forward trees the lemmas above give |
| RatingTrees.RatingTreeAgent.constructor | include/reconfiguration/rating_tree.hpp:110-111 | the agent records into the given tree |
| RatingTrees.RatingTreeAgent.CreateInitialNodeAttachment | include/reconfiguration/rating_tree.hpp:121-123 | the root of the search maps to tree node 0 |
| RatingTrees.RatingTreeAgent.CreateNextNodeAttachment | include/reconfiguration/rating_tree.hpp:125-133 | corrected: when taking the job is known to miss, the child maps to its parent's node and the tree is unchanged; otherwise it maps to the old node count, the parent gains a child edge to it labelled with the job, and a fresh node is appended |
| RatingTrees.RatingTreeAgent.MergeNodeAttachments | include/reconfiguration/rating_tree.hpp:135-145 | the parent's node gains one child edge to the destination's, labelled with the job and appended last; nothing else changes |
| RatingTrees.RatingTreeAgent.MissedDeadline | include/reconfiguration/rating_tree.hpp:147-152 | the tree is unchanged except that the failing node is rated -1 |
| RatingTrees.RatingTreeAgent.FinishedNode | include/reconfiguration/rating_tree.hpp:154-158 | the children are kept; every child of the finished node is rated 1, the node itself is rated 1 when it has no children, and every other rating is unchanged |
| RatingTrees.RatingTreeAgent.IsAllowed | include/reconfiguration/rating_tree.hpp:160-165 | corrected: a job is allowed iff taking it is not known to miss a deadline |
| RatingTrees.RatingTreeAgent.AllowMerge | include/reconfiguration/rating_tree.hpp:167-180 | corrected: a merge is allowed iff the destination is not rated -1 and taking the job from the parent is not known to miss |
| RatingTrees.Record | include/reconfiguration/rating_tree.hpp:125-180 | corrected: one call of the search into the agent changes the tree and the attachments exactly as `TreeStep` says, the hooks' updates behind the `is_allowed`/`allow_merge` answers |
| RatingTrees.TreeReplayGrows | include/reconfiguration/rating_tree.hpp:37-55 | corrected: a recording never loses a tree node or a search node's attachment |
| RatingTrees.Generate | include/reconfiguration/rating_tree.hpp:109-119 | corrected: the recorded tree is the replay `TreeReplay` of the pass from the root; the final tree is `compute_ratings` applied to it, and when its edges all lead forward, every node carries its `TreeRating` |
| GraphCutter.ComputeLargestChildRating | include/reconfiguration/graph_cutter.hpp:49-57 | at the first look at a node, the recorded value is the largest rating among its forward children (0 when it has none) |
| GraphCutter.AddCutJob | include/reconfiguration/graph_cutter.hpp:64-77 | a cut job joins the node's builder when one exists and otherwise starts a new one, so there is at most one builder per node and each builder gains exactly this job |
| GraphCutter.ExtendBuilder | include/reconfiguration/graph_cutter.hpp:65-71 | the loop over the builders keeps their nodes, appends the job to the builder of this node, if any, and to no other; it reports whether this node has a builder |
| GraphCutter.LookAtEdge | include/reconfiguration/graph_cutter.hpp:49-80 | one look at the top frame's next edge keeps the frames known and increasing, the builders sound and the invariant that ties them to the examined nodes, and lowers the loop's measure |
| GraphCutter.SearchedStart | include/reconfiguration/graph_cutter.hpp:20-33 | the invariant holds with no node visited, the root alone on the stack and no builders |
| GraphCutter.SearchedPop | include/reconfiguration/graph_cutter.hpp:43-47 | popping a frame that is rated 1, visited or out of edges, and marking its node visited, keeps the invariant |
| GraphCutter.SearchedAdvance | include/reconfiguration/graph_cutter.hpp:59-77 | moving past an edge the pass does not descend along keeps the invariant, the node's builder gaining that edge's job exactly when the edge is cut |
| GraphCutter.SearchedPush | include/reconfiguration/graph_cutter.hpp:59-80 | descending along the next edge keeps the invariant |
| GraphCutter.SearchedDone | include/reconfiguration/graph_cutter.hpp:35 | once the stack is empty, the builders hold exactly the cut jobs of the examined nodes |
| GraphCutter.StackCostSnoc | include/reconfiguration/graph_cutter.hpp:80 | pushing a frame adds exactly its cost to the stack's cost |
| GraphCutter.StackCostUnmarked | include/reconfiguration/graph_cutter.hpp:44 | marking a node visited does not change the cost of frames for other nodes |
| GraphCutter.PopDecreases | include/reconfiguration/graph_cutter.hpp:43-47 | popping a finished frame keeps the frame invariant and the unvisited nodes, and lowers the stack cost |
| GraphCutter.PopCost | include/reconfiguration/graph_cutter.hpp:43-47 | popping the top frame and marking its node visited lowers the stack cost |
| GraphCutter.PopUnvisited | include/reconfiguration/graph_cutter.hpp:43-47 | popping the top frame and marking its node visited keeps the set of nodes neither visited nor stacked |
| GraphCutter.AdvanceDecreases | include/reconfiguration/graph_cutter.hpp:49-60 | moving to the next edge keeps the frame invariant and lowers the stack cost by 2 |
| GraphCutter.PushKeepsFrames | include/reconfiguration/graph_cutter.hpp:80 | descending to a higher-index destination keeps the frames increasing and in range |
| GraphCutter.PushDecreases | include/reconfiguration/graph_cutter.hpp:80 | descending either takes an unvisited node off the unvisited set, or adds one to the cost of a visited one that is popped at once, so the loop terminates |
| GraphCutter.FindCutBuilders | include/reconfiguration/graph_cutter.hpp:15-81 | the depth-first pass ends; it gives up (the rating assertion) exactly when some node the pass examines (one not rated 1 that the root reaches by descents) is rated 0 or less; then there is at most one builder per node, and the builder of each node holds exactly the jobs of that node's cut edges, in edge order, when the pass examines the node (it is not rated 1 and the root reaches it by descents), and there is none otherwise |
| GraphCutter.FirstLowerEdge | include/reconfiguration/graph_cutter.hpp:91-97 | the position of the first edge to a lower index, or -1 exactly when there is none |
| GraphCutter.FindLowerEdge | include/reconfiguration/graph_cutter.hpp:91-97 | the inner loop of back-tracking finds that first lower edge |
| GraphCutter.Backtrack | include/reconfiguration/graph_cutter.hpp:86-98 | back-tracking from a node ends at the root, and `previous_jobs` holds exactly the jobs of the first lower edges on the way |
| GraphCutter.BuildCuts | include/reconfiguration/graph_cutter.hpp:83-100 | one cut per builder, in order: each has fresh previous jobs, the back-tracked path to the root from the builder's node, and forbids the builder's first job |
| GraphCutter.BuildersExact | include/reconfiguration/graph_cutter.hpp:15-81 | builders that hold exactly the cut jobs of the examined nodes belong to examined nodes with a cut edge, and every such node has one |
| GraphCutter.CutsFollowBuilders | include/reconfiguration/graph_cutter.hpp:83-100 | one cut per such builder comes from exactly the examined nodes with a cut edge, each forbidding its node's first cut job |
| GraphCutter.CutRatingGraph | include/reconfiguration/graph_cutter.hpp:15-103 | gives up exactly when some node the pass examines is rated 0 or less; then the cuts come from distinct nodes, exactly the examined nodes that have a cut edge; each cut forbids the job of its node's first cut edge, and its previous jobs are the back-tracked path to the root |
| CutCheck.CutVerdict | include/reconfiguration/cut_check.hpp:27-29 | the verdict is 1 iff a cut edge was taken, 2 iff not but an unexpected failure occurred, and 0 iff neither |
| CutCheck.CutCheckAgent.constructor | include/reconfiguration/cut_check.hpp:13-16 | a new agent checks the given cut, with leaf index 0 and both flags cleared |
| CutCheck.CutCheckAgent.Verdict | include/reconfiguration/cut_check.hpp:27-29 | the driver's return value is the verdict of the agent's two flags |
| CutCheck.CutCheckAgent.CreateInitialNodeAttachment | include/reconfiguration/cut_check.hpp:32-34 | the root attachment tracks sub-graph node 0 |
| CutCheck.CutCheckAgent.CreateNextNodeAttachment | include/reconfiguration/cut_check.hpp:36-66 | once a cut edge is taken the result is null; a child of -2 gets -4; at a leaf the job must be exactly one of allowed or forbidden, and the leaf must match the leaf seen before; an allowed job gives -2, a forbidden one sets the cut-edge flag; inside the sub-graph the child follows the successor, which must be positive; an assertion that fails gives None |
| CutCheck.CutCheckAgent.MissedDeadline | include/reconfiguration/cut_check.hpp:68-75 | ignored once a cut edge was taken and at -4; anywhere else it sets the unexpected-failure flag |
| CutCheck.CutCheckAgent.EncounteredDeadEnd | include/reconfiguration/cut_check.hpp:77-83 | ignored once a cut edge was taken; unexpected only at a sub-graph node (index >= 0) or at -2 |
| CutCheck.CutCheckAgent.IsAllowed | include/reconfiguration/cut_check.hpp:85-93 | false once a cut edge was taken and at -4; true at -2 or a leaf; inside the sub-graph, true iff the successor is positive |
| CutCheck.CutCheckAgent.Dispatch | include/reconfiguration/cut_check.hpp:32-93 | one call of the search, passed to the hook it names, changes the attachments and flags as one replayed step does, and fails exactly when that step does |
| CutCheck.WasCutPerformed | include/reconfiguration/cut_check.hpp:18-30 | the verdict is what the replayed search gives: 1 exactly when some step takes a cut edge, 2 exactly when no step does but some step is an unexpected failure, and 0 otherwise; None when an assertion of the source fails |
| CutCheck.CheckStepFlags | include/reconfiguration/cut_check.hpp:36-83 | one step sets each flag exactly when it was set or the step is its witness |
| CutCheck.CheckReplayFlags | include/reconfiguration/cut_check.hpp:18-30 | after a completed replay a cut edge was taken exactly when some step takes one, and an unexpected failure was seen exactly when some step is one |
| CutCheck.RootCutTaken | include/reconfiguration/cut_check.hpp:36-66 | on the root alone, with job 1 allowed and job 3 forbidden, expanding the root with job 3 takes the cut edge and reports no unexpected failure |
| CutTrial.TrialVerdict | include/reconfiguration/cut_trial.hpp:27-29 | the verdict is 1 iff an expected failure occurred, 2 iff not but an unexpected one did, and 0 iff neither |
| CutTrial.CutTrialAgent.constructor | include/reconfiguration/cut_trial.hpp:13-16 | a new agent checks the given cut, with leaf index 0 and both flags cleared |
| CutTrial.CutTrialAgent.Verdict | include/reconfiguration/cut_trial.hpp:27-29 | the driver's return value is the verdict of the agent's two flags |
| CutTrial.CutTrialAgent.CreateInitialNodeAttachment | include/reconfiguration/cut_trial.hpp:32-34 | the root attachment tracks sub-graph node 0 |
| CutTrial.CutTrialAgent.CreateNextNodeAttachment | include/reconfiguration/cut_trial.hpp:36-65 | a child of -4 fails the assertion; children of -2 and -3 get -4; at a leaf, which must match the leaf seen before, the job must be exactly one of allowed (giving -2) or forbidden (giving -3); inside the sub-graph the child follows the successor, which must be positive |
| CutTrial.CutTrialAgent.MissedDeadline | include/reconfiguration/cut_trial.hpp:67-74 | expected at -3, ignored at -4, unexpected everywhere else |
| CutTrial.CutTrialAgent.EncounteredDeadEnd | include/reconfiguration/cut_trial.hpp:76-82 | unexpected at index >= 0 or -2, expected at -3, ignored at -4 |
| CutTrial.CutTrialAgent.IsAllowed | include/reconfiguration/cut_trial.hpp:84-91 | false at -4; true at -2, -3 or a leaf; inside the sub-graph, true iff the successor is positive |
| CutTrial.CutTrialAgent.Dispatch | include/reconfiguration/cut_trial.hpp:32-91 | one call of the search, passed to the hook it names, changes the attachments and flags as one replayed step does, and fails exactly when that step does |
| CutTrial.WasCutFixed | include/reconfiguration/cut_trial.hpp:18-30 | the verdict is what the replayed search gives: 1 exactly when some step is an expected failure, 2 exactly when no step is but some step is an unexpected failure, and 0 otherwise; None when an assertion of the source fails |
| CutTrial.TrialStepFlags | include/reconfiguration/cut_trial.hpp:67-82 | one step sets each flag exactly when it was set or the step is its witness |
| CutTrial.TrialReplayFlags | include/reconfiguration/cut_trial.hpp:18-30 | after a completed replay an expected failure was seen exactly when some step is one, and likewise for an unexpected failure |
| CutTrial.ForbiddenMarkWitnessed | include/reconfiguration/cut_trial.hpp:48-58 | a node is marked as reached by a forbidden job only after the search expanded some node with a forbidden job |
| CutTrial.ExpectedFailureFollowsForbiddenJob | include/reconfiguration/cut_trial.hpp:67-82 | an expected failure is a failure reported after the search took a forbidden job |
| CutTest.FixedCutIndices | include/reconfiguration/cut_test.hpp:39-41 | `fixed_cut_indices` lists, in ascending order and without repetition, exactly the cuts that did not intervene |
| CutTest.CutTestAgent.constructor | include/reconfiguration/cut_test.hpp:26-29 | `did_intervene` starts with one `false` per remaining cut |
| CutTest.CutTestAgent.MayPotentiallyForbidJobs | include/reconfiguration/cut_test.hpp:82-84 | `may_potentially_forbid_jobs` is true |
| CutTest.CutTestAgent.CreateInitialNodeAttachment | include/reconfiguration/cut_test.hpp:45-50 | the root attachment holds node 0 for every cut |
| CutTest.CutTestAgent.CreateNextNodeAttachment | include/reconfiguration/cut_test.hpp:52-80 | a child holds one index per cut: -1 stays -1, a leaf becomes -1, and any other index becomes the `can_take_job` result, which may be -1 |
| CutTest.CutTestAgent.IsAllowed | include/reconfiguration/cut_test.hpp:86-106 | a job is refused iff some cut is at a leaf of its sub-graph and forbids it; only the first such cut gets `did_intervene` set, and an allowed job changes nothing |
| CutTest.Perform | include/reconfiguration/cut_test.hpp:22-43 | `has_unexpected_failures` is the negation of the search's verdict; `fixed_cut_indices` is ascending and repetition-free and holds exactly the cuts that are never the first to refuse a job while the search's calls are replayed (`TestReplay`, `IntervenesAt`) |
| CutTest.FirstBlocking | include/reconfiguration/cut_test.hpp:90-103 | the cut `is_allowed` stops at: -1 exactly when no cut from `from` on is at a leaf of its sub-graph and forbids the job, otherwise the first such cut |
| CutTest.NextAttachment | include/reconfiguration/cut_test.hpp:52-80 | a child keeps one index per cut: -1 stays -1, a leaf becomes -1, and any other index becomes the sub-graph's successor for the job |
| CutTest.TestStart | include/reconfiguration/cut_test.hpp:26-29 | a search starts with the root at node 0 of every cut and no cut marked as intervening |
| CutTest.TestReplayIntervened | include/reconfiguration/cut_test.hpp:86-106 | after a replayed search a cut is marked as intervening exactly when some call asks about a job that this cut is the first to refuse |
| CutTest.TestStepIntervened | include/reconfiguration/cut_test.hpp:86-106 | one replayed call marks a cut exactly when it was marked or the call asks about a job that this cut is the first to refuse |
| CutTest.IntervenesPrefix | include/reconfiguration/cut_test.hpp:86-106 | whether a cut intervenes at a call depends only on the calls before and at it |
| CutTest.TestReplayWitnesses | include/reconfiguration/cut_test.hpp:39-41 | every cut of a replayed search is marked exactly when some call of it makes that cut refuse first |
| CutTest.CutTestAgent.BlocksAgree | include/reconfiguration/cut_test.hpp:90-103 | the agent's test of a cut against a job agrees with the value-level one |
| CutTest.CutTestAgent.NextAgrees | include/reconfiguration/cut_test.hpp:52-80 | the child `create_next_node_attachment` builds is `NextAttachment` of its parent |
| CutTest.CutTestAgent.Ask | include/reconfiguration/cut_test.hpp:86-106 | asking the agent about a job changes `did_intervene` and gives the verdict as one replayed question (`TestAllowed`) does |
| CutTest.CutTestAgent.Dispatch | include/reconfiguration/cut_test.hpp:45-106 | one call of the search, passed to the hook it names, changes the attachments and `did_intervene` as one replayed step (`TestStep`) does |
| CutTest.CutTestAgent.Run | include/reconfiguration/cut_test.hpp:35 | a whole search leaves `did_intervene` as replaying its calls (`TestReplay`) gives it |
| CutExplore.Without | include/reconfiguration/cut_explore.hpp:41-43 | `erase(remove(...))` drops every occurrence of the job and keeps every other job, each as often as before |
| CutExplore.AllowMerge | include/reconfiguration/cut_explore.hpp:141-150 | a merge is allowed iff neither attachment has failed and both took the same job |
| CutExplore.CutExploreAgent.constructor | include/reconfiguration/cut_explore.hpp:19-24 | a new agent works on the given cut, with leaf index -1 and empty good and bad lists |
| CutExplore.CutExploreAgent.MayPotentiallyForbidJobs | include/reconfiguration/cut_explore.hpp:120-122 | `may_potentially_forbid_jobs` is true |
| CutExplore.CutExploreAgent.CreateInitialNodeAttachment | include/reconfiguration/cut_explore.hpp:13-71 | the root attachment is at sub-graph node 0, has taken no job and has not failed |
| CutExplore.CutExploreAgent.FailedNode | include/reconfiguration/cut_explore.hpp:34-45 | the attachment is marked failed; if its job is a good job, every occurrence of it leaves the good list and it is appended to the bad list; otherwise both lists are unchanged |
| CutExplore.CutExploreAgent.CreateNextNodeAttachment | include/reconfiguration/cut_explore.hpp:73-106 | a child of a CONTINUED node stays CONTINUED and inherits `has_failed` and, corrected, the job taken at the leaf; at the leaf (unfailed, no job taken, same leaf as before) the child is CONTINUED with the next job taken, and that job is appended to the good list; inside the sub-graph an unfailed parent's child follows the successor, which must be positive; a failed assertion gives None |
| CutExplore.CutExploreAgent.MissedDeadline | include/reconfiguration/cut_explore.hpp:108-110 | a deadline miss is a `failed_node` |
| CutExplore.CutExploreAgent.EncounteredDeadEnd | include/reconfiguration/cut_explore.hpp:112-118 | a dead end at a non-continued leaf changes nothing; any other dead end is a `failed_node` |
| CutExplore.CutExploreAgent.IsAllowed | include/reconfiguration/cut_explore.hpp:124-139 | false once failed; true when CONTINUED; at the leaf, true iff the job is neither forbidden nor extra forbidden; inside the sub-graph, true iff the successor is positive |
| CutExplore.CutExploreAgent.Explore | include/reconfiguration/cut_explore.hpp:59 | one search ends with the leaf index and the good and bad lists that replaying its calls gives (`ExploreReplay`), fails exactly when that replay fails, keeps the cut and keeps a leaf index once one is set |
| CutExplore.CutExploreAgent.Dispatch | include/reconfiguration/cut_explore.hpp:73-139 | one call of the search, passed to the hook it names, changes the attachments, leaf index and lists as one replayed step does, and fails exactly when that step does |
| CutExplore.ContinuedChildAsWritten | include/reconfiguration/cut_explore.hpp:83-86 | as written: a child below the leaf is CONTINUED and inherits `has_failed` but carries no job |
| CutExplore.ContinuedChild | include/reconfiguration/cut_explore.hpp:83-86 | corrected: a child below the leaf is CONTINUED and inherits both `has_failed` and the job taken at the leaf, as the assertion at line 84 expects |
| CutExplore.FailedKeepsJobs | include/reconfiguration/cut_explore.hpp:34-45 | a failure below the leaf leaves the job taken at the leaf bad and not good, and every node below the leaf keeps a job that is good or bad |
| CutExplore.ExpandedKeepsJobs | include/reconfiguration/cut_explore.hpp:73-106 | corrected: an expansion keeps every node below the leaf carrying a job that is good or bad |
| CutExplore.StepKeepsJobs | include/reconfiguration/cut_explore.hpp:73-118 | corrected: one replayed call keeps every node below the leaf carrying a job that is good or bad |
| CutExplore.ReplayKeepsJobs | include/reconfiguration/cut_explore.hpp:84 | corrected: with the corrected child, a replayed search keeps every node below the leaf carrying a job that is good or bad, so every parent below the leaf has the job the assertion at line 84 expects and a failure there finds the job taken at the leaf; as written the assertion's expectation fails two levels below the leaf (see Findings) |
| CutExplore.SearchKeepsJobs | include/reconfiguration/cut_explore.hpp:69-118 | corrected: a whole search from its root keeps every node below the leaf carrying a job that is good or bad |
| CutExplore.ContinuedChildAsWrittenKeepsGood | include/reconfiguration/cut_explore.hpp:83-86 | on a sub-graph that is a single leaf, with job 1 taken at the leaf, job 2 below it and a deadline miss there: as written job 1 stays good, corrected it turns bad |
| CutExplore.ExploreForbiddenJobs | include/reconfiguration/cut_explore.hpp:47-67 | the searches are replayed in turn as `ExploreRounds` says: at most one round per search; every round but the last found a bad job; when a cut results, the last round found none and the cut gains, in order, the good and bad jobs of every round before it |
| CutExplore.ExploreSearches | include/reconfiguration/cut_explore.hpp:57-66 | corrected: the loop with its agent follows `ExploreRounds` search by search |
| CutExplore.ExploreRoundsShape | include/reconfiguration/cut_explore.hpp:57-66 | the rounds of `ExploreRounds` are at most one per search; all but the last found a bad job, and a resulting cut is the original with the jobs of every round before the last |
| CutExplore.ExploreRoundsStep | include/reconfiguration/cut_explore.hpp:57-66 | one turn of the loop: a failed search ends it with nothing, one without bad jobs ends it with the cut, and one with bad jobs continues on the cut extended by that search's jobs |
| CutExplore.AllJobsCons | include/reconfiguration/cut_explore.hpp:62-63 | the jobs of a first round come before those of the rounds after it |
| Agents.PrefixOrEqualCases | include/reconfiguration/agent.hpp:58-66 | the non-strict prefix relation used by the early return is the strict one or equality |
| Agents.StrictPrefixIrreflexive | include/reconfiguration/agent.hpp:58-66 | no failed sequence is a strict prefix of itself |
| Agents.StrictPrefixTransitive | include/reconfiguration/agent.hpp:58-66 | a prefix of a strict prefix is a strict prefix |
| Agents.IsPrefixOf | include/reconfiguration/agent.hpp:58-66 | true exactly when the ids are strictly shorter and agree with the other sequence at every position |
| Agents.AddFailureAsWrittenKeepsExtension | include/reconfiguration/agent.hpp:95-105 | with the loop as written, recording [j1] after [j1,j2] and [j1,j3] keeps [j1,j3], which [j1] strictly prefixes, so the failures stop being an antichain |
| Agents.SwapPopMultiset | include/reconfiguration/agent.hpp:98-99 | overwriting a failure with the last one and popping removes exactly that failure from the multiset |
| Agents.HistoryInitialAttachment | include/reconfiguration/agent.hpp:71-75 | the root node has chosen no job |
| Agents.HistoryNextAttachment | include/reconfiguration/agent.hpp:77-87 | the child's ids are the parent's followed by the next job's id, a one-longer strict extension |
| Agents.FailureNextAttachment | include/reconfiguration/agent.hpp:126-137 | the child extends the parent's ids by the next job's id and inherits its missed-deadline flag |
| Agents.FailureAllowMerge | include/reconfiguration/agent.hpp:167-176 | two nodes merge exactly when both or neither missed a deadline |
| Agents.AgentFailureSearch.constructor | include/reconfiguration/agent.hpp:91-93 | no paths counted, no failures, and the first search is due |
| Agents.AgentFailureSearch.AddFailure | include/reconfiguration/agent.hpp:95-105 | corrected: every recorded failure that the new one does not strictly prefix is kept, nothing but the new one is added, and afterwards the new one or a prefix of it is recorded; starting from an antichain, the list stays one and keeps no failure that the new one strictly prefixes; the update flag is set when the list changed and otherwise keeps its value |
| Agents.AgentFailureSearch.CreateInitialNodeAttachment | include/reconfiguration/agent.hpp:117-124 | a new search resets the path count and the update flag, keeps the failures and starts from an empty sequence without a miss |
| Agents.AgentFailureSearch.MissedDeadline | include/reconfiguration/agent.hpp:139-150 | corrected: the first miss at a node records its ids followed by the late job's id, as `AddFailure` does; later misses at that node change nothing; the node is marked as missed |
| Agents.AgentFailureSearch.EncounteredDeadEnd | include/reconfiguration/agent.hpp:152-161 | corrected: the first failure at a dead end records the node's own ids, as `AddFailure` does; later ones change nothing |
| Agents.AgentFailureSearch.FinishedNode | include/reconfiguration/agent.hpp:163-165 | counts one more path without a deadline miss and leaves the failures alone |
| Agents.AgentFailureSearch.IsAllowed | include/reconfiguration/agent.hpp:178-192 | a job is refused exactly when taking it reproduces a recorded failure |
| Agents.AgentFailureSearch.Explore | include/reconfiguration/agent.hpp:107-192 | corrected: one search leaves the failures, `did_update_failures` and the path count that replaying its calls gives (`FailureReplay`), and the failures stay an antichain |
| Agents.AgentFailureSearch.Dispatch | include/reconfiguration/agent.hpp:117-192 | one call of the search, passed to the hook it names, changes the attachments and the agent as one replayed step (`FailureStep`) does |
| Agents.FailureStepAntichain | include/reconfiguration/agent.hpp:139-161 | corrected: one replayed call keeps the failures an antichain, and a first miss or dead end at a node records a prefix of its path or the path itself |
| Agents.FailureReplayAntichain | include/reconfiguration/agent.hpp:107-192 | corrected: a replayed search keeps the failures an antichain |
| Agents.FailuresFromAntichain | include/reconfiguration/agent.hpp:107-115 | corrected: the failures that repeating searches until none records anything new finds from an antichain form one |
| Agents.ScannedAfterRemoval | include/reconfiguration/agent.hpp:97-100 | removing a failure that the new one extends keeps the loop's bookkeeping of what was removed |
| Agents.ScannedAfterKeeping | include/reconfiguration/agent.hpp:96-101 | passing an unrelated failure keeps the loop's bookkeeping |
| Agents.EarlyReturnRecorded | include/reconfiguration/agent.hpp:101 | returning early because a prefix is already recorded leaves a correctly recorded list, changed exactly when something was removed |
| Agents.AppendRecorded | include/reconfiguration/agent.hpp:103-104 | appending after the scan records the failure and always changes the list |
| Agents.FindAllFailures | include/reconfiguration/agent.hpp:107-115 | corrected: the result is that of replaying the searches one after another from no failures until one records nothing new (`FailuresFrom`), none when the searches run out first, and the failures returned form an antichain |
| Agents.AppendAvoids | include/reconfiguration/agent.hpp:216 | recording a job other than a failure's last one as its alternative keeps every alternative different from that failure's last job |
| Agents.AgentFailureAlternativeSearch.constructor | include/reconfiguration/agent.hpp:200-202 | one empty list of alternatives per failure |
| Agents.AgentFailureAlternativeSearch.IsAllowed | include/reconfiguration/agent.hpp:204-222 | the first failure whose ids without the last equal the node's ids decides: its last job is refused, any other job is allowed and appended to its alternatives; with no such failure the job is allowed; an empty failure before the first match is undefined behaviour (None) |
| Agents.AgentFailureAlternativeSearch.Dispatch | include/reconfiguration/agent.hpp:204-222 | one call of the search replayed: the alternatives become those of one replayed step, which fails exactly in the undefined case; they only grow and never hold a failure's own last job |
| Agents.AgentFailureAlternativeSearch.Explore | include/reconfiguration/agent.hpp:195-222 | a search ends with the lists of alternatives that replaying its calls gives (`AlternativeReplay`) and fails exactly when that replay fails (the undefined case); the lists only grow and never hold a failure's own last job |
| FailureSearch.AddFailureAsWrittenKeepsExtension | include/reconfiguration/agent/failure_search.hpp:15-25 | with the loop as written, recording [{1}] after [{1},{2}] and [{1},{3}] keeps [{1},{3}], which [{1}] strictly prefixes step-wise |
| FailureSearch.ScannedAfterRemoval | include/reconfiguration/agent/failure_search.hpp:17-20 | removing a failure that the new one strictly prefixes step-wise keeps the loop's bookkeeping |
| FailureSearch.ScannedAfterKeeping | include/reconfiguration/agent/failure_search.hpp:16-21 | passing an unrelated failure keeps the loop's bookkeeping |
| FailureSearch.EarlyReturnRecorded | include/reconfiguration/agent/failure_search.hpp:21 | returning early because a recorded failure covers the new one leaves a correctly recorded list, changed exactly when something was removed |
| FailureSearch.AppendRecorded | include/reconfiguration/agent/failure_search.hpp:23-24 | appending after the scan records the failure and always changes the list |
| FailureSearch.AllowMerge | include/reconfiguration/agent/failure_search.hpp:95-104 | two nodes merge exactly when both or neither missed a deadline |
| FailureSearch.AgentFailureSearch.constructor | include/reconfiguration/agent/failure_search.hpp:11-13 | no paths counted, no failures, and the first search is due |
| FailureSearch.AgentFailureSearch.AddFailure | include/reconfiguration/agent/failure_search.hpp:15-25 | corrected: every recorded failure of which the new one is not a strict step-wise prefix is kept, nothing but the new one is added, and afterwards a failure step-wise contained in the new one is recorded; starting from an antichain, the list stays one and keeps no failure that the new one strictly prefixes; the update flag is set when the list changed and otherwise keeps its value |
| FailureSearch.AgentFailureSearch.CreateInitialNodeAttachment | include/reconfiguration/agent/failure_search.hpp:37-41 | a new search resets the path count and the update flag, keeps the failures and starts from a fresh empty sequence without a miss |
| FailureSearch.AgentFailureSearch.CreateNextNodeAttachment | include/reconfiguration/agent/failure_search.hpp:43-53 | a fresh sequence, the parent's followed by the next job's singleton step, with the parent's missed-deadline flag |
| FailureSearch.AgentFailureSearch.MergeNodeAttachments | include/reconfiguration/agent/failure_search.hpp:55-68 | succeeds exactly when the destination has one step more than the parent; then it keeps its number of steps, each step becomes its old set united with the parent's step at that position (the new job at the last), so it covers both its own and the parent's extended sequence, and the parent is unchanged; otherwise the assertion fails and nothing changes |
| FailureSearch.AgentFailureSearch.MissedDeadline | include/reconfiguration/agent/failure_search.hpp:70-78 | corrected: the first miss at a node records its sequence, as `AddFailure` does; later ones change nothing |
| FailureSearch.AgentFailureSearch.EncounteredDeadEnd | include/reconfiguration/agent/failure_search.hpp:80-89 | corrected: the first failure at a dead end records its sequence, as `AddFailure` does; later ones change nothing |
| FailureSearch.AgentFailureSearch.FinishedNode | include/reconfiguration/agent/failure_search.hpp:91-93 | counts one more path without a deadline miss and leaves the failures alone |
| FailureSearch.AgentFailureSearch.Explore | include/reconfiguration/agent/failure_search.hpp:37-104 | corrected: one search fails exactly when replaying its calls does (`FailureReplay`), which needs a merge; otherwise the failures, `did_update_failures` and the path count become those of the replay; the failures stay an antichain |
| FailureSearch.AgentFailureSearch.Step | include/reconfiguration/agent/failure_search.hpp:43-93 | corrected: one hook call changes the sequences' steps, the miss flags and the agent as one replayed step (`FailureStep`) does, fails exactly when that step does, and only at a merge; new nodes get fresh sequences and the others keep theirs |
| FailureSearch.AgentFailureSearch.Expand | include/reconfiguration/agent/failure_search.hpp:43-53 | an expansion appends a fresh sequence as one replayed step does |
| FailureSearch.AgentFailureSearch.Merge | include/reconfiguration/agent/failure_search.hpp:55-68 | a merge unites the steps or expands as one replayed step does, and fails exactly when that step does |
| FailureSearch.FailureStepAntichain | include/reconfiguration/agent/failure_search.hpp:70-89 | corrected: one replayed call keeps the failures an antichain, fails only at a merge, and a first miss or dead end at a node records a failure step-wise contained in its steps |
| FailureSearch.FailureReplayAntichain | include/reconfiguration/agent/failure_search.hpp:37-104 | corrected: a replayed search keeps the failures an antichain |
| FailureSearch.FailureReplayFailsAtMerge | include/reconfiguration/agent/failure_search.hpp:55-68 | a replayed search fails only if one of its calls is a merge |
| FailureSearch.FailuresFromAntichain | include/reconfiguration/agent/failure_search.hpp:27-35 | corrected: the failures that repeating searches finds from an antichain form one |
| FailureSearch.AgentFailureSearch.FailureAt | include/reconfiguration/agent/failure_search.hpp:70-89 | corrected: the node is marked as missed; the first failure at it records its steps as `add_failure` does, a later one changes nothing; the path count stays and the failures stay an antichain |
| FailureSearch.FindAllFailures | include/reconfiguration/agent/failure_search.hpp:27-35 | corrected: the result is that of replaying the searches one after another from no failures until one records nothing new (`FailuresFrom`), none when the searches run out first or one fails, and the failures returned form an antichain |
| FailureSearch.AgentFailureAlternativeSearch.constructor | include/reconfiguration/agent/failure_search.hpp:130-132 | one empty list of alternatives per failure |
| FailureSearch.AgentFailureAlternativeSearch.IsAllowed | include/reconfiguration/agent/failure_search.hpp:134-154 | every job is allowed |
| JobSequenceHistory.CoversExtension | include/reconfiguration/agent/job_sequence_history.hpp:14-38 | a path through a node's steps followed by the next job runs through the child's steps, and a path survives the destination's growth at a merge |
| JobSequenceHistory.CreateInitialNodeAttachment | include/reconfiguration/agent/job_sequence_history.hpp:10-12 | the root carries a fresh, empty, well-formed sequence |
| JobSequenceHistory.CreateNextNodeAttachment | include/reconfiguration/agent/job_sequence_history.hpp:14-23 | the child carries a fresh copy of the parent's steps followed by the next job's singleton step, a strict step-wise extension |
| JobSequenceHistory.MergeNodeAttachments | include/reconfiguration/agent/job_sequence_history.hpp:25-38 | when the destination is one step longer than the parent, each step of the destination becomes its union with the matching step of the parent's extended sequence; otherwise the assertion fails and nothing changes |
| JobSequenceHistory.Explore | include/reconfiguration/agent/job_sequence_history.hpp:8-39 | after a search without a failing merge, every path of job indices that reaches a node runs through that node's steps |
| JobSequenceHistory.AppendSequence | include/reconfiguration/agent/job_sequence_history.hpp:14-23 | a new node's sequence joins the list as a separate object extending its parent's |
| JobSequenceHistory.ExpandStep | include/reconfiguration/agent/job_sequence_history.hpp:14-23 | after an expansion every node's paths still run through its steps, the child's being the parent's followed by the job |
| JobSequenceHistory.MergeInto | include/reconfiguration/agent/job_sequence_history.hpp:25-38 | a merge changes only the destination's steps, which then cover both its old steps and the parent's extended ones |
| JobSequenceHistory.MergeStep | include/reconfiguration/agent/job_sequence_history.hpp:25-38 | after a successful merge the destination's steps cover its own paths and the parent's paths followed by the job |
| FailureJobSet.Readable | include/reconfiguration/agent/failure_job_set.hpp:22-23 | the indices the loop reads are exactly the members below 64 times the word count |
| FailureJobSet.CollectedWasScheduled | include/reconfiguration/agent/failure_job_set.hpp:21-25 | every index collected was scheduled at a node that missed a deadline |
| FailureJobSet.NothingWithoutMisses | include/reconfiguration/agent/failure_job_set.hpp:21-25 | a search without deadline misses collects nothing |
| FailureJobSet.AgentFailureJobSetSearch.constructor | include/reconfiguration/agent/failure_job_set.hpp:14-15 | the agent writes into the caller's collection |
| FailureJobSet.AgentFailureJobSetSearch.AddIfScheduled | include/reconfiguration/agent/failure_job_set.hpp:23 | one index is added exactly when the node's scheduled set holds it |
| FailureJobSet.AgentFailureJobSetSearch.MissedDeadline | include/reconfiguration/agent/failure_job_set.hpp:21-25 | the collection gains exactly the readable indices of the failing node's scheduled set |
| FailureJobSet.FindAllJobsOnPathsToDeadlineMisses | include/reconfiguration/agent/failure_job_set.hpp:9-19 | the destination gains exactly the indices scheduled at the nodes that missed deadlines, and the search's verdict is returned |
| Attempts.KeptMembers | include/reconfiguration/attempt.hpp:56-64 | a constraint survives `undo` exactly when it was present and does not run from `before` to a job of `after` |
| Attempts.KeptConcat | include/reconfiguration/attempt.hpp:56-64 | `undo` filters each part of the constraint list on its own |
| Attempts.KeptUntargeted | include/reconfiguration/attempt.hpp:56-64 | a list without the attempt's constraints is kept whole |
| Attempts.KeptAdded | include/reconfiguration/attempt.hpp:48-64 | `undo` erases every constraint `attempt` appended |
| Attempts.UndoAfterAttempt | include/reconfiguration/attempt.hpp:48-64 | undoing after attempting gives the same problem as undoing alone |
| Attempts.AttemptUndoRoundTrip | include/reconfiguration/attempt.hpp:48-64 | when the problem had none of the attempt's constraints, `undo` after `attempt` restores it exactly |
| Attempts.UndoIdempotent | include/reconfiguration/attempt.hpp:56-64 | a second `undo` changes nothing |
| Attempts.Attempt | include/reconfiguration/attempt.hpp:48-54 | the problem's constraints become the old ones followed by one zero-suspension constraint from `before` to each job of `after`, in order; the jobs are unchanged |
| Attempts.IsErased | include/reconfiguration/attempt.hpp:57-63 | a constraint is erased exactly when it runs from `before`'s id to the id of some job of `after` |
| Attempts.Undo | include/reconfiguration/attempt.hpp:56-66 | the problem loses exactly the erased constraints and keeps the others in their order |
| Attempts.SolutionsRecordAttempt | include/reconfiguration/attempt.hpp:40-54 | the solutions proposed are the constraints the attempt tried, one for one, with the default suspension |
| Attempts.AddSolutions | include/reconfiguration/attempt.hpp:40-46 | the old solutions followed by one precedence solution from `before`'s id to each job of `after`, in order |
| AttemptGenerator.GeneratePrecedenceAttempts | include/reconfiguration/attempt_generator.hpp:9-19 | the asserts fail (None) exactly when the cut has no allowed or no forbidden job |
| AttemptGenerator.GeneratedAttempts | include/reconfiguration/attempt_generator.hpp:13-18 | one attempt per allowed job, in order, each putting that job before all forbidden jobs, whatever the cut's extra jobs |
| AttemptGenerator.GeneratedIndexes | include/reconfiguration/attempt_generator.hpp:14-16 | when the cut names jobs of the problem, every generated attempt does |
| Solutions.Apply | include/reconfiguration/solution.hpp:11-57 | a precedence solution appends its constraint behind the existing ones; the base `apply` fails its assertion and changes nothing |
| GraphStrategy.SameCut | include/reconfiguration/graph_strategy.hpp:33 | two cuts equal up to the extra jobs that exploring adds |
| GraphStrategy.CompareCutBackward | include/reconfiguration/graph_strategy.hpp:15-17 | true exactly when the first cut's prefix is longer than the second's |
| GraphStrategy.MeasureCuts | include/reconfiguration/graph_strategy.hpp:15-17 | each cut's prefix length as the sub-graph walk measures it |
| GraphStrategy.Cuts | include/reconfiguration/graph_strategy.hpp:25 | the cuts of a list of measured cuts, position by position |
| GraphStrategy.InsertBackward | include/reconfiguration/graph_strategy.hpp:25 | one insertion step of the sort lengthens the list by one |
| GraphStrategy.InsertedEntries | include/reconfiguration/graph_strategy.hpp:25 | an insertion adds exactly the new entry |
| GraphStrategy.InsertedOrder | include/reconfiguration/graph_strategy.hpp:25 | an insertion keeps the list ordered longest first |
| GraphStrategy.InsertedCuts | include/reconfiguration/graph_strategy.hpp:25 | an insertion adds exactly the new entry's cut |
| GraphStrategy.SortBackward | include/reconfiguration/graph_strategy.hpp:25 | sorting keeps the length of the list |
| GraphStrategy.SortedOrder | include/reconfiguration/graph_strategy.hpp:25 | the sorted list is ordered longest prefix first |
| GraphStrategy.SortedEntries | include/reconfiguration/graph_strategy.hpp:25 | sorting is a permutation of the entries |
| GraphStrategy.SortedCuts | include/reconfiguration/graph_strategy.hpp:25 | sorting is a permutation of the cuts |
| GraphStrategy.SortedHonest | include/reconfiguration/graph_strategy.hpp:25 | after sorting every entry's length is still its cut's prefix length |
| GraphStrategy.SortCutsBackward | include/reconfiguration/graph_strategy.hpp:25 | the sorted cuts are a permutation of the input, ordered by nonincreasing prefix length |
| GraphStrategy.Rejected | include/reconfiguration/graph_strategy.hpp:39-50 | trying and undoing attempts never changes the jobs |
| GraphStrategy.RejectedRestores | include/reconfiguration/graph_strategy.hpp:39-50 | attempts tried and undone leave a problem unchanged when it had none of their constraints |
| GraphStrategy.FailedExtend | include/reconfiguration/graph_strategy.hpp:39-50 | one more rejected verdict keeps the record of earlier rejections |
| GraphStrategy.TryAttempts | include/reconfiguration/graph_strategy.hpp:39-50 | either the first attempt that keeps the cut and passes the cut test is accepted, on the problem with all earlier attempts undone, or every attempt was rejected and undone; every attempt before the accepted one failed |
| GraphStrategy.TryAttempt | include/reconfiguration/graph_strategy.hpp:40-49 | an attempt is kept only when the cut check says the cut is no longer performed and the test finds no unexpected failures; otherwise it is undone |
| GraphStrategy.NextAttempt | include/reconfiguration/graph_strategy.hpp:39-50 | one turn of the attempt loop keeps its record: with none accepted yet, the attempts tried are undone and all failed; with one accepted, it is the last tried, every earlier one failed, and it passes and is in force |
| GraphStrategy.RecordExtend | include/reconfiguration/graph_strategy.hpp:38-56 | one more record adds its proposed solutions behind the log's, makes its problem afterwards the current one, keeps the log chained when it starts from the current problem, and keeps the log settled or makes it a give-up as the record is settled or gave up |
| GraphStrategy.ProcessCut | include/reconfiguration/graph_strategy.hpp:30-56 | the record holds the problem before, the cut as taken and as explored (equal to it up to the extra jobs), its sub-graph, check verdict, attempts and accepted attempt; a cut that continues is settled: the explored cut is what `explore_forbidden_jobs` gives and the verdict what the check gives, and either the verdict is 0 and nothing changes or the first generated attempt that passes is in force with every earlier one failed; it contributes exactly that attempt's solutions; a give-up is a performed cut none of whose attempts passes, all of them undone |
| GraphStrategy.FollowsExtend | include/reconfiguration/graph_strategy.hpp:29-31 | a record about the next cut from the back keeps the log in step with the sorted cuts |
| GraphStrategy.ProcessCuts | include/reconfiguration/graph_strategy.hpp:27-59 | the i-th record is about the i-th cut from the back, taken on the problem the record before left; either every cut was settled and the result is the solutions proposed, in processing order, or the strategy gave up at the last recorded cut, after settling every earlier one, and returns nothing |
| GraphStrategy.NextCut | include/reconfiguration/graph_strategy.hpp:29-57 | corrected: one turn of the main loop takes the last remaining cut and appends its record, keeping the log in step with the sorted cuts, chained, and settled with the solutions proposed so far, or making it a give-up |
| GraphStrategy.ApplyGraphStrategy | include/reconfiguration/graph_strategy.hpp:19-60 | the cuts are sorted (a permutation) and processed shortest prefix first, each on the problem the one before left; either every cut was settled and the solutions are those proposed, in order, or the result is empty after a cut none of whose attempts passes |
| GraphStrategy.OrderedLog | include/reconfiguration/graph_strategy.hpp:25-31 | taking cuts from the back of a list sorted longest first visits them by nondecreasing prefix length |
| Precedence.FirstDecisive | include/reconfiguration/precedence.hpp:17-32 | the index of the first search that ends the loop (schedulable, or an instant failure), with no earlier one doing so; none when no search does |
| Precedence.FirstDecisiveAt | include/reconfiguration/precedence.hpp:17-32 | a loop that has seen no decisive search before position i stops at i exactly when that search is decisive |
| Precedence.SolutionsMatchPushed | include/reconfiguration/precedence.hpp:60-66 | each solution proposes exactly the constraint kept for its edge, apart from the suspension interval |
| Precedence.SchedulableAfterExtend | include/reconfiguration/precedence.hpp:62-67 | accepting one more alternative whose search succeeded keeps the fact that every accepted alternative made the problem schedulable |
| Precedence.PushedExtend | include/reconfiguration/precedence.hpp:60-67 | one more accepted alternative appends its constraint and its solution behind the others |
| Precedence.PrecedenceReconfigurator.constructor | include/reconfiguration/precedence.hpp:36-40 | the working problem is a fresh copy of the caller's and the failures become the forbidden edges |
| Precedence.PrecedenceReconfigurator.FindAllProblematicEdges | include/reconfiguration/precedence.hpp:13-33 | at the first decisive search, a schedulable verdict replaces the forbidden edges by the agent's failures and an instant failure keeps them (hopeless); with no decisive search the loop does not end (OutOfRounds) |
| Precedence.PrecedenceReconfigurator.TryAlternatives | include/reconfiguration/precedence.hpp:59-70 | either the first alternative whose constraint makes the problem schedulable is kept, every earlier one having failed, or every alternative failed and the constraints are as before |
| Precedence.PrecedenceReconfigurator.SolveEdge | include/reconfiguration/precedence.hpp:56-73 | for one edge, among the alternatives the agent had recorded for it when its turn came, either the first whose constraint makes the problem schedulable is accepted, every earlier one having failed, and its constraint and solution are appended; or every one failed (`NoSolution`) and nothing changes |
| Precedence.PrecedenceReconfigurator.SolveEdges | include/reconfiguration/precedence.hpp:56-73 | the outer loop: each edge in turn accepted the first of its recorded alternatives that makes the problem schedulable, every earlier one having failed, and the solutions follow edge order; or the first edge whose alternatives all failed stops it |
| Precedence.PrecedenceReconfigurator.FindLocalMinimalSolution | include/reconfiguration/precedence.hpp:42-75 | none when no search is decisive; otherwise the forbidden edges become the failures of the first decisive search when it was schedulable and are kept after an instant failure; then either every edge in turn accepted the first of its recorded alternatives that makes the problem schedulable, every earlier one having failed, and the solutions are those, in edge order, or the first edge whose alternatives all failed ends the search with an empty result; each edge's alternatives include those the first search recorded for it |
| Pessimistic.Tight | include/reconfiguration/pessimistic.hpp:19-20 | a pessimistic job keeps its id, index and deadline |
| Pessimistic.TightIdempotent | include/reconfiguration/pessimistic.hpp:19-20 | making a job pessimistic twice is making it pessimistic once |
| Pessimistic.FailureIdsMembers | include/reconfiguration/pessimistic.hpp:14-16 | an id becomes critical exactly when some failure contains it |
| Pessimistic.TightenedBetween | include/reconfiguration/pessimistic.hpp:17-22 | tightening keeps the ids, and each job is its original or, for a critical id, the original made pessimistic |
| Pessimistic.TightenedFromBetween | include/reconfiguration/pessimistic.hpp:17-22 | tightening jobs that are partly pessimistic by a larger critical set gives the same jobs as tightening the originals |
| Pessimistic.RevertAsWritten | include/reconfiguration/pessimistic.hpp:61-69 | one turn of the minimisation loop keeps the number of jobs |
| Pessimistic.MinimiseAsWritten | include/reconfiguration/pessimistic.hpp:60-70 | the minimisation loop keeps the number of jobs |
| Pessimistic.RevertKeeps | include/reconfiguration/pessimistic.hpp:61-69 | one turn keeps every job between its original and its pessimistic form, every truly critical id witnessed by a pessimistic job, and only grows the critical set |
| Pessimistic.RevertedKeeps | include/reconfiguration/pessimistic.hpp:64 | a reverted job whose search succeeded stays reverted, keeping the loop's invariant |
| Pessimistic.RestoredKeeps | include/reconfiguration/pessimistic.hpp:65-68 | after a failed search the job is restored and marked truly critical, keeping the loop's invariant |
| Pessimistic.RestoredJobs | include/reconfiguration/pessimistic.hpp:65-68 | after a failed search the working copy is the originals tightened by the new critical set |
| Pessimistic.MinimiseKeeps | include/reconfiguration/pessimistic.hpp:60-70 | the whole loop keeps the invariant and only grows the critical set |
| Pessimistic.RevertIntended | include/reconfiguration/pessimistic.hpp:63-69 | the corrected turn keeps the number of jobs |
| Pessimistic.MinimiseIntended | include/reconfiguration/pessimistic.hpp:60-70 | the corrected loop keeps the number of jobs |
| Pessimistic.MinimiseIntendedSchedulable | include/reconfiguration/pessimistic.hpp:60-70 | the corrected loop, started on a schedulable working copy, ends schedulable with every job its adapted or its original form |
| Pessimistic.MinimiseAsWrittenRetightens | include/reconfiguration/pessimistic.hpp:13-68 | with two critical jobs of which only the second must stay pessimistic, the loop as written makes the first pessimistic again; the corrected loop ends with the first reverted and the problem schedulable |
| Pessimistic.PessimisticReconfigurator.constructor | include/reconfiguration/pessimistic.hpp:45-51 | the working copy is the caller's problem with exactly the jobs of the given failures made pessimistic |
| Pessimistic.PessimisticReconfigurator.InsertIds | include/reconfiguration/pessimistic.hpp:15 | the critical set gains exactly the ids of one failure |
| Pessimistic.PessimisticReconfigurator.UpdateCriticalJobs | include/reconfiguration/pessimistic.hpp:13-23 | the critical set gains every id of every failure and every job with a critical id is made pessimistic; the constraints are untouched |
| Pessimistic.PessimisticReconfigurator.AttemptAdaptedProblem | include/reconfiguration/pessimistic.hpp:25-34 | true exactly when the working copy is schedulable, and then nothing changes; otherwise the failures' ids become critical and their jobs pessimistic |
| Pessimistic.PessimisticReconfigurator.AdaptUntilSchedulable | include/reconfiguration/pessimistic.hpp:36-42 | true exactly when the working copy ends schedulable; false only when a failed search adds no new critical id |
| Pessimistic.PessimisticReconfigurator.FindLocalMinimalSolution | include/reconfiguration/pessimistic.hpp:53-77 | none when adapting fails (the working copy is then unschedulable and every reported id is critical); otherwise the critical set stays, the state is what the corrected minimisation loop yields from the schedulable adapted problem, the working copy ends schedulable, every job is its adapted or its original version, and the truly critical ids are returned |
| Pessimistic.PessimisticReconfigurator.RevertJob | include/reconfiguration/pessimistic.hpp:61-69 | one turn of the corrected loop on the object: a critical job is reverted and put back exactly when the search refuses the revert, which marks it truly critical |
| Pessimistic.PessimisticReconfigurator.Minimise | include/reconfiguration/pessimistic.hpp:60-70 | corrected: the minimisation loop over every job leaves the jobs and the truly critical ids the corrected loop yields from the adapted problem, and keeps the constraints |
| Pessimistic.SubsetSize | include/reconfiguration/pessimistic.hpp:38-40 | a subset of the critical ids is no larger than its superset |
| Pessimistic.SubsetOfSameSize | include/reconfiguration/pessimistic.hpp:40 | an unchanged count of critical ids means an unchanged set |
| Pessimistic.Narrowed | include/reconfiguration/pessimistic.hpp:36-42 | growing the critical set within the ids the searches can report leaves fewer to add, so the loop ends |
| Pessimistic.Tightened | include/reconfiguration/pessimistic.hpp:17-22 | tightening keeps the number of jobs |
| Pessimistic.WitnessedExtend | include/reconfiguration/pessimistic.hpp:63-68 | a turn that keeps earlier pessimistic jobs keeps every truly critical id witnessed |

## Left out

- The search engine (`Global::State_space::explore`, `Schedule_node`): its code is not part of this model. Every search is a list of hook calls supplied by the caller, and its verdict is a further input. Nothing proves that a list corresponds to a real search.
- `while (true)` loops that repeat searches (`find_all_failures`, `explore_forbidden_jobs`, `find_all_problematic_edges`): they take a finite list of searches. They return `None` or `OutOfRounds` when the list runs out before the loop would stop, so their termination is not modelled.
- `Agent_exhaustive_failure_search` (used by `precedence.hpp`) is not part of this model. Each of its searches is given by its outcome: the verdict, `instant_failure` and the failures it holds afterwards.
- Console output (`std::cout`, every `print()`, "Nothing worked", the critical-job listing) is left out. The truly critical ids that `find_local_minimal_solution` prints are returned instead.
- Heap ownership (`new`/`delete`, `unique_ptr`/`shared_ptr`) and `dynamic_cast` are left out. Attachments are typed datatypes. A `dynamic_cast` that can only fail if the search mixes agents is not modelled.
- Source asserts: a failed `assert` becomes a `None` or `false` result instead of aborting. Undefined behaviour is treated the same way, for example `chosen_job_ids.size() - 1` on an empty forbidden edge in `precedence.hpp` and `agent.hpp`.
- Ratings are `real`, not `float`, so rounding in the averages and at the 0.4 threshold is not modelled.
- `validate_prec_cstrnts` is a check of the analysis library and is not part of this model; attempts append and erase constraints without it.
- `Job::assume_pessimistic_arrival` and `assume_pessimistic_running_time` are modelled as collapsing the arrival window and the running-time window to their upper bounds (`problem.dfy`).
- `Index_set` is modelled as a set of indices plus its word count (`get_vector_size`); its bit operations are not modelled.
- `sizeof(Job_index)` is taken to be 8, as for a 64-bit `size_t`.
- Compile-level inconsistencies are left out, and each header is modelled on its own terms:
  - the two `Rating_graph_cut` types (graph_cutter.hpp vs rating_graph_cut.hpp);
  - the two `Agent_cut_check` classes behind one include guard;
  - the non-copyable `Job_sequence` returned by value;
  - the `failures` member that pessimistic.hpp:32 reads from `Agent_job_sequence_history`, which declares none (the model reads them from the analysis);
  - the undeclared `node_index` in the assert at rating_tree.hpp:76-77.
- `get_job_id()` (an `unsigned long`) and `JobID` are both modelled as `JobId`, so the critical set and the chosen ids share one key type.
- `std::sort` with `compare_cut_backward` is modelled as an insertion sort on (cut, length) pairs. Any order it yields between cuts of equal length is accepted; `std::sort`'s own choice among those is not modelled.
- `apply_graph_strategy` receives the cuts of its rating graph as an input. `Agent_rating_graph::generate` and `cut_rating_graph` are modelled separately (`RatingGraphs.Generate`, `GraphCutter.CutRatingGraph`).
- The iteration over `agent.alternatives[index]` in `precedence.hpp` walks the list as it was when the loop began. Later searches may append to that vector during the loop, which could invalidate the C++ iterator, and this is not modelled.
- The first alternative search in `find_local_minimal_solution` (precedence.hpp:45-47) is replayed only for the alternatives it records; its verdict is unused, as in the source.
- verifier.hpp, manager.hpp and job_graph.hpp are not part of this model; the `early_exit` and `use_supernodes` options are not modelled beyond their effect on the list of calls a search makes.
- The base `Attempt` and `Solution` methods that only `assert(false)` are left out. `Solutions.Apply` returns `false` for a solution kind that has no `apply` of its own.
- SubGraphs.SubGraph.Length: requires that every first edge points to a higher node. Without this, the walk of sub_graph.hpp:35-45 may not terminate. `add_edge_to_new_node` keeps this property, and `reversed` keeps it on graphs whose edges all lead forward: `SubGraphs.SubGraph.Reversed` keeps such graphs forward, and in a forward graph every first edge leads forward. On other graphs reversal can break it.
- Pessimistic.PessimisticReconfigurator.AdaptUntilSchedulable: requires that a search reports only ids of the problem's own jobs (`Sound`). The loop of pessimistic.hpp:36-42 ends only because of this.
- Pessimistic.PessimisticReconfigurator.RevertJob: follows the corrected minimisation turn. A refused revert does not make the other critical jobs pessimistic again; the turn as written is `Pessimistic.RevertAsWritten` (see Findings).
- JobSequences.CopyOf: requires a non-empty collection. `extended_copy` copies only the steps of a well-formed sequence, and those are never empty.
- RatingTrees.RatingTree.WillMissDeadline: models the evidently intended edge test, which compares the job labelling an edge with the job index, and not the comparison with `child_index` at rating_tree.hpp:80; the test as written is `RatingTrees.WillMissAsWrittenDisagrees` (see Findings).
- RatingTrees.RatingTree.AddNode: uses the corrected `will_miss_deadline`, so its contract is that of the corrected code.
- RatingTrees.RatingTreeAgent.CreateNextNodeAttachment: uses the corrected `will_miss_deadline`.
- RatingTrees.RatingTreeAgent.IsAllowed: uses the corrected `will_miss_deadline`.
- RatingTrees.RatingTreeAgent.AllowMerge: uses the corrected `will_miss_deadline`.
- RatingTrees.Generate: its search records through the corrected `will_miss_deadline`.
- RatingTrees.Record: asks the corrected `will_miss_deadline`.
- RatingTrees.TreeReplayGrows: is about the replay through the corrected `will_miss_deadline`.
- Agents.AgentFailureSearch.AddFailure: models the corrected loop, which examines the failure swapped into a removed one's place; the loop as written is `Agents.AddFailureAsWrittenKeepsExtension` (see Findings).
- Agents.AgentFailureSearch.MissedDeadline: records through the corrected `add_failure`.
- Agents.AgentFailureSearch.EncounteredDeadEnd: records through the corrected `add_failure`.
- Agents.AgentFailureSearch.Explore: records through the corrected `add_failure`.
- Agents.FindAllFailures: records through the corrected `add_failure`.
- FailureSearch.AgentFailureSearch.AddFailure: models the corrected loop, as for agent.hpp; the loop as written is `FailureSearch.AddFailureAsWrittenKeepsExtension` (see Findings).
- FailureSearch.AgentFailureSearch.MissedDeadline: records through the corrected `add_failure`.
- FailureSearch.AgentFailureSearch.EncounteredDeadEnd: records through the corrected `add_failure`.
- FailureSearch.AgentFailureSearch.FailureAt: records through the corrected `add_failure`.
- FailureSearch.AgentFailureSearch.Step: records through the corrected `add_failure`.
- FailureSearch.AgentFailureSearch.Explore: records through the corrected `add_failure`.
- FailureSearch.FindAllFailures: records through the corrected `add_failure`.
- Precedence.PrecedenceReconfigurator.FindLocalMinimalSolution: the alternatives tried for an edge are those the agent holds when the edge's turn comes; the model states that they include those of the first search, but not which ones the later searches add.
- Agents.AgentFailureSearch.Dispatch: records through the corrected `add_failure`.
- FailureSearch.AgentFailureSearch.Expand: part of the corrected search, whose failures are recorded through the corrected `add_failure`.
- FailureSearch.AgentFailureSearch.Merge: part of the corrected search, whose failures are recorded through the corrected `add_failure`.
- CutExplore.CutExploreAgent.CreateNextNodeAttachment: a child below the leaf inherits the job taken at the leaf (`ContinuedChild`), which cut_explore.hpp:83-86 does not copy; the child as written is `CutExplore.ContinuedChildAsWritten` (see Findings).
- CutExplore.CutExploreAgent.FailedNode: works on the corrected attachments below the leaf. `Job_index` is unsigned, so the assertion `taken_job >= 0` at cut_explore.hpp:37 always holds; the model reads the -1 of "no job" as no job and then changes neither list.
- CutExplore.CutExploreAgent.MissedDeadline: works on the corrected attachments below the leaf.
- CutExplore.CutExploreAgent.EncounteredDeadEnd: works on the corrected attachments below the leaf.
- CutExplore.CutExploreAgent.Dispatch: builds children below the leaf with the corrected `ContinuedChild`.
- CutExplore.CutExploreAgent.Explore: builds children below the leaf with the corrected `ContinuedChild`, so a failure anywhere below the leaf turns the job taken there bad.
- CutExplore.ExploreForbiddenJobs: its searches build children below the leaf with the corrected `ContinuedChild`.
- CutExplore.ExploreSearches: its searches build children below the leaf with the corrected `ContinuedChild`.
- CutExplore.ExpandedKeepsJobs: is about the corrected `ContinuedChild`; a child as written (`CutExplore.ContinuedChildAsWritten`, see Findings) carries no job two levels below the leaf.
- CutExplore.StepKeepsJobs: is about the corrected `ContinuedChild`; as written a node two levels below the leaf carries no job (see Findings).
- CutExplore.ReplayKeepsJobs: is about the corrected `ContinuedChild`; as written the parent two levels below the leaf has no job, so the assertion at cut_explore.hpp:84 is not shown to hold for the code as written (see Findings).
- CutExplore.SearchKeepsJobs: is about the corrected `ContinuedChild`; as written a failure two levels below the leaf does not reach the job taken at the leaf (`CutExplore.ContinuedChildAsWrittenKeepsGood`).
- GraphStrategy.ProcessCut: explores the cut with the corrected `ContinuedChild`.
- GraphStrategy.ProcessCuts: explores each cut with the corrected `ContinuedChild`.
- GraphStrategy.ApplyGraphStrategy: explores each cut with the corrected `ContinuedChild`.
- GraphStrategy.NextCut: its solutions come from cuts explored with the corrected `ContinuedChild`.
- Pessimistic.PessimisticReconfigurator.Minimise: follows the corrected minimisation loop; the loop as written is `Pessimistic.MinimiseAsWritten` (see Findings).
- Pessimistic.PessimisticReconfigurator.FindLocalMinimalSolution: minimises with the corrected loop, so its result is that of the corrected code.

## Findings

| source | as written | input that shows it | evidently intended | confidence | as-written member | corrected member |
|---|---|---|---|---|---|---|
| include/reconfiguration/rating_tree.hpp:80 | `will_miss_deadline` compares an edge's `child_index` with the job index | nodes [node with edge (child 1, job 5), node rated -1], parent 0, job 5: the child is rated -1, but the comparison 1 == 5 fails, so no miss is predicted | compare the edge's job with the job index | not executed | RatingTrees.WillMissAsWrittenDisagrees | RatingTrees.RatingTree.WillMissDeadline |
| include/reconfiguration/agent.hpp:95-105 | after swapping the last failure into position `index`, the loop moves on without examining it | recording [j1] after [j1,j2] and [j1,j3] removes [j1,j2] but keeps [j1,j3], which [j1] strictly prefixes | examine the swapped-in failure before moving on, so no recorded failure extends another | not executed | Agents.AddFailureAsWrittenKeepsExtension | Agents.AgentFailureSearch.AddFailure |
| include/reconfiguration/agent/failure_search.hpp:15-25 | the same skipped swapped-in failure, for step-wise sequences | recording [{1}] after [{1},{2}] and [{1},{3}] keeps [{1},{3}] | examine the swapped-in failure | not executed | FailureSearch.AddFailureAsWrittenKeepsExtension | FailureSearch.AgentFailureSearch.AddFailure |
| include/reconfiguration/pessimistic.hpp:63-68 | a failed search during minimisation calls `update_critical_jobs`, which makes every critical job pessimistic again, including jobs already reverted successfully | two critical jobs A and B, and a search that fails only when both keep their original timing and reports no failures: A's revert is accepted, then B's refused revert makes A pessimistic again although [A, pessimistic B] is schedulable | a failed revert restores only the job being reverted, keeping the earlier reverts and a schedulable problem | not executed | Pessimistic.MinimiseAsWrittenRetightens | Pessimistic.MinimiseIntendedSchedulable |
| include/reconfiguration/cut_explore.hpp:83-86 | a child of a CONTINUED node copies only the marker and `has_failed`, so two levels below the leaf `taken_job` is -1 (no job), although the assertion at line 84 expects one | a sub-graph that is a single leaf, no forbidden jobs, and the search Expand(root, job 1), Expand(that node, job 2), a deadline miss at the node reached: the failing node carries no job, so job 1 stays good | copy `taken_job` as well, so a failure anywhere below the leaf turns the job taken at the leaf bad | not executed | CutExplore.ContinuedChildAsWrittenKeepsGood | CutExplore.ContinuedChild |
