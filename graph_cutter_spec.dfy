/** The definitions that specify the depth-first pass of
    `cut_rating_graph` (graph_cutter.hpp): the builders it records, the
    frames of its explicit stack, the nodes it examines and the invariant
    of its loop. The lemmas about them and the pass itself are in
    graph_cutter.dfy. */
module GraphCutterSpec {
  import opened ProblemModel
  import opened IndexCollections
  import opened RatingGraphs

  /** `Cut_builder`: the node whose edges are cut, and the jobs of those edges. */
  datatype CutBuilder = CutBuilder(nodeIndex: int, forbiddenJobs: seq<nat>)

  /** A frame of the explicit depth-first stack `branch`: the node, the next
      edge to look at, and the largest rating among its forward children. */
  datatype Frame = Frame(index: int, nextEdge: int, largestChildRating: real)

  /** `std::max`. */
  function RealMax(a: real, b: real): real {
    if a < b then b else a
  }

  /** The largest rating among the forward children of `n` reached by its
      first `k` edges, starting from 0. */
  function LargestOver(nodes: Nodes, n: int, k: nat): real
    requires EdgesInRange(nodes) && 0 <= n < |nodes| && k <= |nodes[n].edges|
  {
    if k == 0 then 0.0
    else
      var e := nodes[n].edges[k - 1];
      var r := LargestOver(nodes, n, k - 1);
      if e.destination > n then RealMax(r, nodes[e.destination].rating) else r
  }

  function LargestChildRating(nodes: Nodes, n: int): real
    requires EdgesInRange(nodes) && 0 <= n < |nodes|
  {
    LargestOver(nodes, n, |nodes[n].edges|)
  }

  /** An edge of `n` is cut when it does not lead back or to a node rated
      1, and its destination is rated below 0.4 and more than 0.4 below the
      best forward child of `n`. */
  predicate IsCutEdge(nodes: Nodes, n: int, e: RatingEdge)
    requires EdgesInRange(nodes) && 0 <= n < |nodes| && 0 <= e.destination < |nodes|
  {
    var rating := nodes[e.destination].rating;
    !(rating == 1.0 || e.destination < n)
    && rating < 0.4 && rating < LargestChildRating(nodes, n) - 0.4
  }

  /** `job` labels a cut edge of `n`. */
  predicate IsCutJob(nodes: Nodes, n: int, job: nat)
    requires EdgesInRange(nodes) && 0 <= n < |nodes|
  {
    exists k :: 0 <= k < |nodes[n].edges| && nodes[n].edges[k].takenJob == job && IsCutEdge(nodes, n, nodes[n].edges[k])
  }

  /** What the result of the depth-first pass promises: one builder per
      node, each for an existing node, each holding at least one job, and
      every job it holds labelling a cut edge of its node. */
  predicate SoundBuilders(nodes: Nodes, builders: seq<CutBuilder>)
    requires EdgesInRange(nodes)
  {
    (forall i, j :: 0 <= i < j < |builders| ==> builders[i].nodeIndex != builders[j].nodeIndex)
    && forall i :: 0 <= i < |builders| ==>
         0 <= builders[i].nodeIndex < |nodes| && builders[i].forbiddenJobs != []
         && forall m :: 0 <= m < |builders[i].forbiddenJobs| ==> IsCutJob(nodes, builders[i].nodeIndex, builders[i].forbiddenJobs[m])
  }

  /** The jobs of the cut edges among the first `k` edges of `n`, in edge order. */
  function CutJobsUpTo(nodes: Nodes, n: int, k: nat): seq<nat>
    requires EdgesInRange(nodes) && 0 <= n < |nodes| && k <= |nodes[n].edges|
  {
    if k == 0 then []
    else
      var e := nodes[n].edges[k - 1];
      CutJobsUpTo(nodes, n, k - 1) + (if IsCutEdge(nodes, n, e) then [e.takenJob] else [])
  }

  /** The jobs of all the cut edges of `n`, in edge order. */
  function CutJobs(nodes: Nodes, n: int): seq<nat>
    requires EdgesInRange(nodes) && 0 <= n < |nodes|
  {
    CutJobsUpTo(nodes, n, |nodes[n].edges|)
  }

  /** The jobs of the builder of node `v`, or none when it has no builder. */
  function BuilderJobs(builders: seq<CutBuilder>, v: int): seq<nat> {
    if builders == [] then []
    else if builders[0].nodeIndex == v then builders[0].forbiddenJobs
    else BuilderJobs(builders[1..], v)
  }

  predicate DistinctNodes(builders: seq<CutBuilder>) {
    forall i, j :: 0 <= i < j < |builders| ==> builders[i].nodeIndex != builders[j].nodeIndex
  }

  // ---- the measure that makes the depth-first loop terminate ----

  /** A frame still to pop costs 1; one with `r` edges left to look at costs 2r+1. */
  ghost function FrameCost(nodes: Nodes, visited: seq<bool>, f: Frame): nat
    requires |visited| == |nodes| && 0 <= f.index < |nodes|
  {
    var size := |nodes[f.index].edges|;
    if visited[f.index] || nodes[f.index].rating == 1.0 || f.nextEdge >= size then 1
    else 2 * (size - f.nextEdge) + 1
  }

  predicate FramesInRange(nodes: Nodes, branch: seq<Frame>) {
    forall i :: 0 <= i < |branch| ==> 0 <= branch[i].index < |nodes|
  }

  ghost function StackCost(nodes: Nodes, visited: seq<bool>, branch: seq<Frame>): nat
    requires |visited| == |nodes| && FramesInRange(nodes, branch)
  {
    if branch == [] then 0
    else StackCost(nodes, visited, branch[..|branch| - 1]) + FrameCost(nodes, visited, branch[|branch| - 1])
  }

  function StackIndices(branch: seq<Frame>): set<int> {
    set i | 0 <= i < |branch| :: branch[i].index
  }

  /** The nodes that are neither visited nor on the stack. */
  ghost function Unvisited(visited: seq<bool>, branch: seq<Frame>): set<int> {
    set v | 0 <= v < |visited| && !visited[v] && v !in StackIndices(branch)
  }

  predicate Increasing(branch: seq<Frame>) {
    forall i, j :: 0 <= i < j < |branch| ==> branch[i].index < branch[j].index
  }

  /** The frame invariant: indices in range, edge cursors non-negative,
      and the largest child rating known once the node has been looked at. */
  predicate FramesKnown(nodes: Nodes, branch: seq<Frame>)
    requires EdgesInRange(nodes)
  {
    FramesInRange(nodes, branch)
    && forall i :: 0 <= i < |branch| ==>
         0 <= branch[i].nextEdge
         && branch[i].largestChildRating == (if branch[i].nextEdge == 0 then 0.0 else LargestChildRating(nodes, branch[i].index))
  }

  // ---- the nodes the depth-first pass examines ----

  /** Edge `k` of `u` is one the pass descends along: `u` is not rated 1,
      and the edge leads forward, to a node not rated 1, and is not cut. */
  predicate Descent(nodes: Nodes, u: int, k: int)
    requires EdgesInRange(nodes) && 0 <= u < |nodes| && 0 <= k < |nodes[u].edges|
  {
    var e := nodes[u].edges[k];
    nodes[u].rating != 1.0 && e.destination > u && nodes[e.destination].rating != 1.0 && !IsCutEdge(nodes, u, e)
  }

  /** `path` runs from the root to `v`, leaving its `i`-th node by that
      node's edge `ks[i]`, and every step is a descent. */
  predicate IsPath(nodes: Nodes, path: seq<int>, ks: seq<int>, v: int)
    requires EdgesInRange(nodes)
  {
    |path| == |ks| + 1 && path[0] == 0 && path[|ks|] == v
    && forall i :: 0 <= i < |ks| ==>
         0 <= path[i] < |nodes| && 0 <= ks[i] < |nodes[path[i]].edges|
         && Descent(nodes, path[i], ks[i]) && nodes[path[i]].edges[ks[i]].destination == path[i + 1]
  }

  /** The nodes whose edges the pass looks at: those not rated 1 that the
      root reaches by descents. */
  ghost predicate Examined(nodes: Nodes, v: int)
    requires EdgesInRange(nodes)
  {
    0 <= v < |nodes| && nodes[v].rating != 1.0 && exists path, ks :: IsPath(nodes, path, ks, v)
  }

  /** Ghost bookkeeping of the pass: how many edges of each node have been
      looked at, and a path from the root to each node reached. */
  datatype SearchLog = SearchLog(processed: seq<nat>, pathOf: seq<seq<int>>, ksOf: seq<seq<int>>)

  /** The edge counts once `top` has looked at its next edge. */
  ghost function ProcessedAfter(processed: seq<nat>, top: Frame): seq<nat>
    requires 0 <= top.index < |processed| && 0 <= top.nextEdge
  {
    processed[top.index := top.nextEdge + 1]
  }

  /** The log once `top` has moved past its next edge without descending. */
  ghost function AdvancedLog(log: SearchLog, top: Frame): SearchLog
    requires 0 <= top.index < |log.processed| && 0 <= top.nextEdge
  {
    log.(processed := ProcessedAfter(log.processed, top))
  }

  /** The log once the pass has descended along the next edge of `top`. */
  ghost function PushedLog(nodes: Nodes, log: SearchLog, top: Frame): SearchLog
    requires EdgesInRange(nodes) && |log.processed| == |nodes| && |log.pathOf| == |nodes| && |log.ksOf| == |nodes|
    requires 0 <= top.index < |nodes| && 0 <= top.nextEdge < |nodes[top.index].edges|
  {
    var n, e := top.index, top.nextEdge;
    var d := nodes[n].edges[e].destination;
    SearchLog(ProcessedAfter(log.processed, top), log.pathOf[d := log.pathOf[n] + [d]], log.ksOf[d := log.ksOf[n] + [e]])
  }

  predicate Sized(nodes: Nodes, visited: seq<bool>, branch: seq<Frame>, log: SearchLog) {
    |nodes| >= 1 && |visited| == |nodes| && |log.processed| == |nodes| && |log.pathOf| == |nodes| && |log.ksOf| == |nodes|
    && FramesInRange(nodes, branch)
  }

  /** The stack: the root at the bottom, the root visited once the stack
      is empty, every frame below the top past its first edge, and a
      frame's cursor equal to the edges looked at of its node. */
  predicate StackShaped(nodes: Nodes, visited: seq<bool>, branch: seq<Frame>, log: SearchLog)
    requires Sized(nodes, visited, branch, log)
  {
    (branch != [] ==> branch[0].index == 0) && (branch == [] ==> visited[0])
    && (forall i :: 0 <= i < |branch| - 1 ==> branch[i].nextEdge > 0)
    && (forall i :: 0 <= i < |branch| && branch[i].nextEdge > 0 ==>
          !visited[branch[i].index] && nodes[branch[i].index].rating != 1.0
          && log.processed[branch[i].index] == branch[i].nextEdge)
    && (forall i :: 0 <= i < |branch| && branch[i].nextEdge == 0 && !visited[branch[i].index] ==>
          log.processed[branch[i].index] == 0)
  }

  /** The builders hold, per node, the jobs of the cut edges among the
      `processed` edges looked at. */
  predicate JobsTallied(nodes: Nodes, builders: seq<CutBuilder>, processed: seq<nat>)
    requires EdgesInRange(nodes) && |processed| == |nodes|
  {
    (forall v :: 0 <= v < |nodes| ==> processed[v] <= |nodes[v].edges|)
    && forall v {:trigger BuilderJobs(builders, v)} :: 0 <= v < |nodes| ==>
         BuilderJobs(builders, v) == CutJobsUpTo(nodes, v, processed[v])
  }

  /** All the edges of a visited node not rated 1 have been looked at, and
      none of a node rated 1 or not reached yet. */
  predicate ProcessedKnown(nodes: Nodes, visited: seq<bool>, branch: seq<Frame>, processed: seq<nat>)
    requires |visited| == |nodes| && |processed| == |nodes|
  {
    (forall v :: 0 <= v < |nodes| && visited[v] ==>
       processed[v] == if nodes[v].rating != 1.0 then |nodes[v].edges| else 0)
    && forall v :: 0 <= v < |nodes| && !visited[v] && v !in StackIndices(branch) ==> processed[v] == 0
  }

  /** Every descent from a visited node, and every descent a frame has
      already passed, leads to a visited node or to the frame just above. */
  predicate Closed(nodes: Nodes, visited: seq<bool>, branch: seq<Frame>)
    requires EdgesInRange(nodes) && |visited| == |nodes| && FramesInRange(nodes, branch)
  {
    (forall u, k :: 0 <= u < |nodes| && visited[u] && 0 <= k < |nodes[u].edges| && Descent(nodes, u, k) ==>
       visited[nodes[u].edges[k].destination])
    && forall i, k :: 0 <= i < |branch| && 0 <= k < branch[i].nextEdge && k < |nodes[branch[i].index].edges|
                      && Descent(nodes, branch[i].index, k) ==>
         visited[nodes[branch[i].index].edges[k].destination]
         || (i + 1 < |branch| && branch[i + 1].index == nodes[branch[i].index].edges[k].destination)
  }

  /** Every visited node not rated 1 and every stacked node has a path
      from the root. */
  predicate Reached(nodes: Nodes, visited: seq<bool>, branch: seq<Frame>, log: SearchLog)
    requires EdgesInRange(nodes) && Sized(nodes, visited, branch, log)
  {
    forall v :: 0 <= v < |nodes| && ((visited[v] && nodes[v].rating != 1.0) || v in StackIndices(branch)) ==>
      IsPath(nodes, log.pathOf[v], log.ksOf[v], v)
  }

  /** The invariant of the depth-first loop that ties it to `Examined`. */
  predicate Searched(nodes: Nodes, visited: seq<bool>, branch: seq<Frame>, builders: seq<CutBuilder>, log: SearchLog)
    requires EdgesInRange(nodes)
  {
    Sized(nodes, visited, branch, log) && StackShaped(nodes, visited, branch, log)
    && JobsTallied(nodes, builders, log.processed) && ProcessedKnown(nodes, visited, branch, log.processed)
    && Closed(nodes, visited, branch)
    && Reached(nodes, visited, branch, log)
  }

  /** The top frame is about to look at its next edge, and `advanced` is
      that frame moved past it. */
  predicate Advancing(nodes: Nodes, visited: seq<bool>, branch: seq<Frame>, advanced: Frame)
    requires EdgesInRange(nodes) && |visited| == |nodes| && FramesInRange(nodes, branch)
  {
    |branch| > 0
    && var top := branch[|branch| - 1];
       !(nodes[top.index].rating == 1.0 || visited[top.index] || top.nextEdge >= |nodes[top.index].edges|)
       && 0 <= top.nextEdge && advanced.index == top.index && advanced.nextEdge == top.nextEdge + 1
  }

  /** The loop's measure drops from `branch` to `after`: fewer unvisited
      nodes, or the same ones and a cheaper stack. */
  ghost predicate MeasureDrops(nodes: Nodes, visited: seq<bool>, branch: seq<Frame>, after: seq<Frame>)
    requires |visited| == |nodes| && FramesInRange(nodes, branch) && FramesInRange(nodes, after)
  {
    |Unvisited(visited, after)| < |Unvisited(visited, branch)|
    || (Unvisited(visited, after) == Unvisited(visited, branch)
        && StackCost(nodes, visited, after) < StackCost(nodes, visited, branch))
  }
}
