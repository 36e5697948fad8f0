/** `cut_rating_graph`: finds the "regret" edges of a rating graph, edges
    into a node rated much lower than the best sibling, and turns each node
    holding such edges into a cut: the jobs on the way back to the root and
    the first regretted job. This is the `Rating_graph_cut` of
    graph_cutter.hpp (an `Index_collection` of previous jobs and one
    forbidden job), not the later one with a sub-graph. */
module GraphCutter {
  import opened ProblemModel
  import opened IndexCollections
  import opened RatingGraphs
  import opened GraphCutterSpec

  /** graph_cutter.hpp's `Rating_graph_cut`. */
  datatype RatingGraphCut = RatingGraphCut(previousJobs: IndexCollection, forbiddenJob: nat)

  /** With one builder per node, the jobs of a builder's node are its own. */
  lemma {:induction false} BuilderJobsAt(builders: seq<CutBuilder>, i: int)
    requires DistinctNodes(builders) && 0 <= i < |builders|
    ensures BuilderJobs(builders, builders[i].nodeIndex) == builders[i].forbiddenJobs
  {
    if i > 0 {
      assert builders[0].nodeIndex != builders[i].nodeIndex;
      assert builders[1..][i - 1] == builders[i];
      BuilderJobsAt(builders[1..], i - 1);
    }
  }

  /** A node without a builder has no jobs. */
  lemma {:induction false} BuilderJobsMissing(builders: seq<CutBuilder>, v: int)
    requires forall i :: 0 <= i < |builders| ==> builders[i].nodeIndex != v
    ensures BuilderJobs(builders, v) == []
  {
    if builders != [] {
      assert builders[0].nodeIndex != v;
      BuilderJobsMissing(builders[1..], v);
    }
  }

  /** The loop at the first look at a node: the largest rating among its
      forward children. */
  method ComputeLargestChildRating(nodes: Nodes, n: int) returns (largest: real)
    requires EdgesInRange(nodes) && 0 <= n < |nodes|
    ensures largest == LargestChildRating(nodes, n)
  {
    largest := 0.0;
    var k := 0;
    while k < |nodes[n].edges|
      invariant 0 <= k <= |nodes[n].edges|
      invariant largest == LargestOver(nodes, n, k)
    {
      var e := nodes[n].edges[k];
      if e.destination > n {
        largest := RealMax(largest, nodes[e.destination].rating);
      }
      k := k + 1;
    }
  }

  /** Records a cut edge of `n`: its job joins the builder of `n`, which is
      created when there is none yet. */
  method AddCutJob(nodes: Nodes, builders: seq<CutBuilder>, n: int, job: nat) returns (updated: seq<CutBuilder>)
    requires EdgesInRange(nodes) && 0 <= n < |nodes| && SoundBuilders(nodes, builders) && IsCutJob(nodes, n, job)
    ensures SoundBuilders(nodes, updated)
    ensures |updated| == if (exists i :: 0 <= i < |builders| && builders[i].nodeIndex == n) then |builders| else |builders| + 1
    ensures forall i :: 0 <= i < |updated| ==>
              updated[i].forbiddenJobs == (if i < |builders| then builders[i].forbiddenJobs else [])
                                          + (if updated[i].nodeIndex == n then [job] else [])
    ensures forall v :: BuilderJobs(updated, v) == if v == n then BuilderJobs(builders, v) + [job] else BuilderJobs(builders, v)
  {
    var found;
    updated, found := ExtendBuilder(builders, n, job);
    if !found {
      updated := updated + [CutBuilder(n, [job])];
    }
    assert DistinctNodes(updated);
    BuilderJobsAdded(builders, updated, n, job);
  }

  /** The loop over the builders when a cut edge is found: `job` joins the
      builder of `n`, when there is one. */
  method ExtendBuilder(builders: seq<CutBuilder>, n: int, job: nat) returns (updated: seq<CutBuilder>, found: bool)
    ensures |updated| == |builders|
    ensures forall m :: 0 <= m < |updated| ==> updated[m].nodeIndex == builders[m].nodeIndex
    ensures forall m :: 0 <= m < |updated| ==>
              updated[m].forbiddenJobs == builders[m].forbiddenJobs + (if builders[m].nodeIndex == n then [job] else [])
    ensures found <==> exists m :: 0 <= m < |builders| && builders[m].nodeIndex == n
  {
    updated := builders;
    found := false;
    var i := 0;
    while i < |updated|
      invariant 0 <= i <= |updated| && |updated| == |builders|
      invariant forall m :: 0 <= m < |updated| ==> updated[m].nodeIndex == builders[m].nodeIndex
      invariant forall m :: 0 <= m < |updated| ==>
                  updated[m].forbiddenJobs == builders[m].forbiddenJobs + (if m < i && builders[m].nodeIndex == n then [job] else [])
      invariant found <==> exists m :: 0 <= m < i && builders[m].nodeIndex == n
    {
      if updated[i].nodeIndex == n {
        found := true;
        updated := updated[i := updated[i].(forbiddenJobs := updated[i].forbiddenJobs + [job])];
      }
      i := i + 1;
    }
  }

  /** What adding one job to the builder of `n` does to the jobs of every node. */
  lemma BuilderJobsAdded(builders: seq<CutBuilder>, updated: seq<CutBuilder>, n: int, job: nat)
    requires DistinctNodes(builders) && DistinctNodes(updated) && |builders| <= |updated| <= |builders| + 1
    requires forall i :: 0 <= i < |builders| ==> updated[i].nodeIndex == builders[i].nodeIndex
    requires |updated| > |builders| ==> updated[|builders|].nodeIndex == n && updated[|builders|].forbiddenJobs == [job]
    requires |updated| == |builders| ==> exists i :: 0 <= i < |builders| && builders[i].nodeIndex == n
    requires forall i :: 0 <= i < |builders| ==>
               updated[i].forbiddenJobs == builders[i].forbiddenJobs + (if builders[i].nodeIndex == n then [job] else [])
    ensures forall v :: BuilderJobs(updated, v) == if v == n then BuilderJobs(builders, v) + [job] else BuilderJobs(builders, v)
  {
    forall v ensures BuilderJobs(updated, v) == if v == n then BuilderJobs(builders, v) + [job] else BuilderJobs(builders, v) {
      BuilderJobsAddedAt(builders, updated, n, job, v);
    }
  }

  lemma BuilderJobsAddedAt(builders: seq<CutBuilder>, updated: seq<CutBuilder>, n: int, job: nat, v: int)
    requires DistinctNodes(builders) && DistinctNodes(updated) && |builders| <= |updated| <= |builders| + 1
    requires forall i :: 0 <= i < |builders| ==> updated[i].nodeIndex == builders[i].nodeIndex
    requires |updated| > |builders| ==> updated[|builders|].nodeIndex == n && updated[|builders|].forbiddenJobs == [job]
    requires |updated| == |builders| ==> exists i :: 0 <= i < |builders| && builders[i].nodeIndex == n
    requires forall i :: 0 <= i < |builders| ==>
               updated[i].forbiddenJobs == builders[i].forbiddenJobs + (if builders[i].nodeIndex == n then [job] else [])
    ensures BuilderJobs(updated, v) == if v == n then BuilderJobs(builders, v) + [job] else BuilderJobs(builders, v)
  {
    {
      if exists m :: 0 <= m < |builders| && builders[m].nodeIndex == v {
        var m :| 0 <= m < |builders| && builders[m].nodeIndex == v;
        BuilderJobsAt(builders, m);
        BuilderJobsAt(updated, m);
      } else {
        BuilderJobsMissing(builders, v);
        if v == n {
          BuilderJobsNew(builders, updated, n, job);
        } else {
          BuilderJobsStillMissing(builders, updated, n, v);
        }
      }
    }
  }

  lemma BuilderJobsNew(builders: seq<CutBuilder>, updated: seq<CutBuilder>, n: int, job: nat)
    requires DistinctNodes(updated) && |builders| <= |updated| <= |builders| + 1
    requires |updated| > |builders| ==> updated[|builders|].nodeIndex == n && updated[|builders|].forbiddenJobs == [job]
    requires |updated| == |builders| ==> exists i :: 0 <= i < |builders| && builders[i].nodeIndex == n
    requires forall i :: 0 <= i < |builders| ==> builders[i].nodeIndex != n
    ensures BuilderJobs(updated, n) == [job]
  {
    BuilderJobsAt(updated, |builders|);
  }

  lemma BuilderJobsStillMissing(builders: seq<CutBuilder>, updated: seq<CutBuilder>, n: int, v: int)
    requires |builders| <= |updated| <= |builders| + 1 && v != n
    requires forall i :: 0 <= i < |builders| ==> updated[i].nodeIndex == builders[i].nodeIndex
    requires |updated| > |builders| ==> updated[|builders|].nodeIndex == n
    requires forall i :: 0 <= i < |builders| ==> builders[i].nodeIndex != v
    ensures BuilderJobs(updated, v) == []
  {
    forall i | 0 <= i < |updated| ensures updated[i].nodeIndex != v {
      if i < |builders| {
        assert updated[i].nodeIndex == builders[i].nodeIndex;
      }
    }
    BuilderJobsMissing(updated, v);
  }

  lemma StackCostSnoc(nodes: Nodes, visited: seq<bool>, branch: seq<Frame>, f: Frame)
    requires |visited| == |nodes| && FramesInRange(nodes, branch) && 0 <= f.index < |nodes|
    ensures FramesInRange(nodes, branch + [f])
    ensures StackCost(nodes, visited, branch + [f]) == StackCost(nodes, visited, branch) + FrameCost(nodes, visited, f)
  {
    assert (branch + [f])[..|branch|] == branch;
  }

  /** Marking a node visited changes no cost of the frames below it. */
  lemma {:induction false} StackCostUnmarked(nodes: Nodes, visited: seq<bool>, branch: seq<Frame>, v: int)
    requires |visited| == |nodes| && FramesInRange(nodes, branch) && 0 <= v < |nodes|
    requires forall i :: 0 <= i < |branch| ==> branch[i].index != v
    ensures StackCost(nodes, visited[v := true], branch) == StackCost(nodes, visited, branch)
  {
    if branch != [] {
      var prefix := branch[..|branch| - 1];
      assert forall i :: 0 <= i < |prefix| ==> prefix[i] == branch[i];
      StackCostUnmarked(nodes, visited, prefix, v);
    }
  }

  /** Popping the top frame and marking its node visited leaves the
      unvisited nodes alone and lowers the cost of the stack. */
  lemma PopDecreases(nodes: Nodes, visited: seq<bool>, branch: seq<Frame>)
    requires EdgesInRange(nodes) && |visited| == |nodes| && |branch| > 0
    requires FramesKnown(nodes, branch) && Increasing(branch)
    ensures var n := branch[|branch| - 1].index;
            var prefix := branch[..|branch| - 1];
            FramesKnown(nodes, prefix) && Increasing(prefix)
            && Unvisited(visited[n := true], prefix) == Unvisited(visited, branch)
            && StackCost(nodes, visited[n := true], prefix) < StackCost(nodes, visited, branch)
  {
    var n := branch[|branch| - 1].index;
    var prefix := branch[..|branch| - 1];
    assert forall i :: 0 <= i < |prefix| ==> prefix[i] == branch[i];
    PopCost(nodes, visited, branch);
    PopUnvisited(visited, branch);
  }

  /** Popping the top frame and marking its node visited lowers the cost. */
  lemma PopCost(nodes: Nodes, visited: seq<bool>, branch: seq<Frame>)
    requires EdgesInRange(nodes) && |visited| == |nodes| && |branch| > 0
    requires FramesInRange(nodes, branch) && Increasing(branch)
    ensures var n := branch[|branch| - 1].index;
            var prefix := branch[..|branch| - 1];
            FramesInRange(nodes, prefix)
            && StackCost(nodes, visited[n := true], prefix) < StackCost(nodes, visited, branch)
  {
    var n := branch[|branch| - 1].index;
    var prefix := branch[..|branch| - 1];
    assert forall i :: 0 <= i < |prefix| ==> prefix[i] == branch[i];
    StackCostUnmarked(nodes, visited, prefix, n);
  }

  /** Popping the top frame and marking its node visited leaves the
      unvisited nodes alone. */
  lemma PopUnvisited(visited: seq<bool>, branch: seq<Frame>)
    requires |branch| > 0 && 0 <= branch[|branch| - 1].index < |visited|
    ensures var n := branch[|branch| - 1].index;
            Unvisited(visited[n := true], branch[..|branch| - 1]) == Unvisited(visited, branch)
  {
    var n := branch[|branch| - 1].index;
    var prefix := branch[..|branch| - 1];
    assert branch == prefix + [branch[|branch| - 1]];
    assert StackIndices(branch) == StackIndices(prefix) + {n};
  }

  /** Moving the top frame to its next edge, once its node has been looked
      at, leaves the unvisited nodes alone and lowers the cost by two. */
  lemma AdvanceDecreases(nodes: Nodes, visited: seq<bool>, branch: seq<Frame>, advanced: Frame)
    requires EdgesInRange(nodes) && |visited| == |nodes| && |branch| > 0
    requires FramesKnown(nodes, branch) && Increasing(branch)
    requires var top := branch[|branch| - 1];
             !(visited[top.index] || nodes[top.index].rating == 1.0 || top.nextEdge >= |nodes[top.index].edges|)
             && advanced == Frame(top.index, top.nextEdge + 1, LargestChildRating(nodes, top.index))
    ensures var updated := branch[|branch| - 1 := advanced];
            FramesKnown(nodes, updated) && Increasing(updated)
            && Unvisited(visited, updated) == Unvisited(visited, branch)
            && StackCost(nodes, visited, updated) + 2 == StackCost(nodes, visited, branch)
  {
    var updated := branch[|branch| - 1 := advanced];
    var prefix := branch[..|branch| - 1];
    assert branch == prefix + [branch[|branch| - 1]];
    assert updated == prefix + [advanced];
    StackCostSnoc(nodes, visited, prefix, branch[|branch| - 1]);
    StackCostSnoc(nodes, visited, prefix, advanced);
    assert StackIndices(updated) == StackIndices(branch) by {
      assert forall i :: 0 <= i < |branch| ==> updated[i].index == branch[i].index;
    }
  }

  /** Pushing a node above the top keeps the frame invariant. */
  lemma PushKeepsFrames(nodes: Nodes, branch: seq<Frame>, d: int)
    requires EdgesInRange(nodes) && |branch| > 0
    requires FramesKnown(nodes, branch) && Increasing(branch)
    requires branch[|branch| - 1].index < d < |nodes|
    ensures FramesKnown(nodes, branch + [Frame(d, 0, 0.0)]) && Increasing(branch + [Frame(d, 0, 0.0)])
  {
  }

  /** Pushing a node above the top either takes an unvisited node off the
      unvisited set or, for a visited node, raises the cost by one only. */
  lemma PushDecreases(nodes: Nodes, visited: seq<bool>, branch: seq<Frame>, d: int)
    requires |visited| == |nodes| && FramesInRange(nodes, branch) && |branch| > 0 && Increasing(branch)
    requires branch[|branch| - 1].index < d < |nodes|
    ensures var pushed := branch + [Frame(d, 0, 0.0)];
            (visited[d] ==> Unvisited(visited, pushed) == Unvisited(visited, branch)
                            && StackCost(nodes, visited, pushed) == StackCost(nodes, visited, branch) + 1)
            && (!visited[d] ==> |Unvisited(visited, pushed)| < |Unvisited(visited, branch)|)
  {
    var f := Frame(d, 0, 0.0);
    var pushed := branch + [f];
    StackCostSnoc(nodes, visited, branch, f);
    assert StackIndices(pushed) == StackIndices(branch) + {d} by {
      assert forall i :: 0 <= i < |branch| ==> pushed[i] == branch[i];
      assert pushed[|branch|] == f;
    }
    assert d !in StackIndices(branch);
    if !visited[d] {
      var before := Unvisited(visited, branch);
      assert d in before;
      assert Unvisited(visited, pushed) == before - {d};
    }
  }

  /** Extending a path by one descent. */
  lemma PathSnoc(nodes: Nodes, path: seq<int>, ks: seq<int>, u: int, k: int)
    requires EdgesInRange(nodes) && 0 <= u < |nodes| && 0 <= k < |nodes[u].edges|
    requires IsPath(nodes, path, ks, u) && Descent(nodes, u, k)
    ensures IsPath(nodes, path + [nodes[u].edges[k].destination], ks + [k], nodes[u].edges[k].destination)
  {
    var path' := path + [nodes[u].edges[k].destination];
    var ks' := ks + [k];
    forall i | 0 <= i < |ks'|
      ensures 0 <= path'[i] < |nodes| && 0 <= ks'[i] < |nodes[path'[i]].edges|
              && Descent(nodes, path'[i], ks'[i]) && nodes[path'[i]].edges[ks'[i]].destination == path'[i + 1]
    {
      if i < |ks| {
        assert path'[i] == path[i] && ks'[i] == ks[i] && path'[i + 1] == path[i + 1];
      }
    }
  }

  /** A set of visited nodes that holds the root and is closed under
      descents holds every node on a path. */
  lemma {:induction false} PathVisited(nodes: Nodes, visited: seq<bool>, path: seq<int>, ks: seq<int>, v: int)
    requires EdgesInRange(nodes) && |visited| == |nodes| && |nodes| >= 1 && visited[0]
    requires forall u, k :: 0 <= u < |nodes| && visited[u] && 0 <= k < |nodes[u].edges| && Descent(nodes, u, k) ==>
               visited[nodes[u].edges[k].destination]
    requires IsPath(nodes, path, ks, v)
    ensures 0 <= v < |nodes| && visited[v]
  {
    if ks != [] {
      var m := |ks| - 1;
      var u := path[m];
      var front, frontKs := path[..m + 1], ks[..m];
      assert IsPath(nodes, front, frontKs, u) by {
        assert forall i :: 0 <= i <= m ==> front[i] == path[i];
        assert forall i :: 0 <= i < m ==> frontKs[i] == ks[i];
      }
      PathVisited(nodes, visited, front, frontKs, u);
      assert Descent(nodes, u, ks[m]) && nodes[u].edges[ks[m]].destination == v;
    }
  }

  /** The invariant holds before the first step. */
  lemma SearchedStart(nodes: Nodes)
    requires WellFormed(nodes)
    ensures Searched(nodes, seq(|nodes|, _ => false), [Frame(0, 0, 0.0)], [],
                     SearchLog(seq(|nodes|, _ => 0), seq(|nodes|, _ => [0]), seq(|nodes|, _ => [])))
  {
    var branch := [Frame(0, 0, 0.0)];
    assert StackIndices(branch) == {0};
    assert IsPath(nodes, [0], [], 0);
  }

  /** Popping the top frame keeps the invariant. */
  lemma SearchedPop(nodes: Nodes, visited: seq<bool>, branch: seq<Frame>, builders: seq<CutBuilder>, log: SearchLog)
    requires EdgesInRange(nodes) && |branch| > 0 && Increasing(branch) && FramesKnown(nodes, branch)
    requires Searched(nodes, visited, branch, builders, log)
    requires var top := branch[|branch| - 1];
             nodes[top.index].rating == 1.0 || visited[top.index] || top.nextEdge >= |nodes[top.index].edges|
    ensures var n := branch[|branch| - 1].index;
            Searched(nodes, visited[n := true], branch[..|branch| - 1], builders, log)
  {
    PopShaped(nodes, visited, branch, log);
    PopTallied(nodes, visited, branch, log);
    PopClosed(nodes, visited, branch, log);
  }

  lemma PopShaped(nodes: Nodes, visited: seq<bool>, branch: seq<Frame>, log: SearchLog)
    requires EdgesInRange(nodes) && |branch| > 0 && Increasing(branch)
    requires Sized(nodes, visited, branch, log) && StackShaped(nodes, visited, branch, log)
    ensures var n := branch[|branch| - 1].index;
            Sized(nodes, visited[n := true], branch[..|branch| - 1], log)
            && StackShaped(nodes, visited[n := true], branch[..|branch| - 1], log)
  {
    var t := |branch| - 1;
    var prefix := branch[..t];
    assert forall i :: 0 <= i < |prefix| ==> prefix[i] == branch[i];
  }

  /** Popping the top frame takes its node off the stack's nodes. */
  lemma PopIndices(branch: seq<Frame>)
    requires |branch| > 0
    ensures StackIndices(branch) == StackIndices(branch[..|branch| - 1]) + {branch[|branch| - 1].index}
  {
    var t := |branch| - 1;
    assert branch == branch[..t] + [branch[t]];
    assert forall i :: 0 <= i < t ==> branch[..t][i] == branch[i];
  }

  lemma PopTallied(nodes: Nodes, visited: seq<bool>, branch: seq<Frame>, log: SearchLog)
    requires EdgesInRange(nodes) && |branch| > 0 && Increasing(branch) && FramesKnown(nodes, branch)
    requires Sized(nodes, visited, branch, log) && StackShaped(nodes, visited, branch, log)
    requires forall v :: 0 <= v < |nodes| ==> log.processed[v] <= |nodes[v].edges|
    requires ProcessedKnown(nodes, visited, branch, log.processed)
    requires var top := branch[|branch| - 1];
             nodes[top.index].rating == 1.0 || visited[top.index] || top.nextEdge >= |nodes[top.index].edges|
    ensures var n := branch[|branch| - 1].index;
            Sized(nodes, visited[n := true], branch[..|branch| - 1], log)
            && ProcessedKnown(nodes, visited[n := true], branch[..|branch| - 1], log.processed)
  {
    var t := |branch| - 1;
    var n := branch[t].index;
    var prefix := branch[..t];
    assert forall i :: 0 <= i < |prefix| ==> prefix[i] == branch[i];
    PopIndices(branch);
    var visited' := visited[n := true];
    forall v | 0 <= v < |nodes| && visited'[v]
      ensures log.processed[v] == if nodes[v].rating != 1.0 then |nodes[v].edges| else 0
    {
      if v == n && !visited[n] {
        PopProcessed(nodes, visited, branch, log);
      }
    }
    forall v | 0 <= v < |nodes| && !visited'[v] && v !in StackIndices(prefix)
      ensures log.processed[v] == 0
    {
      assert v != n && v !in StackIndices(branch);
    }
  }

  /** A frame that is popped unvisited has looked at all the edges of its
      node, or at none when the node is rated 1. */
  lemma PopProcessed(nodes: Nodes, visited: seq<bool>, branch: seq<Frame>, log: SearchLog)
    requires |branch| > 0 && Sized(nodes, visited, branch, log) && StackShaped(nodes, visited, branch, log)
    requires forall v :: 0 <= v < |nodes| ==> log.processed[v] <= |nodes[v].edges|
    requires var top := branch[|branch| - 1];
             0 <= top.nextEdge && !visited[top.index] && (nodes[top.index].rating == 1.0 || top.nextEdge >= |nodes[top.index].edges|)
    ensures var n := branch[|branch| - 1].index;
            log.processed[n] == if nodes[n].rating != 1.0 then |nodes[n].edges| else 0
  {
    var t := |branch| - 1;
    if branch[t].nextEdge > 0 {
      assert log.processed[branch[t].index] == branch[t].nextEdge;
    } else {
      assert log.processed[branch[t].index] == 0;
    }
  }

  lemma PopClosed(nodes: Nodes, visited: seq<bool>, branch: seq<Frame>, log: SearchLog)
    requires EdgesInRange(nodes) && |branch| > 0 && Increasing(branch)
    requires Sized(nodes, visited, branch, log) && Closed(nodes, visited, branch) && Reached(nodes, visited, branch, log)
    requires var top := branch[|branch| - 1];
             nodes[top.index].rating == 1.0 || visited[top.index] || top.nextEdge >= |nodes[top.index].edges|
    ensures var n := branch[|branch| - 1].index;
            Sized(nodes, visited[n := true], branch[..|branch| - 1], log)
            && Closed(nodes, visited[n := true], branch[..|branch| - 1])
            && Reached(nodes, visited[n := true], branch[..|branch| - 1], log)
  {
    var t := |branch| - 1;
    var n := branch[t].index;
    var prefix := branch[..t];
    var visited' := visited[n := true];
    assert forall i :: 0 <= i < |prefix| ==> prefix[i] == branch[i];
    PopIndices(branch);
    assert n in StackIndices(branch);
    forall u, k | 0 <= u < |nodes| && visited'[u] && 0 <= k < |nodes[u].edges| && Descent(nodes, u, k)
      ensures visited'[nodes[u].edges[k].destination]
    {
      if u == n && !visited[n] {
        assert k < branch[t].nextEdge;
      }
    }
  }

  /** The number of edges looked at of the top node is its frame's cursor. */
  lemma TopProcessed(nodes: Nodes, visited: seq<bool>, branch: seq<Frame>, log: SearchLog, advanced: Frame)
    requires EdgesInRange(nodes) && Sized(nodes, visited, branch, log) && StackShaped(nodes, visited, branch, log)
    requires Advancing(nodes, visited, branch, advanced)
    ensures log.processed[branch[|branch| - 1].index] == branch[|branch| - 1].nextEdge
  {
    var t := |branch| - 1;
    if branch[t].nextEdge > 0 {
      assert log.processed[branch[t].index] == branch[t].nextEdge;
    } else {
      assert log.processed[branch[t].index] == 0;
    }
  }

  /** Looking at one more edge adds that edge's job exactly when it is cut. */
  lemma CutJobsNext(nodes: Nodes, n: int, k: nat, builders: seq<CutBuilder>, updated: seq<CutBuilder>)
    requires EdgesInRange(nodes) && 0 <= n < |nodes| && k < |nodes[n].edges|
    requires BuilderJobs(builders, n) == CutJobsUpTo(nodes, n, k)
    requires BuilderJobs(updated, n) == if IsCutEdge(nodes, n, nodes[n].edges[k])
                                        then BuilderJobs(builders, n) + [nodes[n].edges[k].takenJob]
                                        else BuilderJobs(builders, n)
    ensures BuilderJobs(updated, n) == CutJobsUpTo(nodes, n, k + 1)
  {
    assert CutJobsUpTo(nodes, n, k) + [] == CutJobsUpTo(nodes, n, k);
  }

  /** Moving the top frame past an edge it does not descend along keeps the
      invariant; `updated` holds that edge's job when it is cut. */
  lemma SearchedAdvance(nodes: Nodes, visited: seq<bool>, branch: seq<Frame>, builders: seq<CutBuilder>,
                        updated: seq<CutBuilder>, log: SearchLog, advanced: Frame, after: seq<Frame>)
    returns (logAfter: SearchLog)
    requires EdgesInRange(nodes) && Increasing(branch) && Searched(nodes, visited, branch, builders, log)
    requires Advancing(nodes, visited, branch, advanced)
    requires var top := branch[|branch| - 1];
             var e := nodes[top.index].edges[top.nextEdge];
             !Descent(nodes, top.index, top.nextEdge)
             && forall v :: 0 <= v < |nodes| ==>
                  BuilderJobs(updated, v) == if v == top.index && IsCutEdge(nodes, top.index, e)
                                             then BuilderJobs(builders, v) + [e.takenJob]
                                             else BuilderJobs(builders, v)
    requires after == branch[|branch| - 1 := advanced]
    ensures Searched(nodes, visited, after, updated, logAfter)
  {
    var t := |branch| - 1;
    logAfter := AdvancedLog(log, branch[t]);
    AdvanceIndices(branch, advanced, after);
    AdvanceShaped(nodes, visited, branch, log, advanced, after, logAfter);
    AdvanceJobs(nodes, visited, branch, builders, updated, log, advanced, logAfter.processed);
    AdvanceProcessed(nodes, visited, branch, after, log, advanced, 0, logAfter.processed);
    AdvanceClosed(nodes, visited, branch, advanced, after);
  }

  lemma AdvanceShaped(nodes: Nodes, visited: seq<bool>, branch: seq<Frame>, log: SearchLog, advanced: Frame,
                      after: seq<Frame>, logAfter: SearchLog)
    requires EdgesInRange(nodes) && Increasing(branch) && Sized(nodes, visited, branch, log)
    requires StackShaped(nodes, visited, branch, log) && Advancing(nodes, visited, branch, advanced)
    requires after == branch[|branch| - 1 := advanced] && logAfter == AdvancedLog(log, branch[|branch| - 1])
    ensures Sized(nodes, visited, after, logAfter) && StackShaped(nodes, visited, after, logAfter)
  {
    var t := |branch| - 1;
    var n := branch[t].index;
    var e := branch[t].nextEdge;
    var branch' := branch[t := advanced];
    var log' := AdvancedLog(log, branch[t]);
    forall i | 0 <= i < |branch'| && branch'[i].nextEdge > 0
      ensures !visited[branch'[i].index] && nodes[branch'[i].index].rating != 1.0
              && log'.processed[branch'[i].index] == branch'[i].nextEdge
    {
      if i < t {
        assert branch'[i] == branch[i] && branch[i].index < n;
      }
    }
  }

  /** Looking at the top frame's next edge adds its job to the builders
      exactly when the edge is cut. */
  lemma AdvanceJobs(nodes: Nodes, visited: seq<bool>, branch: seq<Frame>, builders: seq<CutBuilder>,
                    updated: seq<CutBuilder>, log: SearchLog, advanced: Frame, processed: seq<nat>)
    requires EdgesInRange(nodes) && Sized(nodes, visited, branch, log) && StackShaped(nodes, visited, branch, log)
    requires JobsTallied(nodes, builders, log.processed) && Advancing(nodes, visited, branch, advanced)
    requires var top := branch[|branch| - 1];
             var e := nodes[top.index].edges[top.nextEdge];
             forall v :: 0 <= v < |nodes| ==>
               BuilderJobs(updated, v) == if v == top.index && IsCutEdge(nodes, top.index, e)
                                          then BuilderJobs(builders, v) + [e.takenJob]
                                          else BuilderJobs(builders, v)
    requires processed == ProcessedAfter(log.processed, branch[|branch| - 1])
    ensures JobsTallied(nodes, updated, processed)
  {
    var t := |branch| - 1;
    var n := branch[t].index;
    var e := branch[t].nextEdge;
    TopProcessed(nodes, visited, branch, log, advanced);
    assert processed == log.processed[n := e + 1];
    JobsStep(nodes, builders, updated, log.processed, n, e);
  }

  lemma JobsStep(nodes: Nodes, builders: seq<CutBuilder>, updated: seq<CutBuilder>, processed: seq<nat>, n: int, e: nat)
    requires EdgesInRange(nodes) && |processed| == |nodes| && JobsTallied(nodes, builders, processed)
    requires 0 <= n < |nodes| && processed[n] == e < |nodes[n].edges|
    requires forall v :: 0 <= v < |nodes| ==>
               BuilderJobs(updated, v) == if v == n && IsCutEdge(nodes, n, nodes[n].edges[e])
                                          then BuilderJobs(builders, v) + [nodes[n].edges[e].takenJob]
                                          else BuilderJobs(builders, v)
    ensures JobsTallied(nodes, updated, processed[n := e + 1])
  {
    var processed' := processed[n := e + 1];
    assert forall v :: 0 <= v < |nodes| ==> processed'[v] <= |nodes[v].edges|;
    forall v {:trigger BuilderJobs(updated, v)} | 0 <= v < |nodes|
      ensures BuilderJobs(updated, v) == CutJobsUpTo(nodes, v, processed'[v])
    {
      if v == n {
        CutJobsNext(nodes, n, e, builders, updated);
      } else {
        assert processed'[v] == processed[v] && BuilderJobs(updated, v) == BuilderJobs(builders, v);
      }
    }
  }

  /** Looking at the top frame's next edge, with `branch'` the stack after
      it and `d` the node it may push, keeps the counts of edges looked at. */
  lemma AdvanceProcessed(nodes: Nodes, visited: seq<bool>, branch: seq<Frame>, branch': seq<Frame>, log: SearchLog,
                         advanced: Frame, d: int, processed: seq<nat>)
    requires EdgesInRange(nodes) && Sized(nodes, visited, branch, log) && ProcessedKnown(nodes, visited, branch, log.processed)
    requires Advancing(nodes, visited, branch, advanced)
    requires StackIndices(branch') == StackIndices(branch) || StackIndices(branch') == StackIndices(branch) + {d}
    requires processed == ProcessedAfter(log.processed, branch[|branch| - 1])
    ensures ProcessedKnown(nodes, visited, branch', processed)
  {
    var t := |branch| - 1;
    var n := branch[t].index;
    assert n in StackIndices(branch) by {
      assert branch[t].index == n;
    }
    forall v | 0 <= v < |nodes| && !visited[v] && v !in StackIndices(branch')
      ensures processed[v] == 0
    {
      assert v !in StackIndices(branch);
    }
  }

  lemma AdvanceClosed(nodes: Nodes, visited: seq<bool>, branch: seq<Frame>, advanced: Frame, after: seq<Frame>)
    requires EdgesInRange(nodes) && |visited| == |nodes| && FramesInRange(nodes, branch) && Closed(nodes, visited, branch)
    requires Advancing(nodes, visited, branch, advanced)
    requires var top := branch[|branch| - 1]; !Descent(nodes, top.index, top.nextEdge)
    requires after == branch[|branch| - 1 := advanced] && FramesInRange(nodes, after)
    ensures Closed(nodes, visited, after)
  {
    var t := |branch| - 1;
    var branch' := after;
    forall i, k | 0 <= i < |branch'| && 0 <= k < branch'[i].nextEdge && k < |nodes[branch'[i].index].edges|
                  && Descent(nodes, branch'[i].index, k)
      ensures visited[nodes[branch'[i].index].edges[k].destination]
              || (i + 1 < |branch'| && branch'[i + 1].index == nodes[branch'[i].index].edges[k].destination)
    {
      if i < t {
        assert branch'[i] == branch[i] && branch'[i + 1].index == branch[i + 1].index;
      } else {
        assert k < branch[t].nextEdge;
      }
    }
  }

  /** Moving the top frame past an edge keeps the nodes on the stack. */
  lemma AdvanceIndices(branch: seq<Frame>, advanced: Frame, after: seq<Frame>)
    requires |branch| > 0 && advanced.index == branch[|branch| - 1].index && after == branch[|branch| - 1 := advanced]
    ensures StackIndices(after) == StackIndices(branch)
  {
    assert forall i :: 0 <= i < |branch| ==> after[i].index == branch[i].index;
  }

  /** Descending to `d` adds `d` to the nodes on the stack. */
  lemma PushIndices(branch: seq<Frame>, advanced: Frame, d: int, after: seq<Frame>)
    requires |branch| > 0 && advanced.index == branch[|branch| - 1].index
    requires after == branch[|branch| - 1 := advanced] + [Frame(d, 0, 0.0)]
    ensures StackIndices(after) == StackIndices(branch) + {d}
  {
    assert forall i :: 0 <= i < |branch| ==> after[i].index == branch[i].index;
    assert after[|branch|].index == d;
  }

  /** Descending along the top frame's next edge keeps the invariant; the
      destination's path is the top node's path extended by that edge. */
  lemma SearchedPush(nodes: Nodes, visited: seq<bool>, branch: seq<Frame>, builders: seq<CutBuilder>,
                     log: SearchLog, advanced: Frame, after: seq<Frame>)
    returns (logAfter: SearchLog)
    requires EdgesInRange(nodes) && Increasing(branch) && Searched(nodes, visited, branch, builders, log)
    requires Advancing(nodes, visited, branch, advanced)
    requires var top := branch[|branch| - 1]; Descent(nodes, top.index, top.nextEdge)
    requires var top := branch[|branch| - 1];
             var n, e := top.index, top.nextEdge;
             var d := nodes[n].edges[e].destination;
             after == branch[|branch| - 1 := advanced] + [Frame(d, 0, 0.0)]
    ensures Searched(nodes, visited, after, builders, logAfter)
  {
    var t := |branch| - 1;
    var n := branch[t].index;
    var e := branch[t].nextEdge;
    var d := nodes[n].edges[e].destination;
    logAfter := PushedLog(nodes, log, branch[t]);
    PushIndices(branch, advanced, d, after);
    PushShaped(nodes, visited, branch, builders, log, advanced, after, logAfter);
    AdvanceJobs(nodes, visited, branch, builders, builders, log, advanced, logAfter.processed);
    AdvanceProcessed(nodes, visited, branch, after, log, advanced, d, logAfter.processed);
    PushClosed(nodes, visited, branch, advanced, after);
    PushReached(nodes, visited, branch, log, advanced, after, logAfter);
  }

  lemma PushShaped(nodes: Nodes, visited: seq<bool>, branch: seq<Frame>, builders: seq<CutBuilder>,
                   log: SearchLog, advanced: Frame, after: seq<Frame>, logAfter: SearchLog)
    requires EdgesInRange(nodes) && Increasing(branch) && Sized(nodes, visited, branch, log)
    requires StackShaped(nodes, visited, branch, log) && ProcessedKnown(nodes, visited, branch, log.processed)
    requires Advancing(nodes, visited, branch, advanced)
    requires var top := branch[|branch| - 1]; Descent(nodes, top.index, top.nextEdge)
    requires var top := branch[|branch| - 1];
             after == branch[|branch| - 1 := advanced] + [Frame(nodes[top.index].edges[top.nextEdge].destination, 0, 0.0)]
             && logAfter == PushedLog(nodes, log, top)
    ensures Sized(nodes, visited, after, logAfter) && StackShaped(nodes, visited, after, logAfter)
  {
    var t := |branch| - 1;
    var n := branch[t].index;
    var e := branch[t].nextEdge;
    var d := nodes[n].edges[e].destination;
    var branch' := after;
    var log' := logAfter;
    forall i | 0 <= i < |branch'| && branch'[i].nextEdge > 0
      ensures !visited[branch'[i].index] && nodes[branch'[i].index].rating != 1.0
              && log'.processed[branch'[i].index] == branch'[i].nextEdge
    {
      if i < t {
        assert branch'[i] == branch[i] && branch[i].index < n;
      }
    }
    forall i | 0 <= i < |branch'| && branch'[i].nextEdge == 0 && !visited[branch'[i].index]
      ensures log'.processed[branch'[i].index] == 0
    {
      if i == t + 1 {
        assert branch'[i].index == d;
        assert d !in StackIndices(branch) by {
          assert forall m :: 0 <= m < |branch| ==> branch[m].index <= n;
        }
      }
    }
  }

  lemma PushReached(nodes: Nodes, visited: seq<bool>, branch: seq<Frame>, log: SearchLog, advanced: Frame,
                     after: seq<Frame>, logAfter: SearchLog)
    requires EdgesInRange(nodes) && Sized(nodes, visited, branch, log) && Reached(nodes, visited, branch, log)
    requires Advancing(nodes, visited, branch, advanced)
    requires var top := branch[|branch| - 1]; Descent(nodes, top.index, top.nextEdge)
    requires var top := branch[|branch| - 1];
             var d := nodes[top.index].edges[top.nextEdge].destination;
             after == branch[|branch| - 1 := advanced] + [Frame(d, 0, 0.0)]
             && logAfter == PushedLog(nodes, log, top) && StackIndices(after) == StackIndices(branch) + {d}
    ensures Sized(nodes, visited, after, logAfter) && Reached(nodes, visited, after, logAfter)
  {
    var t := |branch| - 1;
    var n := branch[t].index;
    var e := branch[t].nextEdge;
    assert n in StackIndices(branch);
    PathSnoc(nodes, log.pathOf[n], log.ksOf[n], n, e);
  }

  lemma PushClosed(nodes: Nodes, visited: seq<bool>, branch: seq<Frame>, advanced: Frame, after: seq<Frame>)
    requires EdgesInRange(nodes) && |visited| == |nodes| && FramesInRange(nodes, branch) && Closed(nodes, visited, branch)
    requires Advancing(nodes, visited, branch, advanced)
    requires var top := branch[|branch| - 1]; Descent(nodes, top.index, top.nextEdge)
    requires var top := branch[|branch| - 1];
             after == branch[|branch| - 1 := advanced] + [Frame(nodes[top.index].edges[top.nextEdge].destination, 0, 0.0)]
    ensures FramesInRange(nodes, after) && Closed(nodes, visited, after)
  {
    var t := |branch| - 1;
    var n := branch[t].index;
    var e := branch[t].nextEdge;
    var d := nodes[n].edges[e].destination;
    var branch' := after;
    forall i, k | 0 <= i < |branch'| && 0 <= k < branch'[i].nextEdge && k < |nodes[branch'[i].index].edges|
                  && Descent(nodes, branch'[i].index, k)
      ensures visited[nodes[branch'[i].index].edges[k].destination]
              || (i + 1 < |branch'| && branch'[i + 1].index == nodes[branch'[i].index].edges[k].destination)
    {
      if i < t {
        assert branch'[i] == branch[i] && branch'[i + 1].index == branch[i + 1].index;
      } else if i == t && k < e {
        assert branch'[i].index == branch[t].index && k < branch[t].nextEdge;
      }
    }
  }

  /** Once the stack is empty, every examined node has been visited and
      the builders hold exactly the cut jobs of the examined nodes. */
  lemma SearchedDone(nodes: Nodes, visited: seq<bool>, builders: seq<CutBuilder>, log: SearchLog)
    requires EdgesInRange(nodes) && Searched(nodes, visited, [], builders, log)
    ensures forall v :: 0 <= v < |nodes| ==> BuilderJobs(builders, v) == if Examined(nodes, v) then CutJobs(nodes, v) else []
    ensures forall v :: 0 <= v < |nodes| && Examined(nodes, v) ==> visited[v]
  {
    forall v | 0 <= v < |nodes|
      ensures BuilderJobs(builders, v) == if Examined(nodes, v) then CutJobs(nodes, v) else []
      ensures Examined(nodes, v) ==> visited[v]
    {
      if Examined(nodes, v) {
        var path, ks :| IsPath(nodes, path, ks, v);
        PathVisited(nodes, visited, path, ks, v);
      } else {
        assert !(visited[v] && nodes[v].rating != 1.0);
        assert v !in StackIndices([]);
      }
    }
  }

  lemma AdvanceDrops(nodes: Nodes, visited: seq<bool>, branch: seq<Frame>, advanced: Frame)
    requires EdgesInRange(nodes) && |visited| == |nodes| && |branch| > 0
    requires FramesKnown(nodes, branch) && Increasing(branch)
    requires var top := branch[|branch| - 1];
             !(visited[top.index] || nodes[top.index].rating == 1.0 || top.nextEdge >= |nodes[top.index].edges|)
             && advanced == Frame(top.index, top.nextEdge + 1, LargestChildRating(nodes, top.index))
    ensures var after := branch[|branch| - 1 := advanced];
            FramesKnown(nodes, after) && Increasing(after) && MeasureDrops(nodes, visited, branch, after)
  {
    AdvanceDecreases(nodes, visited, branch, advanced);
  }

  lemma PushDrops(nodes: Nodes, visited: seq<bool>, branch: seq<Frame>, advanced: Frame, d: int)
    requires EdgesInRange(nodes) && |visited| == |nodes| && |branch| > 0
    requires FramesKnown(nodes, branch) && Increasing(branch)
    requires var top := branch[|branch| - 1];
             !(visited[top.index] || nodes[top.index].rating == 1.0 || top.nextEdge >= |nodes[top.index].edges|)
             && advanced == Frame(top.index, top.nextEdge + 1, LargestChildRating(nodes, top.index))
             && top.index < d < |nodes|
    ensures var after := branch[|branch| - 1 := advanced] + [Frame(d, 0, 0.0)];
            FramesKnown(nodes, after) && Increasing(after) && MeasureDrops(nodes, visited, branch, after)
  {
    var moved := branch[|branch| - 1 := advanced];
    AdvanceDecreases(nodes, visited, branch, advanced);
    PushKeepsFrames(nodes, moved, d);
    PushDecreases(nodes, visited, moved, d);
  }

  /** One look at the top frame's next edge: the frame moves past it, and
      its job is recorded when it is cut, or the pass descends along it. */
  method LookAtEdge(nodes: Nodes, visited: seq<bool>, branch: seq<Frame>, builders: seq<CutBuilder>, ghost log: SearchLog)
    returns (after: seq<Frame>, updated: seq<CutBuilder>, ghost logAfter: SearchLog)
    requires WellFormed(nodes) && |visited| == |nodes| && FramesKnown(nodes, branch) && Increasing(branch)
    requires SoundBuilders(nodes, builders) && Searched(nodes, visited, branch, builders, log)
    requires |branch| > 0
    requires var top := branch[|branch| - 1];
             !(nodes[top.index].rating == 1.0 || visited[top.index] || top.nextEdge >= |nodes[top.index].edges|)
    ensures FramesKnown(nodes, after) && Increasing(after) && SoundBuilders(nodes, updated)
    ensures Searched(nodes, visited, after, updated, logAfter)
    ensures MeasureDrops(nodes, visited, branch, after)
  {
    var top := |branch| - 1;
    var frame := branch[top];
    var n := frame.index;
    var node := nodes[n];
    var edgeIndex := frame.nextEdge;
    var largest := frame.largestChildRating;
    if edgeIndex == 0 {
      largest := ComputeLargestChildRating(nodes, n);
    }
    var advanced := Frame(n, edgeIndex + 1, largest);
    var current := node.edges[edgeIndex];
    var destination := nodes[current.destination];
    updated := builders;
    if destination.rating == 1.0 || current.destination < n {
      after := branch[top := advanced];
      AdvanceDrops(nodes, visited, branch, advanced);
      logAfter := SearchedAdvance(nodes, visited, branch, builders, updated, log, advanced, after);
      return;
    }
    if destination.rating < 0.4 && destination.rating < largest - 0.4 {
      assert IsCutEdge(nodes, n, nodes[n].edges[edgeIndex]);
      updated := AddCutJob(nodes, builders, n, current.takenJob);
      after := branch[top := advanced];
      AdvanceDrops(nodes, visited, branch, advanced);
      logAfter := SearchedAdvance(nodes, visited, branch, builders, updated, log, advanced, after);
      return;
    }
    var d := current.destination;
    assert d != n;
    after := branch[top := advanced] + [Frame(d, 0, 0.0)];
    PushDrops(nodes, visited, branch, advanced, d);
    logAfter := SearchedPush(nodes, visited, branch, builders, log, advanced, after);
  }

  /** A node on the stack that is rated 1 or less is examined: the
      stack holds only the root and nodes reached by descents. */
  lemma StackedExamined(nodes: Nodes, visited: seq<bool>, branch: seq<Frame>, builders: seq<CutBuilder>, log: SearchLog)
    requires EdgesInRange(nodes) && |branch| > 0 && Searched(nodes, visited, branch, builders, log)
    requires nodes[branch[|branch| - 1].index].rating != 1.0
    ensures Examined(nodes, branch[|branch| - 1].index)
  {
    var n := branch[|branch| - 1].index;
    assert n in StackIndices(branch);
    assert IsPath(nodes, log.pathOf[n], log.ksOf[n], n);
  }

  /** Every node the pass has finished with is rated above 0. */
  predicate VisitedPositive(nodes: Nodes, visited: seq<bool>)
    requires |visited| == |nodes|
  {
    forall v :: 0 <= v < |nodes| && visited[v] ==> nodes[v].rating > 0.0
  }

  /** Popping a node rated above 0 that the pass is done with keeps the
      loop's invariant and lowers its measure. */
  lemma PopKeeps(nodes: Nodes, visited: seq<bool>, branch: seq<Frame>, builders: seq<CutBuilder>, log: SearchLog)
    requires EdgesInRange(nodes) && |visited| == |nodes| && |branch| > 0
    requires FramesKnown(nodes, branch) && Increasing(branch)
    requires Searched(nodes, visited, branch, builders, log) && VisitedPositive(nodes, visited)
    requires var top := branch[|branch| - 1];
             nodes[top.index].rating > 0.0
             && (nodes[top.index].rating == 1.0 || visited[top.index] || top.nextEdge >= |nodes[top.index].edges|)
    ensures var n := branch[|branch| - 1].index;
            var prefix := branch[..|branch| - 1];
            FramesKnown(nodes, prefix) && Increasing(prefix)
            && Searched(nodes, visited[n := true], prefix, builders, log)
            && VisitedPositive(nodes, visited[n := true])
            && Unvisited(visited[n := true], prefix) == Unvisited(visited, branch)
            && StackCost(nodes, visited[n := true], prefix) < StackCost(nodes, visited, branch)
  {
    PopDecreases(nodes, visited, branch);
    SearchedPop(nodes, visited, branch, builders, log);
  }

  /** The depth-first pass of `cut_rating_graph`. It gives up (the
      assertion of the source) exactly when one of the nodes it examines is
      rated 0 or less; otherwise the builder of each examined node holds
      exactly the jobs of its cut edges, in edge order, and no other node
      has a builder. */
  method FindCutBuilders(nodes: Nodes) returns (r: Option<seq<CutBuilder>>)
    requires WellFormed(nodes)
    ensures r.Some? ==> SoundBuilders(nodes, r.value)
    ensures r.Some? ==> forall v :: 0 <= v < |nodes| ==>
              BuilderJobs(r.value, v) == if Examined(nodes, v) then CutJobs(nodes, v) else []
    ensures r.None? <==> exists v :: 0 <= v < |nodes| && Examined(nodes, v) && nodes[v].rating <= 0.0
  {
    var builders: seq<CutBuilder> := [];
    var visited := seq(|nodes|, _ => false);
    var branch := [Frame(0, 0, 0.0)];
    ghost var log := SearchLog(seq(|nodes|, _ => 0), seq(|nodes|, _ => [0]), seq(|nodes|, _ => []));
    SearchedStart(nodes);
    while |branch| > 0
      invariant |visited| == |nodes|
      invariant FramesKnown(nodes, branch) && Increasing(branch)
      invariant SoundBuilders(nodes, builders)
      invariant Searched(nodes, visited, branch, builders, log)
      invariant VisitedPositive(nodes, visited)
      decreases |Unvisited(visited, branch)|, StackCost(nodes, visited, branch)
    {
      var top := |branch| - 1;
      var frame := branch[top];
      var n := frame.index;
      var node := nodes[n];
      if !(node.rating > 0.0) {
        StackedExamined(nodes, visited, branch, builders, log);
        return None;
      }
      if node.rating == 1.0 || visited[n] || frame.nextEdge >= |node.edges| {
        PopKeeps(nodes, visited, branch, builders, log);
        visited := visited[n := true];
        branch := branch[..top];
      } else {
        branch, builders, log := LookAtEdge(nodes, visited, branch, builders, log);
      }
    }
    SearchedDone(nodes, visited, builders, log);
    return Some(builders);
  }

  // ---- back-tracking to the root ----

  /** The first edge of a node leading to a lower index, or -1. */
  function FirstLowerEdge(edges: seq<RatingEdge>, n: int): (k: int)
    ensures -1 <= k < |edges|
    ensures k >= 0 ==> edges[k].destination < n && forall m :: 0 <= m < k ==> edges[m].destination >= n
    ensures k == -1 ==> forall m :: 0 <= m < |edges| ==> edges[m].destination >= n
  {
    if edges == [] then -1
    else if edges[0].destination < n then 0
    else
      var k := FirstLowerEdge(edges[1..], n);
      if k == -1 then -1 else k + 1
  }

  /** The jobs on the way back from `n` to the root, following each
      node's first edge to a lower index. */
  function BacktrackJobs(nodes: Nodes, n: int): set<nat>
    requires WellFormed(nodes) && 0 <= n < |nodes|
    decreases n
  {
    if n <= 0 then {}
    else
      assert HasParentEdge(nodes, n);
      var k := FirstLowerEdge(nodes[n].edges, n);
      assert k >= 0;
      var e := nodes[n].edges[k];
      {e.takenJob} + BacktrackJobs(nodes, e.destination)
  }

  /** The inner loop of back-tracking: the first edge to a lower index. */
  method FindLowerEdge(edges: seq<RatingEdge>, n: int) returns (k: int)
    ensures k == FirstLowerEdge(edges, n)
  {
    k := 0;
    while k < |edges|
      invariant 0 <= k <= |edges|
      invariant forall m :: 0 <= m < k ==> edges[m].destination >= n
    {
      if edges[k].destination < n {
        return k;
      }
      k := k + 1;
    }
    return -1;
  }

  /** The back-tracking loop of one cut builder: from its node to the
      root, the job of every edge followed goes into `previous`. */
  method Backtrack(nodes: Nodes, from: int) returns (previous: IndexCollection)
    requires WellFormed(nodes) && 0 <= from < |nodes|
    ensures fresh(previous) && previous.Valid()
    ensures previous.Elements() == BacktrackJobs(nodes, from)
  {
    previous := new IndexCollection();
    var index := from;
    while index > 0
      invariant 0 <= index < |nodes|
      invariant previous.Valid() && fresh(previous)
      invariant previous.Elements() + BacktrackJobs(nodes, index) == BacktrackJobs(nodes, from)
      decreases index
    {
      assert HasParentEdge(nodes, index);
      var k := FindLowerEdge(nodes[index].edges, index);
      assert k >= 0;
      var e := nodes[index].edges[k];
      index := e.destination;
      previous.Insert(e.takenJob);
    }
  }

  /** With the builders the pass yields, each builder belongs to an
      examined node and holds all its cut jobs, and every examined node with
      a cut edge has a builder. */
  lemma BuildersExact(nodes: Nodes, builders: seq<CutBuilder>)
    requires EdgesInRange(nodes) && SoundBuilders(nodes, builders)
    requires forall v :: 0 <= v < |nodes| ==> BuilderJobs(builders, v) == if Examined(nodes, v) then CutJobs(nodes, v) else []
    ensures forall i :: 0 <= i < |builders| ==>
              Examined(nodes, builders[i].nodeIndex) && builders[i].forbiddenJobs == CutJobs(nodes, builders[i].nodeIndex)
    ensures forall v :: 0 <= v < |nodes| && Examined(nodes, v) && CutJobs(nodes, v) != [] ==>
              exists i :: 0 <= i < |builders| && builders[i].nodeIndex == v
  {
    forall i | 0 <= i < |builders|
      ensures Examined(nodes, builders[i].nodeIndex) && builders[i].forbiddenJobs == CutJobs(nodes, builders[i].nodeIndex)
    {
      BuilderJobsAt(builders, i);
    }
    forall v | 0 <= v < |nodes| && Examined(nodes, v) && CutJobs(nodes, v) != []
      ensures exists i :: 0 <= i < |builders| && builders[i].nodeIndex == v
    {
      if forall i :: 0 <= i < |builders| ==> builders[i].nodeIndex != v {
        BuilderJobsMissing(builders, v);
      }
    }
  }

  /** One cut per builder, in order, each forbidding its builder's first
      job: the cuts then come from exactly the examined nodes with a cut
      edge, and each forbids the job of its node's first cut edge. */
  lemma CutsFollowBuilders(nodes: Nodes, builders: seq<CutBuilder>, cutNodes: seq<int>, jobs: seq<nat>)
    requires EdgesInRange(nodes) && SoundBuilders(nodes, builders)
    requires forall v :: 0 <= v < |nodes| ==> BuilderJobs(builders, v) == if Examined(nodes, v) then CutJobs(nodes, v) else []
    requires |cutNodes| == |builders| && |jobs| == |builders|
    requires forall m :: 0 <= m < |builders| ==> cutNodes[m] == builders[m].nodeIndex && jobs[m] == builders[m].forbiddenJobs[0]
    ensures forall i :: 0 <= i < |jobs| ==>
              Examined(nodes, cutNodes[i]) && CutJobs(nodes, cutNodes[i]) != [] && jobs[i] == CutJobs(nodes, cutNodes[i])[0]
    ensures forall v :: 0 <= v < |nodes| && Examined(nodes, v) && CutJobs(nodes, v) != [] ==> v in cutNodes
  {
    BuildersExact(nodes, builders);
    forall v | 0 <= v < |nodes| && Examined(nodes, v) && CutJobs(nodes, v) != []
      ensures v in cutNodes
    {
      var i :| 0 <= i < |builders| && builders[i].nodeIndex == v;
      assert cutNodes[i] == v;
    }
  }

  /** The second loop of `cut_rating_graph`: one cut per builder, in
      order, holding the jobs back to the root and the builder's first job. */
  method BuildCuts(nodes: Nodes, builders: seq<CutBuilder>) returns (cuts: seq<RatingGraphCut>, ghost cutNodes: seq<int>)
    requires WellFormed(nodes) && SoundBuilders(nodes, builders)
    ensures |cuts| == |builders| && |cutNodes| == |builders|
    ensures forall m :: 0 <= m < |builders| ==>
              cutNodes[m] == builders[m].nodeIndex
              && fresh(cuts[m].previousJobs) && cuts[m].previousJobs.Valid()
              && cuts[m].forbiddenJob == builders[m].forbiddenJobs[0]
              && cuts[m].previousJobs.Elements() == BacktrackJobs(nodes, builders[m].nodeIndex)
  {
    cuts := [];
    cutNodes := [];
    var i := 0;
    while i < |builders|
      invariant 0 <= i <= |builders| && |cuts| == i && cutNodes == seq(i, m requires 0 <= m < i => builders[m].nodeIndex)
      invariant forall m :: 0 <= m < i ==>
                  fresh(cuts[m].previousJobs) && cuts[m].previousJobs.Valid()
                  && cuts[m].forbiddenJob == builders[m].forbiddenJobs[0]
                  && cuts[m].previousJobs.Elements() == BacktrackJobs(nodes, builders[m].nodeIndex)
    {
      var previous := Backtrack(nodes, builders[i].nodeIndex);
      cuts := cuts + [RatingGraphCut(previous, builders[i].forbiddenJobs[0])];
      cutNodes := cutNodes + [builders[i].nodeIndex];
      i := i + 1;
    }
  }

  /** `cut_rating_graph`: the depth-first pass, then one cut per builder.
      It gives up exactly when the pass does: an examined node is rated 0
      or less. `cutNodes` names the node each cut belongs to: the cuts come from
      exactly the examined nodes with a cut edge, and each forbids the job
      of that node's first cut edge. */
  method CutRatingGraph(graph: RatingGraph) returns (r: Option<seq<RatingGraphCut>>, ghost cutNodes: seq<int>)
    requires graph.Valid()
    ensures r.None? <==> exists v :: 0 <= v < |graph.nodes| && Examined(graph.nodes, v) && graph.nodes[v].rating <= 0.0
    ensures r.Some? ==>
              |cutNodes| == |r.value|
              && (forall i, j :: 0 <= i < j < |cutNodes| ==> cutNodes[i] != cutNodes[j])
              && forall i :: 0 <= i < |r.value| ==>
                   0 <= cutNodes[i] < |graph.nodes|
                   && fresh(r.value[i].previousJobs) && r.value[i].previousJobs.Valid()
                   && IsCutJob(graph.nodes, cutNodes[i], r.value[i].forbiddenJob)
                   && r.value[i].previousJobs.Elements() == BacktrackJobs(graph.nodes, cutNodes[i])
    ensures r.Some? ==>
              forall i :: 0 <= i < |r.value| ==>
                Examined(graph.nodes, cutNodes[i]) && CutJobs(graph.nodes, cutNodes[i]) != []
                && r.value[i].forbiddenJob == CutJobs(graph.nodes, cutNodes[i])[0]
    ensures r.Some? ==>
              forall v :: 0 <= v < |graph.nodes| && Examined(graph.nodes, v) && CutJobs(graph.nodes, v) != [] ==> v in cutNodes
  {
    var nodes := graph.nodes;
    var found := FindCutBuilders(nodes);
    cutNodes := [];
    if found.None? {
      return None, cutNodes;
    }
    var cuts;
    cuts, cutNodes := BuildCuts(nodes, found.value);
    CutsFollowBuilders(nodes, found.value, cutNodes, seq(|cuts|, m requires 0 <= m < |cuts| => cuts[m].forbiddenJob));
    return Some(cuts), cutNodes;
  }
}
