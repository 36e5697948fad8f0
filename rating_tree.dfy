/** `Rating_tree`: the forward-edge-only predecessor of `Rating_graph`, and
    `Agent_rating_tree`, the agent that records a search into it. Unlike
    the rating graph, an edge here may point to any node, and
    `compute_ratings` counts every edge of a node. */
module RatingTrees {
  import opened ProblemModel
  import opened Search

  /** An edge to the node `childIndex`, taken with job `takenJob`. */
  datatype RatingEdge = RatingEdge(childIndex: int, takenJob: nat)

  /** A node: its outgoing edges and its rating (0 at creation, -1 for a
      missed deadline, 1 for success until `compute_ratings`). */
  datatype RatingNode = RatingNode(children: seq<RatingEdge>, rating: real)

  /** A value-initialised `Rating_node{}`. */
  const FreshNode: RatingNode := RatingNode([], 0.0)

  type Nodes = seq<RatingNode>

  /** Every edge of the nodes `0..upTo` leads to an existing node. */
  predicate EdgesInRangeUpTo(nodes: Nodes, upTo: int) {
    forall u, k :: 0 <= u < |nodes| && u <= upTo && 0 <= k < |nodes[u].children| ==>
      0 <= nodes[u].children[k].childIndex < |nodes|
  }

  predicate EdgesInRange(nodes: Nodes) {
    EdgesInRangeUpTo(nodes, |nodes|)
  }

  /** Every edge leads to a node with a higher index. */
  predicate AllForward(nodes: Nodes) {
    forall u, k :: 0 <= u < |nodes| && 0 <= k < |nodes[u].children| ==> nodes[u].children[k].childIndex > u
  }

  /** Before `compute_ratings`, ratings are only ever 0, -1 or 1. */
  predicate RecordedRatings(nodes: Nodes) {
    forall i :: 0 <= i < |nodes| ==> nodes[i].rating in {-1.0, 0.0, 1.0}
  }

  /** The set of nodes the edges of a node lead to. */
  function ChildSet(children: seq<RatingEdge>): set<int> {
    set k | 0 <= k < |children| :: children[k].childIndex
  }

  /** `will_miss_deadline` as intended (the test of `Rating_graph`): the
      parent has missed a deadline, or some edge taken with `job` leads to
      a node that has. */
  predicate WillMiss(nodes: Nodes, parent: int, job: nat)
    requires EdgesInRange(nodes) && 0 <= parent < |nodes|
  {
    nodes[parent].rating == -1.0
    || exists k :: 0 <= k < |nodes[parent].children| && nodes[parent].children[k].takenJob == job
                   && nodes[nodes[parent].children[k].childIndex].rating == -1.0
  }

  /** `will_miss_deadline` as written: the job index is compared with the
      child's node index instead of the edge's job. */
  predicate WillMissAsWritten(nodes: Nodes, parent: int, job: nat)
    requires EdgesInRange(nodes) && 0 <= parent < |nodes|
  {
    nodes[parent].rating == -1.0
    || exists k :: 0 <= k < |nodes[parent].children| && nodes[parent].children[k].childIndex == job
                   && nodes[nodes[parent].children[k].childIndex].rating == -1.0
  }

  /** As written, the test misses a failing child reached with the job
      asked about, and blames a job the parent never took. */
  lemma WillMissAsWrittenDisagrees()
    ensures var nodes := [RatingNode([RatingEdge(1, 5)], 0.0), RatingNode([], -1.0)];
            EdgesInRange(nodes)
            && WillMiss(nodes, 0, 5) && !WillMissAsWritten(nodes, 0, 5)
            && !WillMiss(nodes, 0, 1) && WillMissAsWritten(nodes, 0, 1)
  {
    var nodes := [RatingNode([RatingEdge(1, 5)], 0.0), RatingNode([], -1.0)];
    assert nodes[0].children[0].takenJob == 5;
    assert nodes[0].children[0].childIndex == 1;
  }

  // ---- what `compute_ratings` does, step by step ----

  /** The rating of node `i` after the first `k` additions of the loop
      `node.rating += nodes[edge.child_index].rating`; an edge back to the
      node itself adds the running value. */
  function Accumulated(cur: Nodes, i: int, k: nat): real
    requires EdgesInRangeUpTo(cur, i) && 0 <= i < |cur| && k <= |cur[i].children|
  {
    if k == 0 then cur[i].rating
    else
      var r := Accumulated(cur, i, k - 1);
      var child := cur[i].children[k - 1].childIndex;
      r + (if child == i then r else cur[child].rating)
  }

  /** The node `i` becomes once the loop reaches it: a -1 node is reset to
      0 and loses its edges; any other node sums its children's current
      ratings into its own and averages over its edges when it has more
      than one. */
  function Processed(cur: Nodes, i: int): RatingNode
    requires EdgesInRangeUpTo(cur, i) && 0 <= i < |cur|
  {
    if cur[i].rating == -1.0 then RatingNode([], 0.0)
    else
      var r := Accumulated(cur, i, |cur[i].children|);
      var size := |cur[i].children|;
      cur[i].(rating := if size > 1 then r / (size as real) else r)
  }

  /** The nodes after the loop has processed the indices `i` down to 0. */
  function RunFrom(cur: Nodes, i: int): (r: Nodes)
    requires EdgesInRangeUpTo(cur, i) && -1 <= i < |cur|
    ensures |r| == |cur|
    ensures forall j :: i < j < |cur| ==> r[j] == cur[j]
    decreases i + 1
  {
    if i < 0 then cur
    else RunFrom(cur[i := Processed(cur, i)], i - 1)
  }

  // ---- the intended ratings, for trees whose edges all lead forward ----

  /** The rating of node `i`: 0 for a missed deadline; otherwise its own
      rating plus its children's, averaged over its edges. */
  function TreeRating(nodes: Nodes, i: int): real
    requires EdgesInRange(nodes) && 0 <= i < |nodes|
    decreases |nodes| - i, 1
  {
    if nodes[i].rating == -1.0 then 0.0
    else
      var size := |nodes[i].children|;
      var total := nodes[i].rating + ChildSum(nodes, i, size);
      if size > 1 then total / (size as real) else total
  }

  /** The sum of the ratings of the forward children among the first `k` edges of `i`. */
  function ChildSum(nodes: Nodes, i: int, k: nat): real
    requires EdgesInRange(nodes) && 0 <= i < |nodes| && k <= |nodes[i].children|
    decreases |nodes| - i, 0, k
  {
    if k == 0 then 0.0
    else
      var child := nodes[i].children[k - 1].childIndex;
      ChildSum(nodes, i, k - 1) + (if child > i then TreeRating(nodes, child) else 0.0)
  }

  /** With all edges forward, the additions of the loop at node `i` sum
      exactly the intended ratings of its children, once those are final. */
  lemma {:induction false} AccumulatedIsChildSum(orig: Nodes, cur: Nodes, i: int, k: nat)
    requires EdgesInRange(orig) && AllForward(orig) && |cur| == |orig| && 0 <= i < |orig|
    requires cur[i] == orig[i] && EdgesInRangeUpTo(cur, i) && k <= |orig[i].children|
    requires forall j :: i < j < |cur| ==> cur[j].rating == TreeRating(orig, j)
    ensures Accumulated(cur, i, k) == orig[i].rating + ChildSum(orig, i, k)
  {
    if k > 0 {
      AccumulatedIsChildSum(orig, cur, i, k - 1);
      assert orig[i].children[k - 1].childIndex > i;
    }
  }

  /** The loop computes the intended ratings of a tree whose edges all
      lead forward. */
  lemma {:induction false} RunFromComputesTreeRating(orig: Nodes, cur: Nodes, i: int)
    requires EdgesInRange(orig) && AllForward(orig) && |cur| == |orig| && -1 <= i < |orig|
    requires EdgesInRangeUpTo(cur, i)
    requires forall j :: 0 <= j <= i ==> cur[j] == orig[j]
    requires forall j :: i < j < |cur| ==> cur[j].rating == TreeRating(orig, j)
    ensures |RunFrom(cur, i)| == |orig|
    ensures forall j :: 0 <= j < |orig| ==> RunFrom(cur, i)[j].rating == TreeRating(orig, j)
    decreases i + 1
  {
    if i >= 0 {
      var node := Processed(cur, i);
      if cur[i].rating != -1.0 {
        AccumulatedIsChildSum(orig, cur, i, |orig[i].children|);
      }
      assert node.rating == TreeRating(orig, i);
      var next := cur[i := node];
      assert EdgesInRangeUpTo(next, i - 1) by {
        forall u, k | 0 <= u < |next| && u <= i - 1 && 0 <= k < |next[u].children|
          ensures 0 <= next[u].children[k].childIndex < |next|
        {
          assert next[u] == orig[u];
        }
      }
      RunFromComputesTreeRating(orig, next, i - 1);
    }
  }

  /** After the whole loop, a tree whose edges all lead forward carries its
      intended ratings. */
  lemma ComputedRatingsOfForwardTree(orig: Nodes)
    requires |orig| >= 1 && EdgesInRange(orig) && AllForward(orig)
    ensures |RunFrom(orig, |orig| - 1)| == |orig|
    ensures forall j :: 0 <= j < |orig| ==> RunFrom(orig, |orig| - 1)[j].rating == TreeRating(orig, j)
  {
    RunFromComputesTreeRating(orig, orig, |orig| - 1);
  }

  /** When every recorded rating is -1, 0 or 1 and only childless nodes
      are rated 1, every intended rating lies in [0, 1]: no -1 is left. */
  lemma {:induction false} TreeRatingInUnitInterval(nodes: Nodes, i: int)
    requires EdgesInRange(nodes) && 0 <= i < |nodes| && RecordedRatings(nodes)
    requires forall j :: 0 <= j < |nodes| && nodes[j].rating == 1.0 ==> nodes[j].children == []
    ensures 0.0 <= TreeRating(nodes, i) <= 1.0
    decreases |nodes| - i, 1
  {
    if nodes[i].rating != -1.0 {
      var size := |nodes[i].children|;
      ChildSumBounds(nodes, i, size);
      if size > 1 {
        assert nodes[i].rating == 0.0;
        assert (nodes[i].rating + ChildSum(nodes, i, size)) / (size as real) <= 1.0;
      }
    }
  }

  lemma {:induction false} ChildSumBounds(nodes: Nodes, i: int, k: nat)
    requires EdgesInRange(nodes) && 0 <= i < |nodes| && k <= |nodes[i].children| && RecordedRatings(nodes)
    requires forall j :: 0 <= j < |nodes| && nodes[j].rating == 1.0 ==> nodes[j].children == []
    ensures 0.0 <= ChildSum(nodes, i, k) <= k as real
    decreases |nodes| - i, 0, k
  {
    if k > 0 {
      ChildSumBounds(nodes, i, k - 1);
      var child := nodes[i].children[k - 1].childIndex;
      if child > i {
        TreeRatingInUnitInterval(nodes, child);
      }
    }
  }

  class RatingTree {
    var nodes: Nodes

    ghost predicate Valid()
      reads this
    {
      |nodes| >= 1 && EdgesInRange(nodes)
    }

    /** A tree holding only the root, rated 0. */
    constructor()
      ensures Valid() && nodes == [FreshNode]
    {
      nodes := [FreshNode];
    }

    /** `will_miss_deadline`, with its edge test corrected to compare jobs. */
    method WillMissDeadline(parent: int, job: nat) returns (b: bool)
      requires Valid() && 0 <= parent < |nodes|
      ensures b <==> WillMiss(nodes, parent, job)
    {
      if nodes[parent].rating == -1.0 {
        return true;
      }
      var k := 0;
      while k < |nodes[parent].children|
        invariant 0 <= k <= |nodes[parent].children|
        invariant forall m :: 0 <= m < k ==> !(nodes[parent].children[m].takenJob == job
                                              && nodes[nodes[parent].children[m].childIndex].rating == -1.0)
      {
        var edge := nodes[parent].children[k];
        if edge.takenJob == job && nodes[edge.childIndex].rating == -1.0 {
          return true;
        }
        k := k + 1;
      }
      return false;
    }

    /** `add_node`: unless taking `job` from `parent` is known to miss a
        deadline (then the parent is returned and nothing changes), a new
        last node is added with one edge to it from the parent. */
    method AddNode(parent: int, job: nat) returns (child: int)
      requires Valid() && 0 <= parent < |nodes|
      modifies this
      ensures Valid()
      ensures AllForward(old(nodes)) ==> AllForward(nodes)
      ensures RecordedRatings(old(nodes)) ==> RecordedRatings(nodes)
      ensures WillMiss(old(nodes), parent, job) ==> child == parent && nodes == old(nodes)
      ensures !WillMiss(old(nodes), parent, job) ==>
                child == |old(nodes)|
                && nodes == old(nodes)[parent := old(nodes)[parent].(children := old(nodes)[parent].children + [RatingEdge(child, job)])]
                            + [FreshNode]
    {
      var miss := WillMissDeadline(parent, job);
      if miss {
        return parent;
      }
      child := |nodes|;
      nodes := nodes[parent := nodes[parent].(children := nodes[parent].children + [RatingEdge(child, job)])];
      nodes := nodes + [FreshNode];
      assert forall u :: 0 <= u < |nodes| - 1 && u != parent ==> nodes[u] == old(nodes)[u];
    }

    /** `insert_edge`: one more edge, between any two existing nodes. */
    method InsertEdge(parent: int, child: int, job: nat)
      requires Valid() && 0 <= parent < |nodes| && 0 <= child < |nodes|
      modifies this
      ensures Valid()
      ensures RecordedRatings(old(nodes)) ==> RecordedRatings(nodes)
      ensures AllForward(old(nodes)) && parent < child ==> AllForward(nodes)
      ensures nodes == old(nodes)[parent := old(nodes)[parent].(children := old(nodes)[parent].children + [RatingEdge(child, job)])]
    {
      nodes := nodes[parent := nodes[parent].(children := nodes[parent].children + [RatingEdge(child, job)])];
      assert forall u :: 0 <= u < |nodes| && u != parent ==> nodes[u] == old(nodes)[u];
    }

    /** `set_missed_deadline`: the node is rated -1. */
    method SetMissedDeadline(n: int)
      requires Valid() && 0 <= n < |nodes|
      modifies this
      ensures Valid()
      ensures RecordedRatings(old(nodes)) ==> RecordedRatings(nodes)
      ensures AllForward(old(nodes)) ==> AllForward(nodes)
      ensures nodes == old(nodes)[n := old(nodes)[n].(rating := -1.0)]
    {
      nodes := nodes[n := nodes[n].(rating := -1.0)];
    }

    /** `set_successful`: a childless node is rated 1, and so is every node
        one of its edges leads to. */
    method SetSuccessful(n: int)
      requires Valid() && 0 <= n < |nodes|
      modifies this
      ensures Valid()
      ensures RecordedRatings(old(nodes)) ==> RecordedRatings(nodes)
      ensures AllForward(old(nodes)) ==> AllForward(nodes)
      ensures |nodes| == |old(nodes)|
      ensures forall i :: 0 <= i < |nodes| ==> nodes[i].children == old(nodes)[i].children
      ensures forall i :: 0 <= i < |nodes| ==>
                nodes[i].rating == if i in ChildSet(old(nodes)[n].children) then 1.0
                                   else if i == n && old(nodes)[n].children == [] then 1.0
                                   else old(nodes)[i].rating
    {
      if |nodes[n].children| == 0 {
        nodes := nodes[n := nodes[n].(rating := 1.0)];
      }
      ghost var start := nodes;
      var children := nodes[n].children;
      var k := 0;
      while k < |children|
        invariant 0 <= k <= |children|
        invariant |nodes| == |start|
        invariant forall i :: 0 <= i < |nodes| ==> nodes[i].children == start[i].children
        invariant forall i :: 0 <= i < |nodes| ==>
                    nodes[i].rating == if i in ChildSet(children[..k]) then 1.0 else start[i].rating
      {
        var edge := children[k];
        ChildSetPrefix(children, k);
        nodes := nodes[edge.childIndex := nodes[edge.childIndex].(rating := 1.0)];
        k := k + 1;
      }
      assert children[..|children|] == children;
      SameChildren(old(nodes), nodes);
    }

    /** `compute_ratings`: the nodes are processed from the last to the root. */
    method ComputeRatings()
      requires Valid()
      modifies this
      ensures Valid()
      ensures nodes == RunFrom(old(nodes), |old(nodes)| - 1)
    {
      var index := |nodes| - 1;
      while index >= 0
        invariant -1 <= index < |nodes|
        invariant Valid()
        invariant RunFrom(nodes, index) == RunFrom(old(nodes), |old(nodes)| - 1)
      {
        ghost var cur := nodes;
        if nodes[index].rating == -1.0 {
          // a missed deadline scores 0 and its edges are dropped
          nodes := nodes[index := nodes[index].(rating := 0.0, children := [])];
        } else {
          var k := 0;
          while k < |nodes[index].children|
            invariant 0 <= k <= |cur[index].children|
            invariant nodes == cur[index := cur[index].(rating := Accumulated(cur, index, k))]
          {
            var edge := nodes[index].children[k];
            nodes := nodes[index := nodes[index].(rating := nodes[index].rating + nodes[edge.childIndex].rating)];
            k := k + 1;
          }
          if |nodes[index].children| > 1 {
            nodes := nodes[index := nodes[index].(rating := nodes[index].rating / (|nodes[index].children| as real))];
          }
        }
        assert nodes == cur[index := Processed(cur, index)];
        ProcessedInRange(cur, index);
        index := index - 1;
      }
    }
  }

  /** Processing a node keeps every edge in range. */
  lemma ProcessedInRange(cur: Nodes, i: int)
    requires EdgesInRange(cur) && 0 <= i < |cur|
    ensures EdgesInRange(cur[i := Processed(cur, i)])
  {
    var next := cur[i := Processed(cur, i)];
    forall u, k | 0 <= u < |next| && 0 <= k < |next[u].children|
      ensures 0 <= next[u].children[k].childIndex < |next|
    {
      assert next[u].children[k] == cur[u].children[k];
    }
  }

  /** Changing ratings alone keeps edges in range and forward. */
  lemma SameChildren(a: Nodes, b: Nodes)
    requires |a| == |b| && forall i :: 0 <= i < |a| ==> a[i].children == b[i].children
    ensures EdgesInRange(a) ==> EdgesInRange(b)
    ensures AllForward(a) ==> AllForward(b)
  {
  }

  lemma ChildSetPrefix(children: seq<RatingEdge>, k: nat)
    requires k < |children|
    ensures ChildSet(children[..k + 1]) == ChildSet(children[..k]) + {children[k].childIndex}
  {
    var longer := children[..k + 1];
    assert forall m :: 0 <= m < k ==> longer[m] == children[..k][m];
    assert longer[k] == children[k];
  }

  /** `Attachment_rating_node` of the tree: the tree node a search node maps to. */
  datatype RatingNodeAttachment = RatingNodeAttachment(index: int)

  /** `Agent_rating_tree`. */
  class RatingTreeAgent {
    const ratingTree: RatingTree

    constructor(tree: RatingTree)
      ensures ratingTree == tree
    {
      ratingTree := tree;
    }

    /** `create_initial_node_attachment`: index 0, the root. */
    function CreateInitialNodeAttachment(): (a: RatingNodeAttachment)
      ensures a.index == 0
    {
      RatingNodeAttachment(0)
    }

    /** `create_next_node_attachment`: the node `add_node` returns. */
    method CreateNextNodeAttachment(parent: RatingNodeAttachment, nextJob: Job) returns (a: RatingNodeAttachment)
      requires ratingTree.Valid() && 0 <= parent.index < |ratingTree.nodes|
      modifies ratingTree
      ensures ratingTree.Valid() && 0 <= a.index < |ratingTree.nodes|
      ensures |old(ratingTree.nodes)| <= |ratingTree.nodes|
      ensures RecordedRatings(old(ratingTree.nodes)) ==> RecordedRatings(ratingTree.nodes)
      ensures a.index == if WillMiss(old(ratingTree.nodes), parent.index, nextJob.index)
                         then parent.index else |old(ratingTree.nodes)|
      ensures WillMiss(old(ratingTree.nodes), parent.index, nextJob.index) ==> ratingTree.nodes == old(ratingTree.nodes)
      ensures !WillMiss(old(ratingTree.nodes), parent.index, nextJob.index) ==>
                ratingTree.nodes
                == old(ratingTree.nodes)[parent.index := old(ratingTree.nodes)[parent.index].(children := old(ratingTree.nodes)[parent.index].children + [RatingEdge(a.index, nextJob.index)])]
                   + [FreshNode]
    {
      var child := ratingTree.AddNode(parent.index, nextJob.index);
      a := RatingNodeAttachment(child);
    }

    /** `merge_node_attachments`: an edge from the parent's node to the destination's. */
    method MergeNodeAttachments(destination: RatingNodeAttachment, parent: RatingNodeAttachment, nextJob: Job)
      requires ratingTree.Valid() && 0 <= parent.index < |ratingTree.nodes| && 0 <= destination.index < |ratingTree.nodes|
      modifies ratingTree
      ensures ratingTree.Valid() && |ratingTree.nodes| == |old(ratingTree.nodes)|
      ensures RecordedRatings(old(ratingTree.nodes)) ==> RecordedRatings(ratingTree.nodes)
      ensures ratingTree.nodes
           == old(ratingTree.nodes)[parent.index := old(ratingTree.nodes)[parent.index].(children := old(ratingTree.nodes)[parent.index].children + [RatingEdge(destination.index, nextJob.index)])]
    {
      ratingTree.InsertEdge(parent.index, destination.index, nextJob.index);
    }

    /** `missed_deadline`: the node is rated -1. */
    method MissedDeadline(failed: RatingNodeAttachment, lateJob: Job)
      requires ratingTree.Valid() && 0 <= failed.index < |ratingTree.nodes|
      modifies ratingTree
      ensures ratingTree.Valid() && |ratingTree.nodes| == |old(ratingTree.nodes)|
      ensures RecordedRatings(old(ratingTree.nodes)) ==> RecordedRatings(ratingTree.nodes)
      ensures ratingTree.nodes == old(ratingTree.nodes)[failed.index := old(ratingTree.nodes)[failed.index].(rating := -1.0)]
    {
      ratingTree.SetMissedDeadline(failed.index);
    }

    /** `finished_node`: `set_successful` at the node. */
    method FinishedNode(finished: RatingNodeAttachment)
      requires ratingTree.Valid() && 0 <= finished.index < |ratingTree.nodes|
      modifies ratingTree
      ensures ratingTree.Valid() && |ratingTree.nodes| == |old(ratingTree.nodes)|
      ensures RecordedRatings(old(ratingTree.nodes)) ==> RecordedRatings(ratingTree.nodes)
      ensures forall i :: 0 <= i < |ratingTree.nodes| ==> ratingTree.nodes[i].children == old(ratingTree.nodes)[i].children
      ensures forall i :: 0 <= i < |ratingTree.nodes| ==>
                ratingTree.nodes[i].rating
                == if i in ChildSet(old(ratingTree.nodes)[finished.index].children) then 1.0
                   else if i == finished.index && old(ratingTree.nodes)[finished.index].children == [] then 1.0
                   else old(ratingTree.nodes)[i].rating
    {
      ratingTree.SetSuccessful(finished.index);
    }

    /** `is_allowed`: unless taking the job is known to miss a deadline. */
    method IsAllowed(at: RatingNodeAttachment, nextJob: Job) returns (allowed: bool)
      requires ratingTree.Valid() && 0 <= at.index < |ratingTree.nodes|
      ensures allowed <==> !WillMiss(ratingTree.nodes, at.index, nextJob.index)
    {
      var miss := ratingTree.WillMissDeadline(at.index, nextJob.index);
      allowed := !miss;
    }

    /** `allow_merge`: the destination has not missed a deadline and taking
        the job from the parent is not known to miss one. */
    method AllowMerge(parent: RatingNodeAttachment, takenJob: Job, destination: RatingNodeAttachment) returns (allowed: bool)
      requires ratingTree.Valid() && 0 <= parent.index < |ratingTree.nodes| && 0 <= destination.index < |ratingTree.nodes|
      ensures allowed <==> ratingTree.nodes[destination.index].rating != -1.0
                           && !WillMiss(ratingTree.nodes, parent.index, takenJob.index)
    {
      var miss := ratingTree.WillMissDeadline(parent.index, takenJob.index);
      allowed := ratingTree.nodes[destination.index].rating != -1.0 && !miss;
    }
  }

  /** What `generate` has recorded so far: the tree's nodes and the
      attachment of every search node. */
  datatype Recording = Recording(nodes: Nodes, attachments: seq<RatingNodeAttachment>)

  /** A recording `generate` can go on from: a tree whose edges are in
      range, with recorded ratings, and every attachment naming one of
      its nodes. */
  predicate Tracked(r: Recording) {
    |r.nodes| >= 1 && EdgesInRange(r.nodes) && RecordedRatings(r.nodes) && |r.attachments| >= 1
    && forall n :: 0 <= n < |r.attachments| ==> 0 <= r.attachments[n].index < |r.nodes|
  }

  /** One more edge from an existing node to an existing node keeps every
      edge in range and the ratings as they were. */
  lemma EdgeAddedInRange(nodes: Nodes, parent: int, child: int, job: nat)
    requires EdgesInRange(nodes) && RecordedRatings(nodes) && 0 <= parent < |nodes| && 0 <= child < |nodes|
    ensures var r := nodes[parent := nodes[parent].(children := nodes[parent].children + [RatingEdge(child, job)])];
            EdgesInRange(r) && RecordedRatings(r)
  {
    var r := nodes[parent := nodes[parent].(children := nodes[parent].children + [RatingEdge(child, job)])];
    forall u, k | 0 <= u < |r| && 0 <= k < |r[u].children|
      ensures 0 <= r[u].children[k].childIndex < |r|
    {
      if k < |nodes[u].children| {
        assert r[u].children[k] == nodes[u].children[k];
      }
    }
  }

  /** A fresh last node keeps every edge in range and the ratings recorded. */
  lemma NodeAppendedInRange(nodes: Nodes)
    requires EdgesInRange(nodes) && RecordedRatings(nodes)
    ensures EdgesInRange(nodes + [FreshNode]) && RecordedRatings(nodes + [FreshNode])
  {
    var r := nodes + [FreshNode];
    forall u, k | 0 <= u < |r| && 0 <= k < |r[u].children|
      ensures 0 <= r[u].children[k].childIndex < |r|
    {
      assert r[u] == nodes[u];
    }
  }

  /** `add_node(parent, job)` on values: the nodes afterwards and the node returned. */
  function AddedNode(nodes: Nodes, parent: int, job: nat): (r: (Nodes, int))
    requires EdgesInRange(nodes) && RecordedRatings(nodes) && 0 <= parent < |nodes|
    ensures EdgesInRange(r.0) && RecordedRatings(r.0) && |nodes| <= |r.0| && 0 <= r.1 < |r.0|
  {
    if WillMiss(nodes, parent, job) then (nodes, parent)
    else
      var grown := nodes + [FreshNode];
      NodeAppendedInRange(nodes);
      EdgeAddedInRange(grown, parent, |nodes|, job);
      assert grown[parent := grown[parent].(children := grown[parent].children + [RatingEdge(|nodes|, job)])]
          == nodes[parent := nodes[parent].(children := nodes[parent].children + [RatingEdge(|nodes|, job)])] + [FreshNode];
      (nodes[parent := nodes[parent].(children := nodes[parent].children + [RatingEdge(|nodes|, job)])] + [FreshNode], |nodes|)
  }

  /** `insert_edge(parent, child, job)` on values. */
  function InsertedEdge(nodes: Nodes, parent: int, child: int, job: nat): (r: Nodes)
    requires EdgesInRange(nodes) && RecordedRatings(nodes) && 0 <= parent < |nodes| && 0 <= child < |nodes|
    ensures EdgesInRange(r) && RecordedRatings(r) && |r| == |nodes|
  {
    EdgeAddedInRange(nodes, parent, child, job);
    nodes[parent := nodes[parent].(children := nodes[parent].children + [RatingEdge(child, job)])]
  }

  /** `set_missed_deadline(n)` on values. */
  function MarkedMissed(nodes: Nodes, n: int): (r: Nodes)
    requires EdgesInRange(nodes) && RecordedRatings(nodes) && 0 <= n < |nodes|
    ensures EdgesInRange(r) && RecordedRatings(r) && |r| == |nodes|
  {
    var r := nodes[n := nodes[n].(rating := -1.0)];
    SameChildren(nodes, r);
    r
  }

  /** `set_successful(n)` on values: every node an edge of `n` leads to is
      rated 1, and so is `n` itself when it has no edges. */
  function MarkedSuccessful(nodes: Nodes, n: int): (r: Nodes)
    requires EdgesInRange(nodes) && RecordedRatings(nodes) && 0 <= n < |nodes|
    ensures EdgesInRange(r) && RecordedRatings(r) && |r| == |nodes|
  {
    var children := ChildSet(nodes[n].children);
    var r := seq(|nodes|, i requires 0 <= i < |nodes| =>
                 nodes[i].(rating := if i in children || (i == n && nodes[n].children == []) then 1.0 else nodes[i].rating));
    SameChildren(nodes, r);
    r
  }

  /** A new search node below the one attached to `parent`, attached to
      the node `add_node` returns. */
  function Attached(s: Recording, parent: int, job: nat): (r: Recording)
    requires Tracked(s) && 0 <= parent < |s.nodes|
    ensures Tracked(r)
  {
    var added := AddedNode(s.nodes, parent, job);
    Recording(added.0, s.attachments + [RatingNodeAttachment(added.1)])
  }

  /** One call of the search, as `generate` records it through the agent's hooks. */
  function TreeStep(s: Recording, e: Event): (r: Recording)
    requires Tracked(s)
    ensures Tracked(r)
    ensures |s.nodes| <= |r.nodes| && |s.attachments| <= |r.attachments|
  {
    match e
    case Expand(parent, job) =>
      if parent < |s.attachments| && !WillMiss(s.nodes, s.attachments[parent].index, job.index) then
        Attached(s, s.attachments[parent].index, job.index)
      else s
    case Merge(destination, parent, job) =>
      if parent < |s.attachments| && destination < |s.attachments|
         && !WillMiss(s.nodes, s.attachments[parent].index, job.index) then
        var p := s.attachments[parent].index;
        var d := s.attachments[destination].index;
        if s.nodes[d].rating != -1.0 then s.(nodes := InsertedEdge(s.nodes, p, d, job.index))
        else Attached(s, p, job.index)
      else s
    case MissedDeadline(node, _, _) =>
      if node < |s.attachments| then s.(nodes := MarkedMissed(s.nodes, s.attachments[node].index)) else s
    case DeadEnd(_) => s
    case Finished(node) =>
      if node < |s.attachments| then s.(nodes := MarkedSuccessful(s.nodes, s.attachments[node].index)) else s
  }

  /** The recording after replaying `pass` from `start`. */
  function TreeReplay(start: Recording, pass: seq<Event>): (r: Recording)
    requires Tracked(start)
    ensures Tracked(r)
  {
    if pass == [] then start else TreeStep(TreeReplay(start, pass[..|pass| - 1]), pass[|pass| - 1])
  }

  /** A recording never loses a node or a search node's attachment: the
      tree only grows. */
  lemma {:induction false} TreeReplayGrows(start: Recording, pass: seq<Event>)
    requires Tracked(start)
    ensures |start.nodes| <= |TreeReplay(start, pass).nodes|
    ensures |start.attachments| <= |TreeReplay(start, pass).attachments|
  {
    if pass != [] {
      TreeReplayGrows(start, pass[..|pass| - 1]);
    }
  }

  /** The loop body of `generate` for one call of the search: the tree
      and the attachments change as one replayed step says. */
  method Record(agent: RatingTreeAgent, attachments: seq<RatingNodeAttachment>, e: Event)
    returns (next: seq<RatingNodeAttachment>)
    requires Tracked(Recording(agent.ratingTree.nodes, attachments))
    modifies agent.ratingTree
    ensures TreeStep(Recording(old(agent.ratingTree.nodes), attachments), e) == Recording(agent.ratingTree.nodes, next)
  {
    ghost var before := agent.ratingTree.nodes;
    next := attachments;
    match e {
    case Expand(parent, job) =>
      if parent < |attachments| {
        var allowed := agent.IsAllowed(attachments[parent], job);
        if allowed {
          var a := agent.CreateNextNodeAttachment(attachments[parent], job);
          next := attachments + [a];
        }
      }
    case Merge(destination, parent, job) =>
      if parent < |attachments| && destination < |attachments| {
        var allowed := agent.IsAllowed(attachments[parent], job);
        if allowed {
          var merge := agent.AllowMerge(attachments[parent], job, attachments[destination]);
          if merge {
            agent.MergeNodeAttachments(attachments[destination], attachments[parent], job);
          } else {
            var a := agent.CreateNextNodeAttachment(attachments[parent], job);
            next := attachments + [a];
          }
        }
      }
    case MissedDeadline(node, lateJob, _) =>
      if node < |attachments| {
        agent.MissedDeadline(attachments[node], lateJob);
      }
    case DeadEnd(_) =>
    case Finished(node) =>
      if node < |attachments| {
        agent.FinishedNode(attachments[node]);
        ghost var marked := MarkedSuccessful(before, attachments[node].index);
        assert forall i :: 0 <= i < |marked| ==> agent.ratingTree.nodes[i] == marked[i];
      }
    }
  }

  /** `generate`: one exhaustive pass recorded into `tree`, then
      `compute_ratings`. `recorded` is the tree replaying the pass
      records; the final tree is what `compute_ratings` makes of it, and
      when all its edges lead forward, the final ratings are its intended
      ones. */
  method Generate(tree: RatingTree, pass: seq<Event>) returns (ghost recorded: Nodes)
    requires tree.Valid() && RecordedRatings(tree.nodes)
    modifies tree
    ensures recorded == TreeReplay(Recording(old(tree.nodes), [RatingNodeAttachment(0)]), pass).nodes
    ensures tree.Valid() && EdgesInRange(recorded) && |recorded| >= 1 && RecordedRatings(recorded)
    ensures tree.nodes == RunFrom(recorded, |recorded| - 1)
    ensures AllForward(recorded) ==> forall j :: 0 <= j < |recorded| ==> tree.nodes[j].rating == TreeRating(recorded, j)
  {
    var agent := new RatingTreeAgent(tree);
    var attachments := [agent.CreateInitialNodeAttachment()];
    ghost var start := Recording(tree.nodes, attachments);
    var step := 0;
    while step < |pass|
      invariant 0 <= step <= |pass|
      invariant TreeReplay(start, pass[..step]) == Recording(tree.nodes, attachments)
    {
      assert pass[..step + 1][..step] == pass[..step];
      attachments := Record(agent, attachments, pass[step]);
      step := step + 1;
    }
    assert pass[..step] == pass;
    recorded := tree.nodes;
    tree.ComputeRatings();
    if AllForward(recorded) {
      ComputedRatingsOfForwardTree(recorded);
    }
  }
}
