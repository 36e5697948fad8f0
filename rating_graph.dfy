/** `Rating_graph`: a recording of one exploration in which every node gets a
    rating in [0, 1] saying how much of the search below it stays
    schedulable, and `Agent_rating_graph`, the agent that builds it. */
module RatingGraphs {
  import opened ProblemModel
  import opened Search

  /** An edge to `destination`, reached or left by taking `takenJob`. */
  datatype RatingEdge = RatingEdge(destination: int, takenJob: nat)

  /** A node: its edges in both directions and its rating, which is 0 at
      creation, -1 for a missed deadline and 1 for success until
      `compute_ratings` replaces it. */
  datatype RatingNode = RatingNode(edges: seq<RatingEdge>, rating: real)

  /** A value-initialised `Rating_node{}`. */
  const FreshNode: RatingNode := RatingNode([], 0.0)

  type Nodes = seq<RatingNode>

  predicate EdgesInRange(nodes: Nodes) {
    forall u, k :: 0 <= u < |nodes| && 0 <= k < |nodes[u].edges| ==> 0 <= nodes[u].edges[k].destination < |nodes|
  }

  /** No edge leads back to its own node. */
  predicate NoSelfLoops(nodes: Nodes) {
    forall u, k :: 0 <= u < |nodes| && 0 <= k < |nodes[u].edges| ==> nodes[u].edges[k].destination != u
  }

  /** Node `c` has an edge to a node with a lower index. */
  predicate HasParentEdge(nodes: Nodes, c: int)
    requires 0 <= c < |nodes|
  {
    exists k :: 0 <= k < |nodes[c].edges| && nodes[c].edges[k].destination < c
  }

  /** Every node but the root has an edge back towards the root. */
  predicate HasParentEdges(nodes: Nodes) {
    forall c :: 0 < c < |nodes| ==> HasParentEdge(nodes, c)
  }

  /** The shape every rating graph keeps: a root, edges in range, no
      self-loops, and a way back from every node. */
  predicate WellFormed(nodes: Nodes) {
    |nodes| >= 1 && EdgesInRange(nodes) && NoSelfLoops(nodes) && HasParentEdges(nodes)
  }

  /** Before `compute_ratings`, ratings are only ever 0, -1 or 1. */
  predicate RecordedRatings(nodes: Nodes) {
    forall i :: 0 <= i < |nodes| ==> nodes[i].rating in {-1.0, 0.0, 1.0}
  }

  /** `will_miss_deadline`: the parent has missed a deadline, or some edge
      labelled `job` leads to a node that has. */
  predicate WillMiss(nodes: Nodes, parent: int, job: nat)
    requires EdgesInRange(nodes) && 0 <= parent < |nodes|
  {
    nodes[parent].rating == -1.0
    || exists k :: 0 <= k < |nodes[parent].edges| && nodes[parent].edges[k].takenJob == job
                   && nodes[nodes[parent].edges[k].destination].rating == -1.0
  }

  /** The destinations of a node's edges to higher indices: its children. */
  function Children(edges: seq<RatingEdge>, n: int): set<int> {
    set k | 0 <= k < |edges| && edges[k].destination > n :: edges[k].destination
  }

  /** The number of edges to higher indices. */
  function ChildCount(edges: seq<RatingEdge>, n: int): nat {
    if edges == [] then 0
    else ChildCount(edges[..|edges| - 1], n) + (if edges[|edges| - 1].destination > n then 1 else 0)
  }

  /** The rating `compute_ratings` gives node `i`: 0 for a node that missed
      a deadline; otherwise its own rating plus those of its children,
      divided by the number of children when there are several. */
  function FinalRating(nodes: Nodes, i: int): real
    requires EdgesInRange(nodes) && 0 <= i < |nodes|
    decreases |nodes| - i, 1
  {
    if nodes[i].rating == -1.0 then 0.0
    else
      var count := ChildCount(nodes[i].edges, i);
      var total := nodes[i].rating + ChildSum(nodes, i, |nodes[i].edges|);
      if count > 1 then total / (count as real) else total
  }

  /** The sum of the final ratings of the children among the first `k` edges of node `i`. */
  function ChildSum(nodes: Nodes, i: int, k: nat): real
    requires EdgesInRange(nodes) && 0 <= i < |nodes| && k <= |nodes[i].edges|
    decreases |nodes| - i, 0, k
  {
    if k == 0 then 0.0
    else
      var e := nodes[i].edges[k - 1];
      ChildSum(nodes, i, k - 1) + (if e.destination > i then FinalRating(nodes, e.destination) else 0.0)
  }

  lemma ChildCountPrefix(edges: seq<RatingEdge>, n: int, k: nat)
    requires k < |edges|
    ensures ChildCount(edges[..k + 1], n) == ChildCount(edges[..k], n) + (if edges[k].destination > n then 1 else 0)
  {
    assert edges[..k + 1][..k] == edges[..k];
  }

  /** When every recorded rating is -1 or non-negative, no final rating is
      negative: `compute_ratings` leaves no missed-deadline marker behind. */
  lemma {:induction false} FinalRatingNonNegative(nodes: Nodes, i: int)
    requires EdgesInRange(nodes) && 0 <= i < |nodes|
    requires forall j :: 0 <= j < |nodes| ==> nodes[j].rating == -1.0 || nodes[j].rating >= 0.0
    ensures FinalRating(nodes, i) >= 0.0
    decreases |nodes| - i, 1
  {
    if nodes[i].rating != -1.0 {
      ChildSumNonNegative(nodes, i, |nodes[i].edges|);
    }
  }

  lemma {:induction false} ChildSumNonNegative(nodes: Nodes, i: int, k: nat)
    requires EdgesInRange(nodes) && 0 <= i < |nodes| && k <= |nodes[i].edges|
    requires forall j :: 0 <= j < |nodes| ==> nodes[j].rating == -1.0 || nodes[j].rating >= 0.0
    ensures ChildSum(nodes, i, k) >= 0.0
    decreases |nodes| - i, 0, k
  {
    if k > 0 {
      ChildSumNonNegative(nodes, i, k - 1);
      var e := nodes[i].edges[k - 1];
      if e.destination > i {
        FinalRatingNonNegative(nodes, e.destination);
      }
    }
  }

  /** Ratings stay within [0, 1] when every recorded rating is -1, 0 or 1
      and only childless nodes are recorded as 1. */
  lemma {:induction false} FinalRatingInUnitInterval(nodes: Nodes, i: int)
    requires EdgesInRange(nodes) && 0 <= i < |nodes| && RecordedRatings(nodes)
    requires forall j :: 0 <= j < |nodes| && nodes[j].rating == 1.0 ==> ChildCount(nodes[j].edges, j) == 0
    ensures 0.0 <= FinalRating(nodes, i) <= 1.0
    decreases |nodes| - i, 1
  {
    if nodes[i].rating != -1.0 {
      ChildSumBounds(nodes, i, |nodes[i].edges|);
      assert nodes[i].edges[..|nodes[i].edges|] == nodes[i].edges;
      var count := ChildCount(nodes[i].edges, i);
      var total := nodes[i].rating + ChildSum(nodes, i, |nodes[i].edges|);
      if count > 1 {
        assert nodes[i].rating == 0.0;
        assert total <= count as real;
        assert total / (count as real) <= 1.0;
      }
    }
  }

  lemma {:induction false} ChildSumBounds(nodes: Nodes, i: int, k: nat)
    requires EdgesInRange(nodes) && 0 <= i < |nodes| && k <= |nodes[i].edges| && RecordedRatings(nodes)
    requires forall j :: 0 <= j < |nodes| && nodes[j].rating == 1.0 ==> ChildCount(nodes[j].edges, j) == 0
    ensures 0.0 <= ChildSum(nodes, i, k) <= ChildCount(nodes[i].edges[..k], i) as real
    decreases |nodes| - i, 0, k
  {
    if k > 0 {
      ChildSumBounds(nodes, i, k - 1);
      ChildCountPrefix(nodes[i].edges, i, k - 1);
      var e := nodes[i].edges[k - 1];
      if e.destination > i {
        FinalRatingInUnitInterval(nodes, e.destination);
      }
    }
  }

  class RatingGraph {
    var nodes: Nodes

    ghost predicate Valid()
      reads this
    {
      WellFormed(nodes)
    }

    /** A graph holding only the root, rated 0. */
    constructor()
      ensures Valid() && nodes == [FreshNode]
    {
      nodes := [FreshNode];
    }

    /** `will_miss_deadline`. */
    method WillMissDeadline(parent: int, job: nat) returns (b: bool)
      requires Valid() && 0 <= parent < |nodes|
      ensures b <==> WillMiss(nodes, parent, job)
    {
      if nodes[parent].rating == -1.0 {
        return true;
      }
      var k := 0;
      while k < |nodes[parent].edges|
        invariant 0 <= k <= |nodes[parent].edges|
        invariant forall m :: 0 <= m < k ==> !(nodes[parent].edges[m].takenJob == job
                                              && nodes[nodes[parent].edges[m].destination].rating == -1.0)
      {
        var e := nodes[parent].edges[k];
        if e.takenJob == job && nodes[e.destination].rating == -1.0 {
          return true;
        }
        k := k + 1;
      }
      return false;
    }

    /** `add_node`: unless taking `job` from `parent` is known to miss a
        deadline (then the parent itself is returned and nothing changes), a
        new child is appended with a forward edge from the parent and a back
        edge to it, both labelled `job`. */
    method AddNode(parent: int, job: nat) returns (child: int)
      requires Valid() && 0 <= parent < |nodes|
      modifies this
      ensures Valid()
      ensures RecordedRatings(old(nodes)) ==> RecordedRatings(nodes)
      ensures WillMiss(old(nodes), parent, job) ==> child == parent && nodes == old(nodes)
      ensures !WillMiss(old(nodes), parent, job) ==>
                child == |old(nodes)|
                && nodes == old(nodes)[parent := old(nodes)[parent].(edges := old(nodes)[parent].edges + [RatingEdge(child, job)])]
                            + [RatingNode([RatingEdge(parent, job)], 0.0)]
    {
      var miss := WillMissDeadline(parent, job);
      if miss {
        return parent;
      }
      child := |nodes|;
      WellFormedAfterAdd(nodes, parent, job);
      assert FreshNode.(edges := FreshNode.edges + [RatingEdge(parent, job)]) == RatingNode([RatingEdge(parent, job)], 0.0);
      // the forward edge, then the new node (a `Rating_node{}`) with its back edge
      nodes := nodes[parent := nodes[parent].(edges := nodes[parent].edges + [RatingEdge(child, job)])]
               + [FreshNode.(edges := FreshNode.edges + [RatingEdge(parent, job)])];
    }

    /** `insert_edge`: a forward edge `parent -> child` and a back edge
        `child -> parent`, both labelled `job`. */
    method InsertEdge(parent: int, child: int, job: nat)
      requires Valid() && 0 <= parent < child < |nodes|
      modifies this
      ensures Valid()
      ensures RecordedRatings(old(nodes)) ==> RecordedRatings(nodes)
      ensures |nodes| == |old(nodes)|
      ensures forall i :: 0 <= i < |nodes| ==> nodes[i].rating == old(nodes)[i].rating
      ensures nodes[parent].edges == old(nodes)[parent].edges + [RatingEdge(child, job)]
      ensures nodes[child].edges == old(nodes)[child].edges + [RatingEdge(parent, job)]
      ensures forall i :: 0 <= i < |nodes| && i != parent && i != child ==> nodes[i] == old(nodes)[i]
    {
      WellFormedAfterInsert(nodes, parent, child, job);
      nodes := nodes[parent := nodes[parent].(edges := nodes[parent].edges + [RatingEdge(child, job)])];
      nodes := nodes[child := nodes[child].(edges := nodes[child].edges + [RatingEdge(parent, job)])];
    }

    /** `set_missed_deadline`: the node is rated -1. */
    method SetMissedDeadline(n: int)
      requires Valid() && 0 <= n < |nodes|
      modifies this
      ensures Valid()
      ensures RecordedRatings(old(nodes)) ==> RecordedRatings(nodes)
      ensures nodes == old(nodes)[n := old(nodes)[n].(rating := -1.0)]
    {
      nodes := nodes[n := nodes[n].(rating := -1.0)];
      SameEdgesWellFormed(old(nodes), nodes);
    }

    /** `set_successful`: every child of the node is rated 1; the node
        itself is rated 1 only when it has no children. */
    method SetSuccessful(n: int)
      requires Valid() && 0 <= n < |nodes|
      modifies this
      ensures Valid()
      ensures RecordedRatings(old(nodes)) ==> RecordedRatings(nodes)
      ensures |nodes| == |old(nodes)|
      ensures forall i :: 0 <= i < |nodes| ==> nodes[i].edges == old(nodes)[i].edges
      ensures forall i :: 0 <= i < |nodes| ==>
                nodes[i].rating == if i in Children(old(nodes)[n].edges, n) then 1.0
                                   else if i == n && Children(old(nodes)[n].edges, n) == {} then 1.0
                                   else old(nodes)[i].rating
    {
      var edges := nodes[n].edges;
      var hasChildren := false;
      var k := 0;
      while k < |edges|
        invariant 0 <= k <= |edges|
        invariant |nodes| == |old(nodes)|
        invariant forall i :: 0 <= i < |nodes| ==> nodes[i].edges == old(nodes)[i].edges
        invariant hasChildren <==> Children(edges[..k], n) != {}
        invariant forall i :: 0 <= i < |nodes| ==>
                    nodes[i].rating == if i in Children(edges[..k], n) then 1.0 else old(nodes)[i].rating
      {
        var e := edges[k];
        ChildrenPrefix(edges, n, k);
        if e.destination > n {
          nodes := nodes[e.destination := nodes[e.destination].(rating := 1.0)];
          hasChildren := true;
        }
        k := k + 1;
      }
      assert edges[..|edges|] == edges;
      assert n !in Children(edges, n);
      if !hasChildren {
        nodes := nodes[n := nodes[n].(rating := 1.0)];
      }
      SameEdgesWellFormed(old(nodes), nodes);
    }

    /** `compute_ratings`: from the last node to the root, every node gets
        its final rating, computed from the already final ratings of its
        children. */
    method ComputeRatings()
      requires Valid()
      modifies this
      ensures Valid()
      ensures |nodes| == |old(nodes)|
      ensures forall i :: 0 <= i < |nodes| ==> nodes[i].edges == old(nodes)[i].edges
      ensures forall i :: 0 <= i < |nodes| ==> nodes[i].rating == FinalRating(old(nodes), i)
    {
      ghost var recorded := nodes;
      var index := |nodes| - 1;
      while index >= 0
        invariant -1 <= index < |nodes|
        invariant |nodes| == |recorded|
        invariant forall i :: 0 <= i < |nodes| ==> nodes[i].edges == recorded[i].edges
        invariant forall i :: index < i < |nodes| ==> nodes[i].rating == FinalRating(recorded, i)
        invariant forall i :: 0 <= i <= index ==> nodes[i] == recorded[i]
        invariant WellFormed(recorded)
      {
        var node := nodes[index];
        if node.rating == -1.0 {
          nodes := nodes[index := node.(rating := 0.0)];
          index := index - 1;
          continue;
        }
        var rating := node.rating;
        var numChildren := 0;
        ghost var current := nodes;
        var k := 0;
        while k < |node.edges|
          invariant 0 <= k <= |node.edges|
          invariant rating == node.rating + ChildSum(recorded, index, k)
          invariant numChildren == ChildCount(node.edges[..k], index)
          invariant nodes == current
        {
          var e := node.edges[k];
          assert e == recorded[index].edges[k];
          ChildCountPrefix(node.edges, index, k);
          if e.destination > index {
            rating := rating + nodes[e.destination].rating;
            numChildren := numChildren + 1;
          }
          k := k + 1;
        }
        assert node.edges[..|node.edges|] == node.edges;
        if numChildren > 1 {
          rating := rating / (numChildren as real);
        }
        nodes := nodes[index := node.(rating := rating)];
        index := index - 1;
      }
      SameEdgesWellFormed(recorded, nodes);
    }
  }

  /** Changing ratings alone keeps a graph well formed. */
  lemma SameEdgesWellFormed(a: Nodes, b: Nodes)
    requires WellFormed(a) && |a| == |b|
    requires forall i :: 0 <= i < |a| ==> a[i].edges == b[i].edges
    ensures WellFormed(b)
  {
    forall c | 0 < c < |b|
      ensures HasParentEdge(b, c)
    {
      assert HasParentEdge(a, c);
      var k :| 0 <= k < |a[c].edges| && a[c].edges[k].destination < c;
      assert b[c].edges[k].destination < c;
    }
  }

  /** A new last node with one back edge to `parent`, and the matching
      forward edge from `parent`, keep a graph well formed. */
  lemma WellFormedAfterAdd(nodes: Nodes, parent: int, job: nat)
    requires WellFormed(nodes) && 0 <= parent < |nodes|
    ensures var grown := nodes[parent := nodes[parent].(edges := nodes[parent].edges + [RatingEdge(|nodes|, job)])]
                         + [FreshNode.(edges := FreshNode.edges + [RatingEdge(parent, job)])];
            WellFormed(grown) && (RecordedRatings(nodes) ==> RecordedRatings(grown))
  {
    var child := |nodes|;
    var grown := nodes[parent := nodes[parent].(edges := nodes[parent].edges + [RatingEdge(child, job)])]
                 + [FreshNode.(edges := FreshNode.edges + [RatingEdge(parent, job)])];
    assert |grown| == child + 1;
    assert forall u :: 0 <= u < child && u != parent ==> grown[u] == nodes[u];
    assert grown[parent].edges == nodes[parent].edges + [RatingEdge(child, job)];
    assert grown[child].edges == [RatingEdge(parent, job)];
    forall c | 0 < c < |grown|
      ensures HasParentEdge(grown, c)
    {
      if c == child {
        assert grown[c].edges[0].destination < c;
      } else {
        assert HasParentEdge(nodes, c);
        assert HasParentEdge(nodes, c);
      var k :| 0 <= k < |nodes[c].edges| && nodes[c].edges[k].destination < c;
        assert grown[c].edges[k].destination < c;
      }
    }
    forall u, k | 0 <= u < |grown| && 0 <= k < |grown[u].edges|
      ensures 0 <= grown[u].edges[k].destination < |grown| && grown[u].edges[k].destination != u
    {
      if u != parent && u != child {
        assert grown[u].edges[k] == nodes[u].edges[k];
      } else if u == parent && k < |nodes[parent].edges| {
        assert grown[u].edges[k] == nodes[u].edges[k];
      }
    }
  }

  /** A forward edge `parent -> child` and its back edge keep a graph well formed. */
  lemma WellFormedAfterInsert(nodes: Nodes, parent: int, child: int, job: nat)
    requires WellFormed(nodes) && 0 <= parent < child < |nodes|
    ensures var once := nodes[parent := nodes[parent].(edges := nodes[parent].edges + [RatingEdge(child, job)])];
            var twice := once[child := once[child].(edges := once[child].edges + [RatingEdge(parent, job)])];
            WellFormed(twice) && (RecordedRatings(nodes) ==> RecordedRatings(twice))
  {
    var once := nodes[parent := nodes[parent].(edges := nodes[parent].edges + [RatingEdge(child, job)])];
    var twice := once[child := once[child].(edges := once[child].edges + [RatingEdge(parent, job)])];
    assert |twice| == |nodes|;
    assert forall u :: 0 <= u < |nodes| && u != parent && u != child ==> twice[u] == nodes[u];
    assert twice[parent].edges == nodes[parent].edges + [RatingEdge(child, job)];
    assert twice[child].edges == nodes[child].edges + [RatingEdge(parent, job)];
    forall c | 0 < c < |twice|
      ensures HasParentEdge(twice, c)
    {
      assert HasParentEdge(nodes, c);
      var k :| 0 <= k < |nodes[c].edges| && nodes[c].edges[k].destination < c;
      assert twice[c].edges[k].destination < c;
    }
    forall u, k | 0 <= u < |twice| && 0 <= k < |twice[u].edges|
      ensures 0 <= twice[u].edges[k].destination < |twice| && twice[u].edges[k].destination != u
    {
      if k < |nodes[u].edges| {
        assert twice[u].edges[k] == nodes[u].edges[k];
      }
    }
  }

  /** One more edge extends the set of children by its destination when it leads forward. */
  lemma ChildrenPrefix(edges: seq<RatingEdge>, n: int, k: nat)
    requires k < |edges|
    ensures Children(edges[..k + 1], n)
         == Children(edges[..k], n) + (if edges[k].destination > n then {edges[k].destination} else {})
  {
    var longer := edges[..k + 1];
    assert forall m :: 0 <= m < k ==> longer[m] == edges[..k][m];
    assert longer[k] == edges[k];
  }

  /** `Attachment_rating_node`: the rating-graph node a search node maps to. */
  datatype RatingNodeAttachment = RatingNodeAttachment(index: int)

  /** `Agent_rating_graph`: records the search into `ratingGraph`. */
  class RatingGraphAgent {
    const ratingGraph: RatingGraph

    constructor(graph: RatingGraph)
      ensures ratingGraph == graph
    {
      ratingGraph := graph;
    }

    /** `create_initial_node_attachment`: the root of the search maps to node 0. */
    function CreateInitialNodeAttachment(): (a: RatingNodeAttachment)
      ensures a.index == 0
    {
      RatingNodeAttachment(0)
    }

    /** `create_next_node_attachment`: the new search node maps to the node
        `add_node` returns. */
    method CreateNextNodeAttachment(parent: RatingNodeAttachment, nextJob: Job) returns (a: RatingNodeAttachment)
      requires ratingGraph.Valid() && 0 <= parent.index < |ratingGraph.nodes|
      modifies ratingGraph
      ensures ratingGraph.Valid() && 0 <= a.index < |ratingGraph.nodes|
      ensures |old(ratingGraph.nodes)| <= |ratingGraph.nodes|
      ensures RecordedRatings(old(ratingGraph.nodes)) ==> RecordedRatings(ratingGraph.nodes)
      ensures a.index == if WillMiss(old(ratingGraph.nodes), parent.index, nextJob.index)
                         then parent.index else |old(ratingGraph.nodes)|
      ensures WillMiss(old(ratingGraph.nodes), parent.index, nextJob.index) ==> ratingGraph.nodes == old(ratingGraph.nodes)
      ensures !WillMiss(old(ratingGraph.nodes), parent.index, nextJob.index) ==>
                ratingGraph.nodes
                == old(ratingGraph.nodes)[parent.index := old(ratingGraph.nodes)[parent.index].(edges := old(ratingGraph.nodes)[parent.index].edges + [RatingEdge(a.index, nextJob.index)])]
                   + [RatingNode([RatingEdge(parent.index, nextJob.index)], 0.0)]
    {
      var child := ratingGraph.AddNode(parent.index, nextJob.index);
      a := RatingNodeAttachment(child);
    }

    /** `merge_node_attachments`: the merge becomes an edge pair between the two nodes. */
    method MergeNodeAttachments(destination: RatingNodeAttachment, parent: RatingNodeAttachment, nextJob: Job)
      requires ratingGraph.Valid() && 0 <= parent.index < destination.index < |ratingGraph.nodes|
      modifies ratingGraph
      ensures ratingGraph.Valid() && |ratingGraph.nodes| == |old(ratingGraph.nodes)|
      ensures RecordedRatings(old(ratingGraph.nodes)) ==> RecordedRatings(ratingGraph.nodes)
      ensures forall i :: 0 <= i < |ratingGraph.nodes| ==> ratingGraph.nodes[i].rating == old(ratingGraph.nodes)[i].rating
      ensures ratingGraph.nodes[parent.index].edges
           == old(ratingGraph.nodes)[parent.index].edges + [RatingEdge(destination.index, nextJob.index)]
      ensures ratingGraph.nodes[destination.index].edges
           == old(ratingGraph.nodes)[destination.index].edges + [RatingEdge(parent.index, nextJob.index)]
      ensures forall i :: 0 <= i < |ratingGraph.nodes| && i != parent.index && i != destination.index ==>
                ratingGraph.nodes[i] == old(ratingGraph.nodes)[i]
    {
      ratingGraph.InsertEdge(parent.index, destination.index, nextJob.index);
    }

    /** `missed_deadline`: the node is marked -1. */
    method MissedDeadline(failed: RatingNodeAttachment, lateJob: Job)
      requires ratingGraph.Valid() && 0 <= failed.index < |ratingGraph.nodes|
      modifies ratingGraph
      ensures ratingGraph.Valid() && |ratingGraph.nodes| == |old(ratingGraph.nodes)|
      ensures RecordedRatings(old(ratingGraph.nodes)) ==> RecordedRatings(ratingGraph.nodes)
      ensures ratingGraph.nodes == old(ratingGraph.nodes)[failed.index := old(ratingGraph.nodes)[failed.index].(rating := -1.0)]
    {
      ratingGraph.SetMissedDeadline(failed.index);
    }

    /** `finished_node`: the node's success is recorded by `set_successful`. */
    method FinishedNode(finished: RatingNodeAttachment)
      requires ratingGraph.Valid() && 0 <= finished.index < |ratingGraph.nodes|
      modifies ratingGraph
      ensures ratingGraph.Valid() && |ratingGraph.nodes| == |old(ratingGraph.nodes)|
      ensures RecordedRatings(old(ratingGraph.nodes)) ==> RecordedRatings(ratingGraph.nodes)
      ensures forall i :: 0 <= i < |ratingGraph.nodes| ==> ratingGraph.nodes[i].edges == old(ratingGraph.nodes)[i].edges
      ensures forall i :: 0 <= i < |ratingGraph.nodes| ==>
                ratingGraph.nodes[i].rating
                == if i in Children(old(ratingGraph.nodes)[finished.index].edges, finished.index) then 1.0
                   else if i == finished.index && Children(old(ratingGraph.nodes)[finished.index].edges, finished.index) == {} then 1.0
                   else old(ratingGraph.nodes)[i].rating
    {
      ratingGraph.SetSuccessful(finished.index);
    }

    /** `is_allowed`: a job is allowed unless taking it is known to miss a deadline. */
    method IsAllowed(at: RatingNodeAttachment, nextJob: Job) returns (allowed: bool)
      requires ratingGraph.Valid() && 0 <= at.index < |ratingGraph.nodes|
      ensures allowed <==> !WillMiss(ratingGraph.nodes, at.index, nextJob.index)
    {
      var miss := ratingGraph.WillMissDeadline(at.index, nextJob.index);
      allowed := !miss;
    }

    /** `allow_merge`: only when the destination has not missed a deadline
        and taking the job from the parent is not known to miss one. */
    method AllowMerge(parent: RatingNodeAttachment, takenJob: Job, destination: RatingNodeAttachment) returns (allowed: bool)
      requires ratingGraph.Valid() && 0 <= parent.index < |ratingGraph.nodes| && 0 <= destination.index < |ratingGraph.nodes|
      ensures allowed <==> ratingGraph.nodes[destination.index].rating != -1.0
                           && !WillMiss(ratingGraph.nodes, parent.index, takenJob.index)
    {
      var miss := ratingGraph.WillMissDeadline(parent.index, takenJob.index);
      allowed := ratingGraph.nodes[destination.index].rating != -1.0 && !miss;
    }
  }

  /** What `generate` has recorded so far: the graph's nodes and the
      attachment of every search node. */
  datatype Recording = Recording(nodes: Nodes, attachments: seq<RatingNodeAttachment>)

  /** A recording `generate` can go on from: a well-formed graph with
      recorded ratings, and every attachment naming one of its nodes. */
  predicate Tracked(r: Recording) {
    WellFormed(r.nodes) && RecordedRatings(r.nodes) && |r.attachments| >= 1
    && forall n :: 0 <= n < |r.attachments| ==> 0 <= r.attachments[n].index < |r.nodes|
  }

  /** `add_node(parent, job)` on values: the nodes afterwards and the node returned. */
  function AddedNode(nodes: Nodes, parent: int, job: nat): (r: (Nodes, int))
    requires WellFormed(nodes) && RecordedRatings(nodes) && 0 <= parent < |nodes|
    ensures WellFormed(r.0) && RecordedRatings(r.0) && |nodes| <= |r.0| && 0 <= r.1 < |r.0|
  {
    if WillMiss(nodes, parent, job) then (nodes, parent)
    else
      WellFormedAfterAdd(nodes, parent, job);
      assert FreshNode.(edges := FreshNode.edges + [RatingEdge(parent, job)]) == RatingNode([RatingEdge(parent, job)], 0.0);
      (nodes[parent := nodes[parent].(edges := nodes[parent].edges + [RatingEdge(|nodes|, job)])]
       + [RatingNode([RatingEdge(parent, job)], 0.0)], |nodes|)
  }

  /** `insert_edge(parent, child, job)` on values: the edge and its back edge. */
  function InsertedEdge(nodes: Nodes, parent: int, child: int, job: nat): (r: Nodes)
    requires WellFormed(nodes) && RecordedRatings(nodes) && 0 <= parent < child < |nodes|
    ensures WellFormed(r) && RecordedRatings(r) && |r| == |nodes|
  {
    WellFormedAfterInsert(nodes, parent, child, job);
    var once := nodes[parent := nodes[parent].(edges := nodes[parent].edges + [RatingEdge(child, job)])];
    once[child := once[child].(edges := once[child].edges + [RatingEdge(parent, job)])]
  }

  /** `set_missed_deadline(n)` on values. */
  function MarkedMissed(nodes: Nodes, n: int): (r: Nodes)
    requires WellFormed(nodes) && RecordedRatings(nodes) && 0 <= n < |nodes|
    ensures WellFormed(r) && RecordedRatings(r) && |r| == |nodes|
  {
    var r := nodes[n := nodes[n].(rating := -1.0)];
    SameEdgesWellFormed(nodes, r);
    r
  }

  /** `set_successful(n)` on values: every child of `n` is rated 1, and so
      is `n` itself when it has no children. */
  function MarkedSuccessful(nodes: Nodes, n: int): (r: Nodes)
    requires WellFormed(nodes) && RecordedRatings(nodes) && 0 <= n < |nodes|
    ensures WellFormed(r) && RecordedRatings(r) && |r| == |nodes|
  {
    var children := Children(nodes[n].edges, n);
    var r := seq(|nodes|, i requires 0 <= i < |nodes| =>
                 nodes[i].(rating := if i in children || (i == n && children == {}) then 1.0 else nodes[i].rating));
    SameEdgesWellFormed(nodes, r);
    r
  }

  /** A new search node below the one attached to `parent`, attached to
      the node `add_node` returns. */
  function Attached(s: Recording, parent: int, job: nat): (r: Recording)
    requires Tracked(s) && 0 <= parent < |s.nodes|
    ensures Tracked(r)
  {
    var added := AddedNode(s.nodes, parent, job);
    Recording(added.0, s.attachments + [RatingNodeAttachment(added.1)])
  }

  /** One call of the search, as `generate` records it through the agent's
      hooks; `None` when a merge the agent allows would hand `insert_edge`
      a parent that does not come before the destination. */
  function GraphStep(s: Recording, e: Event): (r: Option<Recording>)
    requires Tracked(s)
    ensures r.Some? ==> Tracked(r.value)
    ensures r.Some? ==> |s.nodes| <= |r.value.nodes| && |s.attachments| <= |r.value.attachments|
  {
    match e
    case Expand(parent, job) =>
      if parent < |s.attachments| && !WillMiss(s.nodes, s.attachments[parent].index, job.index) then
        Some(Attached(s, s.attachments[parent].index, job.index))
      else Some(s)
    case Merge(destination, parent, job) =>
      if parent < |s.attachments| && destination < |s.attachments|
         && !WillMiss(s.nodes, s.attachments[parent].index, job.index) then
        var p := s.attachments[parent].index;
        var d := s.attachments[destination].index;
        if s.nodes[d].rating != -1.0 then
          if p >= d then None else Some(s.(nodes := InsertedEdge(s.nodes, p, d, job.index)))
        else Some(Attached(s, p, job.index))
      else Some(s)
    case MissedDeadline(node, _, _) =>
      if node < |s.attachments| then Some(s.(nodes := MarkedMissed(s.nodes, s.attachments[node].index))) else Some(s)
    case DeadEnd(_) => Some(s)
    case Finished(node) =>
      if node < |s.attachments| then Some(s.(nodes := MarkedSuccessful(s.nodes, s.attachments[node].index))) else Some(s)
  }

  /** The recording after replaying `pass` from `start`, or `None` once a
      merge aborted. */
  function GraphReplay(start: Recording, pass: seq<Event>): (r: Option<Recording>)
    requires Tracked(start)
    ensures r.Some? ==> Tracked(r.value)
  {
    if pass == [] then Some(start)
    else
      var before := GraphReplay(start, pass[..|pass| - 1]);
      if before.None? then None else GraphStep(before.value, pass[|pass| - 1])
  }

  /** Once a merge aborted, the replay stays aborted. */
  lemma {:induction false} GraphReplayAborted(start: Recording, pass: seq<Event>, k: nat)
    requires Tracked(start) && k <= |pass| && GraphReplay(start, pass[..k]).None?
    ensures GraphReplay(start, pass).None?
    decreases |pass| - k
  {
    if k < |pass| {
      assert pass[..k + 1][..k] == pass[..k];
      GraphReplayAborted(start, pass, k + 1);
    } else {
      assert pass[..k] == pass;
    }
  }

  /** A recording aborts only at a merge: a pass without merges always
      completes. */
  lemma {:induction false} GraphReplayFailsAtMerge(start: Recording, pass: seq<Event>)
    requires Tracked(start)
    ensures GraphReplay(start, pass).None? ==> exists k :: 0 <= k < |pass| && pass[k].Merge?
  {
    if pass != [] {
      var before := GraphReplay(start, pass[..|pass| - 1]);
      GraphReplayFailsAtMerge(start, pass[..|pass| - 1]);
      if before.None? {
        var k :| 0 <= k < |pass| - 1 && pass[..|pass| - 1][k].Merge?;
        assert pass[k].Merge?;
      } else {
        assert GraphStep(before.value, pass[|pass| - 1]).None? ==> pass[|pass| - 1].Merge?;
      }
    }
  }

  /** A recording never loses a node: the graph only grows. */
  lemma {:induction false} GraphReplayGrows(start: Recording, pass: seq<Event>)
    requires Tracked(start)
    ensures GraphReplay(start, pass).Some? ==>
              |start.nodes| <= |GraphReplay(start, pass).value.nodes|
              && |start.attachments| <= |GraphReplay(start, pass).value.attachments|
  {
    if pass != [] {
      GraphReplayGrows(start, pass[..|pass| - 1]);
    }
  }

  /** The loop body of `generate` for one call of the search: the graph
      and the attachments change as one replayed step says, and `ok` is
      false exactly when that step aborts (then nothing changes). */
  method Record(agent: RatingGraphAgent, attachments: seq<RatingNodeAttachment>, e: Event)
    returns (ok: bool, next: seq<RatingNodeAttachment>)
    requires Tracked(Recording(agent.ratingGraph.nodes, attachments))
    modifies agent.ratingGraph
    ensures var t := GraphStep(Recording(old(agent.ratingGraph.nodes), attachments), e);
            ok == t.Some? && (ok ==> t.value == Recording(agent.ratingGraph.nodes, next))
    ensures !ok ==> agent.ratingGraph.nodes == old(agent.ratingGraph.nodes)
  {
    ghost var before := agent.ratingGraph.nodes;
    ok, next := true, attachments;
    match e {
    case Expand(parent, job) =>
      if parent < |attachments| {
        var allowed := agent.IsAllowed(attachments[parent], job);
        if allowed {
          var a := agent.CreateNextNodeAttachment(attachments[parent], job);
          next := attachments + [a];
        }
      }
    case Merge(destination, parent, job) =>
      if parent < |attachments| && destination < |attachments| {
        var allowed := agent.IsAllowed(attachments[parent], job);
        if allowed {
          var merge := agent.AllowMerge(attachments[parent], job, attachments[destination]);
          if merge {
            if attachments[parent].index >= attachments[destination].index {
              return false, attachments;
            }
            agent.MergeNodeAttachments(attachments[destination], attachments[parent], job);
            ghost var inserted := InsertedEdge(before, attachments[parent].index, attachments[destination].index, job.index);
            assert forall i :: 0 <= i < |inserted| ==> agent.ratingGraph.nodes[i] == inserted[i];
          } else {
            var a := agent.CreateNextNodeAttachment(attachments[parent], job);
            next := attachments + [a];
          }
        }
      }
    case MissedDeadline(node, lateJob, _) =>
      if node < |attachments| {
        agent.MissedDeadline(attachments[node], lateJob);
      }
    case DeadEnd(_) =>
    case Finished(node) =>
      if node < |attachments| {
        agent.FinishedNode(attachments[node]);
        ghost var marked := MarkedSuccessful(before, attachments[node].index);
        assert forall i :: 0 <= i < |marked| ==> agent.ratingGraph.nodes[i] == marked[i];
      }
    }
  }

  /** `generate`: one exhaustive pass (no early exit) recorded into `graph`,
      then `compute_ratings`. The pass is given as the calls it makes, and
      the graph is what replaying them records; a merge into a node that
      does not come later than its parent violates `insert_edge`'s
      assertion and aborts (`completed` is false, and the ratings are not
      computed). Events naming a search node that does not exist are
      ignored. On completion every node keeps its recorded edges and gets
      the final rating of the recorded graph, which is never negative. */
  method Generate(graph: RatingGraph, pass: seq<Event>) returns (completed: bool)
    requires graph.Valid() && RecordedRatings(graph.nodes)
    modifies graph
    ensures graph.Valid()
    ensures var recorded := GraphReplay(Recording(old(graph.nodes), [RatingNodeAttachment(0)]), pass);
            completed == recorded.Some?
            && (completed ==>
                  |graph.nodes| == |recorded.value.nodes|
                  && forall i :: 0 <= i < |graph.nodes| ==>
                       graph.nodes[i].edges == recorded.value.nodes[i].edges
                       && graph.nodes[i].rating == FinalRating(recorded.value.nodes, i))
    ensures completed ==> forall i :: 0 <= i < |graph.nodes| ==> graph.nodes[i].rating >= 0.0
  {
    var agent := new RatingGraphAgent(graph);
    var attachments := [agent.CreateInitialNodeAttachment()];
    ghost var start := Recording(graph.nodes, attachments);
    var step := 0;
    while step < |pass|
      invariant 0 <= step <= |pass|
      invariant GraphReplay(start, pass[..step]) == Some(Recording(graph.nodes, attachments))
    {
      assert pass[..step + 1][..step] == pass[..step];
      var ok;
      ok, attachments := Record(agent, attachments, pass[step]);
      if !ok {
        GraphReplayAborted(start, pass, step + 1);
        return false;
      }
      step := step + 1;
    }
    assert pass[..step] == pass;
    ghost var recorded := graph.nodes;
    graph.ComputeRatings();
    forall i | 0 <= i < |graph.nodes|
      ensures graph.nodes[i].rating >= 0.0
    {
      FinalRatingNonNegative(recorded, i);
    }
    return true;
  }
}
