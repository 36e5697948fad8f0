/** `Sub_graph`: a small graph of job-labelled edges describing the part of a
    rating graph that leads to a cut, plus the `Rating_graph_cut` record that
    carries one. Node 0 is the root. */
module SubGraphs {

  datatype SubGraphEdge = SubGraphEdge(child: int, takenJob: nat)

  /** An edge seen from outside its node: source node, target node, job. */
  datatype Arc = Arc(source: int, target: int, job: nat)

  type Nodes = seq<seq<SubGraphEdge>>

  predicate EdgesInRange(nodes: Nodes) {
    forall u, k :: 0 <= u < |nodes| && 0 <= k < |nodes[u]| ==> 0 <= nodes[u][k].child < |nodes|
  }

  /** Every edge leads to a node with a higher index. */
  predicate Forward(nodes: Nodes) {
    forall u, k :: 0 <= u < |nodes| && 0 <= k < |nodes[u]| ==> nodes[u][k].child > u
  }

  /** The first edge of every non-leaf node leads to a higher index: the walk
      that `length` follows cannot return to a node it has left. */
  predicate FirstEdgesForward(nodes: Nodes) {
    forall u :: 0 <= u < |nodes| && nodes[u] != [] ==> nodes[u][0].child > u
  }

  /** The position of the first edge labelled `job`, or -1 when there is none. */
  function FirstMatch(edges: seq<SubGraphEdge>, job: nat): (k: int)
    ensures -1 <= k < |edges|
    ensures k == -1 <==> forall m :: 0 <= m < |edges| ==> edges[m].takenJob != job
    ensures k >= 0 ==> edges[k].takenJob == job && forall m :: 0 <= m < k ==> edges[m].takenJob != job
  {
    if edges == [] then -1
    else if edges[0].takenJob == job then 0
    else
      var k := FirstMatch(edges[1..], job);
      if k == -1 then -1 else k + 1
  }

  /** The node reached from `start` by the first edge labelled `job`, or -1. */
  function Successor(nodes: Nodes, start: int, job: nat): int
    requires 0 <= start < |nodes|
  {
    var k := FirstMatch(nodes[start], job);
    if k == -1 then -1 else nodes[start][k].child
  }

  /** Appending an edge changes the successor for its job only when the node
      had no edge with that job before. */
  lemma SuccessorAfterAppend(nodes: Nodes, start: int, e: SubGraphEdge, job: nat)
    requires 0 <= start < |nodes|
    ensures Successor(nodes[start := nodes[start] + [e]], start, job)
         == if FirstMatch(nodes[start], job) == -1 && e.takenJob == job then e.child else Successor(nodes, start, job)
  {
    var edges := nodes[start] + [e];
    assert forall m :: 0 <= m < |nodes[start]| ==> edges[m] == nodes[start][m];
    assert edges[|edges| - 1] == e;
  }

  /** The number of edges on the walk that always takes a node's first edge. */
  function WalkLength(nodes: Nodes, n: int): (r: nat)
    requires EdgesInRange(nodes) && FirstEdgesForward(nodes) && 0 <= n < |nodes|
    ensures r <= |nodes| - 1 - n
    decreases |nodes| - n
  {
    if nodes[n] == [] then 0 else 1 + WalkLength(nodes, nodes[n][0].child)
  }

  /** The arcs of one node's edges. */
  function ArcsOf(u: int, edges: seq<SubGraphEdge>): multiset<Arc>
  {
    if edges == [] then multiset{}
    else ArcsOf(u, edges[..|edges| - 1]) + multiset{Arc(u, edges[|edges| - 1].child, edges[|edges| - 1].takenJob)}
  }

  /** The arcs of nodes `0..n-1`. */
  function Arcs(nodes: Nodes, n: nat): multiset<Arc>
    requires n <= |nodes|
  {
    if n == 0 then multiset{} else Arcs(nodes, n - 1) + ArcsOf(n - 1, nodes[n - 1])
  }

  function AllArcs(nodes: Nodes): multiset<Arc> { Arcs(nodes, |nodes|) }

  /** The arc that `reversed` produces for `a` in a graph of `size` nodes. */
  function Mirror(a: Arc, size: int): Arc {
    Arc(size - a.target - 1, size - a.source - 1, a.job)
  }

  /** The mirrored arcs of one node's edges. */
  function MirrorArcsOf(size: int, u: int, edges: seq<SubGraphEdge>): multiset<Arc>
  {
    if edges == [] then multiset{}
    else MirrorArcsOf(size, u, edges[..|edges| - 1]) + multiset{Mirror(Arc(u, edges[|edges| - 1].child, edges[|edges| - 1].takenJob), size)}
  }

  /** The mirrored arcs of nodes `0..n-1`. */
  function MirrorArcs(nodes: Nodes, n: nat): multiset<Arc>
    requires n <= |nodes|
  {
    if n == 0 then multiset{} else MirrorArcs(nodes, n - 1) + MirrorArcsOf(|nodes|, n - 1, nodes[n - 1])
  }

  lemma MirrorInvolution(a: Arc, size: int)
    ensures Mirror(Mirror(a, size), size) == a
  {
  }

  /** Mirroring is a bijection on arcs, so each mirrored arc occurs as often
      as the arc it mirrors. */
  lemma {:induction false} MirrorArcsOfCount(size: int, u: int, edges: seq<SubGraphEdge>, a: Arc)
    ensures MirrorArcsOf(size, u, edges)[a] == ArcsOf(u, edges)[Mirror(a, size)]
  {
    if edges != [] {
      MirrorArcsOfCount(size, u, edges[..|edges| - 1], a);
      var b := Arc(u, edges[|edges| - 1].child, edges[|edges| - 1].takenJob);
      MirrorInvolution(a, size);
      MirrorInvolution(b, size);
      assert (Mirror(b, size) == a) == (b == Mirror(a, size));
    }
  }

  lemma {:induction false} MirrorArcsCount(nodes: Nodes, n: nat, a: Arc)
    requires n <= |nodes|
    ensures MirrorArcs(nodes, n)[a] == Arcs(nodes, n)[Mirror(a, |nodes|)]
  {
    if n > 0 {
      var m := Mirror(a, |nodes|);
      var edges := nodes[n - 1];
      var p: nat := n - 1;
      MirrorArcsCount(nodes, p, a);
      MirrorArcsOfCount(|nodes|, p, edges, a);
      var x := MirrorArcs(nodes, p)[a];
      var y := MirrorArcsOf(|nodes|, p, edges)[a];
      assert x == Arcs(nodes, p)[m];
      assert y == ArcsOf(p, edges)[m];
      assert MirrorArcs(nodes, n)[a] == x + y;
      assert Arcs(nodes, n)[m] == Arcs(nodes, p)[m] + ArcsOf(p, edges)[m];
    }
  }

  /** Appending an edge at node `s` adds exactly its arc. */
  lemma {:induction false} ArcsAfterAppend(nodes: Nodes, n: nat, s: int, e: SubGraphEdge)
    requires n <= |nodes| && 0 <= s < |nodes|
    ensures Arcs(nodes[s := nodes[s] + [e]], n)
         == Arcs(nodes, n) + (if s < n then multiset{Arc(s, e.child, e.takenJob)} else multiset{})
  {
    if n > 0 {
      ArcsAfterAppend(nodes, n - 1, s, e);
      var updated := nodes[s := nodes[s] + [e]];
      if s == n - 1 {
        assert (nodes[s] + [e])[..|nodes[s] + [e]| - 1] == nodes[s];
      } else {
        assert updated[n - 1] == nodes[n - 1];
      }
    }
  }

  lemma MirrorArcsOfPrefix(size: int, u: int, edges: seq<SubGraphEdge>, k: nat)
    requires k < |edges|
    ensures MirrorArcsOf(size, u, edges[..k + 1])
         == MirrorArcsOf(size, u, edges[..k]) + multiset{Mirror(Arc(u, edges[k].child, edges[k].takenJob), size)}
  {
    assert edges[..k + 1][..k] == edges[..k];
  }

  lemma ForwardAfterAppend(nodes: Nodes, s: int, e: SubGraphEdge)
    requires Forward(nodes) && 0 <= s < |nodes| && e.child > s
    ensures Forward(nodes[s := nodes[s] + [e]])
  {
    var updated: Nodes := nodes[s := nodes[s] + [e]];
    forall u: int, k: int | 0 <= u < |updated| && 0 <= k < |updated[u]|
      ensures updated[u][k].child > u
    {
      if u == s && k == |nodes[s]| {
        assert updated[u][k] == e;
      } else {
        assert updated[u][k] == nodes[u][k];
      }
    }
  }

  /** One step of the outer loop of `reversed`: adding the mirrored edges
      of node `own` extends both the arcs and the nodes to `own + 1`. */
  lemma MirroredGraphStep(original: Nodes, own: nat, edges: seq<SubGraphEdge>)
    requires own < |original| && edges == original[own] && EdgesInRange(original)
    ensures MirrorArcs(original, own + 1) == MirrorArcs(original, own) + MirrorArcsOf(|original|, own, edges)
    ensures ReversedNodes(original, own + 1) == MirrorEdges(ReversedNodes(original, own), |original|, own, edges)
    ensures forall k :: 0 <= k < |edges| ==> 0 <= edges[k].child < |original|
    ensures Forward(original) ==> forall k :: 0 <= k < |edges| ==> edges[k].child > own
  {
  }

  lemma {:induction false} ArcsOfEmpty(nodes: Nodes, n: nat)
    requires n <= |nodes| && forall u :: 0 <= u < |nodes| ==> nodes[u] == []
    ensures Arcs(nodes, n) == multiset{}
  {
    if n > 0 {
      ArcsOfEmpty(nodes, n - 1);
    }
  }

  /** The result graph after one step of the loop of `reversed`: the edge
      `own -> e.child` labelled `j` of a graph of `size` nodes is appended
      as `size-1-e.child -> size-1-own` labelled `j`. */
  function MirrorEdge(acc: Nodes, size: int, own: int, e: SubGraphEdge): (r: Nodes)
    ensures |r| == |acc|
  {
    var s := size - e.child - 1;
    if 0 <= s < |acc| then acc[s := acc[s] + [SubGraphEdge(size - own - 1, e.takenJob)]] else acc
  }

  /** The result graph after the inner loop has mirrored `edges`, in order. */
  function MirrorEdges(acc: Nodes, size: int, own: int, edges: seq<SubGraphEdge>): (r: Nodes)
    ensures |r| == |acc|
  {
    if edges == [] then acc
    else MirrorEdge(MirrorEdges(acc, size, own, edges[..|edges| - 1]), size, own, edges[|edges| - 1])
  }

  /** The result graph after the outer loop has handled nodes `0..n-1`,
      starting from `|nodes|` nodes without edges. */
  function ReversedNodes(nodes: Nodes, n: nat): (r: Nodes)
    requires n <= |nodes|
    ensures |r| == |nodes|
  {
    if n == 0 then seq(|nodes|, _ => [])
    else MirrorEdges(ReversedNodes(nodes, n - 1), |nodes|, n - 1, nodes[n - 1])
  }

  class SubGraph {
    var nodes: Nodes

    ghost predicate Valid()
      reads this
    {
      |nodes| >= 1 && EdgesInRange(nodes)
    }

    /** A graph holding only the root. */
    constructor()
      ensures Valid() && nodes == [[]]
    {
      nodes := [[]];
    }

    /** `can_take_job`: the node reached from `start` by the first edge
        labelled `job`, or -1 when `job` cannot be taken there. */
    method CanTakeJob(start: int, job: nat) returns (r: int)
      requires Valid() && 0 <= start < |nodes|
      ensures r == Successor(nodes, start, job)
      ensures r == -1 <==> forall k :: 0 <= k < |nodes[start]| ==> nodes[start][k].takenJob != job
      ensures r != -1 ==> 0 <= r < |nodes|
    {
      var k := 0;
      while k < |nodes[start]|
        invariant 0 <= k <= |nodes[start]|
        invariant forall m :: 0 <= m < k ==> nodes[start][m].takenJob != job
      {
        if nodes[start][k].takenJob == job {
          return nodes[start][k].child;
        }
        k := k + 1;
      }
      return -1;
    }

    /** `is_leaf`: a node is a leaf exactly when no job can be taken from it. */
    function IsLeaf(node: int): (r: bool)
      reads this
      requires Valid() && 0 <= node < |nodes|
      ensures r <==> forall job: nat :: Successor(nodes, node, job) == -1
    {
      if nodes[node] == [] then true
      else
        assert Successor(nodes, node, nodes[node][0].takenJob) != -1;
        false
    }

    /** `length`: the number of edges on the walk from the root that always
        takes a node's first edge; it ends at a leaf. */
    method Length() returns (r: int)
      requires Valid() && FirstEdgesForward(nodes)
      ensures r == WalkLength(nodes, 0)
      ensures 0 <= r < |nodes|
    {
      var currentLength := 0;
      var currentNode := 0;
      while nodes[currentNode] != []
        invariant 0 <= currentNode < |nodes|
        invariant currentLength + WalkLength(nodes, currentNode) == WalkLength(nodes, 0)
        decreases |nodes| - currentNode
      {
        currentNode := nodes[currentNode][0].child;
        currentLength := currentLength + 1;
      }
      return currentLength;
    }

    /** `add_edge_to_new_node`: creates a new leaf reached from `start` by `job`. */
    method AddEdgeToNewNode(start: int, job: nat) returns (end: int)
      requires Valid() && 0 <= start < |nodes|
      modifies this
      ensures Valid()
      ensures end == |old(nodes)|
      ensures nodes == old(nodes)[start := old(nodes)[start] + [SubGraphEdge(end, job)]] + [[]]
      ensures Successor(nodes, start, job)
           == if Successor(old(nodes), start, job) == -1 then end else Successor(old(nodes), start, job)
      ensures Forward(old(nodes)) ==> Forward(nodes)
    {
      end := |nodes|;
      nodes := nodes + [[]];
      ghost var grown := nodes;
      nodes := nodes[start := nodes[start] + [SubGraphEdge(end, job)]];
      assert nodes == old(nodes)[start := old(nodes)[start] + [SubGraphEdge(end, job)]] + [[]];
      SuccessorAfterAppend(grown, start, SubGraphEdge(end, job), job);
      ghost var o := old(nodes);
      assert Successor(grown, start, job) == Successor(o, start, job) by {
        assert grown[start] == o[start];
      }
      assert Successor(nodes, start, job) == Successor(grown[start := grown[start] + [SubGraphEdge(end, job)]], start, job);
      assert FirstMatch(grown[start], job) == -1 <==> Successor(o, start, job) == -1 by {
        assert grown[start] == o[start];
        if FirstMatch(grown[start], job) != -1 {
          assert 0 <= o[start][FirstMatch(o[start], job)].child;
        }
      }
    }

    /** `add_edge_between_existing_nodes`: appends an edge `start -> end` labelled `job`. */
    method AddEdgeBetweenExistingNodes(start: int, end: int, job: nat)
      requires Valid() && 0 <= start < |nodes| && 0 <= end < |nodes|
      modifies this
      ensures Valid()
      ensures nodes == old(nodes)[start := old(nodes)[start] + [SubGraphEdge(end, job)]]
      ensures AllArcs(nodes) == AllArcs(old(nodes)) + multiset{Arc(start, end, job)}
    {
      ArcsAfterAppend(nodes, |nodes|, start, SubGraphEdge(end, job));
      nodes := nodes[start := nodes[start] + [SubGraphEdge(end, job)]];
    }

    /** `reversed`: a graph of the same size in which each edge `u -> v`
        labelled `j` becomes `n-1-v -> n-1-u` labelled `j`. Each arc occurs
        in the result as often as its mirror image occurs here. */
    method Reversed() returns (r: SubGraph)
      requires Valid()
      ensures fresh(r) && r.Valid()
      ensures |r.nodes| == |nodes|
      ensures r.nodes == ReversedNodes(nodes, |nodes|)
      ensures forall a :: AllArcs(r.nodes)[a] == AllArcs(nodes)[Mirror(a, |nodes|)]
      ensures Forward(nodes) ==> Forward(r.nodes)
    {
      var original := nodes;
      var size := |original|;
      r := new SubGraph();
      r.AddEmptyNodes(size);
      ArcsOfEmpty(r.nodes, |r.nodes|);
      r.AddMirroredGraph(original, Forward(original));
      forall a
        ensures AllArcs(r.nodes)[a] == AllArcs(original)[Mirror(a, size)]
      {
        MirrorArcsCount(original, size, a);
      }
    }

    /** The first loop of `reversed`, run on the result graph: it grows the
        root-only graph to `size` nodes without edges. */
    method AddEmptyNodes(size: int)
      requires nodes == [[]] && 1 <= size
      modifies this
      ensures Valid() && nodes == seq(size, _ => [])
    {
      var counter := 1;
      while counter < size
        invariant 1 <= counter <= size
        invariant nodes == seq(counter, _ => [])
      {
        nodes := nodes + [[]];
        counter := counter + 1;
      }
    }

    /** The outer loop of `reversed`, run on the result graph, which starts
        with as many nodes as `original` and no edges: the edges of every
        node of `original` are added mirrored. `forward` says that the
        original edges lead to higher indices. */
    method AddMirroredGraph(original: Nodes, ghost forward: bool)
      requires Valid() && |nodes| == |original| && EdgesInRange(original)
      requires nodes == ReversedNodes(original, 0) && AllArcs(nodes) == multiset{}
      requires forward ==> Forward(original)
      modifies this
      ensures Valid() && |nodes| == |original|
      ensures nodes == ReversedNodes(original, |original|)
      ensures AllArcs(nodes) == MirrorArcs(original, |original|)
      ensures forward ==> Forward(nodes)
    {
      var own := 0;
      while own < |original|
        invariant 0 <= own <= |original|
        invariant Valid() && |nodes| == |original|
        invariant AllArcs(nodes) == MirrorArcs(original, own)
        invariant nodes == ReversedNodes(original, own)
        invariant forward ==> Forward(nodes)
      {
        AddMirroredNode(original, own, forward);
        own := own + 1;
      }
    }

    /** The body of that outer loop: the edges of node `own` of `original`
        are added mirrored to a graph holding those of the nodes before it. */
    method AddMirroredNode(original: Nodes, own: nat, ghost forward: bool)
      requires Valid() && |nodes| == |original| && EdgesInRange(original) && own < |original|
      requires AllArcs(nodes) == MirrorArcs(original, own) && nodes == ReversedNodes(original, own)
      requires forward ==> Forward(original) && Forward(nodes)
      modifies this
      ensures Valid() && |nodes| == |original|
      ensures AllArcs(nodes) == MirrorArcs(original, own + 1) && nodes == ReversedNodes(original, own + 1)
      ensures forward ==> Forward(nodes)
    {
      var edges := original[own];
      MirroredGraphStep(original, own, edges);
      AddMirroredEdges(own, edges, forward);
    }

    /** The inner loop of `reversed`, run on the result graph: every edge of
        node `own` of the original is added mirrored. `forward` says that the
        original edges lead to higher indices. */
    method AddMirroredEdges(own: int, edges: seq<SubGraphEdge>, ghost forward: bool)
      requires Valid() && 0 <= own < |nodes|
      requires forall k :: 0 <= k < |edges| ==> 0 <= edges[k].child < |nodes|
      requires forward ==> Forward(nodes) && forall k :: 0 <= k < |edges| ==> edges[k].child > own
      modifies this
      ensures Valid() && |nodes| == |old(nodes)|
      ensures nodes == MirrorEdges(old(nodes), |nodes|, own, edges)
      ensures AllArcs(nodes) == AllArcs(old(nodes)) + MirrorArcsOf(|nodes|, own, edges)
      ensures forward ==> Forward(nodes)
    {
      var size := |nodes|;
      var k := 0;
      while k < |edges|
        invariant 0 <= k <= |edges|
        invariant Valid() && |nodes| == size
        invariant AllArcs(nodes) == AllArcs(old(nodes)) + MirrorArcsOf(size, own, edges[..k])
        invariant nodes == MirrorEdges(old(nodes), size, own, edges[..k])
        invariant forward ==> Forward(nodes)
      {
        MirrorArcsOfPrefix(size, own, edges, k);
        assert edges[..k + 1][..k] == edges[..k];
        AddMirroredEdge(own, edges[k], forward);
        k := k + 1;
      }
      assert edges[..|edges|] == edges;
    }

    /** One step of that inner loop: the edge `own -> e.child` labelled `j`
        becomes `n-1-e.child -> n-1-own` labelled `j`. */
    method AddMirroredEdge(own: int, e: SubGraphEdge, ghost forward: bool)
      requires Valid() && 0 <= own < |nodes| && 0 <= e.child < |nodes|
      requires forward ==> Forward(nodes) && e.child > own
      modifies this
      ensures Valid() && |nodes| == |old(nodes)|
      ensures nodes == MirrorEdge(old(nodes), |nodes|, own, e)
      ensures nodes[|nodes| - e.child - 1]
           == old(nodes)[|nodes| - e.child - 1] + [SubGraphEdge(|nodes| - own - 1, e.takenJob)]
      ensures AllArcs(nodes) == AllArcs(old(nodes)) + multiset{Mirror(Arc(own, e.child, e.takenJob), |nodes|)}
      ensures forward ==> Forward(nodes)
    {
      var size := |nodes|;
      if forward {
        ForwardAfterAppend(nodes, size - e.child - 1, SubGraphEdge(size - own - 1, e.takenJob));
      }
      AddEdgeBetweenExistingNodes(size - e.child - 1, size - own - 1, e.takenJob);
    }
  }

  /** `Rating_graph_cut`: the sub-graph of jobs leading to the cut, the jobs
      forbidden and allowed at its leaf, and the extra jobs found by
      exploration. */
  datatype RatingGraphCut = RatingGraphCut(
    previousJobs: SubGraph,
    forbiddenJobs: seq<nat>,
    allowedJobs: seq<nat>,
    extraForbiddenJobs: seq<nat>,
    extraAllowedJobs: seq<nat>)
}
