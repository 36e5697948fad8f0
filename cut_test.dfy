/** `Agent_cut_test` of cut_test.hpp: runs one search with all remaining
    cuts in force at once. Each search node tracks, per cut, the sub-graph
    node it corresponds to (-1 once it left that cut's sub-graph or passed
    its leaf); at a leaf the cut's forbidden jobs are refused, and the first
    cut that refuses a job is marked as having intervened. */
module CutTest {
  import opened ProblemModel
  import opened Search
  import opened SubGraphs

  /** The marker for "no longer inside this cut's sub-graph". */
  const Left: int := -1

  /** `Attachment_cut_test`: one sub-graph node index per cut. */
  datatype CutTestAttachment = CutTestAttachment(nodeIndices: seq<int>)

  /** `Cut_test_result`. */
  datatype CutTestResult = CutTestResult(hasUnexpectedFailures: bool, fixedCutIndices: seq<nat>)

  /** Strictly increasing, hence ascending and without repetition. */
  predicate StrictlyIncreasing(s: seq<nat>) {
    forall i, j :: 0 <= i < j < |s| ==> s[i] < s[j]
  }

  /** The loop that fills `fixed_cut_indices`: the positions of the cuts
      that never intervened, in ascending order. */
  method FixedCutIndices(didIntervene: seq<bool>) returns (r: seq<nat>)
    ensures StrictlyIncreasing(r)
    ensures forall i: nat :: i in r <==> i < |didIntervene| && !didIntervene[i]
  {
    r := [];
    var index := 0;
    while index < |didIntervene|
      invariant 0 <= index <= |didIntervene|
      invariant StrictlyIncreasing(r)
      invariant forall k :: 0 <= k < |r| ==> r[k] < index
      invariant forall i: nat :: i in r <==> i < index && !didIntervene[i]
    {
      if !didIntervene[index] {
        r := r + [index];
      }
      index := index + 1;
    }
  }

  // ---- one search replayed, as a function ----

  /** The nodes of every cut's sub-graph, in cut order. */
  ghost function SubsOf(cuts: seq<RatingGraphCut>): (r: seq<Nodes>)
    reads set i | 0 <= i < |cuts| :: cuts[i].previousJobs
    ensures |r| == |cuts| && forall i :: 0 <= i < |cuts| ==> r[i] == cuts[i].previousJobs.nodes
  {
    if cuts == [] then [] else SubsOf(cuts[..|cuts| - 1]) + [cuts[|cuts| - 1].previousJobs.nodes]
  }

  /** Cut `i`, whose sub-graph has nodes `subs[i]`, is at a leaf in `a`
      and forbids `job`. */
  predicate BlocksAt(subs: seq<Nodes>, cuts: seq<RatingGraphCut>, a: CutTestAttachment, i: int, job: nat) {
    0 <= i < |subs| && i < |cuts| && i < |a.nodeIndices|
    && 0 <= a.nodeIndices[i] < |subs[i]| && subs[i][a.nodeIndices[i]] == [] && job in cuts[i].forbiddenJobs
  }

  /** The first cut, from `from` on, that refuses `job` at `a`, or -1. */
  function FirstBlocking(subs: seq<Nodes>, cuts: seq<RatingGraphCut>, a: CutTestAttachment, job: nat, from: nat): (r: int)
    ensures r == -1 <==> forall i :: from <= i < |cuts| ==> !BlocksAt(subs, cuts, a, i, job)
    ensures r != -1 ==> from <= r < |cuts| && BlocksAt(subs, cuts, a, r, job)
                        && forall m :: from <= m < r ==> !BlocksAt(subs, cuts, a, m, job)
    decreases |cuts| - from
  {
    if from >= |cuts| then -1
    else if BlocksAt(subs, cuts, a, from, job) then from
    else FirstBlocking(subs, cuts, a, job, from + 1)
  }

  /** Where a cut tracking node `n` of sub-graph `g` is after `job`: it
      leaves the sub-graph once it has left it or passed its leaf, and
      otherwise follows the first edge taking `job`, if any. */
  function StepIndex(g: Nodes, n: int, job: nat): (r: int)
    ensures r == Left || 0 <= n < |g|
  {
    if !(0 <= n < |g|) || g[n] == [] then Left else Successor(g, n, job)
  }

  /** The attachment of a child reached with `job` from `parent`. */
  function NextAttachment(subs: seq<Nodes>, parent: CutTestAttachment, job: nat): (r: CutTestAttachment)
    ensures |r.nodeIndices| == |parent.nodeIndices|
    ensures forall i :: 0 <= i < |parent.nodeIndices| ==>
              r.nodeIndices[i] == if i < |subs| then StepIndex(subs[i], parent.nodeIndices[i], job) else Left
  {
    CutTestAttachment(seq(|parent.nodeIndices|, i requires 0 <= i < |parent.nodeIndices| =>
      if i < |subs| then StepIndex(subs[i], parent.nodeIndices[i], job) else Left))
  }

  /** What one search with the cut test agent keeps: the attachment of
      every search node and `did_intervene`. */
  datatype TestState = TestState(attachments: seq<CutTestAttachment>, didIntervene: seq<bool>)

  /** The agent at the start of `perform`'s search over `count` cuts. */
  function TestStart(count: nat): (r: TestState)
    ensures |r.attachments| == 1 && |r.attachments[0].nodeIndices| == count && |r.didIntervene| == count
    ensures forall i :: 0 <= i < count ==> r.attachments[0].nodeIndices[i] == 0 && !r.didIntervene[i]
  {
    TestState([CutTestAttachment(seq(count, _ => 0))], seq(count, _ => false))
  }

  /** `is_allowed` for `job` at search node `parent`: the state afterwards
      and the answer. The first cut that refuses the job intervenes. */
  function TestAllowed(subs: seq<Nodes>, cuts: seq<RatingGraphCut>, s: TestState, parent: nat, job: nat): (r: (TestState, bool))
    requires parent < |s.attachments| && |s.didIntervene| == |cuts|
    ensures |r.0.didIntervene| == |cuts| && r.0.attachments == s.attachments
  {
    var first := FirstBlocking(subs, cuts, s.attachments[parent], job, 0);
    if first == -1 then (s, true) else (s.(didIntervene := s.didIntervene[first := true]), false)
  }

  /** One call of the search replayed. An expansion the agent allows adds
      the child's attachment; a merge only asks `is_allowed`, since this
      agent has no merge hooks; failures and finished paths change nothing.
      Events naming a search node that does not exist are ignored. */
  function TestStep(subs: seq<Nodes>, cuts: seq<RatingGraphCut>, s: TestState, e: Event): (r: TestState)
    requires |s.didIntervene| == |cuts|
    ensures |r.didIntervene| == |cuts| && |r.attachments| >= |s.attachments|
  {
    match e
    case Expand(parent, job) =>
      if parent >= |s.attachments| then s
      else
        var (t, allowed) := TestAllowed(subs, cuts, s, parent, job.index);
        if allowed then t.(attachments := t.attachments + [NextAttachment(subs, s.attachments[parent], job.index)]) else t
    case Merge(_, parent, job) =>
      if parent >= |s.attachments| then s else TestAllowed(subs, cuts, s, parent, job.index).0
    case MissedDeadline(_, _, _) => s
    case DeadEnd(_) => s
    case Finished(_) => s
  }

  /** The state after replaying `pass` from the start of the search. */
  function TestReplay(subs: seq<Nodes>, cuts: seq<RatingGraphCut>, pass: seq<Event>): (r: TestState)
    ensures |r.didIntervene| == |cuts| && |r.attachments| >= 1
  {
    if pass == [] then TestStart(|cuts|)
    else TestStep(subs, cuts, TestReplay(subs, cuts, pass[..|pass| - 1]), pass[|pass| - 1])
  }

  /** Step `k` of `pass` is refused first by cut `i`: the search asks
      whether it may take a job, and `i` is the first cut at a leaf that
      forbids it. */
  predicate IntervenesAt(subs: seq<Nodes>, cuts: seq<RatingGraphCut>, pass: seq<Event>, k: int, i: int) {
    0 <= k < |pass| && RefusedFirstBy(subs, cuts, TestReplay(subs, cuts, pass[..k]), pass[k], i)
  }

  /** The search asks at `s` whether it may take a job, and cut `i` is the
      first to refuse it. */
  predicate RefusedFirstBy(subs: seq<Nodes>, cuts: seq<RatingGraphCut>, s: TestState, e: Event, i: int) {
    (e.Expand? || e.Merge?) && e.parent < |s.attachments|
    && FirstBlocking(subs, cuts, s.attachments[e.parent], e.job.index, 0) == i
  }

  /** One step makes cut `i` intervene exactly when it is the first to
      refuse the step's job. */
  lemma TestStepIntervened(subs: seq<Nodes>, cuts: seq<RatingGraphCut>, s: TestState, e: Event, i: int)
    requires |s.didIntervene| == |cuts| && 0 <= i < |cuts|
    ensures TestStep(subs, cuts, s, e).didIntervene[i] <==> s.didIntervene[i] || RefusedFirstBy(subs, cuts, s, e, i)
  {
  }

  /** Each step of `pass` before its last is a witness in `pass` exactly
      when it is one in `front`. */
  lemma IntervenesPrefix(subs: seq<Nodes>, cuts: seq<RatingGraphCut>, pass: seq<Event>, front: seq<Event>, i: int)
    requires pass != [] && front == pass[..|pass| - 1]
    ensures forall k :: IntervenesAt(subs, cuts, pass, k, i)
                        <==> IntervenesAt(subs, cuts, front, k, i) || (k == |front| && IntervenesAt(subs, cuts, pass, k, i))
  {
    forall k | 0 <= k < |front|
      ensures IntervenesAt(subs, cuts, pass, k, i) == IntervenesAt(subs, cuts, front, k, i)
    {
      assert pass[..k] == front[..k] && pass[k] == front[k];
    }
  }

  /** After a search, cut `i` has intervened exactly when some step of the
      search was refused first by it. */
  lemma {:induction false} TestReplayIntervened(subs: seq<Nodes>, cuts: seq<RatingGraphCut>, pass: seq<Event>, i: int)
    requires 0 <= i < |cuts|
    ensures TestReplay(subs, cuts, pass).didIntervene[i] <==> exists k :: IntervenesAt(subs, cuts, pass, k, i)
  {
    if pass != [] {
      var front := pass[..|pass| - 1];
      var before := TestReplay(subs, cuts, front);
      assert TestReplay(subs, cuts, pass) == TestStep(subs, cuts, before, pass[|front|]);
      TestReplayIntervened(subs, cuts, front, i);
      IntervenesPrefix(subs, cuts, pass, front, i);
      TestStepIntervened(subs, cuts, before, pass[|front|], i);
      assert IntervenesAt(subs, cuts, pass, |front|, i) <==> RefusedFirstBy(subs, cuts, before, pass[|front|], i);
      if TestReplay(subs, cuts, pass).didIntervene[i] && !before.didIntervene[i] {
        assert IntervenesAt(subs, cuts, pass, |front|, i);
      }
    }
  }

  class CutTestAgent {
    const remainingCuts: seq<RatingGraphCut>
    /** The nodes of every cut's sub-graph. */
    ghost const subs: seq<Nodes>
    var didIntervene: seq<bool>

    /** The sub-graphs of all cuts. */
    ghost function Graphs(): set<SubGraph> {
      set i | 0 <= i < |remainingCuts| :: remainingCuts[i].previousJobs
    }

    /** Every cut's sub-graph is well formed. */
    ghost predicate GraphsValid()
      reads Graphs()
    {
      |subs| == |remainingCuts|
      && forall i :: 0 <= i < |remainingCuts| ==> remainingCuts[i].previousJobs.Valid() && remainingCuts[i].previousJobs.nodes == subs[i]
    }

    ghost predicate Valid()
      reads this, Graphs()
    {
      |didIntervene| == |remainingCuts| && GraphsValid()
    }

    /** One index per cut, each -1 or a node of that cut's sub-graph. */
    ghost predicate InScope(a: CutTestAttachment)
      reads Graphs()
    {
      |a.nodeIndices| == |remainingCuts|
      && forall i :: 0 <= i < |remainingCuts| ==>
           a.nodeIndices[i] == Left || 0 <= a.nodeIndices[i] < |remainingCuts[i].previousJobs.nodes|
    }

    /** Every attachment of a search is in scope. */
    ghost predicate AllInScope(attachments: seq<CutTestAttachment>)
      reads Graphs()
    {
      forall n :: 0 <= n < |attachments| ==> InScope(attachments[n])
    }

    /** Cut `i` is at a leaf of its sub-graph in `a` and forbids `job`. */
    ghost predicate Blocks(a: CutTestAttachment, i: int, job: nat)
      reads Graphs()
      requires GraphsValid() && InScope(a) && 0 <= i < |remainingCuts|
    {
      var n := a.nodeIndices[i];
      assert remainingCuts[i].previousJobs in Graphs();
      n != Left && remainingCuts[i].previousJobs.IsLeaf(n) && job in remainingCuts[i].forbiddenJobs
    }

    /** What cut `i` tracks after `job` is taken where it tracked `n`. */
    ghost function NextIndex(i: int, n: int, job: nat): int
      reads Graphs()
      requires GraphsValid() && 0 <= i < |remainingCuts|
      requires n == Left || 0 <= n < |remainingCuts[i].previousJobs.nodes|
    {
      assert remainingCuts[i].previousJobs in Graphs();
      var g := remainingCuts[i].previousJobs;
      if n == Left || g.IsLeaf(n) then Left else Successor(g.nodes, n, job)
    }

    /** `perform`'s set-up: nothing has intervened yet. */
    constructor(cuts: seq<RatingGraphCut>)
      ensures remainingCuts == cuts && subs == SubsOf(cuts)
      ensures |didIntervene| == |cuts| && forall i :: 0 <= i < |cuts| ==> !didIntervene[i]
    {
      remainingCuts := cuts;
      subs := SubsOf(cuts);
      var flags := [];
      var counter := 0;
      while counter < |cuts|
        invariant 0 <= counter <= |cuts| && |flags| == counter
        invariant forall i :: 0 <= i < counter ==> !flags[i]
      {
        flags := flags + [false];
        counter := counter + 1;
      }
      didIntervene := flags;
    }

    /** `may_potentially_forbid_jobs`. */
    function MayPotentiallyForbidJobs(): (r: bool)
      ensures r
    {
      true
    }

    /** `create_initial_node_attachment`: every cut at the root of its sub-graph. */
    method CreateInitialNodeAttachment() returns (a: CutTestAttachment)
      requires Valid()
      ensures InScope(a)
      ensures forall i :: 0 <= i < |a.nodeIndices| ==> a.nodeIndices[i] == 0
    {
      var indices := [];
      var counter := 0;
      while counter < |remainingCuts|
        invariant 0 <= counter <= |remainingCuts| && |indices| == counter
        invariant forall i :: 0 <= i < counter ==> indices[i] == 0
      {
        indices := indices + [0];
        counter := counter + 1;
      }
      a := CutTestAttachment(indices);
      forall i | 0 <= i < |remainingCuts|
        ensures 0 < |remainingCuts[i].previousJobs.nodes|
      {
        assert remainingCuts[i].previousJobs.Valid();
      }
    }

    /** `create_next_node_attachment`: each cut steps along its sub-graph;
        a cut that had left it, or was at its leaf, is at -1 afterwards, and
        so is a cut whose sub-graph has no edge for the job. */
    method CreateNextNodeAttachment(parent: CutTestAttachment, nextJob: Job) returns (r: CutTestAttachment)
      requires Valid() && InScope(parent)
      ensures InScope(r)
      ensures forall i :: 0 <= i < |remainingCuts| ==>
                r.nodeIndices[i] == NextIndex(i, parent.nodeIndices[i], nextJob.index)
    {
      var indices := [];
      var index := 0;
      while index < |remainingCuts|
        invariant 0 <= index <= |remainingCuts| && |indices| == index
        invariant forall i :: 0 <= i < index ==>
                    indices[i] == NextIndex(i, parent.nodeIndices[i], nextJob.index)
                    && (indices[i] == Left || 0 <= indices[i] < |remainingCuts[i].previousJobs.nodes|)
      {
        var parentIndex := parent.nodeIndices[index];
        var cut := remainingCuts[index];
        assert cut.previousJobs in Graphs();
        if parentIndex == Left {
          indices := indices + [Left];
        } else if cut.previousJobs.IsLeaf(parentIndex) {
          indices := indices + [Left];
        } else {
          var next := cut.previousJobs.CanTakeJob(parentIndex, nextJob.index);
          indices := indices + [next];
        }
        index := index + 1;
      }
      r := CutTestAttachment(indices);
    }

    /** `is_allowed`: a job is refused exactly when some cut at its leaf
        forbids it; the first such cut is marked as having intervened. */
    method IsAllowed(at: CutTestAttachment, nextJob: Job) returns (r: bool)
      requires Valid() && InScope(at)
      modifies this
      ensures Valid()
      ensures r <==> forall i :: 0 <= i < |remainingCuts| ==> !Blocks(at, i, nextJob.index)
      ensures r ==> didIntervene == old(didIntervene)
      ensures !r ==> exists i :: 0 <= i < |remainingCuts| && Blocks(at, i, nextJob.index)
                                 && (forall m :: 0 <= m < i ==> !Blocks(at, m, nextJob.index))
                                 && didIntervene == old(didIntervene)[i := true]
    {
      var index := 0;
      while index < |remainingCuts|
        invariant 0 <= index <= |remainingCuts|
        invariant didIntervene == old(didIntervene)
        invariant forall m :: 0 <= m < index ==> !Blocks(at, m, nextJob.index)
      {
        var nodeIndex := at.nodeIndices[index];
        var cut := remainingCuts[index];
        assert cut.previousJobs in Graphs();
        if nodeIndex != Left && cut.previousJobs.IsLeaf(nodeIndex) && nextJob.index in cut.forbiddenJobs {
          didIntervene := didIntervene[index := true];
          assert Blocks(at, index, nextJob.index);
          return false;
        }
        index := index + 1;
      }
      return true;
    }

    /** The agent's leaf test agrees with the one of the replay. */
    lemma BlocksAgree(a: CutTestAttachment, job: nat)
      requires GraphsValid() && InScope(a)
      ensures forall i :: 0 <= i < |remainingCuts| ==> (Blocks(a, i, job) <==> BlocksAt(subs, remainingCuts, a, i, job))
    {
      forall i | 0 <= i < |remainingCuts|
        ensures Blocks(a, i, job) <==> BlocksAt(subs, remainingCuts, a, i, job)
      {
        assert remainingCuts[i].previousJobs in Graphs();
      }
    }

    /** A child built by `create_next_node_attachment` is the replay's. */
    lemma NextAgrees(parent: CutTestAttachment, job: nat, child: CutTestAttachment)
      requires GraphsValid() && InScope(parent) && |child.nodeIndices| == |remainingCuts|
      requires forall i :: 0 <= i < |remainingCuts| ==> child.nodeIndices[i] == NextIndex(i, parent.nodeIndices[i], job)
      ensures child == NextAttachment(subs, parent, job)
    {
      forall i | 0 <= i < |remainingCuts|
        ensures child.nodeIndices[i] == StepIndex(subs[i], parent.nodeIndices[i], job)
      {
        assert remainingCuts[i].previousJobs in Graphs();
      }
      assert child.nodeIndices == NextAttachment(subs, parent, job).nodeIndices;
    }

    /** `is_allowed` asked at search node `parent`: the answer and
        `did_intervene` are those of the replay. */
    method Ask(attachments: seq<CutTestAttachment>, parent: nat, job: Job) returns (allowed: bool)
      requires Valid() && parent < |attachments| && InScope(attachments[parent])
      modifies this
      ensures Valid()
      ensures TestAllowed(subs, remainingCuts, TestState(attachments, old(didIntervene)), parent, job.index)
              == (TestState(attachments, didIntervene), allowed)
    {
      var at := attachments[parent];
      allowed := IsAllowed(at, job);
      BlocksAgree(at, job.index);
      ghost var first := FirstBlocking(subs, remainingCuts, at, job.index, 0);
      if !allowed {
        ghost var i :| 0 <= i < |remainingCuts| && Blocks(at, i, job.index)
                       && (forall m :: 0 <= m < i ==> !Blocks(at, m, job.index))
                       && didIntervene == old(didIntervene)[i := true];
        assert first == i;
      }
    }

    /** One call of the search, passed to the hooks it names: the
        attachments and `did_intervene` change as one replayed step says. */
    method Dispatch(attachments: seq<CutTestAttachment>, e: Event) returns (r: seq<CutTestAttachment>)
      requires Valid() && AllInScope(attachments)
      modifies this
      ensures Valid() && AllInScope(r)
      ensures TestStep(subs, remainingCuts, TestState(attachments, old(didIntervene)), e) == TestState(r, didIntervene)
    {
      r := attachments;
      if (e.Expand? || e.Merge?) && e.parent < |attachments| {
        var allowed := Ask(attachments, e.parent, e.job);
        if allowed && e.Expand? {
          var child := CreateNextNodeAttachment(attachments[e.parent], e.job);
          NextAgrees(attachments[e.parent], e.job.index, child);
          r := attachments + [child];
        }
      }
    }

    /** The search `pass`, from its root: `did_intervene` ends as replaying
        its calls says. */
    method Run(pass: seq<Event>)
      requires Valid() && forall i :: 0 <= i < |remainingCuts| ==> !didIntervene[i]
      modifies this
      ensures Valid() && didIntervene == TestReplay(subs, remainingCuts, pass).didIntervene
    {
      var root := CreateInitialNodeAttachment();
      var attachments := [root];
      assert root.nodeIndices == TestStart(|remainingCuts|).attachments[0].nodeIndices;
      assert didIntervene == TestStart(|remainingCuts|).didIntervene;
      assert TestReplay(subs, remainingCuts, pass[..0]) == TestState(attachments, didIntervene);
      var step := 0;
      while step < |pass|
        invariant 0 <= step <= |pass| && Valid() && AllInScope(attachments)
        invariant TestReplay(subs, remainingCuts, pass[..step]) == TestState(attachments, didIntervene)
      {
        assert pass[..step + 1][..step] == pass[..step];
        attachments := Dispatch(attachments, pass[step]);
        step := step + 1;
      }
      assert pass[..step] == pass;
    }
  }

  /** `perform`: one search with every remaining cut in force. The
      search's own verdict, `schedulable`, is an input. The result lists,
      in ascending order, exactly the cuts that never intervened when the
      search's calls are replayed: those that never were the first to
      refuse a job the search asked to take. */
  method Perform(cuts: seq<RatingGraphCut>, pass: seq<Event>, schedulable: bool) returns (result: CutTestResult)
    requires forall i :: 0 <= i < |cuts| ==> cuts[i].previousJobs.Valid()
    ensures result.hasUnexpectedFailures == !schedulable
    ensures StrictlyIncreasing(result.fixedCutIndices)
    ensures var t := TestReplay(SubsOf(cuts), cuts, pass);
            forall i: nat :: i in result.fixedCutIndices <==> i < |cuts| && !t.didIntervene[i]
    ensures forall i: nat :: i in result.fixedCutIndices <==>
              i < |cuts| && forall k :: !IntervenesAt(SubsOf(cuts), cuts, pass, k, i)
  {
    ghost var subs := SubsOf(cuts);
    var agent := new CutTestAgent(cuts);
    agent.Run(pass);
    ghost var t := TestReplay(subs, cuts, pass);
    assert agent.didIntervene == t.didIntervene;
    var fixed := FixedCutIndices(agent.didIntervene);
    result := CutTestResult(!schedulable, fixed);
    TestReplayWitnesses(subs, cuts, pass);
    assert SubsOf(cuts) == subs;
  }

  /** `TestReplayIntervened` for every cut at once. */
  lemma TestReplayWitnesses(subs: seq<Nodes>, cuts: seq<RatingGraphCut>, pass: seq<Event>)
    ensures forall i :: 0 <= i < |cuts| ==>
              (TestReplay(subs, cuts, pass).didIntervene[i] <==> exists k :: IntervenesAt(subs, cuts, pass, k, i))
  {
    forall i | 0 <= i < |cuts|
      ensures TestReplay(subs, cuts, pass).didIntervene[i] <==> exists k :: IntervenesAt(subs, cuts, pass, k, i)
    {
      TestReplayIntervened(subs, cuts, pass, i);
    }
  }
}
