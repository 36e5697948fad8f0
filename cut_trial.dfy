/** The earlier cut agent of cut_trial.hpp (`was_cut_fixed`): like the one
    of cut_check.hpp, it follows a cut's sub-graph of previous jobs, but it
    lets the search continue below the leaf, marking the child reached by an
    allowed job with -2 and by a forbidden job with -3; a failure below a
    forbidden job is expected, any other failure in scope is not. */
module CutTrial {
  import opened ProblemModel
  import opened Search
  import opened SubGraphs

  /** The marker for "an allowed job was taken at the leaf". */
  const AllowedTaken: int := -2
  /** The marker for "a forbidden job was taken at the leaf". */
  const ForbiddenTaken: int := -3
  /** The marker for "below the leaf's child: out of scope". */
  const OutOfScope: int := -4

  /** `Attachment_cut_trial`. */
  datatype TrialAttachment = TrialNode(nodeIndex: int)

  /** `was_cut_fixed`: 1 after an expected failure, else 2 after an
      unexpected one, else 0. */
  function TrialVerdict(hasExpectedFailure: bool, hasUnexpectedFailure: bool): (v: int)
    ensures v == 1 <==> hasExpectedFailure
    ensures v == 2 <==> !hasExpectedFailure && hasUnexpectedFailure
    ensures v == 0 <==> !hasExpectedFailure && !hasUnexpectedFailure
  {
    if hasExpectedFailure then 1 else if hasUnexpectedFailure then 2 else 0
  }

  class CutTrialAgent {
    const cut: RatingGraphCut
    var leafIndex: int
    var hasExpectedFailure: bool
    var hasUnexpectedFailure: bool

    ghost predicate Valid()
      reads this, cut.previousJobs
    {
      cut.previousJobs.Valid()
    }

    /** What an attachment of this agent can hold: a marker or a node of
        the sub-graph. */
    predicate InScope(a: TrialAttachment)
      reads this, cut.previousJobs
    {
      a.nodeIndex in {AllowedTaken, ForbiddenTaken, OutOfScope}
      || 0 <= a.nodeIndex < |cut.previousJobs.nodes|
    }

    constructor(c: RatingGraphCut)
      ensures cut == c && leafIndex == 0 && !hasExpectedFailure && !hasUnexpectedFailure
    {
      cut := c;
      leafIndex := 0;
      hasExpectedFailure := false;
      hasUnexpectedFailure := false;
    }

    /** The verdict the fields give. */
    function Verdict(): (v: int)
      reads this
      ensures v == TrialVerdict(hasExpectedFailure, hasUnexpectedFailure)
    {
      if hasExpectedFailure then 1 else if hasUnexpectedFailure then 2 else 0
    }

    /** `create_initial_node_attachment`: the root of the sub-graph. */
    function CreateInitialNodeAttachment(): (a: TrialAttachment)
      ensures a == TrialNode(0)
    {
      TrialNode(0)
    }

    /** `create_next_node_attachment`. `None` is a failed assertion of the
        source: a parent that is out of scope, a second leaf, a job at the
        leaf that is not in exactly one of the allowed and the forbidden
        jobs, or a sub-graph successor that is not positive. */
    method CreateNextNodeAttachment(parent: TrialAttachment, nextJob: Job) returns (r: Option<TrialAttachment>)
      requires Valid() && InScope(parent)
      modifies this
      ensures Valid() && (r.Some? ==> InScope(r.value))
      ensures hasExpectedFailure == old(hasExpectedFailure) && hasUnexpectedFailure == old(hasUnexpectedFailure)
      ensures parent.nodeIndex == OutOfScope ==> r.None?
      ensures parent.nodeIndex in {AllowedTaken, ForbiddenTaken} ==>
                r == Some(TrialNode(OutOfScope)) && leafIndex == old(leafIndex)
      // at the leaf, the job is either allowed or forbidden
      ensures parent.nodeIndex >= 0 && cut.previousJobs.IsLeaf(parent.nodeIndex) ==>
                (r.Some? <==> (old(leafIndex) <= 0 || old(leafIndex) == parent.nodeIndex)
                              && ((nextJob.index in cut.allowedJobs) != (nextJob.index in cut.forbiddenJobs)))
                && (r.Some? ==> leafIndex == parent.nodeIndex
                                && r.value == TrialNode(if nextJob.index in cut.allowedJobs then AllowedTaken else ForbiddenTaken))
      // inside the sub-graph, the search follows its edges
      ensures parent.nodeIndex >= 0 && !cut.previousJobs.IsLeaf(parent.nodeIndex) ==>
                var next := Successor(cut.previousJobs.nodes, parent.nodeIndex, nextJob.index);
                r == (if next > 0 then Some(TrialNode(next)) else None) && leafIndex == old(leafIndex)
    {
      if !(parent.nodeIndex >= -3) || parent.nodeIndex == -1 {
        return None;
      }
      if parent.nodeIndex == AllowedTaken || parent.nodeIndex == ForbiddenTaken {
        return Some(TrialNode(OutOfScope));
      }
      if cut.previousJobs.IsLeaf(parent.nodeIndex) {
        if leafIndex > 0 && leafIndex != parent.nodeIndex {
          return None;
        }
        leafIndex := parent.nodeIndex;
        var isAllowed := nextJob.index in cut.allowedJobs;
        var isForbidden := nextJob.index in cut.forbiddenJobs;
        if !(isAllowed || isForbidden) || !(!isAllowed || !isForbidden) {
          return None;
        }
        return Some(TrialNode(if isAllowed then AllowedTaken else ForbiddenTaken));
      }
      var next := cut.previousJobs.CanTakeJob(parent.nodeIndex, nextJob.index);
      if !(next > 0) {
        return None;
      }
      return Some(TrialNode(next));
    }

    /** `missed_deadline`: expected right after a forbidden job, ignored out
        of scope, unexpected otherwise. */
    method MissedDeadline(failed: TrialAttachment, lateJob: Job)
      modifies this
      ensures leafIndex == old(leafIndex)
      ensures hasExpectedFailure == (old(hasExpectedFailure) || failed.nodeIndex == ForbiddenTaken)
      ensures hasUnexpectedFailure == (old(hasUnexpectedFailure)
                                       || failed.nodeIndex !in {ForbiddenTaken, OutOfScope})
    {
      if failed.nodeIndex == OutOfScope {
        return;
      }
      if failed.nodeIndex == ForbiddenTaken {
        hasExpectedFailure := true;
      } else {
        hasUnexpectedFailure := true;
      }
    }

    /** `encountered_dead_end`: expected right after a forbidden job,
        unexpected inside the sub-graph or right after an allowed job. */
    method EncounteredDeadEnd(dead: TrialAttachment)
      modifies this
      ensures leafIndex == old(leafIndex)
      ensures hasExpectedFailure == (old(hasExpectedFailure) || dead.nodeIndex == ForbiddenTaken)
      ensures hasUnexpectedFailure == (old(hasUnexpectedFailure)
                                       || dead.nodeIndex >= 0 || dead.nodeIndex == AllowedTaken)
    {
      if dead.nodeIndex >= 0 || dead.nodeIndex == AllowedTaken {
        hasUnexpectedFailure := true;
      }
      if dead.nodeIndex == ForbiddenTaken {
        hasExpectedFailure := true;
      }
    }

    /** `is_allowed`: nothing out of scope; anything right after the leaf
        or at it; inside the sub-graph, the jobs of its edges to a node other
        than the root. */
    method IsAllowed(at: TrialAttachment, nextJob: Job) returns (r: bool)
      requires Valid() && InScope(at)
      ensures r == if at.nodeIndex == OutOfScope then false
                   else if at.nodeIndex in {AllowedTaken, ForbiddenTaken} || cut.previousJobs.IsLeaf(at.nodeIndex) then true
                   else Successor(cut.previousJobs.nodes, at.nodeIndex, nextJob.index) > 0
    {
      if at.nodeIndex == OutOfScope {
        return false;
      }
      if at.nodeIndex == AllowedTaken || at.nodeIndex == ForbiddenTaken || cut.previousJobs.IsLeaf(at.nodeIndex) {
        return true;
      }
      var next := cut.previousJobs.CanTakeJob(at.nodeIndex, nextJob.index);
      return next > 0;
    }

    /** One call of the search, dispatched to the hooks: the attachments and
        fields become those of one replayed step. */
    method Dispatch(attachments: seq<TrialAttachment>, e: Event) returns (ok: bool, next: seq<TrialAttachment>)
      requires Valid() && forall n :: 0 <= n < |attachments| ==> InScope(attachments[n])
      modifies this
      ensures Valid()
      ensures forall n :: 0 <= n < |next| ==> InScope(next[n])
      ensures var t := TrialStep(cut.previousJobs.nodes, cut.allowedJobs, cut.forbiddenJobs,
                                 TrialState(attachments, old(leafIndex), old(hasExpectedFailure), old(hasUnexpectedFailure)), e);
              ok == t.Some? && (ok ==> t.value == TrialState(next, leafIndex, hasExpectedFailure, hasUnexpectedFailure))
    {
      ok, next := true, attachments;
      match e {
        case Expand(parent, job) =>
          if parent < |attachments| {
            var allowed := IsAllowed(attachments[parent], job);
            if allowed {
              var child := CreateNextNodeAttachment(attachments[parent], job);
              if child.None? {
                ok := false;
              } else {
                next := attachments + [child.value];
              }
            }
          }
        case Merge(_, _, _) =>
          // `is_allowed` changes nothing here and cannot fail
        case MissedDeadline(node, lateJob, _) =>
          if node < |attachments| {
            MissedDeadline(attachments[node], lateJob);
          }
        case DeadEnd(node) =>
          if node < |attachments| {
            EncounteredDeadEnd(attachments[node]);
          }
        case Finished(_) =>
      }
    }
  }

  // ---- one search replayed against the cut, as a function ----

  /** What a replay of `was_cut_fixed` keeps: the attachment of every search
      node so far, and the agent's three fields. */
  datatype TrialState = TrialState(
    attachments: seq<TrialAttachment>, leafIndex: int, expectedFailure: bool, unexpectedFailure: bool)

  /** The agent before the search starts: the root attached to node 0. */
  const InitialTrial: TrialState := TrialState([TrialNode(0)], 0, false, false)

  /** The answer of `is_allowed` at `at` on the sub-graph `sub`; `None` is
      the failed assertion of `is_leaf`. */
  function TrialAllowedAt(sub: Nodes, at: TrialAttachment, job: nat): Option<bool>
  {
    if at.nodeIndex == OutOfScope then Some(false)
    else if at.nodeIndex == AllowedTaken || at.nodeIndex == ForbiddenTaken then Some(true)
    else if !(0 <= at.nodeIndex < |sub|) then None
    else if sub[at.nodeIndex] == [] then Some(true)
    else Some(Successor(sub, at.nodeIndex, job) > 0)
  }

  /** The state after `create_next_node_attachment` from `parent` with
      `job`; `None` is one of its failed assertions. */
  function TrialExpanded(sub: Nodes, allowedJobs: seq<nat>, forbiddenJobs: seq<nat>, s: TrialState,
                         parent: TrialAttachment, job: nat): Option<TrialState>
  {
    if parent.nodeIndex < ForbiddenTaken || parent.nodeIndex == -1 then None
    else if parent.nodeIndex == AllowedTaken || parent.nodeIndex == ForbiddenTaken then
      Some(s.(attachments := s.attachments + [TrialNode(OutOfScope)]))
    else if parent.nodeIndex >= |sub| then None
    else if sub[parent.nodeIndex] == [] then
      if s.leafIndex > 0 && s.leafIndex != parent.nodeIndex then None
      else if (job in allowedJobs) == (job in forbiddenJobs) then None
      else Some(s.(attachments := s.attachments + [TrialNode(if job in allowedJobs then AllowedTaken else ForbiddenTaken)],
                   leafIndex := parent.nodeIndex))
    else
      var next := Successor(sub, parent.nodeIndex, job);
      if next > 0 then Some(s.(attachments := s.attachments + [TrialNode(next)])) else None
  }

  /** One call of the search replayed; events naming a search node that
      does not exist are ignored. */
  function TrialStep(sub: Nodes, allowedJobs: seq<nat>, forbiddenJobs: seq<nat>, s: TrialState, e: Event): Option<TrialState>
  {
    match e
    case Expand(parent, job) =>
      if parent >= |s.attachments| then Some(s)
      else
        var allowed := TrialAllowedAt(sub, s.attachments[parent], job.index);
        if allowed.None? then None
        else if allowed.value then TrialExpanded(sub, allowedJobs, forbiddenJobs, s, s.attachments[parent], job.index)
        else Some(s)
    case Merge(_, _, _) => Some(s)
    case MissedDeadline(node, _, _) =>
      if node >= |s.attachments| then Some(s)
      else
        var i := s.attachments[node].nodeIndex;
        Some(s.(expectedFailure := s.expectedFailure || i == ForbiddenTaken,
                unexpectedFailure := s.unexpectedFailure || (i != ForbiddenTaken && i != OutOfScope)))
    case DeadEnd(node) =>
      if node >= |s.attachments| then Some(s)
      else
        var i := s.attachments[node].nodeIndex;
        Some(s.(expectedFailure := s.expectedFailure || i == ForbiddenTaken,
                unexpectedFailure := s.unexpectedFailure || i >= 0 || i == AllowedTaken))
    case Finished(_) => Some(s)
  }

  /** The state after replaying `pass`, or `None` once an assertion failed. */
  function TrialReplay(sub: Nodes, allowedJobs: seq<nat>, forbiddenJobs: seq<nat>, pass: seq<Event>): Option<TrialState>
  {
    if pass == [] then Some(InitialTrial)
    else
      var before := TrialReplay(sub, allowedJobs, forbiddenJobs, pass[..|pass| - 1]);
      if before.None? then None else TrialStep(sub, allowedJobs, forbiddenJobs, before.value, pass[|pass| - 1])
  }

  /** Replayed from `s`, event `e` is an expected failure: a deadline miss or
      a dead end right after a forbidden job was taken at the leaf. */
  predicate FailsAsExpected(s: TrialState, e: Event)
  {
    (e.MissedDeadline? || e.DeadEnd?) && e.node < |s.attachments|
    && s.attachments[e.node].nodeIndex == ForbiddenTaken
  }

  /** Replayed from `s`, event `e` is an unexpected failure: a deadline miss
      in scope but not after a forbidden job, or a dead end inside the
      sub-graph or right after an allowed job. */
  predicate FailsUnexpectedly(s: TrialState, e: Event)
  {
    (e.MissedDeadline? || e.DeadEnd?) && e.node < |s.attachments|
    && var i := s.attachments[e.node].nodeIndex;
       if e.MissedDeadline? then i != ForbiddenTaken && i != OutOfScope else i >= 0 || i == AllowedTaken
  }

  /** Step `k` of `pass` is an expected failure. */
  predicate ExpectedFailureAt(sub: Nodes, allowedJobs: seq<nat>, forbiddenJobs: seq<nat>, pass: seq<Event>, k: int)
  {
    0 <= k < |pass|
    && var s := TrialReplay(sub, allowedJobs, forbiddenJobs, pass[..k]);
       s.Some? && FailsAsExpected(s.value, pass[k])
  }

  /** Step `k` of `pass` is an unexpected failure. */
  predicate UnexpectedFailureAt(sub: Nodes, allowedJobs: seq<nat>, forbiddenJobs: seq<nat>, pass: seq<Event>, k: int)
  {
    0 <= k < |pass|
    && var s := TrialReplay(sub, allowedJobs, forbiddenJobs, pass[..k]);
       s.Some? && FailsUnexpectedly(s.value, pass[k])
  }

  /** One step sets each flag exactly when the event is its witness. */
  lemma TrialStepFlags(sub: Nodes, allowedJobs: seq<nat>, forbiddenJobs: seq<nat>, s: TrialState, e: Event)
    requires TrialStep(sub, allowedJobs, forbiddenJobs, s, e).Some?
    ensures var t := TrialStep(sub, allowedJobs, forbiddenJobs, s, e).value;
            (t.expectedFailure <==> s.expectedFailure || FailsAsExpected(s, e))
            && (t.unexpectedFailure <==> s.unexpectedFailure || FailsUnexpectedly(s, e))
  {
  }

  /** Once an assertion failed, the replay stays failed. */
  lemma {:induction false} TrialReplayAborted(sub: Nodes, allowedJobs: seq<nat>, forbiddenJobs: seq<nat>, pass: seq<Event>, k: nat)
    requires k <= |pass| && TrialReplay(sub, allowedJobs, forbiddenJobs, pass[..k]).None?
    ensures TrialReplay(sub, allowedJobs, forbiddenJobs, pass).None?
    decreases |pass| - k
  {
    if k < |pass| {
      assert pass[..k + 1][..k] == pass[..k];
      TrialReplayAborted(sub, allowedJobs, forbiddenJobs, pass, k + 1);
    } else {
      assert pass[..k] == pass;
    }
  }

  /** Each step of `pass` before its last is a witness in `pass` exactly
      when it is one in `front`, the rest of `pass`. */
  lemma TrialFlagsPrefix(sub: Nodes, allowedJobs: seq<nat>, forbiddenJobs: seq<nat>, pass: seq<Event>, front: seq<Event>)
    requires pass != [] && front == pass[..|pass| - 1]
    ensures forall k :: ExpectedFailureAt(sub, allowedJobs, forbiddenJobs, pass, k)
                        <==> ExpectedFailureAt(sub, allowedJobs, forbiddenJobs, front, k)
                             || (k == |front| && ExpectedFailureAt(sub, allowedJobs, forbiddenJobs, pass, k))
    ensures forall k :: UnexpectedFailureAt(sub, allowedJobs, forbiddenJobs, pass, k)
                        <==> UnexpectedFailureAt(sub, allowedJobs, forbiddenJobs, front, k)
                             || (k == |front| && UnexpectedFailureAt(sub, allowedJobs, forbiddenJobs, pass, k))
    ensures var before := TrialReplay(sub, allowedJobs, forbiddenJobs, front);
            before.Some? ==>
              (ExpectedFailureAt(sub, allowedJobs, forbiddenJobs, pass, |front|) == FailsAsExpected(before.value, pass[|front|]))
              && (UnexpectedFailureAt(sub, allowedJobs, forbiddenJobs, pass, |front|) == FailsUnexpectedly(before.value, pass[|front|]))
  {
    forall k | 0 <= k < |front|
      ensures ExpectedFailureAt(sub, allowedJobs, forbiddenJobs, pass, k) == ExpectedFailureAt(sub, allowedJobs, forbiddenJobs, front, k)
      ensures UnexpectedFailureAt(sub, allowedJobs, forbiddenJobs, pass, k) == UnexpectedFailureAt(sub, allowedJobs, forbiddenJobs, front, k)
    {
      assert pass[..k] == front[..k] && pass[k] == front[k];
    }
  }

  /** The flags of a completed replay: an expected failure was seen exactly
      when some step is one, and likewise an unexpected failure. */
  lemma {:induction false} TrialReplayFlags(sub: Nodes, allowedJobs: seq<nat>, forbiddenJobs: seq<nat>, pass: seq<Event>)
    requires TrialReplay(sub, allowedJobs, forbiddenJobs, pass).Some?
    ensures var s := TrialReplay(sub, allowedJobs, forbiddenJobs, pass).value;
            (s.expectedFailure <==> exists k :: ExpectedFailureAt(sub, allowedJobs, forbiddenJobs, pass, k))
            && (s.unexpectedFailure <==> exists k :: UnexpectedFailureAt(sub, allowedJobs, forbiddenJobs, pass, k))
  {
    if pass != [] {
      var n := |pass| - 1;
      var front := pass[..n];
      var before := TrialReplay(sub, allowedJobs, forbiddenJobs, front);
      assert before.Some?;
      TrialReplayFlags(sub, allowedJobs, forbiddenJobs, front);
      TrialStepFlags(sub, allowedJobs, forbiddenJobs, before.value, pass[n]);
      TrialFlagsPrefix(sub, allowedJobs, forbiddenJobs, pass, front);
    }
  }

  /** A node is marked as reached by a forbidden job only after the search
      expanded some node with a forbidden job. */
  lemma {:induction false} ForbiddenMarkWitnessed(sub: Nodes, allowedJobs: seq<nat>, forbiddenJobs: seq<nat>, pass: seq<Event>, n: nat)
    requires TrialReplay(sub, allowedJobs, forbiddenJobs, pass).Some?
    requires var s := TrialReplay(sub, allowedJobs, forbiddenJobs, pass).value;
             n < |s.attachments| && s.attachments[n].nodeIndex == ForbiddenTaken
    ensures exists k :: 0 <= k < |pass| && ExpandsWith(pass[k], forbiddenJobs)
  {
    var last := |pass| - 1;
    var front := pass[..last];
    var before := TrialReplay(sub, allowedJobs, forbiddenJobs, front).value;
    if n < |before.attachments| && before.attachments[n].nodeIndex == ForbiddenTaken {
      ForbiddenMarkWitnessed(sub, allowedJobs, forbiddenJobs, front, n);
      var k :| 0 <= k < |front| && ExpandsWith(front[k], forbiddenJobs);
      assert pass[k] == front[k];
    } else {
      assert ExpandsWith(pass[last], forbiddenJobs);
    }
  }

  /** An expected failure comes after the search took a forbidden job. */
  lemma ExpectedFailureFollowsForbiddenJob(sub: Nodes, allowedJobs: seq<nat>, forbiddenJobs: seq<nat>, pass: seq<Event>, m: int)
    requires ExpectedFailureAt(sub, allowedJobs, forbiddenJobs, pass, m)
    ensures IsFailure(pass[m]) && exists k :: 0 <= k < m && ExpandsWith(pass[k], forbiddenJobs)
  {
    var front := pass[..m];
    ForbiddenMarkWitnessed(sub, allowedJobs, forbiddenJobs, front, pass[m].node);
    var k :| 0 <= k < |front| && ExpandsWith(front[k], forbiddenJobs);
    assert pass[k] == front[k];
  }

  /** `was_cut_fixed`: one search checked against the cut. `None` is a
      failed assertion of the source. This agent has no merge hooks of its
      own: a merge asks `is_allowed` and records nothing. The verdict is 1
      exactly when some step is an expected failure, otherwise 2 exactly
      when some step is an unexpected one, otherwise 0; an expected failure
      comes after a forbidden job was taken. */
  method WasCutFixed(cut: RatingGraphCut, pass: seq<Event>) returns (r: Option<int>)
    requires cut.previousJobs.Valid()
    ensures var s := TrialReplay(cut.previousJobs.nodes, cut.allowedJobs, cut.forbiddenJobs, pass);
            r == if s.None? then None else Some(TrialVerdict(s.value.expectedFailure, s.value.unexpectedFailure))
    ensures r.Some? ==> (r.value == 1 <==> exists k :: ExpectedFailureAt(cut.previousJobs.nodes, cut.allowedJobs, cut.forbiddenJobs, pass, k))
    ensures r.Some? ==> (r.value == 2 <==> (forall k :: !ExpectedFailureAt(cut.previousJobs.nodes, cut.allowedJobs, cut.forbiddenJobs, pass, k))
                                           && exists k :: UnexpectedFailureAt(cut.previousJobs.nodes, cut.allowedJobs, cut.forbiddenJobs, pass, k))
  {
    var sub := cut.previousJobs.nodes;
    var agent := new CutTrialAgent(cut);
    var attachments := [agent.CreateInitialNodeAttachment()];
    var step := 0;
    var ok := true;
    while step < |pass| && ok
      invariant 0 <= step <= |pass| && agent.Valid() && fresh(agent)
      invariant agent.cut == cut && cut.previousJobs.nodes == sub
      invariant forall n :: 0 <= n < |attachments| ==> agent.InScope(attachments[n])
      invariant ok ==> TrialReplay(sub, cut.allowedJobs, cut.forbiddenJobs, pass[..step])
                       == Some(TrialState(attachments, agent.leafIndex, agent.hasExpectedFailure, agent.hasUnexpectedFailure))
      invariant !ok ==> TrialReplay(sub, cut.allowedJobs, cut.forbiddenJobs, pass[..step]).None?
    {
      assert pass[..step + 1][..step] == pass[..step];
      ok, attachments := agent.Dispatch(attachments, pass[step]);
      step := step + 1;
    }
    if !ok {
      TrialReplayAborted(sub, cut.allowedJobs, cut.forbiddenJobs, pass, step);
      return None;
    }
    assert pass[..step] == pass;
    TrialReplayFlags(sub, cut.allowedJobs, cut.forbiddenJobs, pass);
    return Some(agent.Verdict());
  }
}
