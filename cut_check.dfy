/** `Agent_cut_check` of cut_check.hpp: follows a cut's sub-graph of
    previous jobs during a search and reports whether the search took one of
    the cut's forbidden jobs (`was_cut_performed`). An attachment holds the
    sub-graph node the search node corresponds to, or one of two markers:
    -2 (an allowed job was taken at the leaf) and -4 (out of scope). */
module CutCheck {
  import opened ProblemModel
  import opened Search
  import opened SubGraphs

  /** The marker for "an allowed job was taken at the leaf". */
  const AllowedTaken: int := -2
  /** The marker for "below an allowed job: out of scope". */
  const OutOfScope: int := -4

  /** `Attachment_cut_check`, or the null attachment returned once a cut edge was taken. */
  datatype CheckAttachment = NoAttachment | CheckNode(nodeIndex: int)

  /** `was_cut_performed`: 1 when a cut edge was taken, else 2 after an
      unexpected failure, else 0. */
  function CutVerdict(didTakeCutEdge: bool, hasUnexpectedFailure: bool): (v: int)
    ensures v == 1 <==> didTakeCutEdge
    ensures v == 2 <==> !didTakeCutEdge && hasUnexpectedFailure
    ensures v == 0 <==> !didTakeCutEdge && !hasUnexpectedFailure
  {
    if didTakeCutEdge then 1 else if hasUnexpectedFailure then 2 else 0
  }

  class CutCheckAgent {
    const cut: RatingGraphCut
    var leafIndex: int
    var didTakeCutEdge: bool
    var hasUnexpectedFailure: bool

    ghost predicate Valid()
      reads this, cut.previousJobs
    {
      cut.previousJobs.Valid()
    }

    /** What an attachment of this agent can hold: nothing, a marker, or a
        node of the sub-graph. */
    predicate InScope(a: CheckAttachment)
      reads this, cut.previousJobs
    {
      a.NoAttachment? || a.nodeIndex == AllowedTaken || a.nodeIndex == OutOfScope
      || 0 <= a.nodeIndex < |cut.previousJobs.nodes|
    }

    constructor(c: RatingGraphCut)
      ensures cut == c && leafIndex == 0 && !didTakeCutEdge && !hasUnexpectedFailure
    {
      cut := c;
      leafIndex := 0;
      didTakeCutEdge := false;
      hasUnexpectedFailure := false;
    }

    /** The verdict the fields give. */
    function Verdict(): (v: int)
      reads this
      ensures v == CutVerdict(didTakeCutEdge, hasUnexpectedFailure)
    {
      if didTakeCutEdge then 1 else if hasUnexpectedFailure then 2 else 0
    }

    /** `create_initial_node_attachment`: the root of the sub-graph. */
    function CreateInitialNodeAttachment(): (a: CheckAttachment)
      ensures a == CheckNode(0)
    {
      CheckNode(0)
    }

    /** `create_next_node_attachment`. `None` is a failed assertion of the
        source: a parent that is null, -4 or out of range, a second leaf, a
        job at the leaf that is not in exactly one of the allowed and the
        forbidden jobs, or a sub-graph successor that is not positive. */
    method CreateNextNodeAttachment(parent: CheckAttachment, nextJob: Job) returns (r: Option<CheckAttachment>)
      requires Valid() && InScope(parent)
      modifies this
      ensures Valid() && (r.Some? ==> InScope(r.value))
      ensures hasUnexpectedFailure == old(hasUnexpectedFailure)
      // once a cut edge has been taken, nothing more is tracked
      ensures old(didTakeCutEdge) ==> r == Some(NoAttachment) && didTakeCutEdge && leafIndex == old(leafIndex)
      ensures !old(didTakeCutEdge) && (parent.NoAttachment? || parent.nodeIndex == OutOfScope) ==> r.None?
      ensures !old(didTakeCutEdge) && parent == CheckNode(AllowedTaken) ==>
                r == Some(CheckNode(OutOfScope)) && !didTakeCutEdge && leafIndex == old(leafIndex)
      // at the leaf, the job is either allowed or forbidden
      ensures !old(didTakeCutEdge) && parent.CheckNode? && parent.nodeIndex >= 0 && cut.previousJobs.IsLeaf(parent.nodeIndex) ==>
                (r.Some? <==> (old(leafIndex) <= 0 || old(leafIndex) == parent.nodeIndex)
                              && ((nextJob.index in cut.allowedJobs) != (nextJob.index in cut.forbiddenJobs)))
                && (r.Some? ==> leafIndex == parent.nodeIndex
                                && (nextJob.index in cut.allowedJobs ==> r.value == CheckNode(AllowedTaken) && !didTakeCutEdge)
                                && (nextJob.index in cut.forbiddenJobs ==> r.value == CheckNode(0) && didTakeCutEdge))
      // inside the sub-graph, the search follows its edges
      ensures !old(didTakeCutEdge) && parent.CheckNode? && parent.nodeIndex >= 0 && !cut.previousJobs.IsLeaf(parent.nodeIndex) ==>
                var next := Successor(cut.previousJobs.nodes, parent.nodeIndex, nextJob.index);
                r == (if next > 0 then Some(CheckNode(next)) else None) && !didTakeCutEdge && leafIndex == old(leafIndex)
    {
      if didTakeCutEdge {
        return Some(NoAttachment);
      }
      if parent.NoAttachment? || !(parent.nodeIndex >= -2) || parent.nodeIndex == -1 {
        return None;
      }
      if parent.nodeIndex == AllowedTaken {
        return Some(CheckNode(OutOfScope));
      }
      if cut.previousJobs.IsLeaf(parent.nodeIndex) {
        if leafIndex > 0 && leafIndex != parent.nodeIndex {
          return None;
        }
        leafIndex := parent.nodeIndex;
        var isAllowed := nextJob.index in cut.allowedJobs;
        var isForbidden := nextJob.index in cut.forbiddenJobs;
        if !(isAllowed || isForbidden) || !(!isAllowed || !isForbidden) {
          return None;
        }
        // a value-initialised attachment holds node 0
        var child := CheckNode(0);
        if isAllowed {
          child := CheckNode(AllowedTaken);
        } else {
          didTakeCutEdge := true;
        }
        return Some(child);
      }
      var next := cut.previousJobs.CanTakeJob(parent.nodeIndex, nextJob.index);
      if !(next > 0) {
        return None;
      }
      return Some(CheckNode(next));
    }

    /** `missed_deadline`: unexpected unless out of scope; ignored once a
        cut edge was taken. `false` is a failed assertion (a null attachment). */
    method MissedDeadline(failed: CheckAttachment, lateJob: Job) returns (ok: bool)
      modifies this
      ensures leafIndex == old(leafIndex) && didTakeCutEdge == old(didTakeCutEdge)
      ensures ok <==> old(didTakeCutEdge) || failed.CheckNode?
      ensures ok ==> hasUnexpectedFailure == (old(hasUnexpectedFailure)
                                              || (!old(didTakeCutEdge) && failed.nodeIndex != OutOfScope))
    {
      if didTakeCutEdge {
        return true;
      }
      if failed.NoAttachment? {
        return false;
      }
      if failed.nodeIndex == OutOfScope {
        return true;
      }
      hasUnexpectedFailure := true;
      return true;
    }

    /** `encountered_dead_end`: unexpected inside the sub-graph or right
        after an allowed job; ignored once a cut edge was taken. */
    method EncounteredDeadEnd(dead: CheckAttachment) returns (ok: bool)
      modifies this
      ensures leafIndex == old(leafIndex) && didTakeCutEdge == old(didTakeCutEdge)
      ensures ok <==> old(didTakeCutEdge) || dead.CheckNode?
      ensures ok ==> hasUnexpectedFailure == (old(hasUnexpectedFailure)
                                              || (!old(didTakeCutEdge) && (dead.nodeIndex >= 0 || dead.nodeIndex == AllowedTaken)))
    {
      if didTakeCutEdge {
        return true;
      }
      if dead.NoAttachment? {
        return false;
      }
      if dead.nodeIndex >= 0 || dead.nodeIndex == AllowedTaken {
        hasUnexpectedFailure := true;
      }
      return true;
    }

    /** `is_allowed`: nothing once a cut edge was taken or out of scope;
        anything after an allowed job or at the leaf; inside the sub-graph,
        the jobs of its edges to a node other than the root. */
    method IsAllowed(at: CheckAttachment, nextJob: Job) returns (r: Option<bool>)
      requires Valid() && InScope(at)
      ensures didTakeCutEdge ==> r == Some(false)
      ensures !didTakeCutEdge && at.NoAttachment? ==> r.None?
      ensures !didTakeCutEdge && at.CheckNode? ==>
                r == Some(if at.nodeIndex == OutOfScope then false
                          else if at.nodeIndex == AllowedTaken || cut.previousJobs.IsLeaf(at.nodeIndex) then true
                          else Successor(cut.previousJobs.nodes, at.nodeIndex, nextJob.index) > 0)
    {
      if didTakeCutEdge {
        return Some(false);
      }
      if at.NoAttachment? {
        return None;
      }
      if at.nodeIndex == OutOfScope {
        return Some(false);
      }
      if at.nodeIndex == AllowedTaken || cut.previousJobs.IsLeaf(at.nodeIndex) {
        return Some(true);
      }
      var next := cut.previousJobs.CanTakeJob(at.nodeIndex, nextJob.index);
      return Some(next > 0);
    }

    /** One call of the search, dispatched to the hooks: the attachments and
        fields become those of one replayed step. */
    method Dispatch(attachments: seq<CheckAttachment>, e: Event) returns (ok: bool, next: seq<CheckAttachment>)
      requires Valid() && forall n :: 0 <= n < |attachments| ==> InScope(attachments[n])
      modifies this
      ensures Valid()
      ensures forall n :: 0 <= n < |next| ==> InScope(next[n])
      ensures var t := CheckStep(cut.previousJobs.nodes, cut.allowedJobs, cut.forbiddenJobs,
                                 CheckState(attachments, old(leafIndex), old(didTakeCutEdge), old(hasUnexpectedFailure)), e);
              ok == t.Some? && (ok ==> t.value == CheckState(next, leafIndex, didTakeCutEdge, hasUnexpectedFailure))
    {
      ok, next := true, attachments;
      match e {
        case Expand(parent, job) =>
          if parent < |attachments| {
            var allowed := IsAllowed(attachments[parent], job);
            if allowed.None? {
              ok := false;
            } else if allowed.value {
              var child := CreateNextNodeAttachment(attachments[parent], job);
              if child.None? {
                ok := false;
              } else {
                next := attachments + [child.value];
              }
            }
          }
        case Merge(_, parent, job) =>
          if parent < |attachments| {
            var allowed := IsAllowed(attachments[parent], job);
            if allowed.None? {
              ok := false;
            }
          }
        case MissedDeadline(node, lateJob, _) =>
          if node < |attachments| {
            ok := MissedDeadline(attachments[node], lateJob);
          }
        case DeadEnd(node) =>
          if node < |attachments| {
            ok := EncounteredDeadEnd(attachments[node]);
          }
        case Finished(_) =>
      }
    }
  }

  // ---- one search replayed against the cut, as a function ----

  /** What a replay of `was_cut_performed` keeps: the attachment of every
      search node so far, and the agent's three fields. */
  datatype CheckState = CheckState(
    attachments: seq<CheckAttachment>, leafIndex: int, tookCutEdge: bool, unexpectedFailure: bool)

  /** The agent before the search starts: the root attached to node 0. */
  const InitialCheck: CheckState := CheckState([CheckNode(0)], 0, false, false)

  /** The answer of `is_allowed` at `at` on the sub-graph `sub`; `None` is
      the failed assertion of a null attachment or of `is_leaf`. */
  function AllowedAt(sub: Nodes, s: CheckState, at: CheckAttachment, job: nat): Option<bool>
  {
    if s.tookCutEdge then Some(false)
    else if at.NoAttachment? then None
    else if at.nodeIndex == OutOfScope then Some(false)
    else if at.nodeIndex == AllowedTaken then Some(true)
    else if !(0 <= at.nodeIndex < |sub|) then None
    else if sub[at.nodeIndex] == [] then Some(true)
    else Some(Successor(sub, at.nodeIndex, job) > 0)
  }

  /** The state after `create_next_node_attachment` from `parent` with
      `job`, called once `is_allowed` agreed (so no cut edge was taken yet);
      `None` is one of its failed assertions. */
  function Expanded(sub: Nodes, allowedJobs: seq<nat>, forbiddenJobs: seq<nat>, s: CheckState,
                    parent: CheckAttachment, job: nat): Option<CheckState>
  {
    if parent.NoAttachment? || parent.nodeIndex < AllowedTaken || parent.nodeIndex == -1 then None
    else if parent.nodeIndex == AllowedTaken then Some(s.(attachments := s.attachments + [CheckNode(OutOfScope)]))
    else if parent.nodeIndex >= |sub| then None
    else if sub[parent.nodeIndex] == [] then
      if s.leafIndex > 0 && s.leafIndex != parent.nodeIndex then None
      else if (job in allowedJobs) == (job in forbiddenJobs) then None
      else if job in allowedJobs then
        Some(s.(attachments := s.attachments + [CheckNode(AllowedTaken)], leafIndex := parent.nodeIndex))
      else
        Some(s.(attachments := s.attachments + [CheckNode(0)], leafIndex := parent.nodeIndex, tookCutEdge := true))
    else
      var next := Successor(sub, parent.nodeIndex, job);
      if next > 0 then Some(s.(attachments := s.attachments + [CheckNode(next)])) else None
  }

  /** One call of the search replayed; events naming a search node that
      does not exist are ignored. */
  function CheckStep(sub: Nodes, allowedJobs: seq<nat>, forbiddenJobs: seq<nat>, s: CheckState, e: Event): Option<CheckState>
  {
    match e
    case Expand(parent, job) =>
      if parent >= |s.attachments| then Some(s)
      else
        var allowed := AllowedAt(sub, s, s.attachments[parent], job.index);
        if allowed.None? then None
        else if allowed.value then Expanded(sub, allowedJobs, forbiddenJobs, s, s.attachments[parent], job.index)
        else Some(s)
    case Merge(_, parent, job) =>
      if parent < |s.attachments| && AllowedAt(sub, s, s.attachments[parent], job.index).None? then None
      else Some(s)
    case MissedDeadline(node, _, _) =>
      if node >= |s.attachments| || s.tookCutEdge then Some(s)
      else if s.attachments[node].NoAttachment? then None
      else Some(s.(unexpectedFailure := s.unexpectedFailure || s.attachments[node].nodeIndex != OutOfScope))
    case DeadEnd(node) =>
      if node >= |s.attachments| || s.tookCutEdge then Some(s)
      else if s.attachments[node].NoAttachment? then None
      else Some(s.(unexpectedFailure := s.unexpectedFailure || s.attachments[node].nodeIndex >= 0
                                        || s.attachments[node].nodeIndex == AllowedTaken))
    case Finished(_) => Some(s)
  }

  /** The state after replaying `pass`, or `None` once an assertion failed. */
  function CheckReplay(sub: Nodes, allowedJobs: seq<nat>, forbiddenJobs: seq<nat>, pass: seq<Event>): Option<CheckState>
  {
    if pass == [] then Some(InitialCheck)
    else
      var before := CheckReplay(sub, allowedJobs, forbiddenJobs, pass[..|pass| - 1]);
      if before.None? then None else CheckStep(sub, allowedJobs, forbiddenJobs, before.value, pass[|pass| - 1])
  }

  /** Replayed from `s`, event `e` takes a cut edge: before any cut edge was
      taken, the search expands a node attached to a leaf of the sub-graph
      with a forbidden job. */
  predicate TakesCutEdge(sub: Nodes, forbiddenJobs: seq<nat>, s: CheckState, e: Event)
  {
    !s.tookCutEdge && e.Expand? && e.parent < |s.attachments|
    && s.attachments[e.parent].CheckNode? && 0 <= s.attachments[e.parent].nodeIndex < |sub|
    && sub[s.attachments[e.parent].nodeIndex] == [] && e.job.index in forbiddenJobs
  }

  /** Replayed from `s`, event `e` is an unexpected failure: before any cut
      edge was taken, a deadline miss anywhere in scope, or a dead end inside
      the sub-graph or right after an allowed job. */
  predicate FailsUnexpectedly(s: CheckState, e: Event)
  {
    !s.tookCutEdge && (e.MissedDeadline? || e.DeadEnd?) && e.node < |s.attachments|
    && s.attachments[e.node].CheckNode?
    && (if e.MissedDeadline? then s.attachments[e.node].nodeIndex != OutOfScope
        else s.attachments[e.node].nodeIndex >= 0 || s.attachments[e.node].nodeIndex == AllowedTaken)
  }

  /** Step `k` of `pass` takes a cut edge. */
  predicate CutEdgeTakenAt(sub: Nodes, allowedJobs: seq<nat>, forbiddenJobs: seq<nat>, pass: seq<Event>, k: int)
  {
    0 <= k < |pass|
    && var s := CheckReplay(sub, allowedJobs, forbiddenJobs, pass[..k]);
       s.Some? && TakesCutEdge(sub, forbiddenJobs, s.value, pass[k])
  }

  /** Step `k` of `pass` is an unexpected failure. */
  predicate UnexpectedFailureAt(sub: Nodes, allowedJobs: seq<nat>, forbiddenJobs: seq<nat>, pass: seq<Event>, k: int)
  {
    0 <= k < |pass|
    && var s := CheckReplay(sub, allowedJobs, forbiddenJobs, pass[..k]);
       s.Some? && FailsUnexpectedly(s.value, pass[k])
  }

  /** One step sets each flag exactly when the event is its witness. */
  lemma CheckStepFlags(sub: Nodes, allowedJobs: seq<nat>, forbiddenJobs: seq<nat>, s: CheckState, e: Event)
    requires CheckStep(sub, allowedJobs, forbiddenJobs, s, e).Some?
    ensures var t := CheckStep(sub, allowedJobs, forbiddenJobs, s, e).value;
            (t.tookCutEdge <==> s.tookCutEdge || TakesCutEdge(sub, forbiddenJobs, s, e))
            && (t.unexpectedFailure <==> s.unexpectedFailure || FailsUnexpectedly(s, e))
  {
  }

  /** Once an assertion failed, the replay stays failed. */
  lemma {:induction false} CheckReplayAborted(sub: Nodes, allowedJobs: seq<nat>, forbiddenJobs: seq<nat>, pass: seq<Event>, k: nat)
    requires k <= |pass| && CheckReplay(sub, allowedJobs, forbiddenJobs, pass[..k]).None?
    ensures CheckReplay(sub, allowedJobs, forbiddenJobs, pass).None?
    decreases |pass| - k
  {
    if k < |pass| {
      assert pass[..k + 1][..k] == pass[..k];
      CheckReplayAborted(sub, allowedJobs, forbiddenJobs, pass, k + 1);
    } else {
      assert pass[..k] == pass;
    }
  }

  /** Each step of `pass` before its last is a witness in `pass` exactly
      when it is one in `front`, the rest of `pass`. */
  lemma CheckFlagsPrefix(sub: Nodes, allowedJobs: seq<nat>, forbiddenJobs: seq<nat>, pass: seq<Event>, front: seq<Event>)
    requires pass != [] && front == pass[..|pass| - 1]
    ensures forall k :: CutEdgeTakenAt(sub, allowedJobs, forbiddenJobs, pass, k)
                        <==> CutEdgeTakenAt(sub, allowedJobs, forbiddenJobs, front, k)
                             || (k == |front| && CutEdgeTakenAt(sub, allowedJobs, forbiddenJobs, pass, k))
    ensures forall k :: UnexpectedFailureAt(sub, allowedJobs, forbiddenJobs, pass, k)
                        <==> UnexpectedFailureAt(sub, allowedJobs, forbiddenJobs, front, k)
                             || (k == |front| && UnexpectedFailureAt(sub, allowedJobs, forbiddenJobs, pass, k))
    ensures var before := CheckReplay(sub, allowedJobs, forbiddenJobs, front);
            before.Some? ==>
              (CutEdgeTakenAt(sub, allowedJobs, forbiddenJobs, pass, |front|) == TakesCutEdge(sub, forbiddenJobs, before.value, pass[|front|]))
              && (UnexpectedFailureAt(sub, allowedJobs, forbiddenJobs, pass, |front|) == FailsUnexpectedly(before.value, pass[|front|]))
  {
    forall k | 0 <= k < |front|
      ensures CutEdgeTakenAt(sub, allowedJobs, forbiddenJobs, pass, k) == CutEdgeTakenAt(sub, allowedJobs, forbiddenJobs, front, k)
      ensures UnexpectedFailureAt(sub, allowedJobs, forbiddenJobs, pass, k) == UnexpectedFailureAt(sub, allowedJobs, forbiddenJobs, front, k)
    {
      assert pass[..k] == front[..k] && pass[k] == front[k];
    }
  }

  /** The flags of a completed replay: a cut edge was taken exactly when some
      step takes one, and an unexpected failure was seen exactly when some
      step is one. */
  lemma {:induction false} CheckReplayFlags(sub: Nodes, allowedJobs: seq<nat>, forbiddenJobs: seq<nat>, pass: seq<Event>)
    requires CheckReplay(sub, allowedJobs, forbiddenJobs, pass).Some?
    ensures var s := CheckReplay(sub, allowedJobs, forbiddenJobs, pass).value;
            (s.tookCutEdge <==> exists k :: CutEdgeTakenAt(sub, allowedJobs, forbiddenJobs, pass, k))
            && (s.unexpectedFailure <==> exists k :: UnexpectedFailureAt(sub, allowedJobs, forbiddenJobs, pass, k))
  {
    if pass != [] {
      var n := |pass| - 1;
      var front := pass[..n];
      var before := CheckReplay(sub, allowedJobs, forbiddenJobs, front);
      assert before.Some?;
      CheckReplayFlags(sub, allowedJobs, forbiddenJobs, front);
      CheckStepFlags(sub, allowedJobs, forbiddenJobs, before.value, pass[n]);
      CheckFlagsPrefix(sub, allowedJobs, forbiddenJobs, pass, front);
    }
  }

  /** The search of the example: on a sub-graph that is the root alone,
      with job 1 allowed and job 3 forbidden at the leaf, expanding the root
      with job 3 takes the cut edge. */
  lemma RootCutTaken(j: Job)
    requires j.index == 3
    ensures CheckReplay([[]], [1], [3], [Expand(0, j)]) == Some(CheckState([CheckNode(0), CheckNode(0)], 0, true, false))
  {
    var sub: Nodes := [[]];
    var pass := [Expand(0, j)];
    assert pass[..0] == [];
    assert sub[0] == [];
    assert 3 !in [1] && 3 in [3];
    var after := CheckState([CheckNode(0), CheckNode(0)], 0, true, false);
    assert InitialCheck.attachments + [CheckNode(0)] == after.attachments;
    assert AllowedAt(sub, InitialCheck, CheckNode(0), 3) == Some(true);
    assert Expanded(sub, [1], [3], InitialCheck, CheckNode(0), 3) == Some(after);
  }

  /** `was_cut_performed`: one search (stopping at its first failure, as
      the pass given shows) checked against the cut. `None` is a failed
      assertion of the source. This agent has no merge hooks of its own: a
      merge asks `is_allowed` and records nothing. The verdict is 1 exactly
      when some step takes a cut edge, otherwise 2 exactly when some step is
      an unexpected failure, otherwise 0. */
  method WasCutPerformed(cut: RatingGraphCut, pass: seq<Event>) returns (r: Option<int>)
    requires cut.previousJobs.Valid()
    ensures var s := CheckReplay(cut.previousJobs.nodes, cut.allowedJobs, cut.forbiddenJobs, pass);
            r == if s.None? then None else Some(CutVerdict(s.value.tookCutEdge, s.value.unexpectedFailure))
    ensures r.Some? ==> (r.value == 1 <==> exists k :: CutEdgeTakenAt(cut.previousJobs.nodes, cut.allowedJobs, cut.forbiddenJobs, pass, k))
    ensures r.Some? ==> (r.value == 2 <==> (forall k :: !CutEdgeTakenAt(cut.previousJobs.nodes, cut.allowedJobs, cut.forbiddenJobs, pass, k))
                                           && exists k :: UnexpectedFailureAt(cut.previousJobs.nodes, cut.allowedJobs, cut.forbiddenJobs, pass, k))
  {
    var sub := cut.previousJobs.nodes;
    var agent := new CutCheckAgent(cut);
    var attachments := [agent.CreateInitialNodeAttachment()];
    var step := 0;
    var ok := true;
    while step < |pass| && ok
      invariant 0 <= step <= |pass| && agent.Valid() && fresh(agent)
      invariant agent.cut == cut && cut.previousJobs.nodes == sub
      invariant forall n :: 0 <= n < |attachments| ==> agent.InScope(attachments[n])
      invariant ok ==> CheckReplay(sub, cut.allowedJobs, cut.forbiddenJobs, pass[..step])
                       == Some(CheckState(attachments, agent.leafIndex, agent.didTakeCutEdge, agent.hasUnexpectedFailure))
      invariant !ok ==> CheckReplay(sub, cut.allowedJobs, cut.forbiddenJobs, pass[..step]).None?
    {
      assert pass[..step + 1][..step] == pass[..step];
      ok, attachments := agent.Dispatch(attachments, pass[step]);
      step := step + 1;
    }
    if !ok {
      CheckReplayAborted(sub, cut.allowedJobs, cut.forbiddenJobs, pass, step);
      return None;
    }
    assert pass[..step] == pass;
    CheckReplayFlags(sub, cut.allowedJobs, cut.forbiddenJobs, pass);
    return Some(agent.Verdict());
  }
}
