/** agent.hpp: failed job-id sequences, the job-id history agent, the
    failure search that collects the minimal failing paths of a search, and
    the alternative search that forbids the last job of each failure. */
module Agents {
  import opened ProblemModel
  import opened Search

  /** `FailedSequence`: the job ids chosen along a failing path. */
  datatype FailedSequence = FailedSequence(chosenJobIds: seq<JobId>)

  /** `a` is a strict prefix of `b`. */
  predicate StrictPrefix(a: seq<JobId>, b: seq<JobId>) {
    |a| < |b| && a == b[..|a|]
  }

  /** `a` is a prefix of `b` or equal to it. */
  predicate PrefixOrEqual(a: seq<JobId>, b: seq<JobId>) {
    |a| <= |b| && a == b[..|a|]
  }

  lemma PrefixOrEqualCases(a: seq<JobId>, b: seq<JobId>)
    ensures PrefixOrEqual(a, b) <==> StrictPrefix(a, b) || a == b
  {
  }

  /** No sequence is a strict prefix of itself. */
  lemma StrictPrefixIrreflexive(a: seq<JobId>)
    ensures !StrictPrefix(a, a)
  {
  }

  /** A prefix of a strict prefix is a strict prefix. */
  lemma StrictPrefixTransitive(a: seq<JobId>, b: seq<JobId>, c: seq<JobId>)
    requires PrefixOrEqual(a, b) && StrictPrefix(b, c)
    ensures StrictPrefix(a, c)
  {
    assert c[..|b|][..|a|] == c[..|a|];
  }

  /** `FailedSequence::is_prefix_of`: `s` is strictly shorter than
      `other` and equal to it at each of its positions. */
  method IsPrefixOf(s: FailedSequence, other: FailedSequence) returns (r: bool)
    ensures r <==> StrictPrefix(s.chosenJobIds, other.chosenJobIds)
  {
    if |other.chosenJobIds| <= |s.chosenJobIds| {
      return false;
    }
    var index := 0;
    while index < |s.chosenJobIds|
      invariant 0 <= index <= |s.chosenJobIds|
      invariant s.chosenJobIds[..index] == other.chosenJobIds[..index]
    {
      if other.chosenJobIds[index] != s.chosenJobIds[index] {
        assert s.chosenJobIds[index] != other.chosenJobIds[..|s.chosenJobIds|][index];
        return false;
      }
      assert s.chosenJobIds[..index + 1] == s.chosenJobIds[..index] + [s.chosenJobIds[index]];
      assert other.chosenJobIds[..index + 1] == other.chosenJobIds[..index] + [other.chosenJobIds[index]];
      index := index + 1;
    }
    assert s.chosenJobIds[..|s.chosenJobIds|] == s.chosenJobIds;
    return true;
  }

  /** No recorded failure is a strict prefix of another. */
  ghost predicate Antichain(failures: seq<FailedSequence>) {
    forall a, b :: a in failures && b in failures ==> !StrictPrefix(a.chosenJobIds, b.chosenJobIds)
  }

  /** What recording `f` does to the list of failures: `f`, or a prefix
      of it, is recorded afterwards; nothing but `f` is added; only
      failures that `f` strictly prefixes are dropped. */
  ghost predicate Recorded(before: seq<FailedSequence>, after: seq<FailedSequence>, f: FailedSequence) {
    (exists e :: e in after && PrefixOrEqual(e.chosenJobIds, f.chosenJobIds))
    && (forall e :: e in after ==> e in before || e == f)
    && (forall e :: e in before && !StrictPrefix(f.chosenJobIds, e.chosenJobIds) ==> e in after)
    && (Antichain(before) ==> Antichain(after))
    && (Antichain(before) ==> forall e :: e in after ==> !StrictPrefix(f.chosenJobIds, e.chosenJobIds))
  }

  /** `add_failure` as written (agent.hpp): a failure that `f` strictly
      prefixes is overwritten by the last one and the list shrinks, but the
      index still advances, so the moved failure is never examined. The
      boolean is `did_update_failures`. */
  function AddFailureAsWritten(failures: seq<FailedSequence>, f: FailedSequence, index: nat, updated: bool):
    (seq<FailedSequence>, bool)
    decreases |failures| - index
  {
    if index >= |failures| then (failures + [f], true)
    else if StrictPrefix(f.chosenJobIds, failures[index].chosenJobIds) then
      AddFailureAsWritten(failures[index := failures[|failures| - 1]][..|failures| - 1], f, index + 1, true)
    else if StrictPrefix(failures[index].chosenJobIds, f.chosenJobIds) || f.chosenJobIds == failures[index].chosenJobIds then
      (failures, updated)
    else AddFailureAsWritten(failures, f, index + 1, updated)
  }

  /** Recording [j1] after [j1, j2] and [j1, j3]: the loop removes
      [j1, j2], moves [j1, j3] into its place and then passes over it, so a
      failure that [j1] strictly prefixes survives next to it. */
  lemma AddFailureAsWrittenKeepsExtension()
    ensures var a := FailedSequence([JobId(0, 1), JobId(0, 2)]);
            var b := FailedSequence([JobId(0, 1), JobId(0, 3)]);
            var f := FailedSequence([JobId(0, 1)]);
            Antichain([a, b])
            && AddFailureAsWritten([a, b], f, 0, false) == ([b, f], true)
            && StrictPrefix(f.chosenJobIds, b.chosenJobIds) && !Antichain([b, f])
  {
    var a := FailedSequence([JobId(0, 1), JobId(0, 2)]);
    var b := FailedSequence([JobId(0, 1), JobId(0, 3)]);
    var f := FailedSequence([JobId(0, 1)]);
    assert a.chosenJobIds[..1] == f.chosenJobIds;
    assert [a, b][0 := b][..1] == [b];
    assert AddFailureAsWritten([a, b], f, 0, false) == AddFailureAsWritten([b], f, 1, true);
    assert [b] + [f] == [b, f];
    assert AddFailureAsWritten([b], f, 1, true) == ([b] + [f], true);
    assert b.chosenJobIds[..1] == f.chosenJobIds;
    assert !StrictPrefix(a.chosenJobIds, b.chosenJobIds) by {
      assert b.chosenJobIds[..2][1] != a.chosenJobIds[1];
    }
    assert !StrictPrefix(b.chosenJobIds, a.chosenJobIds) by {
      assert a.chosenJobIds[..2][1] != b.chosenJobIds[1];
    }
  }

  /** `add_failure` with the failure moved into a removed one's place
      examined before the loop moves on, from position `index`: a failure
      that `f` strictly prefixes is overwritten by the last one and the list
      shrinks; a failure that is a prefix of `f` or equal to it ends the
      loop without adding `f`; otherwise `f` is appended. The boolean is
      `did_update_failures`. */
  function AddFailureFrom(failures: seq<FailedSequence>, f: FailedSequence, index: nat, updated: bool):
    (seq<FailedSequence>, bool)
    decreases |failures| - index
  {
    if index >= |failures| then (failures + [f], true)
    else if StrictPrefix(f.chosenJobIds, failures[index].chosenJobIds) then
      AddFailureFrom(failures[index := failures[|failures| - 1]][..|failures| - 1], f, index, true)
    else if StrictPrefix(failures[index].chosenJobIds, f.chosenJobIds) || f.chosenJobIds == failures[index].chosenJobIds then
      (failures, updated)
    else AddFailureFrom(failures, f, index + 1, updated)
  }

  /** From a loop state `Scanned` describes, the rest of `add_failure`
      records `f`, and reports an update exactly when one was reported
      before or the failures changed. */
  lemma {:induction false} AddFailureFromScanned(before: seq<FailedSequence>, list: seq<FailedSequence>,
                                                 removed: seq<FailedSequence>, f: FailedSequence, index: nat,
                                                 updated: bool, updatedBefore: bool)
    requires Scanned(before, list, removed, f, index) && updated == (updatedBefore || removed != [])
    ensures var (after, u) := AddFailureFrom(list, f, index, updated);
            Recorded(before, after, f) && u == (updatedBefore || multiset(after) != multiset(before))
    decreases |list| - index
  {
    if index >= |list| {
      AppendRecorded(before, list, removed, f);
    } else if StrictPrefix(f.chosenJobIds, list[index].chosenJobIds) {
      ScannedAfterRemoval(before, list, removed, f, index);
      AddFailureFromScanned(before, list[index := list[|list| - 1]][..|list| - 1], removed + [list[index]], f, index,
                            true, updatedBefore);
    } else if StrictPrefix(list[index].chosenJobIds, f.chosenJobIds) || f.chosenJobIds == list[index].chosenJobIds {
      PrefixOrEqualCases(list[index].chosenJobIds, f.chosenJobIds);
      EarlyReturnRecorded(before, list, removed, f, list[index]);
    } else {
      PrefixOrEqualCases(list[index].chosenJobIds, f.chosenJobIds);
      ScannedAfterKeeping(before, list, removed, f, index);
      AddFailureFromScanned(before, list, removed, f, index + 1, updated, updatedBefore);
    }
  }

  /** `add_failure` records `f` (`Recorded`), and `did_update_failures` is
      set exactly when it was set before or the failures changed. */
  lemma AddFailureRecorded(before: seq<FailedSequence>, f: FailedSequence, updated: bool)
    ensures Recorded(before, AddFailureFrom(before, f, 0, updated).0, f)
    ensures AddFailureFrom(before, f, 0, updated).1 == (updated || multiset(AddFailureFrom(before, f, 0, updated).0) != multiset(before))
  {
    AddFailureFromScanned(before, before, [], f, 0, updated, updated);
  }

  /** Overwriting position `i` with the last element and dropping the last
      removes exactly one occurrence of the element at `i`. */
  lemma SwapPopMultiset<T>(s: seq<T>, i: nat)
    requires i < |s|
    ensures multiset(s[i := s[|s| - 1]][..|s| - 1]) == multiset(s) - multiset{s[i]}
  {
    var n := |s|;
    if i == n - 1 {
      assert s == s[..n - 1] + [s[n - 1]];
      assert s[i := s[n - 1]] == s;
    } else {
      assert s == s[..i] + [s[i]] + s[i + 1..n - 1] + [s[n - 1]];
      assert s[i := s[n - 1]][..n - 1] == s[..i] + [s[n - 1]] + s[i + 1..n - 1];
    }
  }

  /** `Attachment_job_sequence` as agent.hpp uses it. */
  datatype HistoryAttachment = HistoryAttachment(chosenJobIds: seq<JobId>)

  /** `Agent_job_sequence_history::create_initial_node_attachment`: no job chosen yet. */
  function HistoryInitialAttachment(): (a: HistoryAttachment)
    ensures a.chosenJobIds == []
  {
    HistoryAttachment([])
  }

  /** `Agent_job_sequence_history::create_next_node_attachment`: the
      parent's ids followed by the next job's id. */
  function HistoryNextAttachment(parent: HistoryAttachment, nextJob: Job): (a: HistoryAttachment)
    ensures StrictPrefix(parent.chosenJobIds, a.chosenJobIds)
    ensures |a.chosenJobIds| == |parent.chosenJobIds| + 1 && a.chosenJobIds[|parent.chosenJobIds|] == nextJob.id
  {
    HistoryAttachment(parent.chosenJobIds + [nextJob.id])
  }

  /** `Attachment_failure_search` as agent.hpp uses it. */
  datatype FailureAttachment = FailureAttachment(chosenJobIds: seq<JobId>, hasMissedDeadline: bool)

  /** `Agent_failure_search::create_next_node_attachment`: the parent's ids
      and the next job's id; a miss above is inherited. */
  function FailureNextAttachment(parent: FailureAttachment, nextJob: Job): (a: FailureAttachment)
    ensures StrictPrefix(parent.chosenJobIds, a.chosenJobIds)
    ensures |a.chosenJobIds| == |parent.chosenJobIds| + 1 && a.chosenJobIds[|parent.chosenJobIds|] == nextJob.id
    ensures a.hasMissedDeadline == parent.hasMissedDeadline
  {
    FailureAttachment(parent.chosenJobIds + [nextJob.id], parent.hasMissedDeadline)
  }

  /** `Agent_failure_search::allow_merge`: only nodes that agree on
      having missed a deadline merge. */
  function FailureAllowMerge(node: FailureAttachment, other: FailureAttachment): (r: bool)
    ensures r <==> (node.hasMissedDeadline <==> other.hasMissedDeadline)
  {
    node.hasMissedDeadline == other.hasMissedDeadline
  }

  class AgentFailureSearch {
    var pathsWithoutDeadlineMisses: int
    var failures: seq<FailedSequence>
    var didUpdateFailures: bool

    constructor()
      ensures pathsWithoutDeadlineMisses == 0 && failures == [] && didUpdateFailures
    {
      pathsWithoutDeadlineMisses := 0;
      failures := [];
      didUpdateFailures := true;
    }

    /** `add_failure` with the moved failure examined in its new place
        (the index advances only past failures that stay). */
    method AddFailure(f: FailedSequence)
      modifies this
      ensures pathsWithoutDeadlineMisses == old(pathsWithoutDeadlineMisses)
      ensures (failures, didUpdateFailures) == AddFailureFrom(old(failures), f, 0, old(didUpdateFailures))
      ensures Recorded(old(failures), failures, f)
      ensures didUpdateFailures == (old(didUpdateFailures) || multiset(failures) != multiset(old(failures)))
    {
      AddFailureRecorded(failures, f, didUpdateFailures);
      var list := failures;
      var updated := didUpdateFailures;
      var index := 0;
      while index < |list|
        invariant failures == old(failures) && didUpdateFailures == old(didUpdateFailures)
        invariant pathsWithoutDeadlineMisses == old(pathsWithoutDeadlineMisses)
        invariant 0 <= index <= |list|
        invariant AddFailureFrom(list, f, index, updated) == AddFailureFrom(failures, f, 0, didUpdateFailures)
        decreases |list| - index
      {
        var extended := IsPrefixOf(f, list[index]);
        if extended {
          list := list[index := list[|list| - 1]][..|list| - 1];
          updated := true;
        } else {
          var covered := IsPrefixOf(list[index], f);
          if covered || f.chosenJobIds == list[index].chosenJobIds {
            failures, didUpdateFailures := list, updated;
            return;
          }
          index := index + 1;
        }
      }
      failures, didUpdateFailures := list + [f], true;
    }

    /** `create_initial_node_attachment`: a new pass starts; nothing chosen
        and nothing missed yet. */
    method CreateInitialNodeAttachment() returns (a: FailureAttachment)
      modifies this
      ensures failures == old(failures)
      ensures pathsWithoutDeadlineMisses == 0 && !didUpdateFailures
      ensures a == FailureAttachment([], false)
    {
      pathsWithoutDeadlineMisses := 0;
      didUpdateFailures := false;
      return FailureAttachment([], false);
    }

    /** `missed_deadline`: the path followed by the late job is recorded,
        the first time only. */
    method MissedDeadline(failed: FailureAttachment, lateJob: Job) returns (r: FailureAttachment)
      modifies this
      ensures r == failed.(hasMissedDeadline := true)
      ensures pathsWithoutDeadlineMisses == old(pathsWithoutDeadlineMisses)
      ensures failed.hasMissedDeadline ==> failures == old(failures) && didUpdateFailures == old(didUpdateFailures)
      ensures !failed.hasMissedDeadline ==>
                (failures, didUpdateFailures)
                == AddFailureFrom(old(failures), FailedSequence(failed.chosenJobIds + [lateJob.id]), 0, old(didUpdateFailures))
                && Recorded(old(failures), failures, FailedSequence(failed.chosenJobIds + [lateJob.id]))
    {
      var chosenJobIds := failed.chosenJobIds + [lateJob.id];
      r := failed;
      if !failed.hasMissedDeadline {
        r := failed.(hasMissedDeadline := true);
        AddFailure(FailedSequence(chosenJobIds));
      }
    }

    /** `encountered_dead_end`: the path itself is recorded, the first
        time only. */
    method EncounteredDeadEnd(dead: FailureAttachment) returns (r: FailureAttachment)
      modifies this
      ensures r == dead.(hasMissedDeadline := true)
      ensures pathsWithoutDeadlineMisses == old(pathsWithoutDeadlineMisses)
      ensures dead.hasMissedDeadline ==> failures == old(failures) && didUpdateFailures == old(didUpdateFailures)
      ensures !dead.hasMissedDeadline ==>
                (failures, didUpdateFailures)
                == AddFailureFrom(old(failures), FailedSequence(dead.chosenJobIds), 0, old(didUpdateFailures))
                && Recorded(old(failures), failures, FailedSequence(dead.chosenJobIds))
    {
      r := dead;
      if !dead.hasMissedDeadline {
        r := dead.(hasMissedDeadline := true);
        AddFailure(FailedSequence(dead.chosenJobIds));
      }
    }

    /** `finished_node`: one more path without a deadline miss. */
    method FinishedNode()
      modifies this
      ensures pathsWithoutDeadlineMisses == old(pathsWithoutDeadlineMisses) + 1
      ensures failures == old(failures) && didUpdateFailures == old(didUpdateFailures)
    {
      pathsWithoutDeadlineMisses := pathsWithoutDeadlineMisses + 1;
    }

    /** `is_allowed`: a job is refused exactly when taking it completes a
        recorded failure. */
    method IsAllowed(at: FailureAttachment, nextJob: Job) returns (r: bool)
      ensures r <==> FailedSequence(at.chosenJobIds + [nextJob.id]) !in failures
    {
      var newJobIds := at.chosenJobIds + [nextJob.id];
      var index := 0;
      while index < |failures|
        invariant 0 <= index <= |failures|
        invariant forall k :: 0 <= k < index ==> failures[k].chosenJobIds != newJobIds
      {
        if failures[index].chosenJobIds == newJobIds {
          return false;
        }
        index := index + 1;
      }
      return true;
    }

    /** One search with this agent: the paths without misses, the
        failures and `did_update_failures` become those of replaying its
        calls (`FailureReplay`), and the failures stay an antichain. */
    method Explore(pass: seq<Event>)
      requires Antichain(failures)
      modifies this
      ensures var t := FailureReplay(FailureStart(old(failures)), pass);
              failures == t.failures && didUpdateFailures == t.updated && pathsWithoutDeadlineMisses == t.paths
      ensures Antichain(failures)
    {
      ghost var start := FailureStart(failures);
      var root := CreateInitialNodeAttachment();
      var attachments := [root];
      var step := 0;
      while step < |pass|
        invariant 0 <= step <= |pass|
        invariant FailureReplay(start, pass[..step])
                  == FailureState(attachments, pathsWithoutDeadlineMisses, failures, didUpdateFailures)
      {
        assert pass[..step + 1][..step] == pass[..step];
        attachments := Dispatch(attachments, pass[step]);
        step := step + 1;
      }
      assert pass[..step] == pass;
      FailureReplayAntichain(start, pass);
    }

    /** One call of the search, passed to the hook it names: the agent
        and the attachments change as one replayed step says. A merge the
        agent allows keeps the destination's attachment. */
    method Dispatch(attachments: seq<FailureAttachment>, e: Event) returns (r: seq<FailureAttachment>)
      modifies this
      ensures FailureStep(FailureState(attachments, old(pathsWithoutDeadlineMisses), old(failures), old(didUpdateFailures)), e)
              == FailureState(r, pathsWithoutDeadlineMisses, failures, didUpdateFailures)
    {
      r := attachments;
      match e {
        case Expand(parent, job) =>
          if parent < |attachments| {
            var allowed := IsAllowed(attachments[parent], job);
            if allowed {
              r := attachments + [FailureNextAttachment(attachments[parent], job)];
            }
          }
        case Merge(destination, parent, job) =>
          if parent < |attachments| && destination < |attachments| {
            var allowed := IsAllowed(attachments[parent], job);
            if allowed && !FailureAllowMerge(attachments[parent], attachments[destination]) {
              r := attachments + [FailureNextAttachment(attachments[parent], job)];
            }
          }
        case MissedDeadline(node, lateJob, _) =>
          if node < |attachments| {
            var failed := MissedDeadline(attachments[node], lateJob);
            r := attachments[node := failed];
          }
        case DeadEnd(node) =>
          if node < |attachments| {
            var dead := EncounteredDeadEnd(attachments[node]);
            r := attachments[node := dead];
          }
        case Finished(_) =>
          FinishedNode();
      }
    }
  }

  // ---- one search replayed, as a function ----

  /** What one search with the failure search agent keeps: the attachment
      of every search node, the paths without deadline misses, the
      failures and `did_update_failures`. */
  datatype FailureState = FailureState(attachments: seq<FailureAttachment>, paths: int,
                                       failures: seq<FailedSequence>, updated: bool)

  /** The agent after `create_initial_node_attachment`, holding `failures`. */
  function FailureStart(failures: seq<FailedSequence>): FailureState {
    FailureState([FailureAttachment([], false)], 0, failures, false)
  }

  /** A failure at search node `node` along `ids`: the node is marked, and
      `ids` is recorded the first time only. */
  function FailureMarked(s: FailureState, node: nat, ids: seq<JobId>): FailureState
    requires node < |s.attachments|
  {
    var a := s.attachments[node];
    var marked := s.(attachments := s.attachments[node := a.(hasMissedDeadline := true)]);
    if a.hasMissedDeadline then marked
    else
      var recorded := AddFailureFrom(s.failures, FailedSequence(ids), 0, s.updated);
      marked.(failures := recorded.0, updated := recorded.1)
  }

  /** One call of the search replayed: an expansion that completes a
      recorded failure is refused; a merge the agent allows keeps the
      destination; a deadline miss records the path followed by the late
      job, a dead end the path itself; a finished path is counted. Events
      naming a node that does not exist are ignored. */
  function FailureStep(s: FailureState, e: Event): FailureState {
    match e
    case Expand(parent, job) =>
      if parent < |s.attachments| && FailedSequence(s.attachments[parent].chosenJobIds + [job.id]) !in s.failures then
        s.(attachments := s.attachments + [FailureNextAttachment(s.attachments[parent], job)])
      else s
    case Merge(destination, parent, job) =>
      if parent < |s.attachments| && destination < |s.attachments|
         && FailedSequence(s.attachments[parent].chosenJobIds + [job.id]) !in s.failures
         && !FailureAllowMerge(s.attachments[parent], s.attachments[destination]) then
        s.(attachments := s.attachments + [FailureNextAttachment(s.attachments[parent], job)])
      else s
    case MissedDeadline(node, lateJob, _) =>
      if node < |s.attachments| then FailureMarked(s, node, s.attachments[node].chosenJobIds + [lateJob.id]) else s
    case DeadEnd(node) =>
      if node < |s.attachments| then FailureMarked(s, node, s.attachments[node].chosenJobIds) else s
    case Finished(_) => s.(paths := s.paths + 1)
  }

  /** The state after replaying `pass` from `start`. */
  function FailureReplay(start: FailureState, pass: seq<Event>): FailureState {
    if pass == [] then start else FailureStep(FailureReplay(start, pass[..|pass| - 1]), pass[|pass| - 1])
  }

  /** One replayed call keeps the failures an antichain; a deadline miss
      or dead end at a node that had none records its path, so a failure
      that is a prefix of it or equal to it is recorded afterwards. */
  lemma FailureStepAntichain(s: FailureState, e: Event)
    requires Antichain(s.failures)
    ensures Antichain(FailureStep(s, e).failures)
    ensures e.MissedDeadline? && e.node < |s.attachments| && !s.attachments[e.node].hasMissedDeadline ==>
              var ids := s.attachments[e.node].chosenJobIds + [e.lateJob.id];
              exists c :: c in FailureStep(s, e).failures && PrefixOrEqual(c.chosenJobIds, ids)
    ensures e.DeadEnd? && e.node < |s.attachments| && !s.attachments[e.node].hasMissedDeadline ==>
              var ids := s.attachments[e.node].chosenJobIds;
              exists c :: c in FailureStep(s, e).failures && PrefixOrEqual(c.chosenJobIds, ids)
  {
    match e
    case MissedDeadline(node, lateJob, _) =>
      if node < |s.attachments| {
        AddFailureRecorded(s.failures, FailedSequence(s.attachments[node].chosenJobIds + [lateJob.id]), s.updated);
      }
    case DeadEnd(node) =>
      if node < |s.attachments| {
        AddFailureRecorded(s.failures, FailedSequence(s.attachments[node].chosenJobIds), s.updated);
      }
    case _ =>
  }

  /** A replayed search keeps the failures an antichain. */
  lemma {:induction false} FailureReplayAntichain(start: FailureState, pass: seq<Event>)
    requires Antichain(start.failures)
    ensures Antichain(FailureReplay(start, pass).failures)
  {
    if pass != [] {
      FailureReplayAntichain(start, pass[..|pass| - 1]);
      FailureStepAntichain(FailureReplay(start, pass[..|pass| - 1]), pass[|pass| - 1]);
    }
  }

  /** The state of `add_failure`'s loop before position `index`: the
      failures left and the ones removed make up the failures before, only
      failures that `f` strictly prefixes were removed, and none of the
      failures passed over is related to `f`. */
  ghost predicate Scanned(before: seq<FailedSequence>, failures: seq<FailedSequence>, removed: seq<FailedSequence>,
                          f: FailedSequence, index: int) {
    0 <= index <= |failures|
    && multiset(failures) + multiset(removed) == multiset(before)
    && (forall g :: g in removed ==> StrictPrefix(f.chosenJobIds, g.chosenJobIds))
    && (forall k :: 0 <= k < index ==>
          !StrictPrefix(f.chosenJobIds, failures[k].chosenJobIds)
          && !PrefixOrEqual(failures[k].chosenJobIds, f.chosenJobIds))
  }

  /** Removing the failure at `index`, which `f` strictly prefixes. */
  lemma ScannedAfterRemoval(before: seq<FailedSequence>, failures: seq<FailedSequence>, removed: seq<FailedSequence>,
                            f: FailedSequence, index: int)
    requires Scanned(before, failures, removed, f, index) && index < |failures|
    requires StrictPrefix(f.chosenJobIds, failures[index].chosenJobIds)
    ensures Scanned(before, failures[index := failures[|failures| - 1]][..|failures| - 1],
                    removed + [failures[index]], f, index)
  {
    SwapPopMultiset(failures, index);
    var after := failures[index := failures[|failures| - 1]][..|failures| - 1];
    assert forall k :: 0 <= k < index ==> after[k] == failures[k];
  }

  /** Passing over the failure at `index`, which is not related to `f`. */
  lemma ScannedAfterKeeping(before: seq<FailedSequence>, failures: seq<FailedSequence>, removed: seq<FailedSequence>,
                            f: FailedSequence, index: int)
    requires Scanned(before, failures, removed, f, index) && index < |failures|
    requires !StrictPrefix(f.chosenJobIds, failures[index].chosenJobIds)
    requires !PrefixOrEqual(failures[index].chosenJobIds, f.chosenJobIds)
    ensures Scanned(before, failures, removed, f, index + 1)
  {
  }

  /** The early return of `add_failure`: a recorded failure is a prefix of
      (or equal to) `f`, so `f` is not added. */
  lemma EarlyReturnRecorded(before: seq<FailedSequence>, after: seq<FailedSequence>, removed: seq<FailedSequence>,
                            f: FailedSequence, c: FailedSequence)
    requires multiset(after) + multiset(removed) == multiset(before)
    requires forall g :: g in removed ==> StrictPrefix(f.chosenJobIds, g.chosenJobIds)
    requires c in after && PrefixOrEqual(c.chosenJobIds, f.chosenJobIds)
    ensures Recorded(before, after, f)
    ensures multiset(after) != multiset(before) <==> removed != []
  {
    if removed != [] {
      assert removed[0] in multiset(removed);
    }
    assert forall e :: e in after ==> e in before by {
      forall e | e in after ensures e in before {
        assert e in multiset(after);
        assert e in multiset(before);
      }
    }
    forall e | e in before && !StrictPrefix(f.chosenJobIds, e.chosenJobIds)
      ensures e in after
    {
      assert multiset(before)[e] > 0;
      assert e !in removed;
      assert multiset(removed)[e] == 0;
    }
    if Antichain(before) {
      forall e | e in after
        ensures !StrictPrefix(f.chosenJobIds, e.chosenJobIds)
      {
        if StrictPrefix(f.chosenJobIds, e.chosenJobIds) {
          StrictPrefixTransitive(c.chosenJobIds, f.chosenJobIds, e.chosenJobIds);
          // c and e both lie in `before`, and c now strictly prefixes e: not an antichain
          assert false;
        }
      }
    }
  }

  /** The end of `add_failure`'s loop: no failure left is a prefix of `f`
      or strictly prefixed by it, so appending `f` keeps the antichain. */
  lemma AppendRecorded(before: seq<FailedSequence>, kept: seq<FailedSequence>, removed: seq<FailedSequence>,
                       f: FailedSequence)
    requires multiset(kept) + multiset(removed) == multiset(before)
    requires forall g :: g in removed ==> StrictPrefix(f.chosenJobIds, g.chosenJobIds)
    requires forall k :: 0 <= k < |kept| ==>
               !StrictPrefix(f.chosenJobIds, kept[k].chosenJobIds) && !PrefixOrEqual(kept[k].chosenJobIds, f.chosenJobIds)
    ensures Recorded(before, kept + [f], f)
    ensures multiset(kept + [f]) != multiset(before)
  {
    var after := kept + [f];
    assert f in after && PrefixOrEqual(f.chosenJobIds, f.chosenJobIds);
    assert forall e :: e in kept ==> e in before by {
      forall e | e in kept ensures e in before {
        assert e in multiset(kept);
        assert e in multiset(before);
      }
    }
    forall e | e in before && !StrictPrefix(f.chosenJobIds, e.chosenJobIds)
      ensures e in after
    {
      assert multiset(before)[e] > 0;
      assert e !in removed;
      assert multiset(removed)[e] == 0;
    }
    forall e | e in after
      ensures !StrictPrefix(f.chosenJobIds, e.chosenJobIds) && (e != f ==> !StrictPrefix(e.chosenJobIds, f.chosenJobIds))
    {
      if e != f {
        var k :| 0 <= k < |kept| && kept[k] == e;
      }
    }
    StrictPrefixIrreflexive(f.chosenJobIds);
    assert f !in removed;
    assert multiset(after)[f] == multiset(before)[f] + 1;
  }

  /** What `find_all_failures` returns when it holds `failures` and its
      next searches are `passes`: the failures once a search records
      nothing new, `None` when the passes run out first. */
  function FailuresFrom(failures: seq<FailedSequence>, updated: bool, passes: seq<seq<Event>>): Option<seq<FailedSequence>>
    decreases |passes|
  {
    if !updated then Some(failures)
    else if passes == [] then None
    else
      var t := FailureReplay(FailureStart(failures), passes[0]);
      FailuresFrom(t.failures, t.updated, passes[1..])
  }

  /** The failures `find_all_failures` finds from an antichain form one:
      none is a strict prefix of another. */
  lemma {:induction false} FailuresFromAntichain(failures: seq<FailedSequence>, updated: bool, passes: seq<seq<Event>>)
    requires Antichain(failures)
    ensures var r := FailuresFrom(failures, updated, passes); r.Some? ==> Antichain(r.value)
    decreases |passes|
  {
    if updated && passes != [] {
      FailureReplayAntichain(FailureStart(failures), passes[0]);
      var t := FailureReplay(FailureStart(failures), passes[0]);
      FailuresFromAntichain(t.failures, t.updated, passes[1..]);
    }
  }

  /** `find_all_failures`: searches until a search records nothing new,
      the i-th search being `passes[i]`; `None` when the passes run out
      first. The result is `FailuresFrom` with no failures at the start,
      so the failures found are an antichain. */
  method FindAllFailures(passes: seq<seq<Event>>) returns (r: Option<seq<FailedSequence>>)
    ensures r == FailuresFrom([], true, passes)
    ensures r.Some? ==> Antichain(r.value)
  {
    FailuresFromAntichain([], true, passes);
    var agent := new AgentFailureSearch();
    var index := 0;
    while agent.didUpdateFailures && index < |passes|
      invariant 0 <= index <= |passes| && Antichain(agent.failures)
      invariant FailuresFrom(agent.failures, agent.didUpdateFailures, passes[index..]) == FailuresFrom([], true, passes)
    {
      assert passes[index..][1..] == passes[index + 1..];
      agent.Explore(passes[index]);
      index := index + 1;
    }
    if agent.didUpdateFailures {
      return None;
    }
    return Some(agent.failures);
  }

  /** `id` is not the last job of `failure`, which has one. */
  predicate Clear(failure: FailedSequence, id: JobId) {
    |failure.chosenJobIds| > 0 && id != failure.chosenJobIds[|failure.chosenJobIds| - 1]
  }

  /** One list of alternatives per failure, and no alternative recorded
      for a failure is the failure's own last job. */
  ghost predicate Avoids(failures: seq<FailedSequence>, alternatives: seq<seq<JobId>>) {
    |alternatives| == |failures|
    && forall k, i :: 0 <= k < |failures| && 0 <= i < |alternatives[k]| ==> Clear(failures[k], alternatives[k][i])
  }

  /** Recording a job other than a failure's last one as an alternative for
      it keeps the alternatives clear of the last jobs. */
  lemma AppendAvoids(failures: seq<FailedSequence>, alternatives: seq<seq<JobId>>, index: nat, id: JobId)
    requires Avoids(failures, alternatives) && index < |failures| && Clear(failures[index], id)
    ensures Avoids(failures, alternatives[index := alternatives[index] + [id]])
  {
    var grown := alternatives[index := alternatives[index] + [id]];
    forall k, i | 0 <= k < |failures| && 0 <= i < |grown[k]|
      ensures Clear(failures[k], grown[k][i])
    {
      if k != index || i < |alternatives[k]| {
        assert grown[k][i] == alternatives[k][i];
      }
    }
  }

  /** `is_allowed` of the alternative search as a function: from failure
      `index` on, the first failure whose jobs but the last were taken
      decides, and the alternatives it leaves are returned with the
      verdict; `None` is an empty failure met first. */
  function AlternativeVerdict(failures: seq<FailedSequence>, alternatives: seq<seq<JobId>>, at: HistoryAttachment,
                              nextJob: Job, index: nat): (r: Option<(bool, seq<seq<JobId>>)>)
    requires |alternatives| == |failures|
    ensures r.Some? ==> |r.value.1| == |failures|
    decreases |failures| - index
  {
    if index >= |failures| then Some((true, alternatives))
    else
      var ids := failures[index].chosenJobIds;
      if ids == [] then None
      else if ids[..|ids| - 1] == at.chosenJobIds then
        if ids[|ids| - 1] == nextJob.id then Some((false, alternatives))
        else Some((true, alternatives[index := alternatives[index] + [nextJob.id]]))
      else AlternativeVerdict(failures, alternatives, at, nextJob, index + 1)
  }

  /** The search nodes' attachments and the alternatives recorded so far. */
  datatype AlternativeState = AlternativeState(attachments: seq<HistoryAttachment>, alternatives: seq<seq<JobId>>)

  /** One call of the search on the alternative agent replayed: an
      expansion asks `is_allowed` and attaches the history to the new node
      when it is allowed; a merge asks it too but keeps the nodes; the other
      calls change nothing. Events naming a node that does not exist are
      ignored. */
  function AlternativeStep(failures: seq<FailedSequence>, s: AlternativeState, e: Event): (r: Option<AlternativeState>)
    requires |s.alternatives| == |failures|
    ensures r.Some? ==> |r.value.alternatives| == |failures| && |r.value.attachments| >= |s.attachments|
  {
    match e
    case Expand(parent, job) =>
      if parent >= |s.attachments| then Some(s)
      else
        var v := AlternativeVerdict(failures, s.alternatives, s.attachments[parent], job, 0);
        if v.None? then None
        else if v.value.0 then
          Some(AlternativeState(s.attachments + [HistoryNextAttachment(s.attachments[parent], job)], v.value.1))
        else Some(AlternativeState(s.attachments, v.value.1))
    case Merge(destination, parent, job) =>
      if parent >= |s.attachments| || destination >= |s.attachments| then Some(s)
      else
        var v := AlternativeVerdict(failures, s.alternatives, s.attachments[parent], job, 0);
        if v.None? then None else Some(AlternativeState(s.attachments, v.value.1))
    case MissedDeadline(_, _, _) => Some(s)
    case DeadEnd(_) => Some(s)
    case Finished(_) => Some(s)
  }

  /** The state after replaying `pass` from the root's attachment and the
      given alternatives, or `None` once `is_allowed` was undefined. */
  function AlternativeReplay(failures: seq<FailedSequence>, alternatives: seq<seq<JobId>>, pass: seq<Event>)
    : (r: Option<AlternativeState>)
    requires |alternatives| == |failures|
    ensures r.Some? ==> |r.value.alternatives| == |failures| && |r.value.attachments| > 0
  {
    if pass == [] then Some(AlternativeState([HistoryInitialAttachment()], alternatives))
    else
      var before := AlternativeReplay(failures, alternatives, pass[..|pass| - 1]);
      if before.None? then None else AlternativeStep(failures, before.value, pass[|pass| - 1])
  }

  /** Once `is_allowed` was undefined, the replay stays undefined. */
  lemma {:induction false} AlternativeReplayAborted(failures: seq<FailedSequence>, alternatives: seq<seq<JobId>>,
                                                    pass: seq<Event>, k: nat)
    requires |alternatives| == |failures|
    requires k <= |pass| && AlternativeReplay(failures, alternatives, pass[..k]).None?
    ensures AlternativeReplay(failures, alternatives, pass).None?
    decreases |pass| - k
  {
    if k < |pass| {
      assert pass[..k + 1][..k] == pass[..k];
      AlternativeReplayAborted(failures, alternatives, pass, k + 1);
    } else {
      assert pass[..k] == pass;
    }
  }

  /** `Agent_failure_alternative_search`: forbids the last job of each
      failure where the failure's other jobs were taken, and records the
      jobs taken there instead. */
  class AgentFailureAlternativeSearch {
    const failures: seq<FailedSequence>
    var alternatives: seq<seq<JobId>>

    /** One list of alternatives per failure, and no alternative recorded
        for a failure is the failure's own last job. */
    ghost predicate AvoidsLast()
      reads this
    {
      Avoids(failures, alternatives)
    }

    /** `failure` ends with a job taken right after the ids of `at`. */
    predicate Matches(failure: FailedSequence, at: HistoryAttachment) {
      |failure.chosenJobIds| > 0 && failure.chosenJobIds[..|failure.chosenJobIds| - 1] == at.chosenJobIds
    }

    /** One empty list of alternatives per failure. */
    constructor(fs: seq<FailedSequence>)
      ensures failures == fs && |alternatives| == |fs| && AvoidsLast()
      ensures forall k :: 0 <= k < |fs| ==> alternatives[k] == []
    {
      failures := fs;
      var empty := [];
      var index := 0;
      while index < |fs|
        invariant 0 <= index <= |fs| && |empty| == index
        invariant forall k :: 0 <= k < index ==> empty[k] == []
      {
        empty := empty + [[]];
        index := index + 1;
      }
      alternatives := empty;
    }

    /** `is_allowed`: the first failure whose jobs but the last were taken
        decides: its last job is refused, any other job is allowed and
        recorded as an alternative for it; with no such failure, every job
        is allowed. `None` is the undefined removal of the last id of an
        empty failure met before a matching one. */
    method IsAllowed(at: HistoryAttachment, nextJob: Job) returns (r: Option<bool>)
      requires |alternatives| == |failures|
      modifies this
      ensures |alternatives| == |failures|
      ensures r.None? <==> exists k :: 0 <= k < |failures| && failures[k].chosenJobIds == []
                                       && forall m :: 0 <= m < k ==> !Matches(failures[m], at)
      ensures r.Some? && (forall k :: 0 <= k < |failures| ==> !Matches(failures[k], at)) ==>
                r.value && alternatives == old(alternatives)
      ensures r.Some? ==> forall k :: 0 <= k < |failures| && Matches(failures[k], at)
                                      && (forall m :: 0 <= m < k ==> !Matches(failures[m], at)) ==>
                var ids := failures[k].chosenJobIds;
                if ids[|ids| - 1] == nextJob.id then !r.value && alternatives == old(alternatives)
                else r.value && alternatives == old(alternatives)[k := old(alternatives)[k] + [nextJob.id]]
      ensures r.None? ==> alternatives == old(alternatives)
      ensures forall k :: 0 <= k < |failures| ==> old(alternatives[k]) <= alternatives[k]
      ensures old(AvoidsLast()) ==> AvoidsLast()
      ensures var v := AlternativeVerdict(failures, old(alternatives), at, nextJob, 0);
              (r.None? <==> v.None?) && (r.Some? ==> r.value == v.value.0 && alternatives == v.value.1)
    {
      var index := 0;
      while index < |failures|
        invariant 0 <= index <= |failures|
        invariant alternatives == old(alternatives)
        invariant AlternativeVerdict(failures, alternatives, at, nextJob, 0)
               == AlternativeVerdict(failures, alternatives, at, nextJob, index)
        invariant forall m :: 0 <= m < index ==> failures[m].chosenJobIds != [] && !Matches(failures[m], at)
      {
        var ids := failures[index].chosenJobIds;
        if ids == [] {
          return None;
        }
        var mostChosenJobIds := ids[..|ids| - 1];
        if mostChosenJobIds == at.chosenJobIds {
          assert Matches(failures[index], at);
          if ids[|ids| - 1] == nextJob.id {
            return Some(false);
          }
          if AvoidsLast() {
            AppendAvoids(failures, alternatives, index, nextJob.id);
          }
          alternatives := alternatives[index := alternatives[index] + [nextJob.id]];
          return Some(true);
        }
        index := index + 1;
      }
      return Some(true);
    }

    /** One search with this agent, given as the list of calls it makes.
        As `Agent_job_sequence_history` does, every node records the ids
        of the jobs taken on the way to it; a merge is always allowed and
        keeps the destination's attachment. `ok` is false when `is_allowed`
        reaches the undefined case; otherwise the alternatives are those
        that replaying the calls records. The alternatives only grow, and
        stay clear of the failures' last jobs. */
    method Explore(pass: seq<Event>) returns (ok: bool)
      requires AvoidsLast()
      modifies this
      ensures AvoidsLast()
      ensures forall k :: 0 <= k < |failures| ==> old(alternatives[k]) <= alternatives[k]
      ensures var found := AlternativeReplay(failures, old(alternatives), pass);
              ok == found.Some? && (ok ==> alternatives == found.value.alternatives)
    {
      var attachments := [HistoryInitialAttachment()];
      ok := true;
      var step := 0;
      while step < |pass| && ok
        invariant 0 <= step <= |pass| && |attachments| > 0 && AvoidsLast()
        invariant forall k :: 0 <= k < |failures| ==> old(alternatives[k]) <= alternatives[k]
        invariant ok ==> AlternativeReplay(failures, old(alternatives), pass[..step])
                         == Some(AlternativeState(attachments, alternatives))
        invariant !ok ==> AlternativeReplay(failures, old(alternatives), pass[..step]).None?
      {
        assert pass[..step + 1][..step] == pass[..step];
        ok, attachments := Dispatch(attachments, pass[step]);
        step := step + 1;
      }
      if !ok {
        AlternativeReplayAborted(failures, old(alternatives), pass, step);
      } else {
        assert pass[..step] == pass;
      }
    }

    /** One call of the search, dispatched to `is_allowed`: the attachments
        and alternatives become those of one replayed step. */
    method Dispatch(attachments: seq<HistoryAttachment>, e: Event) returns (ok: bool, next: seq<HistoryAttachment>)
      requires AvoidsLast() && |attachments| > 0
      modifies this
      ensures AvoidsLast() && |next| > 0
      ensures forall k :: 0 <= k < |failures| ==> old(alternatives[k]) <= alternatives[k]
      ensures var t := AlternativeStep(failures, AlternativeState(attachments, old(alternatives)), e);
              ok == t.Some? && (ok ==> t.value == AlternativeState(next, alternatives))
    {
      ok, next := true, attachments;
      match e {
        case Expand(parent, job) =>
          if parent < |attachments| {
            var allowed := IsAllowed(attachments[parent], job);
            if allowed == Some(true) {
              next := attachments + [HistoryNextAttachment(attachments[parent], job)];
            }
            ok := allowed.Some?;
          }
        case Merge(destination, parent, job) =>
          if parent < |attachments| && destination < |attachments| {
            var allowed := IsAllowed(attachments[parent], job);
            ok := allowed.Some?;
          }
        case MissedDeadline(_, _, _) =>
        case DeadEnd(_) =>
        case Finished(_) =>
      }
    }
  }
}
