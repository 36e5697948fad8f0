/** The failure search of agent/failure_search.hpp, built on `Job_sequence`:
    every search node carries the step-wise sets of job indices that may
    have been taken to reach it, and the failures recorded are such
    sequences. A recorded failure covers every sequence that extends it
    step-wise (`is_prefix_of`). */
module FailureSearch {
  import opened ProblemModel
  import opened Search
  import opened IndexCollections
  import opened JobSequences
  import opened JobSequenceHistory
  import Agents

  /** The value of a `Job_sequence`: one set of job indices per step. */
  type Frames = seq<set<nat>>

  /** No recorded failure is a strict step-wise prefix of another. */
  ghost predicate Antichain(failures: seq<Frames>) {
    forall a, b :: a in failures && b in failures ==> !FramewisePrefix(a, b, true)
  }

  /** What recording `f` does to the list of failures: a failure that is
      step-wise contained in `f` (possibly `f` itself) is recorded
      afterwards; nothing but `f` is added; only failures of which `f` is
      a strict step-wise prefix are dropped. */
  ghost predicate Recorded(before: seq<Frames>, after: seq<Frames>, f: Frames) {
    (exists e :: e in after && FramewisePrefix(e, f, false))
    && (forall e :: e in after ==> e in before || e == f)
    && (forall e :: e in before && !FramewisePrefix(f, e, true) ==> e in after)
    && (Antichain(before) ==> Antichain(after))
    && (Antichain(before) ==> forall e :: e in after ==> !FramewisePrefix(f, e, true))
  }

  /** `add_failure` as written: as in agent.hpp, the failure moved into
      the place of a removed one is never examined. The boolean is
      `did_update_failures`. */
  function AddFailureAsWritten(failures: seq<Frames>, f: Frames, index: nat, updated: bool): (seq<Frames>, bool)
    decreases |failures| - index
  {
    if index >= |failures| then (failures + [f], true)
    else if FramewisePrefix(f, failures[index], true) then
      AddFailureAsWritten(failures[index := failures[|failures| - 1]][..|failures| - 1], f, index + 1, true)
    else if FramewisePrefix(failures[index], f, false) then (failures, updated)
    else AddFailureAsWritten(failures, f, index + 1, updated)
  }

  /** Recording [{1}] after [{1}, {2}] and [{1}, {3}]: the first is
      removed, the second moves into its place and is passed over, so a
      failure that [{1}] strictly prefixes survives next to it. */
  lemma AddFailureAsWrittenKeepsExtension()
    ensures var a: Frames := [{1}, {2}];
            var b: Frames := [{1}, {3}];
            var f: Frames := [{1}];
            Antichain([a, b])
            && AddFailureAsWritten([a, b], f, 0, false) == ([b, f], true)
            && FramewisePrefix(f, b, true) && !Antichain([b, f])
  {
    var a: Frames := [{1}, {2}];
    var b: Frames := [{1}, {3}];
    var f: Frames := [{1}];
    assert FramewisePrefix(f, a, true);
    assert [a, b][0 := b][..1] == [b];
    assert AddFailureAsWritten([a, b], f, 0, false) == AddFailureAsWritten([b], f, 1, true);
    assert [b] + [f] == [b, f];
    assert FramewisePrefix(f, b, true);
  }

  /** `add_failure` with the failure moved into a removed one's place
      examined before the loop moves on, from position `index`: a failure
      of which `f` is a strict step-wise prefix is overwritten by the last
      one and the list shrinks; a failure step-wise contained in `f` ends
      the loop without adding `f`; otherwise `f` is appended. The boolean is
      `did_update_failures`. */
  function AddFailureFrom(failures: seq<Frames>, f: Frames, index: nat, updated: bool): (seq<Frames>, bool)
    decreases |failures| - index
  {
    if index >= |failures| then (failures + [f], true)
    else if FramewisePrefix(f, failures[index], true) then
      AddFailureFrom(failures[index := failures[|failures| - 1]][..|failures| - 1], f, index, true)
    else if FramewisePrefix(failures[index], f, false) then (failures, updated)
    else AddFailureFrom(failures, f, index + 1, updated)
  }

  /** From a loop state `Scanned` describes, the rest of `add_failure`
      records `f`, and reports an update exactly when one was reported
      before or the failures changed. */
  lemma {:induction false} AddFailureFromScanned(before: seq<Frames>, list: seq<Frames>, removed: seq<Frames>, f: Frames,
                                                 index: nat, updated: bool, updatedBefore: bool)
    requires Scanned(before, list, removed, f, index) && updated == (updatedBefore || removed != [])
    ensures var (after, u) := AddFailureFrom(list, f, index, updated);
            Recorded(before, after, f) && u == (updatedBefore || multiset(after) != multiset(before))
    decreases |list| - index
  {
    if index >= |list| {
      AppendRecorded(before, list, removed, f);
    } else if FramewisePrefix(f, list[index], true) {
      ScannedAfterRemoval(before, list, removed, f, index);
      AddFailureFromScanned(before, list[index := list[|list| - 1]][..|list| - 1], removed + [list[index]], f, index,
                            true, updatedBefore);
    } else if FramewisePrefix(list[index], f, false) {
      EarlyReturnRecorded(before, list, removed, f, list[index]);
    } else {
      ScannedAfterKeeping(before, list, removed, f, index);
      AddFailureFromScanned(before, list, removed, f, index + 1, updated, updatedBefore);
    }
  }

  /** `add_failure` records `f` (`Recorded`), and `did_update_failures` is
      set exactly when it was set before or the failures changed. */
  lemma AddFailureRecorded(before: seq<Frames>, f: Frames, updated: bool)
    ensures Recorded(before, AddFailureFrom(before, f, 0, updated).0, f)
    ensures AddFailureFrom(before, f, 0, updated).1 == (updated || multiset(AddFailureFrom(before, f, 0, updated).0) != multiset(before))
  {
    AddFailureFromScanned(before, before, [], f, 0, updated, updated);
  }

  /** The state of `add_failure`'s loop before position `index`: the
      failures left and the ones removed make up the failures before, only
      failures that `f` strictly prefixes were removed, and none of the
      failures passed over is related to `f`. */
  ghost predicate Scanned(before: seq<Frames>, failures: seq<Frames>, removed: seq<Frames>, f: Frames, index: int) {
    0 <= index <= |failures|
    && multiset(failures) + multiset(removed) == multiset(before)
    && (forall g :: g in removed ==> FramewisePrefix(f, g, true))
    && (forall k :: 0 <= k < index ==> !FramewisePrefix(f, failures[k], true) && !FramewisePrefix(failures[k], f, false))
  }

  /** Removing the failure at `index`, which `f` strictly prefixes. */
  lemma ScannedAfterRemoval(before: seq<Frames>, failures: seq<Frames>, removed: seq<Frames>, f: Frames, index: int)
    requires Scanned(before, failures, removed, f, index) && index < |failures|
    requires FramewisePrefix(f, failures[index], true)
    ensures Scanned(before, failures[index := failures[|failures| - 1]][..|failures| - 1],
                    removed + [failures[index]], f, index)
  {
    Agents.SwapPopMultiset(failures, index);
    var after := failures[index := failures[|failures| - 1]][..|failures| - 1];
    assert forall k :: 0 <= k < index ==> after[k] == failures[k];
  }

  /** Passing over the failure at `index`, which is not related to `f`. */
  lemma ScannedAfterKeeping(before: seq<Frames>, failures: seq<Frames>, removed: seq<Frames>, f: Frames, index: int)
    requires Scanned(before, failures, removed, f, index) && index < |failures|
    requires !FramewisePrefix(f, failures[index], true) && !FramewisePrefix(failures[index], f, false)
    ensures Scanned(before, failures, removed, f, index + 1)
  {
  }

  /** The early return of `add_failure`: a recorded failure is step-wise
      contained in `f`, so `f` is not added. */
  lemma EarlyReturnRecorded(before: seq<Frames>, after: seq<Frames>, removed: seq<Frames>, f: Frames, c: Frames)
    requires multiset(after) + multiset(removed) == multiset(before)
    requires forall g :: g in removed ==> FramewisePrefix(f, g, true)
    requires c in after && FramewisePrefix(c, f, false)
    ensures Recorded(before, after, f)
    ensures multiset(after) != multiset(before) <==> removed != []
  {
    if removed != [] {
      assert removed[0] in multiset(removed);
    }
    assert forall e :: e in after ==> e in before by {
      forall e | e in after ensures e in before {
        assert e in multiset(after);
        assert e in multiset(before);
      }
    }
    forall e | e in before && !FramewisePrefix(f, e, true)
      ensures e in after
    {
      assert multiset(before)[e] > 0;
      assert e !in removed;
      assert multiset(removed)[e] == 0;
    }
    if Antichain(before) {
      forall e | e in after
        ensures !FramewisePrefix(f, e, true)
      {
        if FramewisePrefix(f, e, true) {
          PrefixTransitive(c, f, e, false, true);
          // c and e both lie in `before`, and c is now strictly contained in e: not an antichain
          assert false;
        }
      }
    }
  }

  /** The end of `add_failure`'s loop: no failure left is step-wise
      contained in `f` or strictly prefixed by it, so appending `f` keeps
      the antichain. */
  lemma AppendRecorded(before: seq<Frames>, kept: seq<Frames>, removed: seq<Frames>, f: Frames)
    requires multiset(kept) + multiset(removed) == multiset(before)
    requires forall g :: g in removed ==> FramewisePrefix(f, g, true)
    requires forall k :: 0 <= k < |kept| ==> !FramewisePrefix(f, kept[k], true) && !FramewisePrefix(kept[k], f, false)
    ensures Recorded(before, kept + [f], f)
    ensures multiset(kept + [f]) != multiset(before)
  {
    var after := kept + [f];
    PrefixReflexive(f);
    assert f in after && FramewisePrefix(f, f, false);
    assert forall e :: e in kept ==> e in before by {
      forall e | e in kept ensures e in before {
        assert e in multiset(kept);
        assert e in multiset(before);
      }
    }
    forall e | e in before && !FramewisePrefix(f, e, true)
      ensures e in after
    {
      assert multiset(before)[e] > 0;
      assert e !in removed;
      assert multiset(removed)[e] == 0;
    }
    forall e | e in after
      ensures !FramewisePrefix(f, e, true) && (e != f ==> !FramewisePrefix(e, f, true))
    {
      if e != f {
        var k :| 0 <= k < |kept| && kept[k] == e;
      }
    }
    assert f !in removed;
    assert multiset(after)[f] == multiset(before)[f] + 1;
  }

  /** `Attachment_failure_search`: the node's job sequence and whether a
      failure was already recorded at it. */
  datatype FailureSearchAttachment = FailureSearchAttachment(jobSequence: JobSequence, hasMissedDeadline: bool)

  /** `allow_merge`: only nodes that agree on having missed a deadline merge. */
  function AllowMerge(node: FailureSearchAttachment, other: FailureSearchAttachment): (r: bool)
    ensures r <==> (node.hasMissedDeadline <==> other.hasMissedDeadline)
  {
    node.hasMissedDeadline == other.hasMissedDeadline
  }

  class AgentFailureSearch {
    var pathsWithoutDeadlineMisses: int
    var failures: seq<Frames>
    var didUpdateFailures: bool

    constructor()
      ensures pathsWithoutDeadlineMisses == 0 && failures == [] && didUpdateFailures
    {
      pathsWithoutDeadlineMisses := 0;
      failures := [];
      didUpdateFailures := true;
    }

    /** `add_failure` with the moved failure examined in its new place
        (the index advances only past failures that stay). */
    method AddFailure(f: Frames)
      modifies this
      ensures pathsWithoutDeadlineMisses == old(pathsWithoutDeadlineMisses)
      ensures (failures, didUpdateFailures) == AddFailureFrom(old(failures), f, 0, old(didUpdateFailures))
      ensures Recorded(old(failures), failures, f)
      ensures didUpdateFailures == (old(didUpdateFailures) || multiset(failures) != multiset(old(failures)))
    {
      AddFailureRecorded(failures, f, didUpdateFailures);
      var list := failures;
      var updated := didUpdateFailures;
      var index := 0;
      while index < |list|
        invariant failures == old(failures) && didUpdateFailures == old(didUpdateFailures)
        invariant pathsWithoutDeadlineMisses == old(pathsWithoutDeadlineMisses)
        invariant 0 <= index <= |list|
        invariant AddFailureFrom(list, f, index, updated) == AddFailureFrom(failures, f, 0, didUpdateFailures)
        decreases |list| - index
      {
        if FramewisePrefix(f, list[index], true) {
          list := list[index := list[|list| - 1]][..|list| - 1];
          updated := true;
        } else {
          if FramewisePrefix(list[index], f, false) {
            failures, didUpdateFailures := list, updated;
            return;
          }
          index := index + 1;
        }
      }
      failures, didUpdateFailures := list + [f], true;
    }

    /** `create_initial_node_attachment`: a new pass starts with an empty
        sequence and nothing missed. */
    method CreateInitialNodeAttachment() returns (a: FailureSearchAttachment)
      modifies this
      ensures failures == old(failures)
      ensures pathsWithoutDeadlineMisses == 0 && !didUpdateFailures
      ensures fresh(a.jobSequence) && a.jobSequence.Valid() && a.jobSequence.choices == []
      ensures a.jobSequence.frames == [] && !a.hasMissedDeadline
    {
      pathsWithoutDeadlineMisses := 0;
      didUpdateFailures := false;
      var empty := new JobSequence();
      return FailureSearchAttachment(empty, false);
    }

    /** `create_next_node_attachment`: a fresh extension of the parent's
        sequence by the next job; a miss above is inherited. */
    method CreateNextNodeAttachment(parent: FailureSearchAttachment, nextJob: Job) returns (r: FailureSearchAttachment)
      requires parent.jobSequence.Valid()
      ensures fresh(r.jobSequence) && r.jobSequence.Valid()
      ensures forall i :: 0 <= i < |r.jobSequence.choices| ==> fresh(r.jobSequence.choices[i])
      ensures r.jobSequence.frames == parent.jobSequence.frames + [{nextJob.index}]
      ensures FramewisePrefix(parent.jobSequence.frames, r.jobSequence.frames, true)
      ensures r.hasMissedDeadline == parent.hasMissedDeadline
    {
      var extended := parent.jobSequence.ExtendedCopy(nextJob.index);
      r := FailureSearchAttachment(extended, parent.hasMissedDeadline);
    }

    /** `merge_node_attachments`: the same step-wise union as the history
        agent's; `ok` is false where the source's length assertion fails. */
    method MergeNodeAttachments(destination: FailureSearchAttachment, parent: FailureSearchAttachment, nextJob: Job)
      returns (ok: bool)
      requires destination.jobSequence.Valid() && parent.jobSequence.Valid()
      modifies destination.jobSequence, destination.jobSequence.choices
      ensures destination.jobSequence.Valid() && destination.jobSequence.choices == old(destination.jobSequence.choices)
      ensures ok <==> |old(destination.jobSequence.frames)| == |parent.jobSequence.frames| + 1
      ensures !ok ==> destination.jobSequence.frames == old(destination.jobSequence.frames)
      ensures ok ==> |destination.jobSequence.frames| == |old(destination.jobSequence.frames)|
                     && (forall i :: 0 <= i < |destination.jobSequence.frames| ==>
                           destination.jobSequence.frames[i]
                           == old(destination.jobSequence.frames[i]) + (old(parent.jobSequence.frames) + [{nextJob.index}])[i])
      ensures ok ==> FramewisePrefix(old(destination.jobSequence.frames), destination.jobSequence.frames, false)
                     && FramewisePrefix(old(parent.jobSequence.frames) + [{nextJob.index}],
                                        destination.jobSequence.frames, false)
      ensures ok ==> parent.jobSequence.frames == old(parent.jobSequence.frames)
    {
      ok := JobSequenceHistory.MergeNodeAttachments(destination.jobSequence, parent.jobSequence, nextJob);
    }

    /** `missed_deadline`: the node's sequence is recorded, the first time only. */
    method MissedDeadline(failed: FailureSearchAttachment, lateJob: Job) returns (r: FailureSearchAttachment)
      requires failed.jobSequence.Valid()
      modifies this
      ensures r == failed.(hasMissedDeadline := true)
      ensures pathsWithoutDeadlineMisses == old(pathsWithoutDeadlineMisses)
      ensures failed.hasMissedDeadline ==> failures == old(failures) && didUpdateFailures == old(didUpdateFailures)
      ensures !failed.hasMissedDeadline ==>
                (failures, didUpdateFailures) == AddFailureFrom(old(failures), failed.jobSequence.frames, 0, old(didUpdateFailures))
                && Recorded(old(failures), failures, failed.jobSequence.frames)
    {
      r := failed;
      if !failed.hasMissedDeadline {
        r := failed.(hasMissedDeadline := true);
        var frames := failed.jobSequence.Snapshot();
        AddFailure(frames);
      }
    }

    /** `encountered_dead_end`: the node's sequence is recorded, the first time only. */
    method EncounteredDeadEnd(dead: FailureSearchAttachment) returns (r: FailureSearchAttachment)
      requires dead.jobSequence.Valid()
      modifies this
      ensures r == dead.(hasMissedDeadline := true)
      ensures pathsWithoutDeadlineMisses == old(pathsWithoutDeadlineMisses)
      ensures dead.hasMissedDeadline ==> failures == old(failures) && didUpdateFailures == old(didUpdateFailures)
      ensures !dead.hasMissedDeadline ==>
                (failures, didUpdateFailures) == AddFailureFrom(old(failures), dead.jobSequence.frames, 0, old(didUpdateFailures))
                && Recorded(old(failures), failures, dead.jobSequence.frames)
    {
      r := dead;
      if !dead.hasMissedDeadline {
        r := dead.(hasMissedDeadline := true);
        var frames := dead.jobSequence.Snapshot();
        AddFailure(frames);
      }
    }

    /** `finished_node`: one more path without a deadline miss. */
    method FinishedNode()
      modifies this
      ensures pathsWithoutDeadlineMisses == old(pathsWithoutDeadlineMisses) + 1
      ensures failures == old(failures) && didUpdateFailures == old(didUpdateFailures)
    {
      pathsWithoutDeadlineMisses := pathsWithoutDeadlineMisses + 1;
    }

    /** One search with this agent, given as the list of calls it makes;
        every job is allowed, since this agent does not override
        `is_allowed`. The search fails (`ok` false) exactly when replaying
        its calls does (`FailureReplay`), which takes a merge of sequences
        of different lengths (a failed assertion of the source); otherwise
        the paths without misses, the failures and `did_update_failures`
        become those of the replay. The failures stay an antichain. */
    method Explore(pass: seq<Event>) returns (ok: bool)
      requires Antichain(failures)
      modifies this
      ensures var t := FailureReplay(FailureStart(old(failures)), pass);
              ok == t.Some?
              && (ok ==> failures == t.value.failures && didUpdateFailures == t.value.updated
                         && pathsWithoutDeadlineMisses == t.value.paths)
      ensures Antichain(failures)
      ensures !ok ==> exists k :: 0 <= k < |pass| && pass[k].Merge?
    {
      ghost var start := FailureStart(failures);
      var root := CreateInitialNodeAttachment();
      var sequences := [root.jobSequence];
      ghost var steps := [root.jobSequence.choices];
      ghost var frames: seq<Frames> := [[]];
      var missed := [root.hasMissedDeadline];
      var index := 0;
      while index < |pass|
        invariant 0 <= index <= |pass| && Antichain(failures) && |sequences| == |missed| > 0
        invariant forall n :: 0 <= n < |sequences| ==> fresh(sequences[n])
        invariant forall n, i :: 0 <= n < |steps| && 0 <= i < |steps[n]| ==> fresh(steps[n][i])
        invariant Owns(sequences, steps) && Disjoint(sequences, steps) && AllValid(sequences) && Holds(sequences, frames)
        invariant FailureReplay(start, pass[..index])
                  == Some(FailureState(frames, missed, pathsWithoutDeadlineMisses, failures, didUpdateFailures))
      {
        ok, sequences, steps, frames, missed := Advance(pass, index, start, sequences, steps, frames, missed);
        if !ok {
          FailureReplayFailsAtMerge(start, pass);
          return false;
        }
        index := index + 1;
      }
      assert pass[..index] == pass;
      return true;
    }

    /** The call `pass[index]` of a search whose earlier calls replayed to
        the agent's state: afterwards the calls up to it replay to the new
        state, or the whole search fails to replay when this call fails. */
    method Advance(pass: seq<Event>, index: nat, ghost start: FailureState, sequences: seq<JobSequence>,
                   ghost steps: seq<seq<IndexCollection>>, ghost frames: seq<Frames>, missed: seq<bool>)
      returns (ok: bool, r: seq<JobSequence>, ghost rSteps: seq<seq<IndexCollection>>, ghost rFrames: seq<Frames>,
               rMissed: seq<bool>)
      requires index < |pass| && |start.frames| == |start.missed|
      requires Antichain(failures) && |sequences| == |missed| > 0
      requires Owns(sequences, steps) && Disjoint(sequences, steps) && AllValid(sequences) && Holds(sequences, frames)
      requires FailureReplay(start, pass[..index])
               == Some(FailureState(frames, missed, pathsWithoutDeadlineMisses, failures, didUpdateFailures))
      modifies this, sequences, set n, i | 0 <= n < |steps| && 0 <= i < |steps[n]| :: steps[n][i]
      ensures Antichain(failures) && |r| == |rMissed| && |rSteps| == |r| && |r| >= |sequences|
      ensures forall n :: 0 <= n < |r| ==> if n < |sequences| then r[n] == sequences[n] else fresh(r[n])
      ensures forall n :: 0 <= n < |rSteps| ==>
                if n < |steps| then rSteps[n] == steps[n] else forall i :: 0 <= i < |rSteps[n]| ==> fresh(rSteps[n][i])
      ensures Owns(r, rSteps) && Disjoint(r, rSteps) && AllValid(r) && Holds(r, rFrames)
      ensures ok ==> FailureReplay(start, pass[..index + 1])
                     == Some(FailureState(rFrames, rMissed, pathsWithoutDeadlineMisses, failures, didUpdateFailures))
      ensures !ok ==> FailureReplay(start, pass).None?
    {
      HoldsFramesOf(sequences, frames);
      FailureReplayNext(start, pass, index, FailureState(frames, missed, pathsWithoutDeadlineMisses, failures, didUpdateFailures));
      ok, r, rSteps, rMissed := Step(pass[index], sequences, steps, missed);
      rFrames := FramesOf(r);
      HoldsFramesOf(r, rFrames);
      if !ok {
        FailureReplayAborted(start, pass, index + 1);
      }
    }

    /** One call of the search into this agent: the sequences' steps, the
        flags and the agent change as one replayed step says, and `ok` is
        false exactly when that step fails. A new node's sequence is
        appended; the others keep their objects. */
    method Step(e: Event, sequences: seq<JobSequence>, ghost steps: seq<seq<IndexCollection>>, missed: seq<bool>)
      returns (ok: bool, r: seq<JobSequence>, ghost rSteps: seq<seq<IndexCollection>>, rMissed: seq<bool>)
      requires Antichain(failures) && |sequences| == |missed| > 0
      requires Owns(sequences, steps) && Disjoint(sequences, steps) && AllValid(sequences)
      modifies this, sequences, set n, i | 0 <= n < |steps| && 0 <= i < |steps[n]| :: steps[n][i]
      ensures Antichain(failures) && |r| == |rMissed| && |rSteps| == |r| && |r| >= |sequences|
      ensures forall n :: 0 <= n < |r| ==> if n < |sequences| then r[n] == sequences[n] else fresh(r[n])
      ensures forall n :: 0 <= n < |rSteps| ==>
                if n < |steps| then rSteps[n] == steps[n] else forall i :: 0 <= i < |rSteps[n]| ==> fresh(rSteps[n][i])
      ensures Owns(r, rSteps) && Disjoint(r, rSteps) && AllValid(r)
      ensures var t := FailureStep(FailureState(old(FramesOf(sequences)), missed, old(pathsWithoutDeadlineMisses),
                                                old(failures), old(didUpdateFailures)), e);
              ok == t.Some?
              && (ok ==> t.value == FailureState(FramesOf(r), rMissed, pathsWithoutDeadlineMisses, failures, didUpdateFailures))
      ensures !ok ==> e.Merge?
    {
      if e.Expand? {
        ok, r, rSteps, rMissed := Expand(e, sequences, steps, missed);
      } else if e.Merge? {
        ok, r, rSteps, rMissed := Merge(e, sequences, steps, missed);
      } else {
        ok, r, rSteps := true, sequences, steps;
        rMissed := Mark(e, sequences, steps, missed);
      }
    }

    /** An expansion: the search grows by a node below the parent. */
    method Expand(e: Event, sequences: seq<JobSequence>, ghost steps: seq<seq<IndexCollection>>, missed: seq<bool>)
      returns (ok: bool, r: seq<JobSequence>, ghost rSteps: seq<seq<IndexCollection>>, rMissed: seq<bool>)
      requires e.Expand?
      requires Antichain(failures) && |sequences| == |missed| > 0
      requires Owns(sequences, steps) && Disjoint(sequences, steps) && AllValid(sequences)
      modifies this, sequences, set n, i | 0 <= n < |steps| && 0 <= i < |steps[n]| :: steps[n][i]
      ensures Antichain(failures) && |r| == |rMissed| && |rSteps| == |r| && |r| >= |sequences|
      ensures forall n :: 0 <= n < |r| ==> if n < |sequences| then r[n] == sequences[n] else fresh(r[n])
      ensures forall n :: 0 <= n < |rSteps| ==>
                if n < |steps| then rSteps[n] == steps[n] else forall i :: 0 <= i < |rSteps[n]| ==> fresh(rSteps[n][i])
      ensures Owns(r, rSteps) && Disjoint(r, rSteps) && AllValid(r)
      ensures var t := FailureStep(FailureState(old(FramesOf(sequences)), missed, old(pathsWithoutDeadlineMisses),
                                                old(failures), old(didUpdateFailures)), e);
              ok == t.Some?
              && (ok ==> t.value == FailureState(FramesOf(r), rMissed, pathsWithoutDeadlineMisses, failures, didUpdateFailures))
      ensures !ok ==> e.Merge?
    {
      ghost var s := FailureState(FramesOf(sequences), missed, pathsWithoutDeadlineMisses, failures, didUpdateFailures);
      ok, r, rSteps, rMissed := true, sequences, steps, missed;
      if e.parent < |sequences| {
        FramesOfIndex(sequences, e.parent);
        r, rSteps := AppendSequence(sequences, steps, e.parent, e.job);
        rMissed := missed + [missed[e.parent]];
        assert FailureStep(s, e) == Some(s.(frames := FramesOf(r), missed := rMissed));
      }
    }

    /** A merge: nodes that agree on having missed a deadline unite their
        steps into the destination's; otherwise the search grows by a node. */
    method Merge(e: Event, sequences: seq<JobSequence>, ghost steps: seq<seq<IndexCollection>>, missed: seq<bool>)
      returns (ok: bool, r: seq<JobSequence>, ghost rSteps: seq<seq<IndexCollection>>, rMissed: seq<bool>)
      requires e.Merge?
      requires Antichain(failures) && |sequences| == |missed| > 0
      requires Owns(sequences, steps) && Disjoint(sequences, steps) && AllValid(sequences)
      modifies this, sequences, set n, i | 0 <= n < |steps| && 0 <= i < |steps[n]| :: steps[n][i]
      ensures Antichain(failures) && |r| == |rMissed| && |rSteps| == |r| && |r| >= |sequences|
      ensures forall n :: 0 <= n < |r| ==> if n < |sequences| then r[n] == sequences[n] else fresh(r[n])
      ensures forall n :: 0 <= n < |rSteps| ==>
                if n < |steps| then rSteps[n] == steps[n] else forall i :: 0 <= i < |rSteps[n]| ==> fresh(rSteps[n][i])
      ensures Owns(r, rSteps) && Disjoint(r, rSteps) && AllValid(r)
      ensures var t := FailureStep(FailureState(old(FramesOf(sequences)), missed, old(pathsWithoutDeadlineMisses),
                                                old(failures), old(didUpdateFailures)), e);
              ok == t.Some?
              && (ok ==> t.value == FailureState(FramesOf(r), rMissed, pathsWithoutDeadlineMisses, failures, didUpdateFailures))
      ensures !ok ==> e.Merge?
    {
      ok, r, rSteps, rMissed := true, sequences, steps, missed;
      if e.parent < |sequences| && e.destination < |sequences| {
        var target := FailureSearchAttachment(sequences[e.destination], missed[e.destination]);
        var source := FailureSearchAttachment(sequences[e.parent], missed[e.parent]);
        if AllowMerge(source, target) {
          ok := Unite(e, sequences, steps, missed);
        } else {
          ghost var s := FailureState(FramesOf(sequences), missed, pathsWithoutDeadlineMisses, failures, didUpdateFailures);
          var expansion := Event.Expand(e.parent, e.job);
          assert FailureStep(s, e) == FailureStep(s, expansion);
          ok, r, rSteps, rMissed := Expand(expansion, sequences, steps, missed);
        }
      }
    }

    /** A merge of nodes that agree on having missed a deadline: the
        parent's steps followed by the job are united into the
        destination's, or `ok` is false when their lengths differ. */
    method Unite(e: Event, sequences: seq<JobSequence>, ghost steps: seq<seq<IndexCollection>>, missed: seq<bool>)
      returns (ok: bool)
      requires e.Merge? && e.parent < |sequences| == |missed| && e.destination < |sequences|
      requires missed[e.parent] == missed[e.destination]
      requires Owns(sequences, steps) && Disjoint(sequences, steps) && AllValid(sequences)
      modifies sequences[e.destination], steps[e.destination]
      ensures Owns(sequences, steps) && AllValid(sequences)
      ensures var t := FailureStep(FailureState(old(FramesOf(sequences)), missed, pathsWithoutDeadlineMisses,
                                                failures, didUpdateFailures), e);
              ok == t.Some?
              && (ok ==> t.value == FailureState(FramesOf(sequences), missed, pathsWithoutDeadlineMisses, failures, didUpdateFailures))
    {
      ghost var s := FailureState(FramesOf(sequences), missed, pathsWithoutDeadlineMisses, failures, didUpdateFailures);
      FramesOfIndex(sequences, e.parent);
      FramesOfIndex(sequences, e.destination);
      ok := MergeInto(sequences, steps, e.destination, e.parent, e.job);
      assert ok ==> FailureStep(s, e) == Some(s.(frames := FramesOf(sequences)));
    }

    /** A deadline miss, a dead end or a finished path: no sequence
        changes, and the agent and the flags change as one replayed step
        says. */
    method Mark(e: Event, sequences: seq<JobSequence>, ghost steps: seq<seq<IndexCollection>>, missed: seq<bool>)
      returns (rMissed: seq<bool>)
      requires !e.Expand? && !e.Merge?
      requires Antichain(failures) && |sequences| == |missed| > 0
      requires Owns(sequences, steps) && AllValid(sequences)
      modifies this
      ensures Antichain(failures) && |rMissed| == |missed|
      ensures FailureStep(FailureState(FramesOf(sequences), missed, old(pathsWithoutDeadlineMisses), old(failures),
                                       old(didUpdateFailures)), e)
              == Some(FailureState(FramesOf(sequences), rMissed, pathsWithoutDeadlineMisses, failures, didUpdateFailures))
    {
      ghost var s := FailureState(FramesOf(sequences), missed, pathsWithoutDeadlineMisses, failures, didUpdateFailures);
      FramesOfAt(sequences);
      rMissed := missed;
      match e {
        case MissedDeadline(node, lateJob, _) =>
          if node < |sequences| {
            rMissed := FailureAt(sequences, steps, missed, node, Some(lateJob));
            assert FailureStep(s, e) == Some(FailureMarked(s, node));
          }
        case DeadEnd(node) =>
          if node < |sequences| {
            rMissed := FailureAt(sequences, steps, missed, node, None);
            assert FailureStep(s, e) == Some(FailureMarked(s, node));
          }
        case Finished(_) =>
          FinishedNode();
      }
    }

    /** A failure at node `node`: the miss of a late job, or a dead end
        when there is none. The node is marked; the first time, its
        sequence is recorded, and otherwise the failures stay as they are.
        No sequence changes. */
    method FailureAt(sequences: seq<JobSequence>, ghost steps: seq<seq<IndexCollection>>, missed: seq<bool>, node: nat,
                     lateJob: Option<Job>)
      returns (r: seq<bool>)
      requires |sequences| == |missed| && node < |sequences| && AllValid(sequences) && Owns(sequences, steps)
      requires Antichain(failures)
      modifies this
      ensures r == missed[node := true]
      ensures pathsWithoutDeadlineMisses == old(pathsWithoutDeadlineMisses)
      ensures missed[node] ==> failures == old(failures) && didUpdateFailures == old(didUpdateFailures)
      ensures !missed[node] ==>
                (failures, didUpdateFailures) == AddFailureFrom(old(failures), sequences[node].frames, 0, old(didUpdateFailures))
                && Recorded(old(failures), failures, sequences[node].frames)
      ensures AllValid(sequences) && Owns(sequences, steps) && Antichain(failures)
    {
      var updated;
      var at := FailureSearchAttachment(sequences[node], missed[node]);
      match lateJob {
        case Some(job) => updated := MissedDeadline(at, job);
        case None => updated := EncounteredDeadEnd(at);
      }
      r := missed[node := updated.hasMissedDeadline];
    }
  }

  // ---- one search replayed, as a function ----

  /** What one search with the failure search agent keeps: the steps and
      the miss flag of every search node, the paths without deadline
      misses, the failures and `did_update_failures`. */
  datatype FailureState = FailureState(frames: seq<Frames>, missed: seq<bool>, paths: int, failures: seq<Frames>, updated: bool)

  /** The agent after `create_initial_node_attachment`, holding `failures`:
      the root has an empty sequence and has missed nothing. */
  function FailureStart(failures: seq<Frames>): FailureState {
    FailureState([[]], [false], 0, failures, false)
  }

  /** A failure at search node `node`: the node is marked, and its steps
      are recorded the first time only. */
  function FailureMarked(s: FailureState, node: nat): FailureState
    requires node < |s.frames| == |s.missed|
  {
    var marked := s.(missed := s.missed[node := true]);
    if s.missed[node] then marked
    else
      var recorded := AddFailureFrom(s.failures, s.frames[node], 0, s.updated);
      marked.(failures := recorded.0, updated := recorded.1)
  }

  /** One call of the search replayed: an expansion appends the parent's
      steps followed by the job; a merge of nodes that agree on having
      missed a deadline unites the steps into the destination's, and fails
      when their lengths differ; any other merge expands; a deadline miss or
      dead end records the node's steps; a finished path is counted. Events
      naming a node that does not exist are ignored. */
  function FailureStep(s: FailureState, e: Event): (r: Option<FailureState>)
    requires |s.frames| == |s.missed|
    ensures r.Some? ==> |r.value.frames| == |r.value.missed|
  {
    match e
    case Expand(parent, job) =>
      if parent < |s.frames| then
        Some(s.(frames := s.frames + [s.frames[parent] + [{job.index}]], missed := s.missed + [s.missed[parent]]))
      else Some(s)
    case Merge(destination, parent, job) =>
      if parent < |s.frames| && destination < |s.frames| then
        if s.missed[parent] == s.missed[destination] then
          var merged := MergedFrames(s.frames[destination], s.frames[parent], job.index);
          if merged.None? then None else Some(s.(frames := s.frames[destination := merged.value]))
        else Some(s.(frames := s.frames + [s.frames[parent] + [{job.index}]], missed := s.missed + [s.missed[parent]]))
      else Some(s)
    case MissedDeadline(node, _, _) =>
      if node < |s.frames| then Some(FailureMarked(s, node)) else Some(s)
    case DeadEnd(node) =>
      if node < |s.frames| then Some(FailureMarked(s, node)) else Some(s)
    case Finished(_) => Some(s.(paths := s.paths + 1))
  }

  /** The state after replaying `pass` from `start`, or `None` once a
      merge failed. */
  function FailureReplay(start: FailureState, pass: seq<Event>): (r: Option<FailureState>)
    requires |start.frames| == |start.missed|
    ensures r.Some? ==> |r.value.frames| == |r.value.missed|
  {
    if pass == [] then Some(start)
    else
      var before := FailureReplay(start, pass[..|pass| - 1]);
      if before.None? then None else FailureStep(before.value, pass[|pass| - 1])
  }

  /** Replaying one more call of `pass` is one more step. */
  lemma FailureReplayNext(start: FailureState, pass: seq<Event>, k: nat, s: FailureState)
    requires |start.frames| == |start.missed| && k < |pass| && FailureReplay(start, pass[..k]) == Some(s)
    ensures FailureReplay(start, pass[..k + 1]) == FailureStep(s, pass[k])
  {
    assert pass[..k + 1][..k] == pass[..k];
  }

  /** Once a merge failed, the replay stays failed. */
  lemma {:induction false} FailureReplayAborted(start: FailureState, pass: seq<Event>, k: nat)
    requires |start.frames| == |start.missed|
    requires k <= |pass| && FailureReplay(start, pass[..k]).None?
    ensures FailureReplay(start, pass).None?
    decreases |pass| - k
  {
    if k < |pass| {
      assert pass[..k + 1][..k] == pass[..k];
      FailureReplayAborted(start, pass, k + 1);
    } else {
      assert pass[..k] == pass;
    }
  }

  /** A replay fails only at a merge. */
  lemma {:induction false} FailureReplayFailsAtMerge(start: FailureState, pass: seq<Event>)
    requires |start.frames| == |start.missed|
    ensures FailureReplay(start, pass).None? ==> exists k :: 0 <= k < |pass| && pass[k].Merge?
  {
    if pass != [] {
      var before := FailureReplay(start, pass[..|pass| - 1]);
      FailureReplayFailsAtMerge(start, pass[..|pass| - 1]);
      if before.None? {
        if FailureReplay(start, pass).None? {
          var k :| 0 <= k < |pass| - 1 && pass[..|pass| - 1][k].Merge?;
          assert pass[k].Merge?;
        }
      } else {
        assert FailureStep(before.value, pass[|pass| - 1]).None? ==> pass[|pass| - 1].Merge?;
      }
    }
  }

  /** One replayed call keeps the failures an antichain; a deadline miss
      or dead end at a node that had none records its steps, so a failure
      step-wise contained in them is recorded afterwards; a replay fails
      only at a merge. */
  lemma FailureStepAntichain(s: FailureState, e: Event)
    requires |s.frames| == |s.missed| && Antichain(s.failures)
    ensures var t := FailureStep(s, e); t.Some? ==> Antichain(t.value.failures)
    ensures FailureStep(s, e).None? ==> e.Merge?
    ensures (e.MissedDeadline? || e.DeadEnd?) && e.node < |s.frames| && !s.missed[e.node] ==>
              exists c :: c in FailureStep(s, e).value.failures && FramewisePrefix(c, s.frames[e.node], false)
  {
    match e
    case MissedDeadline(node, _, _) =>
      if node < |s.frames| {
        AddFailureRecorded(s.failures, s.frames[node], s.updated);
      }
    case DeadEnd(node) =>
      if node < |s.frames| {
        AddFailureRecorded(s.failures, s.frames[node], s.updated);
      }
    case _ =>
  }

  /** A replayed search keeps the failures an antichain. */
  lemma {:induction false} FailureReplayAntichain(start: FailureState, pass: seq<Event>)
    requires |start.frames| == |start.missed| && Antichain(start.failures)
    ensures var t := FailureReplay(start, pass); t.Some? ==> Antichain(t.value.failures)
  {
    if pass != [] {
      FailureReplayAntichain(start, pass[..|pass| - 1]);
      var before := FailureReplay(start, pass[..|pass| - 1]);
      if before.Some? {
        FailureStepAntichain(before.value, pass[|pass| - 1]);
      }
    }
  }

  /** What `find_all_failures` returns when it holds `failures` and its
      next searches are `passes`: the failures once a search records
      nothing new, `None` when a search fails or the passes run out first. */
  function FailuresFrom(failures: seq<Frames>, updated: bool, passes: seq<seq<Event>>): Option<seq<Frames>>
    decreases |passes|
  {
    if !updated then Some(failures)
    else if passes == [] then None
    else
      var t := FailureReplay(FailureStart(failures), passes[0]);
      if t.None? then None else FailuresFrom(t.value.failures, t.value.updated, passes[1..])
  }

  /** The failures `find_all_failures` finds from an antichain form one. */
  lemma {:induction false} FailuresFromAntichain(failures: seq<Frames>, updated: bool, passes: seq<seq<Event>>)
    requires Antichain(failures)
    ensures var r := FailuresFrom(failures, updated, passes); r.Some? ==> Antichain(r.value)
    decreases |passes|
  {
    if updated && passes != [] {
      FailureReplayAntichain(FailureStart(failures), passes[0]);
      var t := FailureReplay(FailureStart(failures), passes[0]);
      if t.Some? {
        FailuresFromAntichain(t.value.failures, t.value.updated, passes[1..]);
      }
    }
  }

  /** `find_all_failures`: searches until a search records nothing new,
      the i-th search being `passes[i]`; `None` when the passes run out
      first or a search fails an assertion. The result is `FailuresFrom`
      with no failures at the start, so the failures found are an
      antichain. */
  method FindAllFailures(passes: seq<seq<Event>>) returns (r: Option<seq<Frames>>)
    ensures r == FailuresFrom([], true, passes)
    ensures r.Some? ==> Antichain(r.value)
  {
    FailuresFromAntichain([], true, passes);
    var agent := new AgentFailureSearch();
    var index := 0;
    while agent.didUpdateFailures && index < |passes|
      invariant 0 <= index <= |passes| && Antichain(agent.failures)
      invariant FailuresFrom(agent.failures, agent.didUpdateFailures, passes[index..]) == FailuresFrom([], true, passes)
    {
      assert passes[index..][1..] == passes[index + 1..];
      var ok := agent.Explore(passes[index]);
      if !ok {
        return None;
      }
      index := index + 1;
    }
    if agent.didUpdateFailures {
      return None;
    }
    return Some(agent.failures);
  }

  /** `Agent_failure_alternative_search` as agent/failure_search.hpp has
      it: a history agent holding a list of failures and one list of
      alternatives per failure; its `is_allowed` does not consult them. */
  class AgentFailureAlternativeSearch {
    const failures: seq<Frames>
    var alternatives: seq<seq<JobId>>

    /** One empty list of alternatives per failure. */
    constructor(fs: seq<Frames>)
      ensures failures == fs && |alternatives| == |fs|
      ensures forall k :: 0 <= k < |fs| ==> alternatives[k] == []
    {
      failures := fs;
      var empty := [];
      var index := 0;
      while index < |fs|
        invariant 0 <= index <= |fs| && |empty| == index
        invariant forall k :: 0 <= k < index ==> empty[k] == []
      {
        empty := empty + [[]];
        index := index + 1;
      }
      alternatives := empty;
    }

    /** `is_allowed`: every job is allowed. */
    function IsAllowed(at: JobSequence, nextJob: Job): (r: bool)
      ensures r
    {
      true
    }
  }
}
