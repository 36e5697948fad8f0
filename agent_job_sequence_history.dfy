/** `Agent_job_sequence_history` of agent/job_sequence_history.hpp: every
    search node carries a `Job_sequence` whose i-th step holds the indices of
    the jobs that may have been taken at step i on the paths reaching the
    node. A child extends a copy of its parent's sequence by one step; a
    merge folds that extension into the destination node's sequence. */
module JobSequenceHistory {
  import opened ProblemModel
  import opened Search
  import opened IndexCollections
  import opened JobSequences

  /** `steps[n]` is the list of step collections of `sequences[n]`. */
  ghost predicate Owns(sequences: seq<JobSequence>, steps: seq<seq<IndexCollection>>)
    reads sequences
  {
    |steps| == |sequences| && forall n :: 0 <= n < |sequences| ==> sequences[n].choices == steps[n]
  }

  /** No two sequences of the list are the same object or share a step
      collection, so changing one leaves the others as they are. */
  ghost predicate Disjoint(sequences: seq<JobSequence>, steps: seq<seq<IndexCollection>>) {
    |steps| == |sequences|
    && forall n, m :: 0 <= n < |sequences| && 0 <= m < |sequences| && n != m ==>
         sequences[n] != sequences[m]
         && forall i, j :: 0 <= i < |steps[n]| && 0 <= j < |steps[m]| ==> steps[n][i] != steps[m][j]
  }

  /** The objects the sequences of a list occupy. */
  ghost function Footprint(sequences: seq<JobSequence>): set<object>
    reads sequences
  {
    (set n | 0 <= n < |sequences| :: sequences[n] as object)
    + (set n, i | 0 <= n < |sequences| && 0 <= i < |sequences[n].choices| :: sequences[n].choices[i] as object)
  }

  /** Every sequence of the list is well formed. */
  ghost predicate AllValid(sequences: seq<JobSequence>)
    reads Footprint(sequences)
  {
    forall n :: 0 <= n < |sequences| ==> sequences[n].Valid()
  }

  /** The steps of every sequence of the list. */
  ghost function FramesOf(sequences: seq<JobSequence>): (r: seq<seq<set<nat>>>)
    reads sequences
    ensures |r| == |sequences|
  {
    if sequences == [] then [] else FramesOf(sequences[..|sequences| - 1]) + [sequences[|sequences| - 1].frames]
  }

  /** `frames` holds the steps of every sequence of the list, in order. */
  ghost predicate Holds(sequences: seq<JobSequence>, frames: seq<seq<set<nat>>>)
    reads sequences
  {
    |frames| == |sequences| && forall n :: 0 <= n < |sequences| ==> sequences[n].frames == frames[n]
  }

  /** The list that holds the sequences' steps is `FramesOf` of them. */
  lemma HoldsFramesOf(sequences: seq<JobSequence>, frames: seq<seq<set<nat>>>)
    ensures Holds(sequences, frames) <==> FramesOf(sequences) == frames
  {
    FramesOfAt(sequences);
  }

  /** A list of one sequence has that sequence's steps. */
  lemma FramesOfOne(sequence: JobSequence)
    ensures FramesOf([sequence]) == [sequence.frames]
  {
    assert [sequence][..0] == [];
  }

  /** The list `FramesOf` gives holds the steps of sequence `n` in place `n`. */
  lemma {:induction false} FramesOfIndex(sequences: seq<JobSequence>, n: nat)
    requires n < |sequences|
    ensures FramesOf(sequences)[n] == sequences[n].frames
  {
    if n < |sequences| - 1 {
      FramesOfIndex(sequences[..|sequences| - 1], n);
    }
  }

  /** The list `FramesOf` gives holds each sequence's steps in its place. */
  lemma {:induction false} FramesOfAt(sequences: seq<JobSequence>)
    ensures forall n :: 0 <= n < |sequences| ==> FramesOf(sequences)[n] == sequences[n].frames
  {
    if sequences != [] {
      FramesOfAt(sequences[..|sequences| - 1]);
    }
  }

  /** The steps of a destination after the extension of `parent` by `job`
      is merged into it: their union step by step, or `None` when the two
      differ in length. */
  function MergedFrames(destination: seq<set<nat>>, parent: seq<set<nat>>, job: nat): (r: Option<seq<set<nat>>>)
    ensures r.Some? <==> |destination| == |parent| + 1
    ensures r.Some? ==> FramewisePrefix(destination, r.value, false) && FramewisePrefix(parent + [{job}], r.value, false)
    ensures r.Some? ==> |r.value| == |destination|
                        && forall i :: 0 <= i < |destination| ==> r.value[i] == destination[i] + (parent + [{job}])[i]
  {
    if |destination| != |parent| + 1 then None
    else Some(seq(|destination|, i requires 0 <= i < |destination| => destination[i] + (parent + [{job}])[i]))
  }

  /** A path of job indices runs through the steps of `frames`. */
  predicate Covers(frames: seq<set<nat>>, path: seq<nat>) {
    |path| == |frames| && forall i :: 0 <= i < |path| ==> path[i] in frames[i]
  }

  /** A path through a sequence, followed by the next job, runs through
      its extension; and a path keeps running through steps that grow. */
  lemma {:induction false} CoversExtension(frames: seq<set<nat>>, grown: seq<set<nat>>, path: seq<nat>, next: nat)
    requires Covers(frames, path)
    ensures Covers(frames + [{next}], path + [next])
    ensures |grown| == |frames| && FramewisePrefix(frames, grown, false) ==> Covers(grown, path)
  {
    var extended := frames + [{next}];
    forall i | 0 <= i < |path| + 1
      ensures (path + [next])[i] in extended[i]
    {
      if i < |path| {
        assert (path + [next])[i] == path[i] && extended[i] == frames[i];
      }
    }
  }

  /** `create_initial_node_attachment`: an empty sequence. */
  method CreateInitialNodeAttachment() returns (r: JobSequence)
    ensures fresh(r) && r.Valid() && r.frames == [] && r.choices == []
  {
    r := new JobSequence();
  }

  /** `create_next_node_attachment`: a fresh copy of the parent's sequence
      with one more step holding the next job; the parent is unchanged. */
  method CreateNextNodeAttachment(parent: JobSequence, nextJob: Job) returns (r: JobSequence)
    requires parent.Valid()
    ensures fresh(r) && r.Valid() && forall i :: 0 <= i < |r.choices| ==> fresh(r.choices[i])
    ensures r.frames == parent.frames + [{nextJob.index}]
    ensures FramewisePrefix(parent.frames, r.frames, true)
  {
    r := parent.ExtendedCopy(nextJob.index);
  }

  /** `merge_node_attachments`: step-wise union of the destination's
      sequence with the parent's extension. `ok` is false when the lengths
      differ, where the source's assertion in `Job_sequence::merge` fails;
      the destination is then left as it was. Afterwards both the old
      destination and the parent's extension are step-wise contained in
      the destination. */
  method MergeNodeAttachments(destination: JobSequence, parent: JobSequence, nextJob: Job) returns (ok: bool)
    requires destination.Valid() && parent.Valid()
    modifies destination, destination.choices
    ensures destination.Valid() && destination.choices == old(destination.choices)
    ensures ok <==> |old(destination.frames)| == |parent.frames| + 1
    ensures !ok ==> destination.frames == old(destination.frames)
    ensures ok ==> |destination.frames| == |old(destination.frames)|
                   && (forall i :: 0 <= i < |destination.frames| ==>
                         destination.frames[i] == old(destination.frames[i]) + (parent.frames + [{nextJob.index}])[i])
    ensures ok ==> FramewisePrefix(old(destination.frames), destination.frames, false)
                   && FramewisePrefix(old(parent.frames) + [{nextJob.index}], destination.frames, false)
    ensures ok ==> parent.frames == old(parent.frames)
  {
    ghost var parentFrames := parent.frames;
    var extended := parent.ExtendedCopy(nextJob.index);
    if extended.Length() != destination.Length() {
      return false;
    }
    destination.Merge(extended);
    assert forall i :: 0 <= i < |destination.frames| ==> extended.frames[i] <= destination.frames[i];
    return true;
  }

  /** One search in which every node carries its job-index history, given
      as the list of calls it makes. `ok` is false when a merge joins
      sequences of different lengths (a failed assertion of the source).
      When it succeeds, `paths[n]` holds the job-index paths along which
      the search reached node `n`, and every one of them runs through that
      node's sequence. */
  method Explore(pass: seq<Event>) returns (ok: bool, ghost sequences: seq<JobSequence>, ghost paths: seq<set<seq<nat>>>)
    ensures !ok ==> exists k :: 0 <= k < |pass| && pass[k].Merge?
    ensures ok ==> |sequences| == |paths| && |sequences| > 0 && [] in paths[0]
    ensures ok ==> AllValid(sequences)
    ensures ok ==> forall n, p :: 0 <= n < |sequences| && p in paths[n] ==> Covers(sequences[n].frames, p)
  {
    var root := CreateInitialNodeAttachment();
    var attachments := [root];
    ghost var steps := [root.choices];
    paths := [{[]}];
    assert Covers(root.frames, []);
    ok := true;
    var step := 0;
    while step < |pass| && ok
      invariant 0 <= step <= |pass|
      invariant |attachments| == |paths| && |attachments| > 0 && [] in paths[0]
      invariant forall n :: 0 <= n < |attachments| ==> fresh(attachments[n])
      invariant forall n, i :: 0 <= n < |steps| && 0 <= i < |steps[n]| ==> fresh(steps[n][i])
      invariant Owns(attachments, steps) && Disjoint(attachments, steps) && AllValid(attachments)
      invariant ok ==> forall n, p :: 0 <= n < |attachments| && p in paths[n] ==> Covers(attachments[n].frames, p)
      invariant !ok ==> 0 < step && pass[step - 1].Merge?
    {
      match pass[step] {
        case Expand(parent, job) =>
          if parent < |attachments| {
            attachments, steps, paths := ExpandStep(attachments, steps, paths, parent, job);
          }
        case Merge(destination, parent, job) =>
          if parent < |attachments| && destination < |attachments| {
            ok, paths := MergeStep(attachments, steps, paths, destination, parent, job);
          }
        case MissedDeadline(_, _, _) =>
        case DeadEnd(_) =>
        case Finished(_) =>
      }
      step := step + 1;
    }
    sequences := attachments;
  }

  /** A new node's sequence appended to a list of separate sequences: it
      and its steps are new, and the list stays separate. */
  method AppendSequence(sequences: seq<JobSequence>, ghost steps: seq<seq<IndexCollection>>, parent: nat, job: Job)
    returns (r: seq<JobSequence>, ghost rSteps: seq<seq<IndexCollection>>)
    requires parent < |sequences|
    requires Owns(sequences, steps) && Disjoint(sequences, steps) && AllValid(sequences)
    ensures |r| == |sequences| + 1 && |rSteps| == |r|
    ensures r == sequences + [r[|sequences|]] && rSteps == steps + [rSteps[|steps|]]
    ensures fresh(r[|sequences|]) && forall i :: 0 <= i < |rSteps[|sequences|]| ==> fresh(rSteps[|sequences|][i])
    ensures Owns(r, rSteps) && Disjoint(r, rSteps) && AllValid(r)
    ensures r[|sequences|].frames == sequences[parent].frames + [{job.index}]
    ensures FramesOf(r) == FramesOf(sequences) + [sequences[parent].frames + [{job.index}]]
  {
    var child := CreateNextNodeAttachment(sequences[parent], job);
    r := sequences + [child];
    rSteps := steps + [child.choices];
    FramesOfAt(sequences);
    FramesOfAt(r);
  }

  /** A new node below `parent`, reached along the parent's paths followed
      by `job`. */
  method ExpandStep(attachments: seq<JobSequence>, ghost steps: seq<seq<IndexCollection>>, ghost paths: seq<set<seq<nat>>>,
                    parent: nat, job: Job)
    returns (r: seq<JobSequence>, ghost rSteps: seq<seq<IndexCollection>>, ghost rPaths: seq<set<seq<nat>>>)
    requires |attachments| == |paths| && parent < |attachments|
    requires Owns(attachments, steps) && Disjoint(attachments, steps) && AllValid(attachments)
    requires forall n, p :: 0 <= n < |attachments| && p in paths[n] ==> Covers(attachments[n].frames, p)
    ensures |r| == |attachments| + 1 && |rPaths| == |r| && |rSteps| == |r|
    ensures r == attachments + [r[|attachments|]] && rSteps == steps + [rSteps[|steps|]]
    ensures rPaths[..|paths|] == paths
    ensures fresh(r[|attachments|]) && forall i :: 0 <= i < |rSteps[|attachments|]| ==> fresh(rSteps[|attachments|][i])
    ensures Owns(r, rSteps) && Disjoint(r, rSteps) && AllValid(r)
    ensures forall n, p :: 0 <= n < |r| && p in rPaths[n] ==> Covers(r[n].frames, p)
  {
    r, rSteps := AppendSequence(attachments, steps, parent, job);
    var child := r[|attachments|];
    var childPaths := set p | p in paths[parent] :: p + [job.index];
    rPaths := paths + [childPaths];
    forall q | q in childPaths
      ensures Covers(child.frames, q)
    {
      var p :| p in paths[parent] && q == p + [job.index];
      CoversExtension(attachments[parent].frames, attachments[parent].frames, p, job.index);
    }
    assert rPaths[..|paths|] == paths;
    forall n, p | 0 <= n < |r| && p in rPaths[n]
      ensures Covers(r[n].frames, p)
    {
      if n < |attachments| {
        assert r[n] == attachments[n] && rPaths[n] == paths[n];
      }
    }
  }

  /** Merging into `destination` of a list of separate sequences: every
      sequence keeps its steps' collections, and all stay well formed. */
  method MergeInto(sequences: seq<JobSequence>, ghost steps: seq<seq<IndexCollection>>, destination: nat, parent: nat, job: Job)
    returns (ok: bool)
    requires parent < |sequences| && destination < |sequences|
    requires Owns(sequences, steps) && Disjoint(sequences, steps) && AllValid(sequences)
    modifies sequences[destination], steps[destination]
    ensures Owns(sequences, steps) && AllValid(sequences)
    ensures forall n :: 0 <= n < |sequences| && n != destination ==> sequences[n].frames == old(sequences[n].frames)
    ensures ok <==> |old(sequences[destination].frames)| == |sequences[parent].frames| + 1
    ensures ok ==> FramewisePrefix(old(sequences[destination].frames), sequences[destination].frames, false)
                   && FramewisePrefix(old(sequences[parent].frames) + [{job.index}], sequences[destination].frames, false)
    // the steps of every sequence afterwards
    ensures var merged := MergedFrames(old(sequences[destination].frames), old(sequences[parent].frames), job.index);
            (ok <==> merged.Some?)
            && FramesOf(sequences) == if ok then old(FramesOf(sequences))[destination := merged.value] else old(FramesOf(sequences))
  {
    ghost var before := FramesOf(sequences);
    FramesOfAt(sequences);
    ok := MergeNodeAttachments(sequences[destination], sequences[parent], job);
    FramesOfAt(sequences);
    ghost var merged := MergedFrames(before[destination], before[parent], job.index);
    if ok {
      assert sequences[destination].frames == merged.value;
      assert FramesOf(sequences) == before[destination := merged.value];
    } else {
      assert FramesOf(sequences) == before;
    }
  }

  /** Merging into `destination` along the paths of `parent` followed by
      `job`: every sequence but the destination's is unchanged, and the
      destination's steps only grow. */
  method MergeStep(attachments: seq<JobSequence>, ghost steps: seq<seq<IndexCollection>>, ghost paths: seq<set<seq<nat>>>,
                   destination: nat, parent: nat, job: Job)
    returns (ok: bool, ghost rPaths: seq<set<seq<nat>>>)
    requires |attachments| == |paths| && parent < |attachments| && destination < |attachments|
    requires Owns(attachments, steps) && Disjoint(attachments, steps) && AllValid(attachments)
    requires forall n, p :: 0 <= n < |attachments| && p in paths[n] ==> Covers(attachments[n].frames, p)
    modifies attachments[destination], steps[destination]
    ensures |rPaths| == |paths| && rPaths[0] >= paths[0]
    ensures Owns(attachments, steps) && AllValid(attachments)
    ensures ok ==> forall n, p :: 0 <= n < |attachments| && p in rPaths[n] ==> Covers(attachments[n].frames, p)
  {
    ghost var before := attachments[destination].frames;
    ghost var sourceFrames := attachments[parent].frames;
    ok := MergeInto(attachments, steps, destination, parent, job);
    rPaths := paths;
    if ok {
      var added := set p | p in paths[parent] :: p + [job.index];
      rPaths := paths[destination := paths[destination] + added];
      forall n, q | 0 <= n < |attachments| && q in rPaths[n]
        ensures Covers(attachments[n].frames, q)
      {
        if n == destination {
          if q in paths[destination] {
            CoversExtension(before, attachments[destination].frames, q, job.index);
          } else {
            var p :| p in paths[parent] && q == p + [job.index];
            CoversExtension(sourceFrames, sourceFrames, p, job.index);
            CoversExtension(sourceFrames + [{job.index}], attachments[destination].frames, q, job.index);
          }
        }
      }
    }
  }
}
