/** `Agent_failure_job_set_search` of agent/failure_job_set.hpp: one full
    search (no early exit) during which every deadline miss adds the jobs
    already scheduled at the failing node to a caller's `Index_collection`. */
module FailureJobSet {
  import opened ProblemModel
  import opened Search
  import opened IndexCollections

  /** The indices `missed_deadline` reads from a scheduled set: those below
      64 times its word count that it contains. */
  function Readable(scheduled: IndexSet): (r: set<nat>)
    ensures forall c :: c in r <==> c in scheduled.members && c < 64 * scheduled.words
  {
    set c | c in scheduled.members && c < 64 * scheduled.words
  }

  /** The indices collected by replaying `pass` when `nodes` search nodes
      exist: the readable scheduled sets of the deadline misses at existing
      nodes. Every job is allowed and every merge is accepted, so only an
      `Expand` creates a node. */
  ghost function Collected(pass: seq<Event>, nodes: nat): set<nat>
    decreases |pass|
  {
    if pass == [] then {}
    else match pass[0] {
      case Expand(_, _) => Collected(pass[1..], nodes + (if pass[0].parent < nodes then 1 else 0))
      case MissedDeadline(node, _, scheduled) =>
        (if node < nodes then Readable(scheduled) else {}) + Collected(pass[1..], nodes)
      case _ => Collected(pass[1..], nodes)
    }
  }

  /** Everything collected was scheduled at a node that missed a deadline. */
  lemma {:induction false} CollectedWasScheduled(pass: seq<Event>, nodes: nat, x: nat)
    requires x in Collected(pass, nodes)
    ensures exists k :: 0 <= k < |pass| && pass[k].MissedDeadline? && x in pass[k].scheduled.members
    decreases |pass|
  {
    var next := if pass[0].Expand? && pass[0].parent < nodes then nodes + 1 else nodes;
    if pass[0].MissedDeadline? && pass[0].node < nodes && x in Readable(pass[0].scheduled) {
      assert pass[0].MissedDeadline? && x in pass[0].scheduled.members;
    } else {
      assert x in Collected(pass[1..], next);
      CollectedWasScheduled(pass[1..], next, x);
      var k :| 0 <= k < |pass[1..]| && pass[1..][k].MissedDeadline? && x in pass[1..][k].scheduled.members;
      assert pass[k + 1] == pass[1..][k];
    }
  }

  /** A pass without deadline misses collects nothing. */
  lemma {:induction false} NothingWithoutMisses(pass: seq<Event>, nodes: nat)
    requires forall k :: 0 <= k < |pass| ==> !pass[k].MissedDeadline?
    ensures Collected(pass, nodes) == {}
    decreases |pass|
  {
    if pass != [] {
      var next := if pass[0].Expand? && pass[0].parent < nodes then nodes + 1 else nodes;
      assert forall k :: 0 <= k < |pass[1..]| ==> pass[1..][k] == pass[k + 1];
      NothingWithoutMisses(pass[1..], next);
    }
  }

  /** The members of `scheduled` below `bound`. */
  function Below(scheduled: IndexSet, bound: nat): (r: set<nat>)
    ensures forall c :: c in r <==> c in scheduled.members && c < bound
  {
    set c | c in scheduled.members && c < bound
  }

  lemma BelowStep(scheduled: IndexSet, candidate: nat)
    ensures Below(scheduled, candidate + 1)
            == Below(scheduled, candidate) + (if candidate in scheduled.members then {candidate} else {})
  {
  }

  lemma BelowAll(scheduled: IndexSet)
    ensures Below(scheduled, 64 * scheduled.words) == Readable(scheduled)
  {
  }

  class AgentFailureJobSetSearch {
    /** The caller's collection (`job_set`). */
    const jobSet: IndexCollection

    constructor(destination: IndexCollection)
      ensures jobSet == destination
    {
      jobSet := destination;
    }

    /** `missed_deadline`: adds every readable index of the failing node's
        scheduled set, and nothing else. */
    method MissedDeadline(scheduled: IndexSet)
      requires jobSet.Valid()
      modifies jobSet
      ensures jobSet.Valid()
      ensures jobSet.Elements() == old(jobSet.Elements()) + Readable(scheduled)
    {
      ghost var before := jobSet.Elements();
      var candidate := 0;
      while candidate < 64 * scheduled.words
        invariant 0 <= candidate <= 64 * scheduled.words && jobSet.Valid()
        invariant jobSet.Elements() == before + Below(scheduled, candidate)
      {
        BelowStep(scheduled, candidate);
        AddIfScheduled(scheduled, candidate);
        candidate := candidate + 1;
      }
      BelowAll(scheduled);
    }

    /** One step of the loop of `missed_deadline`: `candidate` is added
        when `scheduled` holds it. */
    method AddIfScheduled(scheduled: IndexSet, candidate: nat)
      requires jobSet.Valid()
      modifies jobSet
      ensures jobSet.Valid()
      ensures jobSet.Elements() == old(jobSet.Elements()) + (if candidate in scheduled.members then {candidate} else {})
    {
      if scheduled.Contains(candidate) {
        jobSet.Insert(candidate);
      }
    }
  }

  /** `find_all_jobs_on_paths_to_deadline_misses`: one full search, given
      as the list of calls it makes, whose verdict `schedulable` is an
      input. The destination gains exactly the indices that the misses at
      existing nodes read, and the verdict is returned. */
  method FindAllJobsOnPathsToDeadlineMisses(destination: IndexCollection, pass: seq<Event>, schedulable: bool)
    returns (r: bool)
    requires destination.Valid()
    modifies destination
    ensures r == schedulable && destination.Valid()
    ensures destination.Elements() == old(destination.Elements()) + Collected(pass, 1)
  {
    var agent := new AgentFailureJobSetSearch(destination);
    var nodes := 1;
    var index := 0;
    while index < |pass|
      invariant 0 <= index <= |pass| && destination.Valid() && agent.jobSet == destination
      invariant destination.Elements() + Collected(pass[index..], nodes) == old(destination.Elements()) + Collected(pass, 1)
    {
      assert pass[index..][1..] == pass[index + 1..];
      match pass[index] {
        case Expand(parent, _) =>
          if parent < nodes {
            nodes := nodes + 1;
          }
        case MissedDeadline(node, _, scheduled) =>
          if node < nodes {
            agent.MissedDeadline(scheduled);
          }
        case _ =>
      }
      index := index + 1;
    }
    return schedulable;
  }
}
