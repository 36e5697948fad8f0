/** `PessimisticReconfigurator` of pessimistic.hpp: makes the timing of the
    jobs on failing paths pessimistic until the problem is schedulable, then
    reverts those jobs one at a time to find the ones that must stay
    pessimistic. */
module Pessimistic {
  import opened ProblemModel
  import opened Agents

  /** A search with `Agent_job_sequence_history` on a problem: its verdict
      and the failures the agent reports. The search and the agent's
      failure list are not part of this model. */
  datatype Analysis = Analysis(
    schedulable: SchedulingProblem -> bool,
    failures: SchedulingProblem -> seq<FailedSequence>)

  /** The search reports only failures made of jobs of the searched
      problem. */
  ghost predicate Sound(analysis: Analysis) {
    forall p :: FailureIds(analysis.failures(p)) <= JobIds(p.jobs)
  }

  /** A job with both its arrival and its running time made pessimistic. */
  function Tight(j: Job): (r: Job)
    ensures r.id == j.id && r.index == j.index && r.timing.deadline == j.timing.deadline
  {
    PessimisticRunningTime(PessimisticArrival(j))
  }

  /** Making a job pessimistic twice is making it pessimistic once. */
  lemma TightIdempotent(j: Job)
    ensures Tight(Tight(j)) == Tight(j)
  {
    match j.timing.arrival {
      case Interval(_, hi) =>
        assert Tight(j).timing.arrival == Interval(hi, hi);
      case DefaultInterval =>
    }
  }

  /** The ids of a list of ids, as a set. */
  function Elements(ids: seq<JobId>): (r: set<JobId>)
    ensures forall id :: id in r <==> id in ids
  {
    set id | id in ids
  }

  /** The ids of all jobs of all failures. */
  function FailureIds(failures: seq<FailedSequence>): set<JobId>
    decreases |failures|
  {
    if failures == [] then {}
    else FailureIds(failures[..|failures| - 1]) + Elements(failures[|failures| - 1].chosenJobIds)
  }

  /** An id is collected exactly when some failure contains it. */
  lemma {:induction false} FailureIdsMembers(failures: seq<FailedSequence>, id: JobId)
    ensures id in FailureIds(failures) <==> exists k :: 0 <= k < |failures| && id in failures[k].chosenJobIds
    decreases |failures|
  {
    if failures != [] {
      var init := failures[..|failures| - 1];
      FailureIdsMembers(init, id);
      if id in FailureIds(init) {
        var k :| 0 <= k < |init| && id in init[k].chosenJobIds;
        assert failures[k] == init[k];
      }
      if exists k :: 0 <= k < |failures| && id in failures[k].chosenJobIds {
        var k :| 0 <= k < |failures| && id in failures[k].chosenJobIds;
        if k < |init| {
          assert init[k] == failures[k];
        }
      }
    }
  }

  /** The jobs after making exactly the jobs with a critical id
      pessimistic. */
  function Tightened(jobs: seq<Job>, critical: set<JobId>): (r: seq<Job>)
    ensures |r| == |jobs|
  {
    seq(|jobs|, k requires 0 <= k < |jobs| => if jobs[k].id in critical then Tight(jobs[k]) else jobs[k])
  }

  /** Every job is its original or the original made pessimistic, and a job
      whose id is not critical is its original. */
  predicate Between(original: seq<Job>, jobs: seq<Job>, critical: set<JobId>) {
    |jobs| == |original|
    && forall k :: 0 <= k < |jobs| ==>
         (jobs[k] == original[k] || jobs[k] == Tight(original[k]))
         && (original[k].id !in critical ==> jobs[k] == original[k])
  }

  /** Tightening keeps the ids, and what it yields lies between the
      original jobs and the pessimistic ones. */
  lemma TightenedBetween(original: seq<Job>, critical: set<JobId>)
    ensures Between(original, Tightened(original, critical), critical)
    ensures JobIds(Tightened(original, critical)) == JobIds(original)
  {
    var r := Tightened(original, critical);
    forall id | id in JobIds(original)
      ensures id in JobIds(r)
    {
      var k :| 0 <= k < |original| && original[k].id == id;
      assert r[k].id == id;
    }
  }

  /** Tightening jobs that lie between the originals and their pessimistic
      versions with a larger critical set gives what tightening the
      originals gives: reverted jobs whose id is critical become
      pessimistic again. */
  lemma {:induction false} TightenedFromBetween(original: seq<Job>, jobs: seq<Job>, critical: set<JobId>, larger: set<JobId>)
    requires Between(original, jobs, critical) && critical <= larger
    ensures Tightened(jobs, larger) == Tightened(original, larger)
  {
    forall k | 0 <= k < |jobs|
      ensures Tightened(jobs, larger)[k] == Tightened(original, larger)[k]
    {
      TightIdempotent(original[k]);
    }
  }

  /** The state of the minimisation loop: the adapted jobs, the critical
      ids and the truly critical ids. */
  datatype Minimised = Minimised(jobs: seq<Job>, critical: set<JobId>, truly: set<JobId>)

  /** The minimisation loop's turn for the job at `index`, as written: a job
      with a critical id is reverted and searched; if the search fails, the
      failures grow the critical set, every critical job is made
      pessimistic again, the job gets back its adapted version and its id
      is truly critical. */
  function RevertAsWritten(original: seq<Job>, prec: seq<PrecedenceConstraint>, analysis: Analysis,
                           m: Minimised, index: nat): (r: Minimised)
    requires index < |original| == |m.jobs|
    ensures |r.jobs| == |original|
  {
    var adaptedJob := m.jobs[index];
    if adaptedJob.id !in m.critical then m
    else
      var reverted := m.jobs[index := original[index]];
      var p := SchedulingProblem(reverted, prec);
      if analysis.schedulable(p) then m.(jobs := reverted)
      else
        var critical := m.critical + FailureIds(analysis.failures(p));
        Minimised(Tightened(reverted, critical)[index := adaptedJob], critical, m.truly + {adaptedJob.id})
  }

  /** The minimisation loop from `index` on. */
  function MinimiseAsWritten(original: seq<Job>, prec: seq<PrecedenceConstraint>, analysis: Analysis,
                             m: Minimised, index: nat): (r: Minimised)
    requires index <= |original| == |m.jobs|
    ensures |r.jobs| == |original|
    decreases |original| - index
  {
    if index == |original| then m
    else MinimiseAsWritten(original, prec, analysis, RevertAsWritten(original, prec, analysis, m, index), index + 1)
  }

  /** What the minimisation loop keeps from `index` on: the jobs lie
      between the originals and their pessimistic versions, the jobs not
      yet visited are exactly tightened, and each truly critical id has a
      visited job that is pessimistic. */
  predicate Minimising(original: seq<Job>, m: Minimised, index: nat) {
    index <= |original| && Between(original, m.jobs, m.critical) && m.truly <= m.critical
    && (forall k :: index <= k < |original| ==> m.jobs[k] == Tightened(original, m.critical)[k])
    && Witnessed(original, m.jobs, m.truly, index)
  }

  /** Each id of `truly` has a job before `index` that is pessimistic. */
  predicate Witnessed(original: seq<Job>, jobs: seq<Job>, truly: set<JobId>, index: nat)
    requires index <= |original| == |jobs|
  {
    forall id :: id in truly ==> exists k :: 0 <= k < index && original[k].id == id && jobs[k] == Tight(original[k])
  }

  /** The witnesses survive a change that keeps the pessimistic jobs before
      `index` pessimistic, and a pessimistic job at `index` witnesses its id. */
  lemma WitnessedExtend(original: seq<Job>, jobs: seq<Job>, truly: set<JobId>, index: nat, changed: seq<Job>, added: set<JobId>)
    requires index < |original| == |jobs| == |changed| && Witnessed(original, jobs, truly, index)
    requires forall k :: 0 <= k < index && jobs[k] == Tight(original[k]) ==> changed[k] == Tight(original[k])
    requires added <= {original[index].id} && (added != {} ==> changed[index] == Tight(original[index]))
    ensures Witnessed(original, changed, truly + added, index + 1)
  {
    forall id | id in truly + added
      ensures exists k :: 0 <= k < index + 1 && original[k].id == id && changed[k] == Tight(original[k])
    {
      if id !in truly {
        assert original[index].id == id && changed[index] == Tight(original[index]);
      } else {
        var k :| 0 <= k < index && original[k].id == id && jobs[k] == Tight(original[k]);
        assert changed[k] == Tight(original[k]);
      }
    }
  }

  /** One turn keeps what the loop keeps, and the critical set only
      grows. */
  lemma RevertKeeps(original: seq<Job>, prec: seq<PrecedenceConstraint>, analysis: Analysis, m: Minimised, index: nat)
    requires index < |original| && Minimising(original, m, index)
    ensures Minimising(original, RevertAsWritten(original, prec, analysis, m, index), index + 1)
    ensures m.critical <= RevertAsWritten(original, prec, analysis, m, index).critical
  {
    var adaptedJob := m.jobs[index];
    if adaptedJob.id in m.critical {
      var reverted := m.jobs[index := original[index]];
      if analysis.schedulable(SchedulingProblem(reverted, prec)) {
        RevertedKeeps(original, m, index);
      } else {
        RestoredKeeps(original, m, index, m.critical + FailureIds(analysis.failures(SchedulingProblem(reverted, prec))));
      }
    } else {
      assert m.jobs[index] == original[index];
    }
  }

  /** A reverted job whose search succeeded stays reverted. */
  lemma RevertedKeeps(original: seq<Job>, m: Minimised, index: nat)
    requires index < |original| && Minimising(original, m, index)
    ensures Minimising(original, m.(jobs := m.jobs[index := original[index]]), index + 1)
  {
    WitnessedExtend(original, m.jobs, m.truly, index, m.jobs[index := original[index]], {});
  }

  /** A reverted job whose search failed: every critical job is made
      pessimistic again, the job included. */
  lemma RestoredKeeps(original: seq<Job>, m: Minimised, index: nat, critical: set<JobId>)
    requires index < |original| && Minimising(original, m, index) && m.jobs[index].id in m.critical
    requires m.critical <= critical
    ensures var reverted := m.jobs[index := original[index]];
            Minimising(original, Minimised(Tightened(reverted, critical)[index := m.jobs[index]], critical,
                                           m.truly + {m.jobs[index].id}), index + 1)
  {
    var adaptedJob := m.jobs[index];
    var reverted := m.jobs[index := original[index]];
    RestoredJobs(original, m, index, critical);
    var jobs := Tightened(original, critical);
    TightenedBetween(original, critical);
    forall k | 0 <= k < index && m.jobs[k] == Tight(original[k])
      ensures jobs[k] == Tight(original[k])
    {
      if original[k].id !in critical {
        assert m.jobs[k] == original[k];
      }
    }
    WitnessedExtend(original, m.jobs, m.truly, index, jobs, {adaptedJob.id});
  }

  /** After a failed search the working copy is the originals tightened
      with the grown critical set. */
  lemma RestoredJobs(original: seq<Job>, m: Minimised, index: nat, critical: set<JobId>)
    requires index < |original| && Minimising(original, m, index) && m.jobs[index].id in m.critical
    requires m.critical <= critical
    ensures m.jobs[index] == Tight(original[index])
    ensures Tightened(m.jobs[index := original[index]], critical)[index := m.jobs[index]] == Tightened(original, critical)
  {
    var reverted := m.jobs[index := original[index]];
    assert Between(original, reverted, m.critical);
    TightenedFromBetween(original, reverted, m.critical, critical);
    assert m.jobs[index] == Tightened(original, m.critical)[index];
  }

  /** The whole loop keeps what one turn keeps. */
  lemma {:induction false} MinimiseKeeps(original: seq<Job>, prec: seq<PrecedenceConstraint>, analysis: Analysis,
                                         m: Minimised, index: nat)
    requires Minimising(original, m, index)
    ensures Minimising(original, MinimiseAsWritten(original, prec, analysis, m, index), |original|)
    ensures m.critical <= MinimiseAsWritten(original, prec, analysis, m, index).critical
    decreases |original| - index
  {
    if index < |original| {
      RevertKeeps(original, prec, analysis, m, index);
      MinimiseKeeps(original, prec, analysis, RevertAsWritten(original, prec, analysis, m, index), index + 1);
    }
  }

  /** The minimisation turn as evidently intended: a reverted job whose
      search fails gets back its adapted version and nothing else changes,
      so the jobs reverted before it stay reverted. */
  function RevertIntended(original: seq<Job>, prec: seq<PrecedenceConstraint>, analysis: Analysis,
                          m: Minimised, index: nat): (r: Minimised)
    requires index < |original| == |m.jobs|
    ensures |r.jobs| == |original|
  {
    var adaptedJob := m.jobs[index];
    if adaptedJob.id !in m.critical then m
    else
      var reverted := m.jobs[index := original[index]];
      if analysis.schedulable(SchedulingProblem(reverted, prec)) then m.(jobs := reverted)
      else m.(truly := m.truly + {adaptedJob.id})
  }

  /** The intended minimisation loop from `index` on. */
  function MinimiseIntended(original: seq<Job>, prec: seq<PrecedenceConstraint>, analysis: Analysis,
                            m: Minimised, index: nat): (r: Minimised)
    requires index <= |original| == |m.jobs|
    ensures |r.jobs| == |original|
    decreases |original| - index
  {
    if index == |original| then m
    else MinimiseIntended(original, prec, analysis, RevertIntended(original, prec, analysis, m, index), index + 1)
  }

  /** The intended loop starts from a schedulable working copy and ends
      with one: each turn keeps a revert only when the search accepted it.
      Every job ends as it was or as its original. */
  lemma {:induction false} MinimiseIntendedSchedulable(original: seq<Job>, prec: seq<PrecedenceConstraint>,
                                                       analysis: Analysis, m: Minimised, index: nat)
    requires index <= |original| == |m.jobs| && analysis.schedulable(SchedulingProblem(m.jobs, prec))
    ensures var r := MinimiseIntended(original, prec, analysis, m, index);
            analysis.schedulable(SchedulingProblem(r.jobs, prec))
            && forall k :: 0 <= k < |original| ==> r.jobs[k] == m.jobs[k] || r.jobs[k] == original[k]
    decreases |original| - index
  {
    if index < |original| {
      var next := RevertIntended(original, prec, analysis, m, index);
      MinimiseIntendedSchedulable(original, prec, analysis, next, index + 1);
    }
  }

  /** Two jobs with a window of arrival and of running time, and a search
      that fails only when both are original and reports no failures. */
  const ExampleA: Job := Job(JobId(0, 0), 0, Timing(Interval(0, 5), Interval(1, 3), 10))
  const ExampleB: Job := Job(JobId(1, 0), 1, Timing(Interval(0, 5), Interval(1, 3), 10))

  function ExampleSchedulable(p: SchedulingProblem): bool {
    p.jobs != [ExampleA, ExampleB]
  }

  function NoFailures(p: SchedulingProblem): seq<FailedSequence> {
    []
  }

  const ExampleAnalysis: Analysis := Analysis(ExampleSchedulable, NoFailures)

  /** As written, the loop makes a successfully reverted job pessimistic
      again when a later revert fails, although its id is not truly
      critical; the intended loop keeps it reverted. Both jobs start
      critical and pessimistic: reverting the first is accepted, reverting
      the second is refused. */
  lemma MinimiseAsWrittenRetightens()
    ensures var a, b := ExampleA, ExampleB;
            var start := Minimised([Tight(a), Tight(b)], {a.id, b.id}, {});
            var written := MinimiseAsWritten([a, b], [], ExampleAnalysis, start, 0);
            var intended := MinimiseIntended([a, b], [], ExampleAnalysis, start, 0);
            Tight(a) != a && written.jobs[0] == Tight(a) && a.id !in written.truly
            && ExampleAnalysis.schedulable(SchedulingProblem([a, Tight(b)], []))
            && intended.jobs == [a, Tight(b)] && intended.truly == written.truly == {b.id}
  {
    var a, b, analysis := ExampleA, ExampleB, ExampleAnalysis;
    var start := Minimised([Tight(a), Tight(b)], {a.id, b.id}, {});
    assert [Tight(a), Tight(b)][0 := a] == [a, Tight(b)];
    var first := RevertAsWritten([a, b], [], analysis, start, 0);
    assert first == start.(jobs := [a, Tight(b)]);
    assert [a, Tight(b)][1 := b] == [a, b];
    assert FailureIds(analysis.failures(SchedulingProblem([a, b], []))) == {};
    assert Tightened([a, b], {a.id, b.id}) == [Tight(a), Tight(b)];
    var second := RevertAsWritten([a, b], [], analysis, first, 1);
    assert second == Minimised([Tight(a), Tight(b)], {a.id, b.id}, {b.id});
    assert MinimiseAsWritten([a, b], [], analysis, start, 0) == second by {
      assert MinimiseAsWritten([a, b], [], analysis, start, 0) == MinimiseAsWritten([a, b], [], analysis, first, 1);
      assert MinimiseAsWritten([a, b], [], analysis, first, 1) == MinimiseAsWritten([a, b], [], analysis, second, 2);
    }
    var firstIntended := RevertIntended([a, b], [], analysis, start, 0);
    assert firstIntended == first;
    var secondIntended := RevertIntended([a, b], [], analysis, firstIntended, 1);
    assert secondIntended == Minimised([a, Tight(b)], {a.id, b.id}, {b.id});
    assert MinimiseIntended([a, b], [], analysis, start, 0) == secondIntended by {
      assert MinimiseIntended([a, b], [], analysis, start, 0) == MinimiseIntended([a, b], [], analysis, firstIntended, 1);
      assert MinimiseIntended([a, b], [], analysis, firstIntended, 1) == MinimiseIntended([a, b], [], analysis, secondIntended, 2);
    }
  }

  class PessimisticReconfigurator {
    var criticalJobIds: set<JobId>
    /** The caller's problem, which is never changed. */
    const originalProblem: SchedulingProblem
    /** The working copy that is made pessimistic. */
    const adaptedProblem: Problem
    /** The searches run on the working copy. */
    const analysis: Analysis

    /** The working copy is the caller's problem with exactly the critical
        jobs made pessimistic. */
    ghost predicate Valid()
      reads this, adaptedProblem
    {
      adaptedProblem.jobs == Tightened(originalProblem.jobs, criticalJobIds)
      && adaptedProblem.prec == originalProblem.prec
    }

    /** Copies the problem and makes the jobs of the given failures
        pessimistic. */
    constructor(problem: SchedulingProblem, failures: seq<FailedSequence>, search: Analysis)
      ensures originalProblem == problem && analysis == search && fresh(adaptedProblem)
      ensures criticalJobIds == FailureIds(failures) && Valid()
    {
      originalProblem := problem;
      adaptedProblem := new Problem(problem);
      analysis := search;
      criticalJobIds := {};
      new;
      UpdateCriticalJobs(failures);
    }

    /** The first loop of `update_critical_jobs`: every id of `ids` becomes
        critical. */
    method InsertIds(ids: seq<JobId>)
      modifies this
      ensures criticalJobIds == old(criticalJobIds) + Elements(ids)
    {
      var index := 0;
      while index < |ids|
        invariant 0 <= index <= |ids| && criticalJobIds == old(criticalJobIds) + Elements(ids[..index])
      {
        assert Elements(ids[..index + 1]) == Elements(ids[..index]) + {ids[index]} by {
          assert ids[..index + 1] == ids[..index] + [ids[index]];
        }
        criticalJobIds := criticalJobIds + {ids[index]};
        index := index + 1;
      }
      assert ids[..index] == ids;
    }

    /** `update_critical_jobs`: the ids of all failures become critical, then
        exactly the jobs with a critical id are made pessimistic; the
        constraints stay. */
    method UpdateCriticalJobs(failures: seq<FailedSequence>)
      modifies this, adaptedProblem
      ensures criticalJobIds == old(criticalJobIds) + FailureIds(failures)
      ensures adaptedProblem.jobs == Tightened(old(adaptedProblem.jobs), criticalJobIds)
      ensures adaptedProblem.prec == old(adaptedProblem.prec)
    {
      var index := 0;
      while index < |failures|
        invariant 0 <= index <= |failures| && criticalJobIds == old(criticalJobIds) + FailureIds(failures[..index])
        invariant adaptedProblem.jobs == old(adaptedProblem.jobs) && adaptedProblem.prec == old(adaptedProblem.prec)
      {
        assert failures[..index + 1][..index] == failures[..index];
        InsertIds(failures[index].chosenJobIds);
        index := index + 1;
      }
      assert failures[..index] == failures;
      ghost var jobs := adaptedProblem.jobs;
      index := 0;
      while index < |adaptedProblem.jobs|
        invariant 0 <= index <= |jobs| == |adaptedProblem.jobs| && adaptedProblem.prec == old(adaptedProblem.prec)
        invariant criticalJobIds == old(criticalJobIds) + FailureIds(failures)
        invariant forall k :: 0 <= k < index ==> adaptedProblem.jobs[k] == Tightened(jobs, criticalJobIds)[k]
        invariant forall k :: index <= k < |jobs| ==> adaptedProblem.jobs[k] == jobs[k]
      {
        var job := adaptedProblem.jobs[index];
        if job.id in criticalJobIds {
          adaptedProblem.jobs := adaptedProblem.jobs[index := Tight(job)];
        }
        index := index + 1;
      }
    }

    /** `attempt_adapted_problem`: true exactly when the search finds the
        working copy schedulable; otherwise the search's failures become
        critical. */
    method AttemptAdaptedProblem() returns (r: bool)
      modifies this, adaptedProblem
      ensures r == analysis.schedulable(old(adaptedProblem.Value()))
      ensures r ==> criticalJobIds == old(criticalJobIds) && adaptedProblem.Value() == old(adaptedProblem.Value())
      ensures !r ==> criticalJobIds == old(criticalJobIds) + FailureIds(analysis.failures(old(adaptedProblem.Value())))
      ensures !r ==> adaptedProblem.jobs == Tightened(old(adaptedProblem.jobs), criticalJobIds)
                     && adaptedProblem.prec == old(adaptedProblem.prec)
    {
      var problem := adaptedProblem.Value();
      if analysis.schedulable(problem) {
        return true;
      }
      UpdateCriticalJobs(analysis.failures(problem));
      return false;
    }

    /** `adapt_until_schedulable`: attempts until the working copy is
        schedulable, or until a failed attempt adds no critical id, where the
        working copy is a fixed point: unschedulable, with every failure
        already critical. It ends because the critical ids only grow, and
        within the problem's ids. */
    method AdaptUntilSchedulable() returns (r: bool)
      requires Sound(analysis) && Valid()
      modifies this, adaptedProblem
      ensures Valid() && old(criticalJobIds) <= criticalJobIds
      ensures r ==> analysis.schedulable(adaptedProblem.Value())
      ensures !r ==> !analysis.schedulable(adaptedProblem.Value())
                     && FailureIds(analysis.failures(adaptedProblem.Value())) <= criticalJobIds
    {
      var done := false;
      r := false;
      while !done
        invariant Valid() && old(criticalJobIds) <= criticalJobIds
        invariant done && r ==> analysis.schedulable(adaptedProblem.Value())
        invariant done && !r ==> !analysis.schedulable(adaptedProblem.Value())
                                 && FailureIds(analysis.failures(adaptedProblem.Value())) <= criticalJobIds
        decreases |JobIds(originalProblem.jobs) - criticalJobIds|, if done then 0 else 1
      {
        var oldJobCount := |criticalJobIds|;
        ghost var before := criticalJobIds;
        ghost var problem := adaptedProblem.Value();
        TightenedBetween(originalProblem.jobs, before);
        r := AttemptAdaptedProblem();
        TightenedFromBetween(originalProblem.jobs, problem.jobs, before, criticalJobIds);
        if r {
          done := true;
        } else if oldJobCount == |criticalJobIds| {
          assert criticalJobIds == before by {
            SubsetOfSameSize(before, criticalJobIds);
          }
          done := true;
        } else {
          assert FailureIds(analysis.failures(problem)) <= JobIds(originalProblem.jobs);
          Narrowed(JobIds(originalProblem.jobs), before, criticalJobIds);
        }
      }
    }

    /** `find_local_minimal_solution`: adapts until schedulable (`None` when
        that fails; the minimisation is then skipped), then runs the
        minimisation loop and returns the truly critical ids. The loop is
        the corrected one (`MinimiseIntended`): a revert that the search
        refuses puts back only the reverted job. `start` is the critical
        set that adaptation reached. The working copy ends schedulable, with
        every job pessimistic as adaptation left it or reverted to its
        original. */
    method FindLocalMinimalSolution() returns (r: Option<set<JobId>>, ghost start: set<JobId>)
      requires Sound(analysis) && Valid()
      modifies this, adaptedProblem
      ensures old(criticalJobIds) <= criticalJobIds && adaptedProblem.prec == originalProblem.prec
      ensures r.None? ==> Valid() && !analysis.schedulable(adaptedProblem.Value())
                          && FailureIds(analysis.failures(adaptedProblem.Value())) <= criticalJobIds
      ensures r.Some? ==> criticalJobIds == start && old(criticalJobIds) <= start
      ensures r.Some? ==> MinimiseIntended(originalProblem.jobs, originalProblem.prec, analysis,
                                           Minimised(Tightened(originalProblem.jobs, start), start, {}), 0)
                          == Minimised(adaptedProblem.jobs, start, r.value)
      ensures r.Some? ==> analysis.schedulable(adaptedProblem.Value())
      ensures r.Some? ==> |adaptedProblem.jobs| == |originalProblem.jobs|
                          && forall k :: 0 <= k < |originalProblem.jobs| ==>
                               adaptedProblem.jobs[k] == Tightened(originalProblem.jobs, start)[k]
                               || adaptedProblem.jobs[k] == originalProblem.jobs[k]
    {
      start := criticalJobIds;
      var adapted := AdaptUntilSchedulable();
      if !adapted {
        return None, start;
      }
      start := criticalJobIds;
      ghost var initial := Minimised(adaptedProblem.jobs, start, {});
      assert initial.jobs == Tightened(originalProblem.jobs, start) && adaptedProblem.prec == originalProblem.prec;
      MinimiseIntendedSchedulable(originalProblem.jobs, originalProblem.prec, analysis, initial, 0);
      var truly := Minimise();
      return Some(truly), start;
    }

    /** The minimisation loop of `find_local_minimal_solution`, as corrected,
        over every job of the working copy. */
    method Minimise() returns (truly: set<JobId>)
      requires |originalProblem.jobs| == |adaptedProblem.jobs| && adaptedProblem.prec == originalProblem.prec
      modifies adaptedProblem
      ensures adaptedProblem.prec == originalProblem.prec
      ensures Minimised(adaptedProblem.jobs, criticalJobIds, truly)
           == MinimiseIntended(originalProblem.jobs, originalProblem.prec, analysis,
                               Minimised(old(adaptedProblem.jobs), criticalJobIds, {}), 0)
    {
      ghost var initial := Minimised(adaptedProblem.jobs, criticalJobIds, {});
      ghost var original := originalProblem.jobs;
      truly := {};
      var index := 0;
      while index < |adaptedProblem.jobs|
        invariant 0 <= index <= |original| == |adaptedProblem.jobs| && adaptedProblem.prec == originalProblem.prec
        invariant MinimiseIntended(original, originalProblem.prec, analysis, Minimised(adaptedProblem.jobs, criticalJobIds, truly), index)
               == MinimiseIntended(original, originalProblem.prec, analysis, initial, 0)
      {
        truly := RevertJob(index, truly);
        index := index + 1;
      }
      assert MinimiseIntended(original, originalProblem.prec, analysis, Minimised(adaptedProblem.jobs, criticalJobIds, truly), index)
          == Minimised(adaptedProblem.jobs, criticalJobIds, truly);
    }

    /** One turn of the minimisation loop of `find_local_minimal_solution`,
        for the job at `index`, as corrected: a job with a critical id is
        reverted, and put back when the search refuses the revert; `truly`
        is the truly critical set so far. */
    method RevertJob(index: nat, truly: set<JobId>) returns (rTruly: set<JobId>)
      requires index < |originalProblem.jobs| == |adaptedProblem.jobs| && adaptedProblem.prec == originalProblem.prec
      modifies adaptedProblem
      ensures adaptedProblem.prec == originalProblem.prec
      ensures Minimised(adaptedProblem.jobs, criticalJobIds, rTruly)
           == RevertIntended(originalProblem.jobs, originalProblem.prec, analysis,
                             old(Minimised(adaptedProblem.jobs, criticalJobIds, truly)), index)
    {
      rTruly := truly;
      var originalJob := originalProblem.jobs[index];
      var adaptedJob := adaptedProblem.jobs[index];
      if adaptedJob.id in criticalJobIds {
        adaptedProblem.jobs := adaptedProblem.jobs[index := originalJob];
        if !analysis.schedulable(adaptedProblem.Value()) {
          rTruly := rTruly + {adaptedJob.id};
          adaptedProblem.jobs := adaptedProblem.jobs[index := adaptedJob];
        }
      }
    }
  }

  /** A subset is no larger than its superset. */
  lemma SubsetSize(a: set<JobId>, b: set<JobId>)
    requires a <= b
    ensures |a| <= |b|
  {
    assert b == a + (b - a);
  }

  /** A superset of the same size is the same set. */
  lemma SubsetOfSameSize(a: set<JobId>, b: set<JobId>)
    requires a <= b && |a| == |b|
    ensures a == b
  {
    if a != b {
      assert exists x :: x in b && x !in a;
      var x :| x in b && x !in a;
      SubsetSize(a, b - {x});
    }
  }

  /** Growing `critical` within `universe` leaves fewer ids of `universe`
      outside it. */
  lemma Narrowed(universe: set<JobId>, critical: set<JobId>, grown: set<JobId>)
    requires critical <= grown && grown <= critical + universe && |critical| != |grown|
    ensures |universe - grown| < |universe - critical|
  {
    assert grown != critical;
    assert exists x :: x in grown && x !in critical;
    var x :| x in grown && x !in critical;
    assert x in universe;
    SubsetSize(universe - grown, (universe - critical) - {x});
    assert universe - critical == ((universe - critical) - {x}) + {x};
  }
}
