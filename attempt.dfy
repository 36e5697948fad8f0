/** `Precedence_attempt` of attempt.hpp: a trial change to a problem that
    makes one job finish before each of a list of other jobs, which can be
    undone, and which proposes one precedence solution per constraint. */
module Attempts {
  import opened ProblemModel
  import opened Solutions

  /** Job index `before` must finish before every job index of `after`;
      both are fixed at construction. */
  datatype PrecedenceAttempt = PrecedenceAttempt(before: JobIndex, after: seq<JobIndex>)

  /** Every index of the attempt names a job of `jobs`. */
  predicate Indexes(a: PrecedenceAttempt, jobs: seq<Job>) {
    a.before < |jobs| && forall k :: 0 <= k < |a.after| ==> a.after[k] < |jobs|
  }

  /** The constraints `attempt` appends: one from `before` to each job of
      `after`, in order, without suspension. */
  function Added(a: PrecedenceAttempt, jobs: seq<Job>): (r: seq<PrecedenceConstraint>)
    requires Indexes(a, jobs)
  {
    seq(|a.after|, k requires 0 <= k < |a.after| =>
      PrecedenceConstraint(jobs[a.before].id, jobs[a.after[k]].id, Interval(0, 0)))
  }

  /** `c` is one of the constraints `undo` erases: from `before` to any job
      of `after`. */
  predicate Targets(a: PrecedenceAttempt, jobs: seq<Job>, c: PrecedenceConstraint)
    requires Indexes(a, jobs)
  {
    c.from == jobs[a.before].id && exists k :: 0 <= k < |a.after| && c.to == jobs[a.after[k]].id
  }

  /** The constraints of `prec` that `undo` keeps, in their order. */
  function Kept(a: PrecedenceAttempt, jobs: seq<Job>, prec: seq<PrecedenceConstraint>): seq<PrecedenceConstraint>
    requires Indexes(a, jobs)
  {
    if prec == [] then []
    else (if Targets(a, jobs, prec[0]) then [] else [prec[0]]) + Kept(a, jobs, prec[1..])
  }

  /** The problem after `attempt`. */
  function Attempted(p: SchedulingProblem, a: PrecedenceAttempt): SchedulingProblem
    requires Indexes(a, p.jobs)
  {
    p.(prec := p.prec + Added(a, p.jobs))
  }

  /** The problem after `undo`. */
  function Undone(p: SchedulingProblem, a: PrecedenceAttempt): SchedulingProblem
    requires Indexes(a, p.jobs)
  {
    p.(prec := Kept(a, p.jobs, p.prec))
  }

  /** `c` survives `undo` exactly when it was there and is not one of the
      erased constraints. */
  lemma {:induction false} KeptMembers(a: PrecedenceAttempt, jobs: seq<Job>, prec: seq<PrecedenceConstraint>,
                                       c: PrecedenceConstraint)
    requires Indexes(a, jobs)
    ensures c in Kept(a, jobs, prec) <==> c in prec && !Targets(a, jobs, c)
    decreases |prec|
  {
    if prec != [] {
      KeptMembers(a, jobs, prec[1..], c);
      assert prec == [prec[0]] + prec[1..];
    }
  }

  /** `undo` filters each part of a list on its own: the kept constraints
      stay in their relative order. */
  lemma {:induction false} KeptConcat(a: PrecedenceAttempt, jobs: seq<Job>, x: seq<PrecedenceConstraint>,
                                      y: seq<PrecedenceConstraint>)
    requires Indexes(a, jobs)
    ensures Kept(a, jobs, x + y) == Kept(a, jobs, x) + Kept(a, jobs, y)
    decreases |x|
  {
    if x == [] {
      assert x + y == y;
    } else {
      assert (x + y)[0] == x[0] && (x + y)[1..] == x[1..] + y;
      KeptConcat(a, jobs, x[1..], y);
    }
  }

  /** A list without erased constraints is kept whole. */
  lemma {:induction false} KeptUntargeted(a: PrecedenceAttempt, jobs: seq<Job>, prec: seq<PrecedenceConstraint>)
    requires Indexes(a, jobs)
    requires forall k :: 0 <= k < |prec| ==> !Targets(a, jobs, prec[k])
    ensures Kept(a, jobs, prec) == prec
    decreases |prec|
  {
    if prec != [] {
      KeptUntargeted(a, jobs, prec[1..]);
      assert prec == [prec[0]] + prec[1..];
    }
  }

  /** Every constraint `attempt` adds is erased by `undo`. */
  lemma {:induction false} KeptAdded(a: PrecedenceAttempt, jobs: seq<Job>, from: nat)
    requires Indexes(a, jobs) && from <= |a.after|
    ensures Kept(a, jobs, Added(a, jobs)[from..]) == []
    decreases |a.after| - from
  {
    var added := Added(a, jobs);
    if from < |a.after| {
      assert added[from..][0] == added[from] && added[from..][1..] == added[from + 1..];
      assert Targets(a, jobs, added[from]);
      KeptAdded(a, jobs, from + 1);
    }
  }

  /** `undo` after `attempt` is `undo` alone: whatever the attempt added is
      gone, and of the older constraints exactly the erased kind is lost. */
  lemma UndoAfterAttempt(p: SchedulingProblem, a: PrecedenceAttempt)
    requires Indexes(a, p.jobs)
    ensures Undone(Attempted(p, a), a) == Undone(p, a)
  {
    KeptConcat(a, p.jobs, p.prec, Added(a, p.jobs));
    KeptAdded(a, p.jobs, 0);
    assert Added(a, p.jobs)[0..] == Added(a, p.jobs);
  }

  /** The round trip: when the problem had no constraint from `before` to a
      job of `after`, `attempt` followed by `undo` restores it. */
  lemma AttemptUndoRoundTrip(p: SchedulingProblem, a: PrecedenceAttempt)
    requires Indexes(a, p.jobs)
    requires forall k :: 0 <= k < |p.prec| ==> !Targets(a, p.jobs, p.prec[k])
    ensures Undone(Attempted(p, a), a) == p
  {
    UndoAfterAttempt(p, a);
    KeptUntargeted(a, p.jobs, p.prec);
  }

  /** A second `undo` changes nothing. */
  lemma {:induction false} UndoIdempotent(p: SchedulingProblem, a: PrecedenceAttempt)
    requires Indexes(a, p.jobs)
    ensures Undone(Undone(p, a), a) == Undone(p, a)
  {
    var kept := Kept(a, p.jobs, p.prec);
    forall k | 0 <= k < |kept|
      ensures !Targets(a, p.jobs, kept[k])
    {
      KeptMembers(a, p.jobs, p.prec, kept[k]);
    }
    KeptUntargeted(a, p.jobs, kept);
  }

  /** `attempt`: appends the attempt's constraints behind the existing ones;
      the jobs are untouched. */
  method Attempt(a: PrecedenceAttempt, problem: Problem)
    requires Indexes(a, problem.jobs)
    modifies problem
    ensures problem.Value() == Attempted(old(problem.Value()), a)
  {
    var beforeId := problem.jobs[a.before].id;
    ghost var added := Added(a, problem.jobs);
    var index := 0;
    while index < |a.after|
      invariant 0 <= index <= |a.after| && problem.jobs == old(problem.jobs)
      invariant problem.prec == old(problem.prec) + added[..index]
    {
      assert added[..index + 1] == added[..index] + [added[index]];
      problem.prec := problem.prec + [PrecedenceConstraint(beforeId, problem.jobs[a.after[index]].id, Interval(0, 0))];
      index := index + 1;
    }
    assert added[..index] == added;
  }

  /** The test `undo` applies to each constraint: its origin is `before` and
      its target one of the jobs of `after`. */
  method IsErased(a: PrecedenceAttempt, problem: Problem, c: PrecedenceConstraint) returns (r: bool)
    requires Indexes(a, problem.jobs)
    ensures r <==> c.from == problem.jobs[a.before].id
                   && exists k :: 0 <= k < |a.after| && c.to == problem.jobs[a.after[k]].id
  {
    if c.from != problem.jobs[a.before].id {
      return false;
    }
    var index := 0;
    while index < |a.after|
      invariant 0 <= index <= |a.after|
      invariant forall k :: 0 <= k < index ==> c.to != problem.jobs[a.after[k]].id
    {
      if c.to == problem.jobs[a.after[index]].id {
        return true;
      }
      index := index + 1;
    }
    return false;
  }

  /** `undo`: erases every constraint from `before` to a job of `after`,
      those the attempt added and older ones alike, and keeps all others in
      their order (the `remove_if`/`erase` pair). */
  method Undo(a: PrecedenceAttempt, problem: Problem)
    requires Indexes(a, problem.jobs)
    modifies problem
    ensures problem.Value() == Undone(old(problem.Value()), a)
  {
    var prec := problem.prec;
    var kept := [];
    var index := 0;
    while index < |prec|
      invariant 0 <= index <= |prec| && problem.jobs == old(problem.jobs) && problem.prec == prec
      invariant kept == Kept(a, problem.jobs, prec[..index])
    {
      var erased := IsErased(a, problem, prec[index]);
      KeptConcat(a, problem.jobs, prec[..index], [prec[index]]);
      assert prec[..index + 1] == prec[..index] + [prec[index]];
      if !erased {
        kept := kept + [prec[index]];
      }
      index := index + 1;
    }
    assert prec[..index] == prec;
    problem.prec := kept;
  }

  /** The solutions `add_solutions` proposes: one precedence solution from
      `before` to each job of `after`, in order. */
  function SolutionsOf(a: PrecedenceAttempt, jobs: seq<Job>): (r: seq<Solution>)
    requires Indexes(a, jobs)
  {
    seq(|a.after|, k requires 0 <= k < |a.after| => PrecedenceSolution(jobs[a.before].id, jobs[a.after[k]].id))
  }

  /** The solutions propose exactly the constraints the attempt tried, apart
      from the suspension: `apply` uses a default interval where `attempt`
      uses [0, 0]. */
  lemma SolutionsRecordAttempt(a: PrecedenceAttempt, jobs: seq<Job>)
    requires Indexes(a, jobs)
    ensures |SolutionsOf(a, jobs)| == |Added(a, jobs)|
    ensures forall k :: 0 <= k < |SolutionsOf(a, jobs)| ==>
              SolutionsOf(a, jobs)[k].PrecedenceSolution?
              && ConstraintOf(SolutionsOf(a, jobs)[k]) == Added(a, jobs)[k].(suspension := DefaultInterval)
  {
  }

  /** `add_solutions`: appends the attempt's solutions to `solutions`; the
      problem is only read. */
  method AddSolutions(a: PrecedenceAttempt, solutions: seq<Solution>, problem: Problem) returns (r: seq<Solution>)
    requires Indexes(a, problem.jobs)
    ensures |r| == |solutions| + |a.after| && r[..|solutions|] == solutions
    ensures forall k :: 0 <= k < |a.after| ==>
              r[|solutions| + k] == PrecedenceSolution(problem.jobs[a.before].id, problem.jobs[a.after[k]].id)
    ensures r == solutions + SolutionsOf(a, problem.jobs)
  {
    var beforeId := problem.jobs[a.before].id;
    r := solutions;
    var index := 0;
    while index < |a.after|
      invariant 0 <= index <= |a.after| && |r| == |solutions| + index && r[..|solutions|] == solutions
      invariant forall k :: 0 <= k < index ==>
                  r[|solutions| + k] == PrecedenceSolution(beforeId, problem.jobs[a.after[k]].id)
    {
      r := r + [PrecedenceSolution(beforeId, problem.jobs[a.after[index]].id)];
      index := index + 1;
    }
  }
}
