/** The solution records of solution.hpp: proposals that a reconfiguration
    hands back to its caller. Only a precedence solution can be applied. */
module Solutions {
  import opened ProblemModel

  datatype Solution =
      /** Raise the earliest arrival of `jobId` from `earliest` to `latest`. */
    | PessimisticArrivalTimeSolution(jobId: JobId, earliest: int, latest: int)
      /** Raise the best-case running time of `jobId` to its worst case. */
    | PessimisticExecutionTimeSolution(jobId: JobId, bestCase: int, worstCase: int)
      /** `from` must finish before `to` can start. */
    | PrecedenceSolution(from: JobId, to: JobId)

  /** The constraint a precedence solution stands for; its suspension is a
      default-constructed interval. */
  function ConstraintOf(s: Solution): PrecedenceConstraint
    requires s.PrecedenceSolution?
  {
    PrecedenceConstraint(s.from, s.to, DefaultInterval)
  }

  /** `apply`: a precedence solution appends its constraint behind the
      existing ones. The pessimistic records do not override `apply`, so
      applying one reaches the base version whose assertion fails; that is
      reported as `false`, with the problem left as it was. */
  method Apply(s: Solution, problem: Problem) returns (ok: bool)
    modifies problem
    ensures ok <==> s.PrecedenceSolution?
    ensures problem.jobs == old(problem.jobs)
    ensures ok ==> problem.prec == old(problem.prec) + [ConstraintOf(s)]
    ensures !ok ==> problem.prec == old(problem.prec)
  {
    if !s.PrecedenceSolution? {
      return false;
    }
    problem.prec := problem.prec + [PrecedenceConstraint(s.from, s.to, DefaultInterval)];
    return true;
  }
}
