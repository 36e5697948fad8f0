/** The external value types that the reconfiguration engine consumes: jobs,
    precedence constraints, scheduling problems and the search engine's dense
    index set. Their implementations are not part of this model; each is given
    the smallest abstract definition the engine's code needs. */
module ProblemModel {

  datatype Option<T> = None | Some(value: T)

  /** Zero-based dense job index (`Job_index`). */
  type JobIndex = nat

  /** Job identity (`JobID`): task number and job number. */
  datatype JobId = JobId(task: nat, job: nat)

  /** A time interval. `DefaultInterval` stands for a default-constructed
      `Interval<Time>()`, whose bounds are not part of this model. */
  datatype Interval = Interval(lo: int, hi: int) | DefaultInterval

  /** The timing assumptions of a job: arrival window, execution-time window and deadline. */
  datatype Timing = Timing(arrival: Interval, cost: Interval, deadline: int)

  datatype Job = Job(id: JobId, index: JobIndex, timing: Timing)

  /** `assume_pessimistic_arrival`: the arrival window collapses to its upper bound. */
  function PessimisticArrival(j: Job): (r: Job)
    ensures r.id == j.id && r.index == j.index
    ensures r.timing.cost == j.timing.cost && r.timing.deadline == j.timing.deadline
  {
    match j.timing.arrival
    case Interval(_, hi) => j.(timing := j.timing.(arrival := Interval(hi, hi)))
    case DefaultInterval => j
  }

  /** `assume_pessimistic_running_time`: the execution-time window collapses to its upper bound. */
  function PessimisticRunningTime(j: Job): (r: Job)
    ensures r.id == j.id && r.index == j.index
    ensures r.timing.arrival == j.timing.arrival && r.timing.deadline == j.timing.deadline
  {
    match j.timing.cost
    case Interval(_, hi) => j.(timing := j.timing.(cost := Interval(hi, hi)))
    case DefaultInterval => j
  }

  /** `Precedence_constraint`: `from` must finish (plus a suspension) before `to` starts. */
  datatype PrecedenceConstraint = PrecedenceConstraint(from: JobId, to: JobId, suspension: Interval)

  /** `Scheduling_problem`: the job set and its precedence constraints. */
  datatype SchedulingProblem = SchedulingProblem(jobs: seq<Job>, prec: seq<PrecedenceConstraint>)

  /** A scheduling problem that is edited in place: the working copy that
      a strategy or reconfigurator adapts while the caller's problem stays
      as it was. */
  class Problem {
    var jobs: seq<Job>
    var prec: seq<PrecedenceConstraint>

    /** The copy constructor: a new problem equal to `p`. */
    constructor(p: SchedulingProblem)
      ensures Value() == p
    {
      jobs := p.jobs;
      prec := p.prec;
    }

    /** The problem as a value, as seen by a search started on it. */
    function Value(): SchedulingProblem
      reads this
    {
      SchedulingProblem(jobs, prec)
    }
  }

  /** The identities of a list of jobs. */
  function JobIds(jobs: seq<Job>): (ids: set<JobId>)
    ensures forall k :: 0 <= k < |jobs| ==> jobs[k].id in ids
    ensures forall id :: id in ids ==> exists k :: 0 <= k < |jobs| && jobs[k].id == id
  {
    set k | 0 <= k < |jobs| :: jobs[k].id
  }

  function Max(a: nat, b: nat): nat { if a >= b then a else b }

  /** The search engine's `Index_set`: a bit set stored in 64-bit words.
      `words` is `get_vector_size()`; adding an index grows the storage to
      cover it, clearing empties it. */
  datatype IndexSet = IndexSet(members: set<nat>, words: nat) {

    predicate Contains(x: nat) { x in members }

    function Add(x: nat): (r: IndexSet)
      ensures r.members == members + {x}
      ensures r.words > 0 && r.words >= words && x < 64 * r.words
    {
      IndexSet(members + {x}, Max(words, x / 64 + 1))
    }

    function Size(): nat { |members| }
  }

  const EmptyIndexSet: IndexSet := IndexSet({}, 0)
}
