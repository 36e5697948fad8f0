/** `generate_precedence_attempts` of attempt_generator.hpp: the attempts a
    strategy tries for one cut. */
module AttemptGenerator {
  import opened ProblemModel
  import opened SubGraphs
  import opened Attempts

  /** One attempt per allowed job of the cut, in order, each making that
      job finish before every forbidden job. `None` when the cut has no
      allowed or no forbidden job, where the source's assertions fail. */
  function GeneratePrecedenceAttempts(cut: RatingGraphCut): (r: Option<seq<PrecedenceAttempt>>)
    ensures r.None? <==> cut.allowedJobs == [] || cut.forbiddenJobs == []
  {
    if cut.allowedJobs == [] || cut.forbiddenJobs == [] then None
    else Some(seq(|cut.allowedJobs|, k requires 0 <= k < |cut.allowedJobs| =>
                    PrecedenceAttempt(cut.allowedJobs[k], cut.forbiddenJobs)))
  }

  /** The attempts are exactly one per allowed job, with `before` that job
      and `after` the forbidden jobs; the extra jobs found by exploration
      play no part. */
  lemma GeneratedAttempts(cut: RatingGraphCut, extraForbidden: seq<nat>, extraAllowed: seq<nat>)
    requires cut.allowedJobs != [] && cut.forbiddenJobs != []
    ensures var r := GeneratePrecedenceAttempts(cut);
            r.Some? && |r.value| == |cut.allowedJobs|
            && (forall k :: 0 <= k < |r.value| ==>
                  r.value[k].before == cut.allowedJobs[k] && r.value[k].after == cut.forbiddenJobs)
    ensures GeneratePrecedenceAttempts(cut.(extraForbiddenJobs := extraForbidden, extraAllowedJobs := extraAllowed))
         == GeneratePrecedenceAttempts(cut)
  {
  }

  /** When the cut's jobs are jobs of the problem, so are the indices of
      every attempt generated from it. */
  lemma GeneratedIndexes(cut: RatingGraphCut, jobs: seq<Job>)
    requires forall k :: 0 <= k < |cut.allowedJobs| ==> cut.allowedJobs[k] < |jobs|
    requires forall k :: 0 <= k < |cut.forbiddenJobs| ==> cut.forbiddenJobs[k] < |jobs|
    ensures var r := GeneratePrecedenceAttempts(cut);
            r.Some? ==> forall k :: 0 <= k < |r.value| ==> Indexes(r.value[k], jobs)
  {
  }
}
