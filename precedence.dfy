/** `PrecedenceReconfigurator` of precedence.hpp: finds the edges of the
    schedule graph that lead to deadline misses, then tries, edge by edge,
    one precedence constraint from an alternative job to the edge's last
    job until the problem becomes schedulable. */
module Precedence {
  import opened ProblemModel
  import opened Search
  import opened Agents
  import opened Solutions

  /** What one search with `Agent_exhaustive_failure_search` reports: its
      verdict, whether the agent saw an instant failure, and the agent's
      failures afterwards. That agent is not part of this model; a round is
      its observable outcome. */
  datatype Round = Round(schedulable: bool, instantFailure: bool, failures: seq<FailedSequence>)

  /** A search with `Agent_failure_alternative_search`, whose decisions
      depend only on the problem and the agent's fixed failures: the calls it
      makes on the agent and its verdict. */
  datatype AlternativeSearch = AlternativeSearch(
    pass: (SchedulingProblem, seq<FailedSequence>) -> seq<Event>,
    schedulable: (SchedulingProblem, seq<FailedSequence>) -> bool)

  /** How `find_all_problematic_edges` ends. `OutOfRounds` stands for the
      source's loop going on past the rounds given. */
  datatype Outcome = Schedulable | Hopeless | OutOfRounds

  /** How one edge's turn ends: an alternative was accepted, none was, or
      the behaviour is undefined (an empty edge, or the agent's own
      undefined case). */
  datatype EdgeStep = Continue | NoSolution | Undefined

  /** A round that ends the search for problematic edges. */
  predicate Decisive(round: Round) {
    round.schedulable || round.instantFailure
  }

  /** The index of the first round that ends the search, if any. */
  function FirstDecisive(rounds: seq<Round>): (r: Option<nat>)
    ensures r.Some? ==> r.value < |rounds| && Decisive(rounds[r.value])
                        && forall m :: 0 <= m < r.value ==> !Decisive(rounds[m])
    ensures r.None? ==> forall m :: 0 <= m < |rounds| ==> !Decisive(rounds[m])
    decreases |rounds|
  {
    if rounds == [] then None
    else if Decisive(rounds[0]) then Some(0)
    else match FirstDecisive(rounds[1..]) {
      case None => None
      case Some(k) => Some(k + 1)
    }
  }

  /** The job a forbidden edge protects: the last job of its sequence. */
  function ForbiddenJob(edge: FailedSequence): JobId
    requires |edge.chosenJobIds| > 0
  {
    edge.chosenJobIds[|edge.chosenJobIds| - 1]
  }

  /** There is an accepted alternative for each of the first edges, and
      each of those edges has a last job. */
  predicate Leading(accepted: seq<JobId>, edges: seq<FailedSequence>) {
    |accepted| <= |edges| && forall k :: 0 <= k < |accepted| ==> |edges[k].chosenJobIds| > 0
  }

  /** No accepted alternative is the job its edge protects. */
  predicate Avoiding(accepted: seq<JobId>, edges: seq<FailedSequence>)
    requires Leading(accepted, edges)
  {
    forall k :: 0 <= k < |accepted| ==> accepted[k] != ForbiddenJob(edges[k])
  }

  /** The constraint tried for one alternative job of an edge. */
  function Tried(alternative: JobId, forbidden: JobId): PrecedenceConstraint {
    PrecedenceConstraint(alternative, forbidden, Interval(0, 0))
  }

  /** The constraints kept for the accepted alternatives of the first edges,
      one per edge, in edge order. */
  function Pushed(accepted: seq<JobId>, edges: seq<FailedSequence>): (r: seq<PrecedenceConstraint>)
    requires Leading(accepted, edges)
  {
    seq(|accepted|, k requires 0 <= k < |accepted| => Tried(accepted[k], ForbiddenJob(edges[k])))
  }

  /** The solutions for the accepted alternatives, one per edge. */
  function SolutionsFor(accepted: seq<JobId>, edges: seq<FailedSequence>): (r: seq<Solution>)
    requires Leading(accepted, edges)
  {
    seq(|accepted|, k requires 0 <= k < |accepted| => PrecedenceSolution(accepted[k], ForbiddenJob(edges[k])))
  }

  /** Every solution proposes the constraint that was kept for it, apart from
      the suspension: `apply` uses a default interval, the search ran with
      [0, 0]. */
  lemma SolutionsMatchPushed(accepted: seq<JobId>, edges: seq<FailedSequence>)
    requires Leading(accepted, edges)
    ensures |SolutionsFor(accepted, edges)| == |Pushed(accepted, edges)|
    ensures forall k :: 0 <= k < |accepted| ==>
              ConstraintOf(SolutionsFor(accepted, edges)[k]) == Pushed(accepted, edges)[k].(suspension := DefaultInterval)
  {
  }

  /** Each accepted alternative made the problem schedulable once its
      constraint was added behind those of the edges before it. */
  predicate SchedulableAfterEach(search: AlternativeSearch, jobs: seq<Job>, prec: seq<PrecedenceConstraint>,
                                 accepted: seq<JobId>, edges: seq<FailedSequence>)
    requires Leading(accepted, edges)
  {
    forall n :: 0 < n <= |accepted| ==> SchedulableAfter(search, jobs, prec, accepted, edges, n)
  }

  /** The search found the problem schedulable with the constraints of the
      first `n` accepted alternatives added. */
  predicate SchedulableAfter(search: AlternativeSearch, jobs: seq<Job>, prec: seq<PrecedenceConstraint>,
                             accepted: seq<JobId>, edges: seq<FailedSequence>, n: nat)
    requires Leading(accepted, edges) && n <= |accepted|
  {
    search.schedulable(SchedulingProblem(jobs, prec + Pushed(accepted[..n], edges)), edges)
  }

  /** Accepting one more alternative whose search succeeded keeps the facts
      about the earlier ones. */
  lemma SchedulableAfterExtend(search: AlternativeSearch, jobs: seq<Job>, prec: seq<PrecedenceConstraint>,
                               accepted: seq<JobId>, a: JobId, edges: seq<FailedSequence>)
    requires |accepted| < |edges| && Leading(accepted, edges) && |edges[|accepted|].chosenJobIds| > 0
    requires SchedulableAfterEach(search, jobs, prec, accepted, edges)
    requires search.schedulable(SchedulingProblem(jobs, prec + Pushed(accepted + [a], edges)), edges)
    ensures SchedulableAfterEach(search, jobs, prec, accepted + [a], edges)
  {
    var grown := accepted + [a];
    forall n | 0 < n <= |grown|
      ensures SchedulableAfter(search, jobs, prec, grown, edges, n)
    {
      if n <= |accepted| {
        assert grown[..n] == accepted[..n];
        assert SchedulableAfter(search, jobs, prec, accepted, edges, n);
      } else {
        assert grown[..n] == grown;
      }
    }
  }

  /** Of the constraints tried from `candidates` to `forbidden` behind
      `base`, the one from `candidates[position]` is the first with which
      the search found the problem schedulable. */
  predicate FirstWorkingAt(search: AlternativeSearch, jobs: seq<Job>, base: seq<PrecedenceConstraint>,
                           edges: seq<FailedSequence>, candidates: seq<JobId>, forbidden: JobId, position: nat)
  {
    position < |candidates|
    && search.schedulable(SchedulingProblem(jobs, base + [Tried(candidates[position], forbidden)]), edges)
    && forall m :: 0 <= m < position ==>
         !search.schedulable(SchedulingProblem(jobs, base + [Tried(candidates[m], forbidden)]), edges)
  }

  /** With none of the constraints tried from `candidates` to `forbidden`
      behind `base` did the search find the problem schedulable. */
  predicate AllFailed(search: AlternativeSearch, jobs: seq<Job>, base: seq<PrecedenceConstraint>,
                      edges: seq<FailedSequence>, candidates: seq<JobId>, forbidden: JobId)
  {
    forall m :: 0 <= m < |candidates| ==>
      !search.schedulable(SchedulingProblem(jobs, base + [Tried(candidates[m], forbidden)]), edges)
  }

  /** The alternative lists of one search and no alternatives for any
      failure yet. */
  function NoAlternatives(n: nat): (r: seq<seq<JobId>>)
    ensures |r| == n && forall k :: 0 <= k < n ==> r[k] == []
  {
    seq(n, _ => [])
  }

  /** One more accepted alternative adds its constraint behind the others. */
  lemma PushedExtend(accepted: seq<JobId>, a: JobId, edges: seq<FailedSequence>)
    requires |accepted| < |edges| && Leading(accepted, edges) && |edges[|accepted|].chosenJobIds| > 0
    ensures Pushed(accepted + [a], edges) == Pushed(accepted, edges) + [Tried(a, ForbiddenJob(edges[|accepted|]))]
    ensures SolutionsFor(accepted + [a], edges)
         == SolutionsFor(accepted, edges) + [PrecedenceSolution(a, ForbiddenJob(edges[|accepted|]))]
  {
  }

  class PrecedenceReconfigurator {
    /** The caller's problem, which is never changed. */
    const originalProblem: SchedulingProblem
    /** The working copy that the constraints are tried on. */
    const adaptedProblem: Problem
    /** The searches run with the alternative agent. */
    const search: AlternativeSearch
    var forbiddenEdges: seq<FailedSequence>

    /** Copies the problem and keeps the failures as the first forbidden
        edges. */
    constructor(problem: SchedulingProblem, failures: seq<FailedSequence>, alternativeSearch: AlternativeSearch)
      ensures originalProblem == problem && fresh(adaptedProblem) && adaptedProblem.Value() == problem
      ensures forbiddenEdges == failures && search == alternativeSearch
    {
      originalProblem := problem;
      adaptedProblem := new Problem(problem);
      search := alternativeSearch;
      forbiddenEdges := failures;
    }

    /** `find_all_problematic_edges`: repeats the exhaustive failure search,
        the i-th search being `rounds[i]`. A schedulable verdict takes that
        round's failures as the forbidden edges; otherwise an instant
        failure gives up with the edges as they were. The verdict is looked
        at before the instant failure. Nothing else changes. */
    method FindAllProblematicEdges(rounds: seq<Round>) returns (outcome: Outcome)
      modifies this
      ensures FirstDecisive(rounds).None? ==> outcome == OutOfRounds && forbiddenEdges == old(forbiddenEdges)
      ensures FirstDecisive(rounds).Some? && rounds[FirstDecisive(rounds).value].schedulable ==>
                outcome == Schedulable && forbiddenEdges == rounds[FirstDecisive(rounds).value].failures
      ensures FirstDecisive(rounds).Some? && !rounds[FirstDecisive(rounds).value].schedulable ==>
                outcome == Hopeless && forbiddenEdges == old(forbiddenEdges)
    {
      outcome := OutOfRounds;
      var index := 0;
      while index < |rounds| && outcome == OutOfRounds
        invariant 0 <= index <= |rounds|
        invariant outcome == OutOfRounds ==>
                    forbiddenEdges == old(forbiddenEdges) && forall m :: 0 <= m < index ==> !Decisive(rounds[m])
        invariant outcome != OutOfRounds ==> FirstDecisive(rounds) == Some(index - 1)
        invariant outcome == Schedulable ==>
                    rounds[index - 1].schedulable && forbiddenEdges == rounds[index - 1].failures
        invariant outcome == Hopeless ==> !rounds[index - 1].schedulable && forbiddenEdges == old(forbiddenEdges)
      {
        if rounds[index].schedulable {
          forbiddenEdges := rounds[index].failures;
          outcome := Schedulable;
        } else if rounds[index].instantFailure {
          outcome := Hopeless;
        }
        FirstDecisiveAt(rounds, index);
        index := index + 1;
      }
      if outcome == OutOfRounds {
        FirstDecisiveAt(rounds, |rounds|);
      }
    }

    /** The inner loop of `find_local_minimal_solution` for one edge: for
        each alternative of `candidates` in turn, adds the constraint from it
        to `forbidden`, searches, and keeps the constraint and stops when the
        problem became schedulable, or removes it again. `ok` is false when
        the agent reaches its undefined case; `position` is the index of the
        accepted alternative. */
    method TryAlternatives(agent: AgentFailureAlternativeSearch, candidates: seq<JobId>, forbidden: JobId)
      returns (ok: bool, found: Option<JobId>, ghost position: nat)
      requires agent.failures == forbiddenEdges && agent.AvoidsLast()
      modifies adaptedProblem, agent
      ensures adaptedProblem.jobs == old(adaptedProblem.jobs) && agent.AvoidsLast()
      ensures forall k :: 0 <= k < |agent.failures| ==> old(agent.alternatives[k]) <= agent.alternatives[k]
      ensures ok && found.Some? ==>
                position < |candidates| && found.value == candidates[position]
                && adaptedProblem.prec == old(adaptedProblem.prec) + [Tried(found.value, forbidden)]
                && search.schedulable(adaptedProblem.Value(), forbiddenEdges)
      ensures ok ==> forall m :: 0 <= m < |candidates| && (found.None? || m < position) ==>
                !search.schedulable(SchedulingProblem(adaptedProblem.jobs,
                                                      old(adaptedProblem.prec) + [Tried(candidates[m], forbidden)]),
                                    forbiddenEdges)
      ensures ok && found.None? ==> adaptedProblem.prec == old(adaptedProblem.prec)
      ensures ok && found.Some? ==>
                FirstWorkingAt(search, adaptedProblem.jobs, old(adaptedProblem.prec), forbiddenEdges, candidates, forbidden, position)
      ensures ok && found.None? ==>
                AllFailed(search, adaptedProblem.jobs, old(adaptedProblem.prec), forbiddenEdges, candidates, forbidden)
    {
      ghost var prec := adaptedProblem.prec;
      ok, found, position := true, None, 0;
      var index := 0;
      while index < |candidates| && ok && found.None?
        invariant 0 <= index <= |candidates| && adaptedProblem.jobs == old(adaptedProblem.jobs)
        invariant agent.AvoidsLast()
        invariant forall k :: 0 <= k < |agent.failures| ==> old(agent.alternatives[k]) <= agent.alternatives[k]
        invariant ok && found.None? ==> adaptedProblem.prec == prec
        invariant ok && found.Some? ==>
                    position == index - 1 && found.value == candidates[position]
                    && adaptedProblem.prec == prec + [Tried(found.value, forbidden)]
                    && search.schedulable(adaptedProblem.Value(), forbiddenEdges)
        invariant ok ==> forall m :: 0 <= m < index && (found.None? || m < position) ==>
                    !search.schedulable(SchedulingProblem(adaptedProblem.jobs, prec + [Tried(candidates[m], forbidden)]),
                                        forbiddenEdges)
      {
        var alternative := candidates[index];
        adaptedProblem.prec := adaptedProblem.prec + [Tried(alternative, forbidden)];
        var tried := adaptedProblem.Value();
        ok := agent.Explore(search.pass(tried, forbiddenEdges));
        if ok {
          if search.schedulable(tried, forbiddenEdges) {
            found, position := Some(alternative), index;
          } else {
            adaptedProblem.prec := adaptedProblem.prec[..|adaptedProblem.prec| - 1];
          }
        }
        index := index + 1;
      }
      if ok && found.Some? {
        assert adaptedProblem.Value() == SchedulingProblem(adaptedProblem.jobs, prec + [Tried(candidates[position], forbidden)]);
      }
    }

    /** `find_local_minimal_solution`: settles the forbidden edges, runs one
        search with the alternative agent, then looks for one accepted
        alternative per edge, in edge order, among the alternatives the
        agent has recorded for that edge when the edge's turn comes. The
        result is one solution per edge, or empty as soon as an edge gets
        none; `accepted` lists the alternatives kept in the problem. `None`
        stands for the cases the source does not get out of: the rounds run
        out, the agent's undefined case, or an empty edge reached. The jobs
        are never changed; only the kept constraints are added. */
    method FindLocalMinimalSolution(rounds: seq<Round>)
      returns (r: Option<seq<Solution>>, ghost accepted: seq<JobId>, ghost turns: seq<seq<JobId>>, ghost positions: seq<nat>)
      modifies this, adaptedProblem
      ensures FirstDecisive(rounds).None? ==> r.None?
      ensures r.Some? ==> FirstDecisive(rounds).Some?
                          && forbiddenEdges == if rounds[FirstDecisive(rounds).value].schedulable
                                               then rounds[FirstDecisive(rounds).value].failures
                                               else old(forbiddenEdges)
      ensures adaptedProblem.jobs == old(adaptedProblem.jobs)
      ensures r.Some? ==> Leading(accepted, forbiddenEdges) && Avoiding(accepted, forbiddenEdges)
      ensures r.Some? ==> adaptedProblem.prec == old(adaptedProblem.prec) + Pushed(accepted, forbiddenEdges)
      ensures r.Some? ==> SchedulableAfterEach(search, adaptedProblem.jobs, old(adaptedProblem.prec), accepted, forbiddenEdges)
      ensures r.Some? ==> (|accepted| == |forbiddenEdges| && r.value == SolutionsFor(accepted, forbiddenEdges))
                          || (|accepted| < |forbiddenEdges| && r.value == [])
      ensures r.Some? ==>
                |positions| == |accepted| && |turns| == |accepted| + (if |accepted| < |forbiddenEdges| then 1 else 0)
      ensures r.Some? ==>
                forall k :: 0 <= k < |accepted| ==>
                  FirstWorkingAt(search, adaptedProblem.jobs, old(adaptedProblem.prec) + Pushed(accepted[..k], forbiddenEdges),
                                 forbiddenEdges, turns[k], ForbiddenJob(forbiddenEdges[k]), positions[k])
                  && accepted[k] == turns[k][positions[k]]
      ensures r.Some? && |accepted| < |forbiddenEdges| ==>
                |forbiddenEdges[|accepted|].chosenJobIds| > 0
                && AllFailed(search, adaptedProblem.jobs, old(adaptedProblem.prec) + Pushed(accepted, forbiddenEdges),
                             forbiddenEdges, turns[|accepted|], ForbiddenJob(forbiddenEdges[|accepted|]))
      ensures r.Some? ==>
                var first := AlternativeReplay(forbiddenEdges, NoAlternatives(|forbiddenEdges|),
                                               search.pass(old(adaptedProblem.Value()), forbiddenEdges));
                first.Some? && forall k :: 0 <= k < |turns| ==> first.value.alternatives[k] <= turns[k]
    {
      accepted, turns, positions := [], [], [];
      var outcome := FindAllProblematicEdges(rounds);
      if outcome == OutOfRounds {
        return None, accepted, turns, positions;
      }
      var agent := new AgentFailureAlternativeSearch(forbiddenEdges);
      assert agent.alternatives == NoAlternatives(|forbiddenEdges|);
      var ok := agent.Explore(search.pass(adaptedProblem.Value(), forbiddenEdges));
      if !ok {
        return None, accepted, turns, positions;
      }
      var step, solutions;
      step, solutions, accepted, turns, positions := SolveEdges(agent);
      if step == Undefined {
        return None, accepted, turns, positions;
      } else if step == NoSolution {
        return Some([]), accepted, turns, positions;
      }
      return Some(solutions), accepted, turns, positions;
    }

    /** The outer loop of `find_local_minimal_solution`: one turn per
        forbidden edge, in edge order, until an edge gets no alternative
        (`NoSolution`), the behaviour is undefined, or every edge has one
        (`Continue`). `turns[k]` are the alternatives the agent had
        recorded for the k-th edge when its turn came, and `positions[k]`
        is the index of the one accepted among them. */
    method SolveEdges(agent: AgentFailureAlternativeSearch)
      returns (step: EdgeStep, solutions: seq<Solution>, ghost accepted: seq<JobId>,
               ghost turns: seq<seq<JobId>>, ghost positions: seq<nat>)
      requires agent.failures == forbiddenEdges && agent.AvoidsLast()
      modifies adaptedProblem, agent
      ensures adaptedProblem.jobs == old(adaptedProblem.jobs)
      ensures Leading(accepted, forbiddenEdges) && Avoiding(accepted, forbiddenEdges)
      ensures step != Undefined ==>
                adaptedProblem.prec == old(adaptedProblem.prec) + Pushed(accepted, forbiddenEdges)
                && SchedulableAfterEach(search, adaptedProblem.jobs, old(adaptedProblem.prec), accepted, forbiddenEdges)
      ensures step == Continue ==> |accepted| == |forbiddenEdges| && solutions == SolutionsFor(accepted, forbiddenEdges)
      ensures step == NoSolution ==> |accepted| < |forbiddenEdges|
      ensures step != Undefined ==>
                |positions| == |accepted| && |turns| == |accepted| + (if step == NoSolution then 1 else 0)
                && forall k :: 0 <= k < |turns| ==> old(agent.alternatives[k]) <= turns[k]
      ensures step != Undefined ==>
                forall k :: 0 <= k < |accepted| ==>
                  FirstWorkingAt(search, adaptedProblem.jobs, old(adaptedProblem.prec) + Pushed(accepted[..k], forbiddenEdges),
                                 forbiddenEdges, turns[k], ForbiddenJob(forbiddenEdges[k]), positions[k])
                  && accepted[k] == turns[k][positions[k]]
      ensures step == NoSolution ==>
                |forbiddenEdges[|accepted|].chosenJobIds| > 0
                && AllFailed(search, adaptedProblem.jobs, old(adaptedProblem.prec) + Pushed(accepted, forbiddenEdges),
                             forbiddenEdges, turns[|accepted|], ForbiddenJob(forbiddenEdges[|accepted|]))
    {
      ghost var first := agent.alternatives;
      accepted, turns, positions := [], [], [];
      var edges := forbiddenEdges;
      var jobs := adaptedProblem.jobs;
      ghost var prec := adaptedProblem.prec;
      solutions := [];
      var index := 0;
      step := Continue;
      while index < |edges| && step == Continue
        invariant 0 <= index <= |edges| && index == |accepted| && forbiddenEdges == edges
        invariant agent.failures == edges && agent.AvoidsLast() && adaptedProblem.jobs == jobs
        invariant Leading(accepted, edges) && Avoiding(accepted, edges)
        invariant step != Undefined ==>
                    adaptedProblem.prec == prec + Pushed(accepted, edges)
                    && SchedulableAfterEach(search, jobs, prec, accepted, edges)
        invariant step == Continue ==> solutions == SolutionsFor(accepted, edges)
        invariant step == NoSolution ==> index < |edges|
        invariant |agent.alternatives| == |edges| && forall k :: 0 <= k < |edges| ==> first[k] <= agent.alternatives[k]
        invariant step != Undefined ==>
                    |positions| == |accepted| && |turns| == |accepted| + (if step == NoSolution then 1 else 0)
                    && (forall k :: 0 <= k < |turns| ==> first[k] <= turns[k])
        invariant step != Undefined ==>
                    forall k :: 0 <= k < |accepted| ==>
                      FirstWorkingAt(search, jobs, prec + Pushed(accepted[..k], edges), edges,
                                     turns[k], ForbiddenJob(edges[k]), positions[k])
                      && accepted[k] == turns[k][positions[k]]
        invariant step == NoSolution ==>
                    |edges[index].chosenJobIds| > 0
                    && AllFailed(search, jobs, prec + Pushed(accepted, edges), edges, turns[index], ForbiddenJob(edges[index]))
        decreases |edges| - index, if step == Continue then 1 else 0
      {
        ghost var before := accepted;
        ghost var turn, position;
        step, solutions, accepted, turn, position := SolveEdge(agent, index, solutions, accepted, prec);
        turns := turns + [turn];
        if step == Continue {
          positions := positions + [position];
          assert accepted[..index] == before;
          assert forall k :: 0 <= k < index ==> accepted[..k] == before[..k];
          index := index + 1;
        }
      }
      if step == Continue {
        assert accepted[..|accepted|] == accepted;
      }
    }

    /** One turn of the outer loop of `find_local_minimal_solution`, for the
        edge at `index`: tries the alternatives the agent has recorded for it
        so far, and on success records the solution. */
    method SolveEdge(agent: AgentFailureAlternativeSearch, index: nat, solutions: seq<Solution>,
                     ghost accepted: seq<JobId>, ghost prec: seq<PrecedenceConstraint>)
      returns (step: EdgeStep, rSolutions: seq<Solution>, ghost rAccepted: seq<JobId>,
               ghost turn: seq<JobId>, ghost position: nat)
      requires index == |accepted| < |forbiddenEdges| && agent.failures == forbiddenEdges && agent.AvoidsLast()
      requires Leading(accepted, forbiddenEdges) && Avoiding(accepted, forbiddenEdges)
      requires adaptedProblem.prec == prec + Pushed(accepted, forbiddenEdges)
      requires SchedulableAfterEach(search, adaptedProblem.jobs, prec, accepted, forbiddenEdges)
      requires solutions == SolutionsFor(accepted, forbiddenEdges)
      modifies adaptedProblem, agent
      ensures adaptedProblem.jobs == old(adaptedProblem.jobs) && agent.AvoidsLast()
      ensures step == Continue ==> |rAccepted| == index + 1 && rAccepted == accepted + [rAccepted[index]]
      ensures step != Continue ==> rAccepted == accepted && rSolutions == solutions
      ensures Leading(rAccepted, forbiddenEdges) && Avoiding(rAccepted, forbiddenEdges)
      ensures step != Undefined ==>
                adaptedProblem.prec == prec + Pushed(rAccepted, forbiddenEdges)
                && SchedulableAfterEach(search, adaptedProblem.jobs, prec, rAccepted, forbiddenEdges)
      ensures step == Continue ==> rSolutions == SolutionsFor(rAccepted, forbiddenEdges)
      ensures forall k :: 0 <= k < |forbiddenEdges| ==> old(agent.alternatives[k]) <= agent.alternatives[k]
      ensures turn == old(agent.alternatives[index])
      ensures step == Continue ==>
                FirstWorkingAt(search, adaptedProblem.jobs, prec + Pushed(accepted, forbiddenEdges), forbiddenEdges,
                               turn, ForbiddenJob(forbiddenEdges[index]), position)
                && rAccepted[index] == turn[position]
      ensures step == NoSolution ==>
                |forbiddenEdges[index].chosenJobIds| > 0
                && AllFailed(search, adaptedProblem.jobs, prec + Pushed(accepted, forbiddenEdges), forbiddenEdges,
                             turn, ForbiddenJob(forbiddenEdges[index]))
    {
      rAccepted, rSolutions := accepted, solutions;
      turn, position := agent.alternatives[index], 0;
      var ids := forbiddenEdges[index].chosenJobIds;
      if |ids| == 0 {
        return Undefined, rSolutions, rAccepted, turn, position;
      }
      var forbidden := ids[|ids| - 1];
      var candidates := agent.alternatives[index];
      assert forall j :: 0 <= j < |candidates| ==> candidates[j] != forbidden;
      var ok, found;
      ok, found, position := TryAlternatives(agent, candidates, forbidden);
      if !ok {
        step := Undefined;
      } else if found.Some? {
        PushedExtend(accepted, found.value, forbiddenEdges);
        assert adaptedProblem.prec == prec + Pushed(accepted + [found.value], forbiddenEdges);
        SchedulableAfterExtend(search, adaptedProblem.jobs, prec, accepted, found.value, forbiddenEdges);
        rSolutions := rSolutions + [PrecedenceSolution(found.value, forbidden)];
        rAccepted := rAccepted + [found.value];
        step := Continue;
      } else {
        step := NoSolution;
      }
    }
  }

  /** The first decisive round is found at `index` exactly when the rounds
      before it are not decisive and it is. */
  lemma {:induction false} FirstDecisiveAt(rounds: seq<Round>, index: nat)
    requires index <= |rounds| && forall m :: 0 <= m < index ==> !Decisive(rounds[m])
    ensures index < |rounds| && Decisive(rounds[index]) ==> FirstDecisive(rounds) == Some(index)
    ensures index == |rounds| ==> FirstDecisive(rounds) == None
    decreases index
  {
    if index > 0 {
      FirstDecisiveAt(rounds[1..], index - 1);
    }
  }
}
