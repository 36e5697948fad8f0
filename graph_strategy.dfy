/** `apply_graph_strategy` of graph_strategy.hpp: works through the cuts of a
    rating graph, shortest prefix first, and for each cut that the search
    does not yet respect looks for the first precedence attempt that makes
    it respected without unexpected failures at the remaining cuts. The
    rating graph and its cuts come from searches of the problem, so the
    cuts are an input; every later search is a replay of the calls that a
    caller-supplied search function makes for the problem at that moment. */
module GraphStrategy {
  import opened ProblemModel
  import opened Search
  import opened SubGraphs
  import opened Solutions
  import opened Attempts
  import opened AttemptGenerator
  import CutExplore
  import CutCheck
  import CutTest

  /** The searches the strategy starts, as functions of the problem and of
      the cuts in force: the successive searches of `explore_forbidden_jobs`,
      the one search of `was_cut_performed`, and the one search of
      `Agent_cut_test::perform` together with its verdict. */
  datatype Searches = Searches(
    explore: (SchedulingProblem, RatingGraphCut) -> seq<seq<Event>>,
    check: (SchedulingProblem, RatingGraphCut) -> seq<Event>,
    test: (SchedulingProblem, seq<RatingGraphCut>) -> seq<Event>,
    testSchedulable: (SchedulingProblem, seq<RatingGraphCut>) -> bool)

  /** The sub-graph of a cut can be walked by `length`. */
  ghost predicate Measurable(cut: RatingGraphCut)
    reads cut.previousJobs
  {
    cut.previousJobs.Valid() && FirstEdgesForward(cut.previousJobs.nodes)
  }

  /** The length of the prefix that leads to the cut. */
  ghost function PrefixLength(cut: RatingGraphCut): nat
    reads cut.previousJobs
    requires Measurable(cut)
  {
    WalkLength(cut.previousJobs.nodes, 0)
  }

  /** The prefix of `c` is no longer than that of `d`. */
  ghost predicate NoLongerThan(c: RatingGraphCut, d: RatingGraphCut)
    reads c.previousJobs, d.previousJobs
  {
    Measurable(c) && Measurable(d) && PrefixLength(c) <= PrefixLength(d)
  }

  /** The jobs of the cut are jobs of the problem. */
  predicate InProblem(cut: RatingGraphCut, jobs: seq<Job>) {
    (forall k :: 0 <= k < |cut.allowedJobs| ==> cut.allowedJobs[k] < |jobs|)
    && (forall k :: 0 <= k < |cut.forbiddenJobs| ==> cut.forbiddenJobs[k] < |jobs|)
  }

  /** Two cuts that differ at most in their extra jobs. */
  predicate SameCut(c: RatingGraphCut, d: RatingGraphCut) {
    c.previousJobs == d.previousJobs && c.allowedJobs == d.allowedJobs && c.forbiddenJobs == d.forbiddenJobs
  }

  /** `compare_cut_backward`: the first cut has the longer prefix. */
  method CompareCutBackward(cut1: RatingGraphCut, cut2: RatingGraphCut) returns (r: bool)
    requires Measurable(cut1) && Measurable(cut2)
    ensures r <==> PrefixLength(cut1) > PrefixLength(cut2)
  {
    var length1 := cut1.previousJobs.Length();
    var length2 := cut2.previousJobs.Length();
    return length1 > length2;
  }

  /** The prefix length of each cut, measured by `length`. */
  method MeasureCuts(cuts: seq<RatingGraphCut>) returns (lengths: seq<nat>)
    requires forall i :: 0 <= i < |cuts| ==> Measurable(cuts[i])
    ensures |lengths| == |cuts| && forall i :: 0 <= i < |cuts| ==> lengths[i] == PrefixLength(cuts[i])
  {
    lengths := [];
    var index := 0;
    while index < |cuts|
      invariant 0 <= index <= |cuts| && |lengths| == index
      invariant forall i :: 0 <= i < index ==> lengths[i] == PrefixLength(cuts[i])
    {
      var length := cuts[index].previousJobs.Length();
      lengths := lengths + [length];
      index := index + 1;
    }
  }

  /** A cut together with its measured prefix length. */
  datatype Measured = Measured(cut: RatingGraphCut, length: nat)

  predicate Nonincreasing(s: seq<Measured>) {
    forall i, j :: 0 <= i < j < |s| ==> s[i].length >= s[j].length
  }

  /** The cuts of a list of measured cuts. */
  function Cuts(s: seq<Measured>): (r: seq<RatingGraphCut>)
    ensures |r| == |s| && forall i :: 0 <= i < |s| ==> r[i] == s[i].cut
  {
    seq(|s|, k requires 0 <= k < |s| => s[k].cut)
  }

  /** One insertion step of the sort: `e` goes in front of the first entry
      with a shorter prefix. */
  function InsertBackward(sorted: seq<Measured>, e: Measured): (r: seq<Measured>)
    ensures |r| == |sorted| + 1
  {
    if sorted == [] || e.length > sorted[0].length then [e] + sorted
    else [sorted[0]] + InsertBackward(sorted[1..], e)
  }

  /** The insertion adds the entry `e` and nothing else. */
  lemma {:induction false} InsertedEntries(sorted: seq<Measured>, e: Measured)
    ensures multiset(InsertBackward(sorted, e)) == multiset(sorted) + multiset{e}
    decreases |sorted|
  {
    if sorted != [] && e.length <= sorted[0].length {
      InsertedEntries(sorted[1..], e);
      assert sorted == [sorted[0]] + sorted[1..];
    }
  }

  /** The insertion keeps the list nonincreasing. */
  lemma {:induction false} InsertedOrder(sorted: seq<Measured>, e: Measured)
    requires Nonincreasing(sorted)
    ensures Nonincreasing(InsertBackward(sorted, e))
    ensures InsertBackward(sorted, e)[0] == e || (sorted != [] && InsertBackward(sorted, e)[0] == sorted[0])
    decreases |sorted|
  {
    if sorted != [] && e.length <= sorted[0].length {
      var rest := InsertBackward(sorted[1..], e);
      InsertedOrder(sorted[1..], e);
      assert rest[0].length <= sorted[0].length;
      assert InsertBackward(sorted, e) == [sorted[0]] + rest;
    }
  }

  /** The insertion adds `e`'s cut to the cuts and nothing else. */
  lemma {:induction false} InsertedCuts(sorted: seq<Measured>, e: Measured)
    ensures multiset(Cuts(InsertBackward(sorted, e))) == multiset(Cuts(sorted)) + multiset{e.cut}
    decreases |sorted|
  {
    if sorted == [] || e.length > sorted[0].length {
      assert Cuts([e] + sorted) == [e.cut] + Cuts(sorted);
    } else {
      var rest := InsertBackward(sorted[1..], e);
      calc {
        multiset(Cuts(InsertBackward(sorted, e)));
        multiset(Cuts([sorted[0]] + rest));
        { assert Cuts([sorted[0]] + rest) == [sorted[0].cut] + Cuts(rest); }
        multiset{sorted[0].cut} + multiset(Cuts(rest));
        { InsertedCuts(sorted[1..], e); }
        multiset{sorted[0].cut} + multiset(Cuts(sorted[1..])) + multiset{e.cut};
        { assert Cuts(sorted) == [sorted[0].cut] + Cuts(sorted[1..]); }
        multiset(Cuts(sorted)) + multiset{e.cut};
      }
    }
  }

  /** Insertion sort by nonincreasing length. */
  function SortBackward(s: seq<Measured>): (r: seq<Measured>)
    ensures |r| == |s|
  {
    if s == [] then [] else InsertBackward(SortBackward(s[..|s| - 1]), s[|s| - 1])
  }

  /** Sorting orders the entries longest first. */
  lemma {:induction false} SortedOrder(s: seq<Measured>)
    ensures Nonincreasing(SortBackward(s))
    decreases |s|
  {
    if s != [] {
      SortedOrder(s[..|s| - 1]);
      InsertedOrder(SortBackward(s[..|s| - 1]), s[|s| - 1]);
    }
  }

  /** Sorting keeps the entries. */
  lemma {:induction false} SortedEntries(s: seq<Measured>)
    ensures multiset(SortBackward(s)) == multiset(s)
    decreases |s|
  {
    if s != [] {
      var init, last := s[..|s| - 1], s[|s| - 1];
      SortedEntries(init);
      InsertedEntries(SortBackward(init), last);
      assert s == init + [last];
    }
  }

  /** Sorting keeps the cuts. */
  lemma {:induction false} SortedCuts(s: seq<Measured>)
    ensures multiset(Cuts(SortBackward(s))) == multiset(Cuts(s))
    decreases |s|
  {
    if s != [] {
      var init, last := s[..|s| - 1], s[|s| - 1];
      calc {
        multiset(Cuts(SortBackward(s)));
        multiset(Cuts(InsertBackward(SortBackward(init), last)));
        { InsertedCuts(SortBackward(init), last); }
        multiset(Cuts(SortBackward(init))) + multiset{last.cut};
        { SortedCuts(init); }
        multiset(Cuts(init)) + multiset{last.cut};
        multiset(Cuts(init) + [last.cut]);
        { assert Cuts(s) == Cuts(init) + [last.cut]; }
        multiset(Cuts(s));
      }
    }
  }

  /** The recorded length of `e` is its cut's prefix length. */
  ghost predicate Honest(e: Measured)
    reads e.cut.previousJobs
  {
    Measurable(e.cut) && e.length == PrefixLength(e.cut)
  }

  /** Sorting keeps every entry honest. */
  lemma SortedHonest(entries: seq<Measured>)
    requires forall i :: 0 <= i < |entries| ==> Honest(entries[i])
    ensures forall i :: 0 <= i < |SortBackward(entries)| ==> Honest(SortBackward(entries)[i])
  {
    var ordered := SortBackward(entries);
    SortedEntries(entries);
    forall i | 0 <= i < |ordered|
      ensures Honest(ordered[i])
    {
      assert ordered[i] in multiset(entries);
      var k :| 0 <= k < |entries| && entries[k] == ordered[i];
    }
  }

  /** The `std::sort` with `compare_cut_backward`: the same cuts, longer
      prefixes first. Each prefix is measured once; `length` does not
      change the sub-graph, so this orders the cuts as the comparator
      does. `lengths` are the prefix lengths in the sorted order. */
  method SortCutsBackward(cuts: seq<RatingGraphCut>) returns (sorted: seq<RatingGraphCut>, ghost lengths: seq<nat>)
    requires forall i :: 0 <= i < |cuts| ==> Measurable(cuts[i])
    ensures multiset(sorted) == multiset(cuts) && |lengths| == |sorted|
    ensures forall i :: 0 <= i < |sorted| ==> sorted[i] in cuts
    ensures forall i :: 0 <= i < |sorted| ==> Measurable(sorted[i]) && lengths[i] == PrefixLength(sorted[i])
    ensures forall i, j :: 0 <= i < j < |lengths| ==> lengths[i] >= lengths[j]
  {
    var measured := MeasureCuts(cuts);
    var entries := seq(|cuts|, k requires 0 <= k < |cuts| => Measured(cuts[k], measured[k]));
    assert forall i :: 0 <= i < |entries| ==> Honest(entries[i]);
    var ordered := SortBackward(entries);
    SortedHonest(entries);
    SortedOrder(entries);
    SortedCuts(entries);
    assert Cuts(entries) == cuts;
    sorted := Cuts(ordered);
    lengths := seq(|ordered|, k requires 0 <= k < |ordered| => ordered[k].length);
    forall i | 0 <= i < |sorted|
      ensures sorted[i] in cuts
    {
      assert sorted[i] in multiset(sorted);
    }
    assert forall i :: 0 <= i < |ordered| ==> Honest(ordered[i]);
  }

  /** Every attempt names jobs of `jobs`. */
  predicate AllIndex(attempts: seq<PrecedenceAttempt>, jobs: seq<Job>) {
    forall k :: 0 <= k < |attempts| ==> Indexes(attempts[k], jobs)
  }

  /** The problem once the first `count` attempts have each been tried and
      undone. */
  function Rejected(p: SchedulingProblem, attempts: seq<PrecedenceAttempt>, count: nat): (r: SchedulingProblem)
    requires count <= |attempts| && AllIndex(attempts, p.jobs)
    ensures r.jobs == p.jobs
  {
    if count == 0 then p else Undone(Rejected(p, attempts, count - 1), attempts[count - 1])
  }

  /** Rejected attempts leave a problem as they found it when it had none of
      the constraints they erase. */
  lemma {:induction false} RejectedRestores(p: SchedulingProblem, attempts: seq<PrecedenceAttempt>, count: nat)
    requires count <= |attempts| && AllIndex(attempts, p.jobs)
    requires forall k, m :: 0 <= k < |attempts| && 0 <= m < |p.prec| ==> !Targets(attempts[k], p.jobs, p.prec[m])
    ensures Rejected(p, attempts, count) == p
  {
    if count > 0 {
      RejectedRestores(p, attempts, count - 1);
      KeptUntargeted(attempts[count - 1], p.jobs, p.prec);
    }
  }

  /** What the attempt loop of one cut ended with. */
  datatype Trial = Aborted | Accepted(index: nat) | NoneAccepted

  /** The verdict of `was_cut_performed` for `cut`, whose sub-graph has the
      nodes `sub`, on the search of `p`; `None` is a failed assertion. */
  ghost function CheckVerdict(s: Searches, p: SchedulingProblem, cut: RatingGraphCut, sub: Nodes): Option<int> {
    var st := CutCheck.CheckReplay(sub, cut.allowedJobs, cut.forbiddenJobs, s.check(p, cut));
    if st.None? then None else Some(CutCheck.CutVerdict(st.value.tookCutEdge, st.value.unexpectedFailure))
  }

  /** On `p` the search no longer performs the cut, and the cut test of
      the remaining cuts sees no unexpected failure. */
  ghost predicate Passes(s: Searches, p: SchedulingProblem, cut: RatingGraphCut, sub: Nodes,
                         remaining: seq<RatingGraphCut>) {
    CheckVerdict(s, p, cut, sub) == Some(0) && s.testSchedulable(p, remaining)
  }

  /** None of the first `count` attempts passes when it is tried on `p`
      after the ones before it were tried and undone. */
  ghost predicate FailedBefore(s: Searches, p: SchedulingProblem, attempts: seq<PrecedenceAttempt>, cut: RatingGraphCut,
                               sub: Nodes, remaining: seq<RatingGraphCut>, count: nat)
    requires count <= |attempts| && AllIndex(attempts, p.jobs)
  {
    count == 0
    || (FailedBefore(s, p, attempts, cut, sub, remaining, count - 1)
        && !Passes(s, Attempted(Rejected(p, attempts, count - 1), attempts[count - 1]), cut, sub, remaining))
  }

  /** One more attempt that does not pass keeps the earlier failures. */
  lemma FailedExtend(s: Searches, p: SchedulingProblem, attempts: seq<PrecedenceAttempt>, cut: RatingGraphCut,
                     sub: Nodes, remaining: seq<RatingGraphCut>, count: nat)
    requires count < |attempts| && AllIndex(attempts, p.jobs)
    requires FailedBefore(s, p, attempts, cut, sub, remaining, count)
    requires !Passes(s, Attempted(Rejected(p, attempts, count), attempts[count]), cut, sub, remaining)
    ensures FailedBefore(s, p, attempts, cut, sub, remaining, count + 1)
  {
  }

  /** Where the attempt loop stands after `index` turns: with none accepted
      yet, the problem is `start` with those attempts tried and undone and
      each of them failed; with one accepted, it was the last turn's, every
      earlier one failed, and the problem holds it and passes. */
  ghost predicate Tried(s: Searches, start: SchedulingProblem, attempts: seq<PrecedenceAttempt>, cut: RatingGraphCut,
                        sub: Nodes, remaining: seq<RatingGraphCut>, index: nat, r: Trial, value: SchedulingProblem)
    requires index <= |attempts| && AllIndex(attempts, start.jobs)
  {
    (r.NoneAccepted? ==> value == Rejected(start, attempts, index) && FailedBefore(s, start, attempts, cut, sub, remaining, index))
    && (r.Accepted? ==>
          r.index + 1 == index && FailedBefore(s, start, attempts, cut, sub, remaining, r.index)
          && value == Attempted(Rejected(start, attempts, r.index), attempts[r.index])
          && Passes(s, value, cut, sub, remaining))
  }

  /** The attempt loop for one cut: each attempt in turn is applied; it is
      kept when the cut check then reports 0 and the cut test reports no
      unexpected failures, and it is undone otherwise. The accepted attempt
      is the first that passes; with none accepted, every attempt failed. */
  method TryAttempts(problem: Problem, cut: RatingGraphCut, attempts: seq<PrecedenceAttempt>,
                     remaining: seq<RatingGraphCut>, s: Searches)
    returns (r: Trial)
    requires cut.previousJobs.Valid() && forall i :: 0 <= i < |remaining| ==> remaining[i].previousJobs.Valid()
    requires AllIndex(attempts, problem.jobs)
    modifies problem
    ensures problem.jobs == old(problem.jobs)
    ensures r.Accepted? ==>
              r.index < |attempts|
              && FailedBefore(s, old(problem.Value()), attempts, cut, cut.previousJobs.nodes, remaining, r.index)
              && problem.Value() == Attempted(Rejected(old(problem.Value()), attempts, r.index), attempts[r.index])
              && Passes(s, problem.Value(), cut, cut.previousJobs.nodes, remaining)
    ensures r.NoneAccepted? ==>
              FailedBefore(s, old(problem.Value()), attempts, cut, cut.previousJobs.nodes, remaining, |attempts|)
              && problem.Value() == Rejected(old(problem.Value()), attempts, |attempts|)
  {
    ghost var start := problem.Value();
    ghost var sub := cut.previousJobs.nodes;
    var index := 0;
    while index < |attempts|
      invariant 0 <= index <= |attempts| && problem.jobs == start.jobs && cut.previousJobs.nodes == sub
      invariant Tried(s, start, attempts, cut, sub, remaining, index, NoneAccepted, problem.Value())
      invariant cut.previousJobs.Valid() && forall i :: 0 <= i < |remaining| ==> remaining[i].previousJobs.Valid()
    {
      r := NextAttempt(problem, cut, attempts, index, remaining, s, start);
      if !r.NoneAccepted? {
        return;
      }
      index := index + 1;
    }
    r := NoneAccepted;
  }

  /** One turn of the attempt loop, after the first `index` attempts were
      tried on `start` and undone. */
  method NextAttempt(problem: Problem, cut: RatingGraphCut, attempts: seq<PrecedenceAttempt>, index: nat,
                     remaining: seq<RatingGraphCut>, s: Searches, ghost start: SchedulingProblem)
    returns (r: Trial)
    requires cut.previousJobs.Valid() && forall i :: 0 <= i < |remaining| ==> remaining[i].previousJobs.Valid()
    requires index < |attempts| && AllIndex(attempts, start.jobs)
    requires problem.jobs == start.jobs
    requires Tried(s, start, attempts, cut, cut.previousJobs.nodes, remaining, index, NoneAccepted, problem.Value())
    modifies problem
    ensures problem.jobs == start.jobs
    ensures !r.Aborted? ==> Tried(s, start, attempts, cut, cut.previousJobs.nodes, remaining, index + 1, r, problem.Value())
  {
    var checked, kept := TryAttempt(problem, cut, attempts[index], remaining, s);
    if checked.None? {
      r := Aborted;
    } else if kept {
      r := Accepted(index);
    } else {
      FailedExtend(s, start, attempts, cut, cut.previousJobs.nodes, remaining, index);
      r := NoneAccepted;
    }
  }

  /** One turn of the attempt loop: the attempt is applied, put through
      the cut check and the cut test, and undone unless it passes.
      `checked` is the check's verdict, `None` a failed assertion in it. */
  method TryAttempt(problem: Problem, cut: RatingGraphCut, attempt: PrecedenceAttempt,
                    remaining: seq<RatingGraphCut>, s: Searches)
    returns (checked: Option<int>, kept: bool)
    requires cut.previousJobs.Valid() && forall i :: 0 <= i < |remaining| ==> remaining[i].previousJobs.Valid()
    requires Indexes(attempt, problem.jobs)
    modifies problem
    ensures problem.jobs == old(problem.jobs)
    ensures checked == CheckVerdict(s, Attempted(old(problem.Value()), attempt), cut, cut.previousJobs.nodes)
    ensures kept ==> problem.Value() == Attempted(old(problem.Value()), attempt)
                     && Passes(s, problem.Value(), cut, cut.previousJobs.nodes, remaining)
    ensures !kept && checked.Some? ==>
              problem.Value() == Undone(old(problem.Value()), attempt)
              && !Passes(s, Attempted(old(problem.Value()), attempt), cut, cut.previousJobs.nodes, remaining)
  {
    ghost var before := problem.Value();
    Attempt(attempt, problem);
    checked := CutCheck.WasCutPerformed(cut, s.check(problem.Value(), cut));
    if checked.None? {
      return checked, false;
    }
    if checked.value == 0 {
      var test := CutTest.Perform(remaining, s.test(problem.Value(), remaining), s.testSchedulable(problem.Value(), remaining));
      if !test.hasUnexpectedFailures {
        return checked, true;
      }
    }
    Undo(attempt, problem);
    UndoAfterAttempt(before, attempt);
    return checked, false;
  }

  /** What happened to one cut taken from the list: the problem at that
      moment, the cut as taken and after exploration, the nodes of its
      sub-graph, its check result, the attempts generated for it, the index
      of the attempt accepted, and the problem afterwards. */
  datatype CutRecord = CutRecord(before: SchedulingProblem, candidate: RatingGraphCut, cut: RatingGraphCut, sub: Nodes,
                                 verdict: int, attempts: seq<PrecedenceAttempt>, accepted: Option<nat>,
                                 after: SchedulingProblem)

  /** The solutions proposed for one cut. */
  function ProposedFor(record: CutRecord, jobs: seq<Job>): seq<Solution> {
    if record.accepted.Some? && record.accepted.value < |record.attempts|
       && Indexes(record.attempts[record.accepted.value], jobs)
    then SolutionsOf(record.attempts[record.accepted.value], jobs)
    else []
  }

  /** The solutions proposed for the cuts of `log`, in processing order. */
  function Proposed(log: seq<CutRecord>, jobs: seq<Job>): seq<Solution> {
    if log == [] then [] else Proposed(log[..|log| - 1], jobs) + ProposedFor(log[|log| - 1], jobs)
  }

  /** The recorded cut is what exploring the cut as taken gives, and the
      verdict what the check of the explored cut gives, both on the problem
      the cut was taken on. */
  ghost predicate Examined(s: Searches, record: CutRecord) {
    CutExplore.ExploreRounds(record.sub, record.candidate, -1, s.explore(record.before, record.candidate)).0
      == Some(record.cut)
    && CheckVerdict(s, record.before, record.cut, record.sub) == Some(record.verdict)
  }

  /** The attempts are those generated from the explored cut. */
  predicate Generated(record: CutRecord) {
    GeneratePrecedenceAttempts(record.cut) == Some(record.attempts)
    && forall k :: 0 <= k < |record.attempts| ==> Indexes(record.attempts[k], record.before.jobs)
  }

  /** The cut was examined and either needed no change, or had accepted the
      first generated attempt that passes, which is then in force. */
  ghost predicate SettledCut(s: Searches, record: CutRecord, remaining: seq<RatingGraphCut>) {
    Examined(s, record)
    && if record.verdict == 0 then record.accepted.None? && record.after == record.before
       else
         Generated(record) && record.accepted.Some? && record.accepted.value < |record.attempts|
         && FailedBefore(s, record.before, record.attempts, record.cut, record.sub, remaining, record.accepted.value)
         && record.after == Attempted(Rejected(record.before, record.attempts, record.accepted.value),
                                      record.attempts[record.accepted.value])
         && Passes(s, record.after, record.cut, record.sub, remaining)
  }

  /** The cut was examined, is still performed, and none of the attempts
      generated from it passes; all of them were undone. */
  ghost predicate GaveUpCut(s: Searches, record: CutRecord, remaining: seq<RatingGraphCut>) {
    Examined(s, record) && record.verdict != 0 && Generated(record) && record.accepted.None?
    && FailedBefore(s, record.before, record.attempts, record.cut, record.sub, remaining, |record.attempts|)
    && record.after == Rejected(record.before, record.attempts, |record.attempts|)
  }

  /** Every cut of `log` is settled, the i-th with the cuts still in the
      list after it was taken as the remaining cuts. */
  ghost predicate Settled(s: Searches, log: seq<CutRecord>, sorted: seq<RatingGraphCut>)
    requires |log| <= |sorted|
  {
    forall i :: 0 <= i < |log| ==> SettledCut(s, log[i], sorted[..|sorted| - 1 - i])
  }

  /** Processing stopped at the last cut of `log`, for which no attempt
      passes; every cut before it is settled. */
  ghost predicate GaveUp(s: Searches, log: seq<CutRecord>, sorted: seq<RatingGraphCut>)
    requires |log| <= |sorted|
  {
    |log| > 0 && Settled(s, log[..|log| - 1], sorted) && GaveUpCut(s, log[|log| - 1], sorted[..|sorted| - |log|])
  }

  /** The problem after the cuts of `log`. */
  function Current(original: SchedulingProblem, log: seq<CutRecord>): SchedulingProblem {
    if log == [] then original else log[|log| - 1].after
  }

  /** Each cut of `log` was taken on the problem the one before it left. */
  predicate Chained(original: SchedulingProblem, log: seq<CutRecord>) {
    forall i :: 0 <= i < |log| ==> log[i].before == Current(original, log[..i])
  }

  /** What processing one cut ended with. */
  datatype Step = Abort | Continue | GiveUp

  /** The body of the main loop for one cut taken from the list: explore
      its forbidden jobs, skip it when the check reports 0, and otherwise
      try its attempts; the accepted attempt's solutions are appended to
      `selected`. `GiveUp` when no attempt was accepted. */
  method ProcessCut(problem: Problem, candidate: RatingGraphCut, remaining: seq<RatingGraphCut>, s: Searches,
                    selected: seq<Solution>)
    returns (step: Step, result: seq<Solution>, ghost record: CutRecord)
    requires candidate.previousJobs.Valid() && InProblem(candidate, problem.jobs)
    requires forall i :: 0 <= i < |remaining| ==> remaining[i].previousJobs.Valid()
    modifies problem
    ensures problem.jobs == old(problem.jobs) && SameCut(record.cut, candidate)
    ensures record.before == old(problem.Value()) && record.candidate == candidate
            && record.sub == candidate.previousJobs.nodes
    ensures step.Continue? ==>
              SettledCut(s, record, remaining) && result == selected + ProposedFor(record, problem.jobs)
              && problem.Value() == record.after
    ensures step.GiveUp? ==> GaveUpCut(s, record, remaining)
  {
    ghost var before := problem.Value();
    record := CutRecord(before, candidate, candidate, candidate.previousJobs.nodes, 0, [], None, before);
    var explored, rounds := CutExplore.ExploreForbiddenJobs(candidate, s.explore(problem.Value(), candidate));
    if explored.None? {
      return Abort, selected, record;
    }
    var cut := explored.value;
    record := record.(cut := cut);
    var checked := CutCheck.WasCutPerformed(cut, s.check(problem.Value(), cut));
    if checked.None? {
      return Abort, selected, record;
    }
    record := record.(verdict := checked.value);
    if checked.value == 0 {
      return Continue, selected, record;
    }
    var attempts := GeneratePrecedenceAttempts(cut);
    if attempts.None? {
      return Abort, selected, record;
    }
    GeneratedIndexes(cut, problem.jobs);
    record := record.(attempts := attempts.value);
    var oldSolutions := |selected|;
    var trial := TryAttempts(problem, cut, attempts.value, remaining, s);
    if trial.Aborted? {
      return Abort, selected, record;
    }
    result := selected;
    if trial.Accepted? {
      record := record.(accepted := Some(trial.index), after := problem.Value());
      assert attempts.value[trial.index].after == cut.forbiddenJobs != [];
      result := AddSolutions(attempts.value[trial.index], selected, problem);
    } else {
      record := record.(after := problem.Value());
    }
    if |result| == oldSolutions {
      return GiveUp, result, record;
    }
    step := Continue;
  }

  /** The i-th record of `log` is about the i-th cut from the back of
      `sorted`, and exploring changed only the cut's extra jobs. */
  predicate Follows(log: seq<CutRecord>, sorted: seq<RatingGraphCut>) {
    |log| <= |sorted|
    && forall i :: 0 <= i < |log| ==> log[i].candidate == sorted[|sorted| - 1 - i] && SameCut(log[i].cut, log[i].candidate)
  }

  /** A record about the next cut from the back extends the correspondence. */
  lemma FollowsExtend(log: seq<CutRecord>, record: CutRecord, sorted: seq<RatingGraphCut>)
    requires Follows(log, sorted) && |log| < |sorted|
    requires record.candidate == sorted[|sorted| - 1 - |log|] && SameCut(record.cut, record.candidate)
    ensures Follows(log + [record], sorted)
  {
    var next := log + [record];
    forall i | 0 <= i < |next|
      ensures next[i].candidate == sorted[|sorted| - 1 - i] && SameCut(next[i].cut, next[i].candidate)
    {
      if i < |log| {
        assert next[i] == log[i];
      }
    }
  }

  /** What one more record adds to the log's solutions, and how it keeps
      the log chained and settled or makes it a give-up. */
  lemma RecordExtend(s: Searches, original: SchedulingProblem, log: seq<CutRecord>, record: CutRecord,
                     sorted: seq<RatingGraphCut>, jobs: seq<Job>)
    requires |log| < |sorted|
    ensures Proposed(log + [record], jobs) == Proposed(log, jobs) + ProposedFor(record, jobs)
    ensures Current(original, log + [record]) == record.after
    ensures Chained(original, log) && record.before == Current(original, log) ==> Chained(original, log + [record])
    ensures Settled(s, log, sorted) && SettledCut(s, record, sorted[..|sorted| - 1 - |log|]) ==>
              Settled(s, log + [record], sorted)
    ensures Settled(s, log, sorted) && GaveUpCut(s, record, sorted[..|sorted| - 1 - |log|]) ==>
              GaveUp(s, log + [record], sorted)
  {
    ProposedExtend(log, record, jobs);
    ChainedExtend(original, log, record);
    SettledExtend(s, log, record, sorted);
    GaveUpExtend(s, log, record, sorted);
  }

  lemma ProposedExtend(log: seq<CutRecord>, record: CutRecord, jobs: seq<Job>)
    ensures Proposed(log + [record], jobs) == Proposed(log, jobs) + ProposedFor(record, jobs)
  {
    assert (log + [record])[..|log|] == log;
  }

  lemma ChainedExtend(original: SchedulingProblem, log: seq<CutRecord>, record: CutRecord)
    ensures Chained(original, log) && record.before == Current(original, log) ==> Chained(original, log + [record])
  {
    var next := log + [record];
    if Chained(original, log) && record.before == Current(original, log) {
      forall i | 0 <= i < |next|
        ensures next[i].before == Current(original, next[..i])
      {
        assert next[..i] == if i < |log| then log[..i] else log;
      }
    }
  }

  lemma GaveUpExtend(s: Searches, log: seq<CutRecord>, record: CutRecord, sorted: seq<RatingGraphCut>)
    requires |log| < |sorted|
    ensures Settled(s, log, sorted) && GaveUpCut(s, record, sorted[..|sorted| - 1 - |log|]) ==>
              GaveUp(s, log + [record], sorted)
  {
    var next := log + [record];
    assert next[..|next| - 1] == log && next[|next| - 1] == record;
    assert |sorted| - |next| == |sorted| - 1 - |log|;
  }

  lemma SettledExtend(s: Searches, log: seq<CutRecord>, record: CutRecord, sorted: seq<RatingGraphCut>)
    requires |log| < |sorted|
    ensures Settled(s, log, sorted) && SettledCut(s, record, sorted[..|sorted| - 1 - |log|]) ==>
              Settled(s, log + [record], sorted)
  {
    var next := log + [record];
    if Settled(s, log, sorted) && SettledCut(s, record, sorted[..|sorted| - 1 - |log|]) {
      forall i | 0 <= i < |next|
        ensures SettledCut(s, next[i], sorted[..|sorted| - 1 - i])
      {
        if i < |log| {
          assert next[i] == log[i];
        }
      }
    }
  }

  /** The main loop of `apply_graph_strategy` on a copy of the problem: the
      cuts are taken from the back of `sorted`, and `log` records each cut
      processed, the i-th being the i-th from the back, each taken on the
      problem the one before left. A cut whose prefix the search already
      avoids (check 0) is skipped. `Some([])` when no attempt of a cut
      passes, which is then the last cut processed; otherwise every cut is
      settled and the result is the concatenation of the accepted attempts'
      solutions. `None` stands for a failed assertion in an agent or the
      generator, or an exploration that did not settle. */
  method ProcessCuts(original: SchedulingProblem, sorted: seq<RatingGraphCut>, s: Searches)
    returns (r: Option<seq<Solution>>, ghost log: seq<CutRecord>)
    requires forall i :: 0 <= i < |sorted| ==> sorted[i].previousJobs.Valid()
    requires forall i :: 0 <= i < |sorted| ==> InProblem(sorted[i], original.jobs)
    ensures Follows(log, sorted) && Chained(original, log)
    ensures forall i :: 0 <= i < |log| ==> log[i].sub == sorted[|sorted| - 1 - i].previousJobs.nodes
    ensures r.Some? ==>
              (r.value == Proposed(log, original.jobs) && Settled(s, log, sorted) && |log| == |sorted|)
              || (r.value == [] && GaveUp(s, log, sorted))
  {
    var problem := new Problem(original);
    var count := |sorted|;
    var selected: seq<Solution> := [];
    log := [];
    var step := Continue;
    while count > 0 && step.Continue?
      invariant fresh(problem) && problem.jobs == original.jobs
      invariant count + |log| == |sorted| && Follows(log, sorted) && Chained(original, log)
      invariant forall i :: 0 <= i < |sorted| ==> sorted[i].previousJobs.Valid() && InProblem(sorted[i], original.jobs)
      invariant forall i :: 0 <= i < |log| ==> log[i].sub == sorted[|sorted| - 1 - i].previousJobs.nodes
      invariant step.Continue? ==>
                  Settled(s, log, sorted) && selected == Proposed(log, original.jobs)
                  && problem.Value() == Current(original, log)
      invariant step.GiveUp? ==> GaveUp(s, log, sorted)
      decreases count, if step.Continue? then 1 else 0
    {
      step, selected, log := NextCut(original, problem, sorted, count, log, selected, s);
      count := count - 1;
    }
    match step {
      case Abort => r := None;
      case GiveUp => r := Some([]);
      case Continue => r := Some(selected);
    }
  }

  /** One turn of the main loop: the last of the first `count` cuts is
      processed, on the problem the earlier cuts left, with the ones before
      it as the remaining cuts, and recorded. */
  method NextCut(ghost original: SchedulingProblem, problem: Problem, sorted: seq<RatingGraphCut>, count: nat,
                 ghost log: seq<CutRecord>, selected: seq<Solution>, s: Searches)
    returns (step: Step, result: seq<Solution>, ghost next: seq<CutRecord>)
    requires 0 < count && count + |log| == |sorted| && Follows(log, sorted) && Chained(original, log)
    requires forall i :: 0 <= i < |sorted| ==> sorted[i].previousJobs.Valid() && InProblem(sorted[i], problem.jobs)
    requires Settled(s, log, sorted) && selected == Proposed(log, problem.jobs)
    requires problem.Value() == Current(original, log)
    requires forall i :: 0 <= i < |log| ==> log[i].sub == sorted[|sorted| - 1 - i].previousJobs.nodes
    modifies problem
    ensures problem.jobs == old(problem.jobs) && |next| == |log| + 1 && next[..|log|] == log
    ensures Follows(next, sorted) && Chained(original, next)
    ensures forall i :: 0 <= i < |next| ==> next[i].sub == sorted[|sorted| - 1 - i].previousJobs.nodes
    ensures step.Continue? ==>
              Settled(s, next, sorted) && result == Proposed(next, problem.jobs)
              && problem.Value() == Current(original, next)
    ensures step.GiveUp? ==> GaveUp(s, next, sorted)
  {
    var candidate := sorted[count - 1];
    var remaining := sorted[..count - 1];
    ghost var record;
    step, result, record := ProcessCut(problem, candidate, remaining, s, selected);
    FollowsExtend(log, record, sorted);
    RecordExtend(s, original, log, record, sorted, problem.jobs);
    next := log + [record];
    assert next[..|log|] == log;
  }

  /** `apply_graph_strategy`: the cuts sorted longer prefix first, then the
      main loop. Taking them from the back processes the cuts in
      nondecreasing prefix length. */
  method ApplyGraphStrategy(original: SchedulingProblem, rated: seq<RatingGraphCut>, s: Searches)
    returns (r: Option<seq<Solution>>, ghost sorted: seq<RatingGraphCut>, ghost log: seq<CutRecord>)
    requires forall i :: 0 <= i < |rated| ==> Measurable(rated[i])
    requires forall i :: 0 <= i < |rated| ==> InProblem(rated[i], original.jobs)
    ensures multiset(sorted) == multiset(rated) && Follows(log, sorted) && Chained(original, log)
    ensures forall i :: 0 <= i < |log| ==> log[i].sub == sorted[|sorted| - 1 - i].previousJobs.nodes
    ensures forall i, j :: 0 <= i < j < |log| ==> NoLongerThan(log[i].cut, log[j].cut)
    ensures r.Some? ==>
              (r.value == Proposed(log, original.jobs) && Settled(s, log, sorted) && |log| == |sorted|)
              || (r.value == [] && GaveUp(s, log, sorted))
  {
    var cuts; ghost var lengths;
    cuts, lengths := SortCutsBackward(rated);
    sorted := cuts;
    forall i | 0 <= i < |cuts|
      ensures InProblem(cuts[i], original.jobs)
    {
      var j :| 0 <= j < |rated| && rated[j] == cuts[i];
    }
    r, log := ProcessCuts(original, cuts, s);
    OrderedLog(sorted, lengths, log);
  }

  /** Taking the cuts from the back of a list sorted longer prefix first
      processes them in nondecreasing prefix length. */
  lemma OrderedLog(sorted: seq<RatingGraphCut>, lengths: seq<nat>, log: seq<CutRecord>)
    requires |lengths| == |sorted| && Follows(log, sorted)
    requires forall i :: 0 <= i < |sorted| ==> Measurable(sorted[i]) && lengths[i] == PrefixLength(sorted[i])
    requires forall i, j :: 0 <= i < j < |lengths| ==> lengths[i] >= lengths[j]
    ensures forall i, j :: 0 <= i < j < |log| ==>
              NoLongerThan(log[i].cut, log[j].cut)
  {
    forall i, j | 0 <= i < j < |log|
      ensures NoLongerThan(log[i].cut, log[j].cut)
    {
      var m, n := |sorted| - 1 - j, |sorted| - 1 - i;
      assert log[i].candidate == sorted[n] && log[j].candidate == sorted[m];
      assert PrefixLength(log[i].cut) == PrefixLength(sorted[n]) == lengths[n];
      assert PrefixLength(log[j].cut) == PrefixLength(sorted[m]) == lengths[m];
      assert m < n;
    }
  }

}
