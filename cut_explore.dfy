/** `Agent_cut_explore` of cut_explore.hpp: explores what happens below the
    leaf of a cut's sub-graph. Each job the search takes at the leaf is
    first a "good" job; when a node below it fails, the job becomes "bad".
    `explore_forbidden_jobs` repeats searches, moving the jobs found to the
    cut's extra allowed and extra forbidden jobs, until a search finds no
    new bad job. */
module CutExplore {
  import opened ProblemModel
  import opened Search
  import opened SubGraphs

  /** `CUT_EXPLORE_NODE_INDEX_CONTINUED`: below the leaf of the sub-graph. */
  const Continued: int := -2

  /** `Attachment_cut_explore`. `takenJob` is the job taken at the leaf,
      carried by every node below it; the source stores "none" as the job
      index -1, which, `Job_index` being unsigned, is the largest index and
      no job has. */
  datatype ExploreAttachment = ExploreAttachment(nodeIndex: int, takenJob: Option<nat>, hasFailed: bool)

  /** The jobs one search found: still good, and turned bad. */
  datatype Round = Round(good: seq<nat>, bad: seq<nat>)

  /** `std::remove` followed by `erase`: `s` without any occurrence of `x`,
      the rest in order. */
  function Without(s: seq<nat>, x: nat): (r: seq<nat>)
    ensures x !in r
    ensures forall y :: y != x ==> multiset(r)[y] == multiset(s)[y]
    ensures |r| == |s| - multiset(s)[x]
  {
    if s == [] then []
    else if s[0] == x then
      assert s == [s[0]] + s[1..];
      Without(s[1..], x)
    else
      assert s == [s[0]] + s[1..];
      [s[0]] + Without(s[1..], x)
  }

  /** The good jobs of all rounds, in order. */
  function AllGood(rounds: seq<Round>): seq<nat> {
    if rounds == [] then [] else AllGood(rounds[..|rounds| - 1]) + rounds[|rounds| - 1].good
  }

  /** The bad jobs of all rounds, in order. */
  function AllBad(rounds: seq<Round>): seq<nat> {
    if rounds == [] then [] else AllBad(rounds[..|rounds| - 1]) + rounds[|rounds| - 1].bad
  }

  /** `allow_merge`: nodes merge only when neither failed and both took
      the same job at the leaf (or neither took one). */
  function AllowMerge(parent: ExploreAttachment, destination: ExploreAttachment): (r: bool)
    ensures r <==> !parent.hasFailed && !destination.hasFailed && parent.takenJob == destination.takenJob
  {
    if parent.hasFailed || destination.hasFailed then false else parent.takenJob == destination.takenJob
  }

  // ---- one search replayed against the cut, as a function ----

  /** What a replay of one search keeps: the attachment of every search
      node so far, the leaf index, and the good and bad job lists. */
  datatype ExploreState = ExploreState(attachments: seq<ExploreAttachment>, leafIndex: int, good: seq<nat>, bad: seq<nat>)

  /** The agent at the start of a search: the root attachment, and the
      leaf index and lists it already holds. */
  function StartOfSearch(leafIndex: int, good: seq<nat>, bad: seq<nat>): ExploreState {
    ExploreState([ExploreAttachment(0, None, false)], leafIndex, good, bad)
  }

  /** The answer of `is_allowed` at `at`, for the cut `cut` whose sub-graph
      holds `sub`; `None` is the failed assertion of `is_leaf`. */
  function ExploreAllowedAt(sub: Nodes, cut: RatingGraphCut, at: ExploreAttachment, job: nat): Option<bool>
  {
    if at.hasFailed then Some(false)
    else if at.nodeIndex == Continued then Some(true)
    else if !(0 <= at.nodeIndex < |sub|) then None
    else if sub[at.nodeIndex] == [] then Some(job !in cut.forbiddenJobs && job !in cut.extraForbiddenJobs)
    else Some(Successor(sub, at.nodeIndex, job) > 0)
  }

  /** The child of a parent below the leaf as cut_explore.hpp:85-86 build
      it: only the marker and the failure flag are copied, so the job taken
      at the leaf is lost two levels below it. */
  function ContinuedChildAsWritten(parent: ExploreAttachment): (a: ExploreAttachment)
    ensures a.nodeIndex == Continued && a.takenJob.None? && a.hasFailed == parent.hasFailed
  {
    ExploreAttachment(Continued, None, parent.hasFailed)
  }

  /** The child of a parent below the leaf as the assertion at
      cut_explore.hpp:84 expects it: it also carries the job taken at
      the leaf. */
  function ContinuedChild(parent: ExploreAttachment): (a: ExploreAttachment)
    ensures a.nodeIndex == Continued && a.takenJob == parent.takenJob && a.hasFailed == parent.hasFailed
  {
    ExploreAttachment(Continued, parent.takenJob, parent.hasFailed)
  }

  /** The state after `create_next_node_attachment` from `parent` with `job`;
      `None` is one of its failed assertions. A child below the leaf is
      `ContinuedChild`. */
  function ExploreExpanded(sub: Nodes, s: ExploreState, parent: ExploreAttachment, job: nat): Option<ExploreState>
  {
    if parent.nodeIndex == Continued then
      Some(s.(attachments := s.attachments + [ContinuedChild(parent)]))
    else if !(0 <= parent.nodeIndex < |sub|) then None
    else if sub[parent.nodeIndex] == [] then
      if parent.hasFailed || parent.takenJob.Some? || (s.leafIndex >= 0 && s.leafIndex != parent.nodeIndex) then None
      else Some(s.(attachments := s.attachments + [ExploreAttachment(Continued, Some(job), false)],
                   leafIndex := parent.nodeIndex, good := s.good + [job]))
    else if parent.hasFailed then None
    else
      var next := Successor(sub, parent.nodeIndex, job);
      if next > 0 then Some(s.(attachments := s.attachments + [ExploreAttachment(next, None, false)])) else None
  }

  /** The state after `failed_node` at search node `node`. */
  function ExploreFailed(s: ExploreState, node: nat): ExploreState
    requires node < |s.attachments|
  {
    var a := s.attachments[node];
    var marked := s.(attachments := s.attachments[node := a.(hasFailed := true)]);
    if a.takenJob.Some? && a.takenJob.value in s.good then
      marked.(good := Without(s.good, a.takenJob.value), bad := s.bad + [a.takenJob.value])
    else marked
  }

  /** One call of the search replayed; events naming a search node that
      does not exist are ignored. */
  function ExploreStep(sub: Nodes, cut: RatingGraphCut, s: ExploreState, e: Event): Option<ExploreState>
  {
    match e
    case Expand(parent, job) =>
      if parent >= |s.attachments| then Some(s)
      else
        var allowed := ExploreAllowedAt(sub, cut, s.attachments[parent], job.index);
        if allowed.None? then None
        else if allowed.value then ExploreExpanded(sub, s, s.attachments[parent], job.index)
        else Some(s)
    case Merge(destination, parent, job) =>
      if parent >= |s.attachments| || destination >= |s.attachments| then Some(s)
      else
        var allowed := ExploreAllowedAt(sub, cut, s.attachments[parent], job.index);
        if allowed.None? then None
        else if allowed.value && !AllowMerge(s.attachments[parent], s.attachments[destination]) then
          ExploreExpanded(sub, s, s.attachments[parent], job.index)
        else Some(s)
    case MissedDeadline(node, _, _) =>
      if node >= |s.attachments| then Some(s) else Some(ExploreFailed(s, node))
    case DeadEnd(node) =>
      if node >= |s.attachments| then Some(s)
      else
        var a := s.attachments[node];
        if a.nodeIndex != Continued && 0 <= a.nodeIndex < |sub| && sub[a.nodeIndex] == [] then Some(s)
        else if a.nodeIndex != Continued && !(0 <= a.nodeIndex < |sub|) then None
        else Some(ExploreFailed(s, node))
    case Finished(_) => Some(s)
  }

  /** The state after replaying `pass` from `start`, or `None` once an
      assertion failed. */
  function ExploreReplay(sub: Nodes, cut: RatingGraphCut, start: ExploreState, pass: seq<Event>): Option<ExploreState>
  {
    if pass == [] then Some(start)
    else
      var before := ExploreReplay(sub, cut, start, pass[..|pass| - 1]);
      if before.None? then None else ExploreStep(sub, cut, before.value, pass[|pass| - 1])
  }

  /** Once an assertion failed, the replay stays failed. */
  lemma {:induction false} ExploreReplayAborted(sub: Nodes, cut: RatingGraphCut, start: ExploreState, pass: seq<Event>, k: nat)
    requires k <= |pass| && ExploreReplay(sub, cut, start, pass[..k]).None?
    ensures ExploreReplay(sub, cut, start, pass).None?
    decreases |pass| - k
  {
    if k < |pass| {
      assert pass[..k + 1][..k] == pass[..k];
      ExploreReplayAborted(sub, cut, start, pass, k + 1);
    } else {
      assert pass[..k] == pass;
    }
  }

  /** Every node below the leaf carries a job, found good or bad by the
      search. */
  predicate JobsKept(s: ExploreState) {
    forall n :: 0 <= n < |s.attachments| && s.attachments[n].nodeIndex == Continued ==>
      s.attachments[n].takenJob.Some?
      && (s.attachments[n].takenJob.value in s.good || s.attachments[n].takenJob.value in s.bad)
  }

  /** A failure below the leaf turns the job taken at the leaf bad, unless
      it was bad already; marking a node failed keeps every node's job. */
  lemma FailedKeepsJobs(s: ExploreState, node: nat)
    requires JobsKept(s) && node < |s.attachments|
    ensures JobsKept(ExploreFailed(s, node))
    ensures s.attachments[node].nodeIndex == Continued ==>
              var j := s.attachments[node].takenJob.value;
              j in ExploreFailed(s, node).bad && j !in ExploreFailed(s, node).good
  {
    var a := s.attachments[node];
    var t := ExploreFailed(s, node);
    forall n | 0 <= n < |t.attachments| && t.attachments[n].nodeIndex == Continued
      ensures t.attachments[n].takenJob.Some? && (t.attachments[n].takenJob.value in t.good || t.attachments[n].takenJob.value in t.bad)
    {
      var k := s.attachments[n].takenJob.value;
      assert t.attachments[n].takenJob == s.attachments[n].takenJob;
      if a.takenJob.Some? && a.takenJob.value in s.good && k != a.takenJob.value && k in s.good {
        assert multiset(t.good)[k] == multiset(s.good)[k];
      }
    }
    if a.nodeIndex == Continued && a.takenJob.value !in s.good {
      assert a.takenJob.value in s.bad;
    }
  }

  /** One replayed step keeps every node below the leaf carrying its job. */
  lemma StepKeepsJobs(sub: Nodes, cut: RatingGraphCut, s: ExploreState, e: Event)
    requires JobsKept(s)
    ensures var t := ExploreStep(sub, cut, s, e); t.Some? ==> JobsKept(t.value)
  {
    match e
    case Expand(parent, job) =>
      if parent < |s.attachments| {
        ExpandedKeepsJobs(sub, s, s.attachments[parent], job.index);
      }
    case Merge(destination, parent, job) =>
      if parent < |s.attachments| && destination < |s.attachments| {
        ExpandedKeepsJobs(sub, s, s.attachments[parent], job.index);
      }
    case MissedDeadline(node, _, _) =>
      if node < |s.attachments| {
        FailedKeepsJobs(s, node);
      }
    case DeadEnd(node) =>
      if node < |s.attachments| {
        FailedKeepsJobs(s, node);
      }
    case Finished(_) =>
  }

  /** An expansion keeps every node below the leaf carrying its job: a
      child of the leaf carries the job it takes, which joins the good
      list, and a child below it inherits its parent's. */
  lemma ExpandedKeepsJobs(sub: Nodes, s: ExploreState, parent: ExploreAttachment, job: nat)
    requires JobsKept(s) && (parent.nodeIndex == Continued ==> parent in s.attachments)
    ensures var t := ExploreExpanded(sub, s, parent, job); t.Some? ==> JobsKept(t.value)
  {
    var t := ExploreExpanded(sub, s, parent, job);
    if t.Some? {
      assert forall n :: 0 <= n < |s.attachments| ==> t.value.attachments[n] == s.attachments[n];
    }
  }

  /** Replaying a search from a state whose nodes below the leaf carry
      their jobs keeps them carrying them. With the corrected child
      (`ContinuedChild`), every parent below the leaf has the job the
      assertion at cut_explore.hpp:84 expects, and a failure anywhere below
      the leaf finds the job taken there; the child as written
      (`ContinuedChildAsWritten`) carries none. */
  lemma {:induction false} ReplayKeepsJobs(sub: Nodes, cut: RatingGraphCut, start: ExploreState, pass: seq<Event>)
    requires JobsKept(start)
    ensures var t := ExploreReplay(sub, cut, start, pass); t.Some? ==> JobsKept(t.value)
  {
    if pass != [] {
      var before := ExploreReplay(sub, cut, start, pass[..|pass| - 1]);
      ReplayKeepsJobs(sub, cut, start, pass[..|pass| - 1]);
      if before.Some? {
        StepKeepsJobs(sub, cut, before.value, pass[|pass| - 1]);
      }
    }
  }

  /** A whole search, from its root, keeps every node below the leaf
      carrying its job. */
  lemma SearchKeepsJobs(sub: Nodes, cut: RatingGraphCut, leafIndex: int, good: seq<nat>, bad: seq<nat>, pass: seq<Event>)
    ensures var t := ExploreReplay(sub, cut, StartOfSearch(leafIndex, good, bad), pass); t.Some? ==> JobsKept(t.value)
  {
    ReplayKeepsJobs(sub, cut, StartOfSearch(leafIndex, good, bad), pass);
  }

  /** The search below a leaf root: job 1 is taken at the leaf, job 2 below
      it, and the node reached misses a deadline. With the child built as
      cut_explore.hpp:85-86 write it, that node carries no job and job 1
      stays good; with `ContinuedChild`, job 1 turns bad. */
  lemma ContinuedChildAsWrittenKeepsGood(cut: RatingGraphCut, j1: Job, j2: Job, late: Job, scheduled: IndexSet)
    requires cut.forbiddenJobs == [] && cut.extraForbiddenJobs == [] && j1.index == 1
    ensures var afterLeaf := ExploreState([ExploreAttachment(0, None, false), ExploreAttachment(Continued, Some(1), false)], 0, [1], []);
            ExploreReplay([[]], cut, StartOfSearch(-1, [], []), [Expand(0, j1)]) == Some(afterLeaf)
            && ExploreFailed(afterLeaf.(attachments := afterLeaf.attachments + [ContinuedChildAsWritten(afterLeaf.attachments[1])]), 2).good == [1]
            && ExploreFailed(afterLeaf.(attachments := afterLeaf.attachments + [ContinuedChildAsWritten(afterLeaf.attachments[1])]), 2).bad == []
    ensures ExploreReplay([[]], cut, StartOfSearch(-1, [], []), [Expand(0, j1), Expand(1, j2), MissedDeadline(2, late, scheduled)])
              == Some(ExploreState([ExploreAttachment(0, None, false), ExploreAttachment(Continued, Some(1), false),
                                    ExploreAttachment(Continued, Some(1), true)], 0, [], [1]))
  {
    var sub: Nodes := [[]];
    var start := StartOfSearch(-1, [], []);
    var pass := [Expand(0, j1), Expand(1, j2), MissedDeadline(2, late, scheduled)];
    var s0 := start;
    assert ExploreAllowedAt(sub, cut, s0.attachments[0], 1) == Some(true);
    var s1 := ExploreState([ExploreAttachment(0, None, false), ExploreAttachment(Continued, Some(1), false)], 0, [1], []);
    assert sub[0] == [];
    assert s0.attachments + [ExploreAttachment(Continued, Some(1), false)] == s1.attachments;
    assert s0.good + [1] == [1];
    assert ExploreExpanded(sub, s0, s0.attachments[0], 1) == Some(s1);
    assert ExploreStep(sub, cut, s0, Expand(0, j1)) == Some(s1);
    assert [Expand(0, j1)][..0] == [];
    assert ExploreReplay(sub, cut, start, [Expand(0, j1)]) == Some(s1);
    var s2 := s1.(attachments := s1.attachments + [ExploreAttachment(Continued, Some(1), false)]);
    assert ExploreStep(sub, cut, s1, Expand(1, j2)) == Some(s2);
    assert pass[..2][..1] == [Expand(0, j1)];
    assert ExploreReplay(sub, cut, start, pass[..2]) == Some(s2);
    assert Without([1], 1) == [];
    var s3 := ExploreState([ExploreAttachment(0, None, false), ExploreAttachment(Continued, Some(1), false),
                            ExploreAttachment(Continued, Some(1), true)], 0, [], [1]);
    assert s2.attachments[2 := s2.attachments[2].(hasFailed := true)] == s3.attachments;
    assert ExploreFailed(s2, 2) == s3;
    assert pass[..2] == pass[..|pass| - 1];
  }

  /** The cut with one search's good and bad jobs appended to its extras. */
  function WithRound(cut: RatingGraphCut, round: Round): RatingGraphCut {
    cut.(extraAllowedJobs := cut.extraAllowedJobs + round.good,
         extraForbiddenJobs := cut.extraForbiddenJobs + round.bad)
  }

  /** The loop of `explore_forbidden_jobs` as a function: the cut it ends
      with (`None` when the searches run out or an assertion fails) and the
      jobs each completed search found, for the searches `passes` started
      with leaf index `leafIndex`. */
  function ExploreRounds(sub: Nodes, cut: RatingGraphCut, leafIndex: int, passes: seq<seq<Event>>)
    : (r: (Option<RatingGraphCut>, seq<Round>))
    decreases |passes|
  {
    if passes == [] then (None, [])
    else
      var found := ExploreReplay(sub, cut, StartOfSearch(leafIndex, [], []), passes[0]);
      if found.None? then (None, [])
      else
        var round := Round(found.value.good, found.value.bad);
        if round.bad == [] then (Some(cut), [round])
        else
          var rest := ExploreRounds(sub, WithRound(cut, round), found.value.leafIndex, passes[1..]);
          (rest.0, [round] + rest.1)
  }

  /** The jobs of a first round come before those of the rounds after it. */
  lemma {:induction false} AllJobsCons(round: Round, rounds: seq<Round>)
    ensures AllGood([round] + rounds) == round.good + AllGood(rounds)
    ensures AllBad([round] + rounds) == round.bad + AllBad(rounds)
    decreases |rounds|
  {
    if rounds == [] {
      assert [round] + rounds == [round];
      assert [round][..0] == [];
    } else {
      var init := rounds[..|rounds| - 1];
      assert ([round] + rounds)[..|rounds|] == [round] + init;
      AllJobsCons(round, init);
    }
  }

  /** What the rounds of `explore_forbidden_jobs` look like: every round
      but the last found a bad job; and when a cut `r` is found, the last
      round found none and `r` is `cut` with the good and bad jobs of all
      the rounds before it. */
  predicate RoundsShaped(cut: RatingGraphCut, r: Option<RatingGraphCut>, rounds: seq<Round>) {
    (forall i :: 0 <= i < |rounds| - 1 ==> rounds[i].bad != [])
    && (r.Some? ==>
          |rounds| >= 1 && rounds[|rounds| - 1].bad == []
          && var kept := rounds[..|rounds| - 1];
             r.value == cut.(extraAllowedJobs := cut.extraAllowedJobs + AllGood(kept),
                             extraForbiddenJobs := cut.extraForbiddenJobs + AllBad(kept)))
  }

  /** A round that found a bad job, put before the rounds of the cut it
      leads to. */
  lemma RoundsShapedCons(cut: RatingGraphCut, round: Round, r: Option<RatingGraphCut>, tail: seq<Round>)
    requires round.bad != [] && RoundsShaped(WithRound(cut, round), r, tail)
    ensures RoundsShaped(cut, r, [round] + tail)
  {
    var rounds := [round] + tail;
    assert forall i :: 1 <= i < |rounds| ==> rounds[i] == tail[i - 1];
    if r.Some? {
      var next := WithRound(cut, round);
      var tailKept := tail[..|tail| - 1];
      assert rounds[..|rounds| - 1] == [round] + tailKept;
      AllJobsCons(round, tailKept);
      assert next.extraAllowedJobs + AllGood(tailKept) == cut.extraAllowedJobs + AllGood([round] + tailKept);
      assert next.extraForbiddenJobs + AllBad(tailKept) == cut.extraForbiddenJobs + AllBad([round] + tailKept);
    }
  }

  /** The rounds of `ExploreRounds` are at most one per search and shaped
      as `RoundsShaped` says. */
  lemma {:induction false} ExploreRoundsShape(sub: Nodes, cut: RatingGraphCut, leafIndex: int, passes: seq<seq<Event>>)
    ensures var (r, rounds) := ExploreRounds(sub, cut, leafIndex, passes);
            |rounds| <= |passes| && RoundsShaped(cut, r, rounds)
    decreases |passes|
  {
    if passes != [] {
      var found := ExploreReplay(sub, cut, StartOfSearch(leafIndex, [], []), passes[0]);
      if found.Some? {
        var round := Round(found.value.good, found.value.bad);
        if round.bad == [] {
          assert [round][..0] == [];
          assert cut.extraAllowedJobs + [] == cut.extraAllowedJobs;
          assert cut.extraForbiddenJobs + [] == cut.extraForbiddenJobs;
        } else {
          var tail := ExploreRounds(sub, WithRound(cut, round), found.value.leafIndex, passes[1..]);
          ExploreRoundsShape(sub, WithRound(cut, round), found.value.leafIndex, passes[1..]);
          RoundsShapedCons(cut, round, tail.0, tail.1);
        }
      }
    }
  }

  /** One search of `ExploreRounds`, taken from the passes still to come. */
  lemma ExploreRoundsStep(sub: Nodes, cut: RatingGraphCut, leafIndex: int, passes: seq<seq<Event>>, index: nat)
    requires index < |passes|
    ensures var found := ExploreReplay(sub, cut, StartOfSearch(leafIndex, [], []), passes[index]);
            var rest := ExploreRounds(sub, cut, leafIndex, passes[index..]);
            (found.None? ==> rest == (None, []))
            && (found.Some? && found.value.bad == [] ==> rest == (Some(cut), [Round(found.value.good, [])]))
            && (found.Some? && found.value.bad != [] ==>
                  var round := Round(found.value.good, found.value.bad);
                  var tail := ExploreRounds(sub, WithRound(cut, round), found.value.leafIndex, passes[index + 1..]);
                  rest == (tail.0, [round] + tail.1))
  {
    assert passes[index..][0] == passes[index] && passes[index..][1..] == passes[index + 1..];
  }

  class CutExploreAgent {
    var cut: RatingGraphCut
    var leafIndex: int
    var newGoodJobs: seq<nat>
    var newBadJobs: seq<nat>

    ghost predicate Valid()
      reads this, cut.previousJobs
    {
      cut.previousJobs.Valid()
    }

    /** An attachment below the leaf, or at a node of the sub-graph. */
    predicate InScope(a: ExploreAttachment)
      reads this, cut.previousJobs
    {
      a.nodeIndex == Continued || 0 <= a.nodeIndex < |cut.previousJobs.nodes|
    }

    constructor(c: RatingGraphCut)
      ensures cut == c && leafIndex == -1 && newGoodJobs == [] && newBadJobs == []
    {
      cut := c;
      leafIndex := -1;
      newGoodJobs := [];
      newBadJobs := [];
    }

    /** `may_potentially_forbid_jobs`. */
    function MayPotentiallyForbidJobs(): (r: bool)
      ensures r
    {
      true
    }

    /** `create_initial_node_attachment`: the root of the sub-graph, no
        job taken at the leaf, not failed. */
    function CreateInitialNodeAttachment(): (a: ExploreAttachment)
      ensures a.nodeIndex == 0 && a.takenJob.None? && !a.hasFailed
    {
      ExploreAttachment(0, None, false)
    }

    /** `failed_node`: marks the attachment failed; a good job taken at
        the leaf above it turns bad. */
    method FailedNode(a: ExploreAttachment) returns (r: ExploreAttachment)
      modifies this
      ensures r == a.(hasFailed := true)
      ensures cut == old(cut) && leafIndex == old(leafIndex)
      ensures a.takenJob.Some? && a.takenJob.value in old(newGoodJobs) ==>
                newBadJobs == old(newBadJobs) + [a.takenJob.value]
                && newGoodJobs == Without(old(newGoodJobs), a.takenJob.value)
      ensures !(a.takenJob.Some? && a.takenJob.value in old(newGoodJobs)) ==>
                newBadJobs == old(newBadJobs) && newGoodJobs == old(newGoodJobs)
    {
      r := a.(hasFailed := true);
      if a.takenJob.Some? && a.takenJob.value in newGoodJobs {
        newBadJobs := newBadJobs + [a.takenJob.value];
        newGoodJobs := Without(newGoodJobs, a.takenJob.value);
      }
    }

    /** `create_next_node_attachment`. `None` is a failed assertion of the
        source: a failed parent inside the sub-graph, a second leaf, or a
        sub-graph successor that is not positive. */
    method CreateNextNodeAttachment(parent: ExploreAttachment, nextJob: Job) returns (r: Option<ExploreAttachment>)
      requires Valid() && InScope(parent)
      modifies this
      ensures cut == old(cut) && newBadJobs == old(newBadJobs) && (r.Some? ==> InScope(r.value))
      ensures r.None? ==> leafIndex == old(leafIndex) && newGoodJobs == old(newGoodJobs)
      // below the leaf, the child stays below the leaf and keeps the job taken there
      ensures parent.nodeIndex == Continued ==>
                r == Some(ExploreAttachment(Continued, parent.takenJob, parent.hasFailed))
                && leafIndex == old(leafIndex) && newGoodJobs == old(newGoodJobs)
      // at the leaf, the job taken becomes a good job
      ensures parent.nodeIndex >= 0 && cut.previousJobs.IsLeaf(parent.nodeIndex) ==>
                (r.Some? <==> !parent.hasFailed && parent.takenJob.None?
                              && (old(leafIndex) < 0 || old(leafIndex) == parent.nodeIndex))
                && (r.Some? ==> r.value == ExploreAttachment(Continued, Some(nextJob.index), false)
                                && leafIndex == parent.nodeIndex
                                && newGoodJobs == old(newGoodJobs) + [nextJob.index])
      // inside the sub-graph, the search follows its edges
      ensures parent.nodeIndex >= 0 && !cut.previousJobs.IsLeaf(parent.nodeIndex) ==>
                var next := Successor(cut.previousJobs.nodes, parent.nodeIndex, nextJob.index);
                r == (if !parent.hasFailed && next > 0 then Some(ExploreAttachment(next, None, false)) else None)
                && leafIndex == old(leafIndex) && newGoodJobs == old(newGoodJobs)
    {
      if parent.nodeIndex == Continued {
        return Some(ContinuedChild(parent));
      }
      if cut.previousJobs.IsLeaf(parent.nodeIndex) {
        if parent.hasFailed || parent.takenJob.Some? {
          return None;
        }
        if leafIndex >= 0 && leafIndex != parent.nodeIndex {
          return None;
        }
        leafIndex := parent.nodeIndex;
        newGoodJobs := newGoodJobs + [nextJob.index];
        return Some(ExploreAttachment(Continued, Some(nextJob.index), false));
      }
      if parent.hasFailed {
        return None;
      }
      var next := cut.previousJobs.CanTakeJob(parent.nodeIndex, nextJob.index);
      if !(next > 0) {
        return None;
      }
      return Some(ExploreAttachment(next, None, false));
    }

    /** `missed_deadline`: a failure. */
    method MissedDeadline(missed: ExploreAttachment, lateJob: Job) returns (r: ExploreAttachment)
      modifies this
      ensures r == missed.(hasFailed := true)
      ensures cut == old(cut) && leafIndex == old(leafIndex)
      ensures missed.takenJob.Some? && missed.takenJob.value in old(newGoodJobs) ==>
                newBadJobs == old(newBadJobs) + [missed.takenJob.value]
                && newGoodJobs == Without(old(newGoodJobs), missed.takenJob.value)
      ensures !(missed.takenJob.Some? && missed.takenJob.value in old(newGoodJobs)) ==>
                newBadJobs == old(newBadJobs) && newGoodJobs == old(newGoodJobs)
    {
      r := FailedNode(missed);
    }

    /** `encountered_dead_end`: a failure, except at the leaf itself. */
    method EncounteredDeadEnd(dead: ExploreAttachment) returns (r: ExploreAttachment)
      requires Valid() && InScope(dead)
      modifies this
      ensures cut == old(cut) && leafIndex == old(leafIndex)
      ensures dead.nodeIndex != Continued && cut.previousJobs.IsLeaf(dead.nodeIndex) ==>
                r == dead && newBadJobs == old(newBadJobs) && newGoodJobs == old(newGoodJobs)
      ensures !(dead.nodeIndex != Continued && cut.previousJobs.IsLeaf(dead.nodeIndex)) ==>
                r == dead.(hasFailed := true)
                && (dead.takenJob.Some? && dead.takenJob.value in old(newGoodJobs) ==>
                      newBadJobs == old(newBadJobs) + [dead.takenJob.value]
                      && newGoodJobs == Without(old(newGoodJobs), dead.takenJob.value))
                && (!(dead.takenJob.Some? && dead.takenJob.value in old(newGoodJobs)) ==>
                      newBadJobs == old(newBadJobs) && newGoodJobs == old(newGoodJobs))
    {
      if dead.nodeIndex != Continued && cut.previousJobs.IsLeaf(dead.nodeIndex) {
        return dead;
      }
      r := FailedNode(dead);
    }

    /** `is_allowed`: nothing below a failed node; anything below the leaf;
        at the leaf, every job that is neither forbidden nor found bad
        earlier; inside the sub-graph, the jobs of its edges to a node other
        than the root. */
    method IsAllowed(at: ExploreAttachment, nextJob: Job) returns (r: bool)
      requires Valid() && InScope(at)
      ensures at.hasFailed ==> !r
      ensures !at.hasFailed && at.nodeIndex == Continued ==> r
      ensures !at.hasFailed && at.nodeIndex >= 0 && cut.previousJobs.IsLeaf(at.nodeIndex) ==>
                (r <==> nextJob.index !in cut.forbiddenJobs && nextJob.index !in cut.extraForbiddenJobs)
      ensures !at.hasFailed && at.nodeIndex >= 0 && !cut.previousJobs.IsLeaf(at.nodeIndex) ==>
                (r <==> Successor(cut.previousJobs.nodes, at.nodeIndex, nextJob.index) > 0)
    {
      if at.hasFailed {
        return false;
      }
      if at.nodeIndex == Continued {
        return true;
      }
      if cut.previousJobs.IsLeaf(at.nodeIndex) {
        return nextJob.index !in cut.forbiddenJobs && nextJob.index !in cut.extraForbiddenJobs;
      }
      var next := cut.previousJobs.CanTakeJob(at.nodeIndex, nextJob.index);
      return next > 0;
    }

    /** One search with this agent. `false` is a failed assertion of the
        source. The search ends with the leaf index and lists that replaying
        it gives; the agent's cut does not change during a search. */
    method Explore(pass: seq<Event>) returns (ok: bool)
      requires Valid()
      modifies this
      ensures Valid() && cut == old(cut)
      ensures var found := ExploreReplay(cut.previousJobs.nodes, cut, StartOfSearch(old(leafIndex), old(newGoodJobs), old(newBadJobs)), pass);
              ok == found.Some?
              && (ok ==> leafIndex == found.value.leafIndex && newGoodJobs == found.value.good && newBadJobs == found.value.bad)
      ensures old(leafIndex) >= 0 ==> leafIndex == old(leafIndex)
    {
      ghost var sub := cut.previousJobs.nodes;
      ghost var start := StartOfSearch(leafIndex, newGoodJobs, newBadJobs);
      var attachments := [CreateInitialNodeAttachment()];
      var step := 0;
      ok := true;
      while step < |pass| && ok
        invariant 0 <= step <= |pass| && Valid() && cut == old(cut) && cut.previousJobs.nodes == sub
        invariant old(leafIndex) >= 0 ==> leafIndex == old(leafIndex)
        invariant forall n :: 0 <= n < |attachments| ==> InScope(attachments[n])
        invariant ok ==> ExploreReplay(sub, cut, start, pass[..step]) == Some(ExploreState(attachments, leafIndex, newGoodJobs, newBadJobs))
        invariant !ok ==> ExploreReplay(sub, cut, start, pass[..step]).None?
      {
        assert pass[..step + 1][..step] == pass[..step];
        ok, attachments := Dispatch(attachments, pass[step]);
        step := step + 1;
      }
      if !ok {
        ExploreReplayAborted(sub, cut, start, pass, step);
      } else {
        assert pass[..step] == pass;
      }
    }

    /** One call of the search, dispatched to the hooks: the attachments and
        fields become those of one replayed step. */
    method Dispatch(attachments: seq<ExploreAttachment>, e: Event) returns (ok: bool, next: seq<ExploreAttachment>)
      requires Valid() && forall n :: 0 <= n < |attachments| ==> InScope(attachments[n])
      modifies this
      ensures Valid() && cut == old(cut)
      ensures old(leafIndex) >= 0 ==> leafIndex == old(leafIndex)
      ensures forall n :: 0 <= n < |next| ==> InScope(next[n])
      ensures var t := ExploreStep(cut.previousJobs.nodes, cut, ExploreState(attachments, old(leafIndex), old(newGoodJobs), old(newBadJobs)), e);
              ok == t.Some? && (ok ==> t.value == ExploreState(next, leafIndex, newGoodJobs, newBadJobs))
    {
      ok, next := true, attachments;
      match e {
        case Expand(parent, job) =>
          if parent < |attachments| {
            var allowed := IsAllowed(attachments[parent], job);
            if allowed {
              var child := CreateNextNodeAttachment(attachments[parent], job);
              if child.None? {
                ok := false;
              } else {
                next := attachments + [child.value];
              }
            }
          }
        case Merge(destination, parent, job) =>
          if parent < |attachments| && destination < |attachments| {
            var allowed := IsAllowed(attachments[parent], job);
            if allowed && !AllowMerge(attachments[parent], attachments[destination]) {
              var child := CreateNextNodeAttachment(attachments[parent], job);
              if child.None? {
                ok := false;
              } else {
                next := attachments + [child.value];
              }
            }
          }
        case MissedDeadline(node, lateJob, _) =>
          if node < |attachments| {
            var failed := MissedDeadline(attachments[node], lateJob);
            next := attachments[node := failed];
          }
        case DeadEnd(node) =>
          if node < |attachments| {
            var failed := EncounteredDeadEnd(attachments[node]);
            next := attachments[node := failed];
          }
        case Finished(_) =>
      }
    }
  }

  /** `explore_forbidden_jobs`: searches for as long as the last one found
      a new bad job, the i-th search being `passes[i]`. After each such
      search, its good and bad jobs are appended to the cut's extra allowed
      and extra forbidden jobs and the agent's lists are cleared; the good
      jobs of the last search are not kept. `None` when the passes run out
      first or an assertion of the source fails; `rounds` are the jobs each
      completed search found, as replaying the searches in turn gives them. */
  method ExploreForbiddenJobs(cut: RatingGraphCut, passes: seq<seq<Event>>)
    returns (r: Option<RatingGraphCut>, ghost rounds: seq<Round>)
    requires cut.previousJobs.Valid()
    ensures (r, rounds) == ExploreRounds(cut.previousJobs.nodes, cut, -1, passes)
    ensures |rounds| <= |passes|
    ensures r.Some? ==> |rounds| >= 1 && rounds[|rounds| - 1].bad == []
    ensures forall i :: 0 <= i < |rounds| - 1 ==> rounds[i].bad != []
    ensures r.Some? ==>
              var kept := rounds[..|rounds| - 1];
              r.value == cut.(extraAllowedJobs := cut.extraAllowedJobs + AllGood(kept),
                              extraForbiddenJobs := cut.extraForbiddenJobs + AllBad(kept))
  {
    r, rounds := ExploreSearches(cut, passes);
    ExploreRoundsShape(cut.previousJobs.nodes, cut, -1, passes);
  }

  /** The loop of `explore_forbidden_jobs`, with its agent: it follows
      `ExploreRounds` search by search. */
  method ExploreSearches(cut: RatingGraphCut, passes: seq<seq<Event>>)
    returns (r: Option<RatingGraphCut>, ghost rounds: seq<Round>)
    requires cut.previousJobs.Valid()
    ensures (r, rounds) == ExploreRounds(cut.previousJobs.nodes, cut, -1, passes)
  {
    var agent := new CutExploreAgent(cut);
    rounds := [];
    var index := 0;
    assert passes[0..] == passes;
    ghost var first := ExploreRounds(cut.previousJobs.nodes, cut, -1, passes);
    assert rounds + first.1 == first.1;
    while index < |passes|
      invariant 0 <= index <= |passes|
      invariant fresh(agent) && agent.Valid() && agent.newGoodJobs == [] && agent.newBadJobs == []
      invariant agent.cut.previousJobs == cut.previousJobs
      invariant var rest := ExploreRounds(cut.previousJobs.nodes, agent.cut, agent.leafIndex, passes[index..]);
                ExploreRounds(cut.previousJobs.nodes, cut, -1, passes) == (rest.0, rounds + rest.1)
    {
      ghost var before := agent.cut;
      ghost var rest := ExploreRounds(cut.previousJobs.nodes, before, agent.leafIndex, passes[index..]);
      ExploreRoundsStep(cut.previousJobs.nodes, before, agent.leafIndex, passes, index);
      var ok := agent.Explore(passes[index]);
      if !ok {
        assert rounds + rest.1 == rounds;
        return None, rounds;
      }
      var round := Round(agent.newGoodJobs, agent.newBadJobs);
      if agent.newBadJobs == [] {
        return Some(agent.cut), rounds + [round];
      }
      ghost var tail := ExploreRounds(cut.previousJobs.nodes, WithRound(before, round), agent.leafIndex, passes[index + 1..]);
      assert rounds + rest.1 == (rounds + [round]) + tail.1;
      agent.cut := agent.cut.(extraAllowedJobs := agent.cut.extraAllowedJobs + agent.newGoodJobs,
                              extraForbiddenJobs := agent.cut.extraForbiddenJobs + agent.newBadJobs);
      agent.newGoodJobs := [];
      agent.newBadJobs := [];
      rounds := rounds + [round];
      index := index + 1;
    }
    assert passes[index..] == [];
    assert ExploreRounds(cut.previousJobs.nodes, agent.cut, agent.leafIndex, passes[index..]) == (None, []);
    assert rounds + [] == rounds;
    return None, rounds;
  }
}
