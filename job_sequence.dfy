/** `Job_sequence`: a path through the search, one `Index_collection` per
    step holding the jobs that may have been taken at that step. */
module JobSequences {
  import opened ProblemModel
  import opened IndexCollections

  /** `is_prefix_of` on abstract values: `b` is at least as long as `a`
      (strictly longer when `strict`), and every step of `a` is a subset of
      the same step of `b`. */
  predicate FramewisePrefix(a: seq<set<nat>>, b: seq<set<nat>>, strict: bool) {
    (if strict then |a| < |b| else |a| <= |b|)
    && forall i :: 0 <= i < |a| ==> a[i] <= b[i]
  }

  /** The non-strict relation is reflexive. */
  lemma PrefixReflexive(a: seq<set<nat>>)
    ensures FramewisePrefix(a, a, false)
    ensures !FramewisePrefix(a, a, true)
  {
  }

  /** The relation is transitive, strict as soon as one step is. */
  lemma PrefixTransitive(a: seq<set<nat>>, b: seq<set<nat>>, c: seq<set<nat>>, s1: bool, s2: bool)
    requires FramewisePrefix(a, b, s1) && FramewisePrefix(b, c, s2)
    ensures FramewisePrefix(a, c, s1 || s2)
  {
  }

  /** Any sequence is a strict prefix of its one-step extension. */
  lemma PrefixOfExtension(a: seq<set<nat>>, next: set<nat>)
    ensures FramewisePrefix(a, a + [next], true)
  {
  }

  /** A fresh collection merged from `c` (a copied step of `extended_copy`). */
  method CopyOf(c: IndexCollection) returns (copied: IndexCollection)
    requires c.Valid() && c.Elements() != {}
    ensures fresh(copied) && copied.Valid() && copied.Elements() == c.Elements()
  {
    copied := new IndexCollection();
    copied.Merge(c);
  }

  class JobSequence {
    var choices: seq<IndexCollection>
    /** The steps of the sequence as sets of job indices. */
    ghost var frames: seq<set<nat>>

    /** Every step is a valid, non-empty collection of its own, whose
        elements are the corresponding frame. */
    ghost predicate Valid()
      reads this, choices
    {
      |frames| == |choices|
      && (forall i :: 0 <= i < |choices| ==> choices[i].Valid() && choices[i].Elements() == frames[i] && frames[i] != {})
      && (forall i, j :: 0 <= i < j < |choices| ==> choices[i] != choices[j])
    }

    constructor()
      ensures Valid() && choices == [] && frames == []
    {
      choices := [];
      frames := [];
    }

    /** `merge`: step-wise union with a sequence of the same length. */
    method Merge(other: JobSequence)
      requires Valid() && other.Valid() && other != this
      requires |other.choices| == |choices|
      requires forall i, j :: 0 <= i < |choices| && 0 <= j < |other.choices| ==> choices[i] != other.choices[j]
      modifies this, choices
      ensures Valid() && choices == old(choices)
      ensures |frames| == |old(frames)|
      ensures forall i :: 0 <= i < |frames| ==> frames[i] == old(frames[i]) + other.frames[i]
    {
      var index := 0;
      while index < |choices|
        invariant 0 <= index <= |choices|
        invariant choices == old(choices) && |frames| == |choices|
        invariant forall i :: 0 <= i < |choices| ==> choices[i].Valid() && choices[i].Elements() == frames[i] && frames[i] != {}
        invariant forall i :: 0 <= i < index ==> frames[i] == old(frames[i]) + other.frames[i]
        invariant forall i :: index <= i < |choices| ==> frames[i] == old(frames[i])
      {
        choices[index].Merge(other.choices[index]);
        frames := frames[index := frames[index] + other.frames[index]];
        index := index + 1;
      }
    }

    /** `add_next`: appends a fresh step holding only `next`. */
    method AddNext(next: nat)
      requires Valid()
      modifies this
      ensures Valid()
      ensures frames == old(frames) + [{next}]
      ensures choices[..|choices| - 1] == old(choices) && fresh(choices[|choices| - 1])
    {
      var step := new IndexCollection();
      step.Insert(next);
      choices := choices + [step];
      frames := frames + [{next}];
      assert choices[..|choices| - 1] == old(choices);
    }

    /** `extended_copy`: a new sequence with copies of every step, followed by {next}. */
    method ExtendedCopy(next: nat) returns (r: JobSequence)
      requires Valid()
      ensures fresh(r) && r.Valid()
      ensures forall i :: 0 <= i < |r.choices| ==> fresh(r.choices[i])
      ensures r.frames == frames + [{next}]
    {
      r := new JobSequence();
      var index := 0;
      while index < |choices|
        invariant 0 <= index <= |choices|
        invariant fresh(r) && r.Valid()
        invariant forall i :: 0 <= i < |r.choices| ==> fresh(r.choices[i])
        invariant r.frames == frames[..index]
      {
        var copied := CopyOf(choices[index]);
        r.Push(copied, frames[index]);
        assert frames[..index + 1] == frames[..index] + [frames[index]];
        index := index + 1;
      }
      var lastStep := new IndexCollection();
      lastStep.Insert(next);
      r.Push(lastStep, {next});
      assert frames[..|choices|] == frames;
    }

    /** Appends a step that is not yet part of the sequence (`push_back`). */
    method Push(c: IndexCollection, ghost elements: set<nat>)
      requires Valid() && c.Valid() && c.Elements() == elements && elements != {}
      requires c !in choices
      modifies this
      ensures Valid() && choices == old(choices) + [c] && frames == old(frames) + [elements]
    {
      choices := choices + [c];
      frames := frames + [elements];
    }

    /** `is_prefix_of`: the step-wise subset test of `FramewisePrefix`. */
    method IsPrefixOf(other: JobSequence, strict: bool) returns (b: bool)
      requires Valid() && other.Valid()
      ensures b <==> FramewisePrefix(frames, other.frames, strict)
    {
      if strict && |other.choices| <= |choices| {
        return false;
      }
      if |other.choices| < |choices| {
        return false;
      }
      var index := 0;
      while index < |choices|
        invariant 0 <= index <= |choices|
        invariant forall i :: 0 <= i < index ==> frames[i] <= other.frames[i]
      {
        var sub := choices[index].IsSubsetOf(other.choices[index]);
        if !sub {
          return false;
        }
        index := index + 1;
      }
      return true;
    }

    /** The frames as a plain value, read step by step through the
        collections' iterators (what a copy of the sequence holds). */
    method Snapshot() returns (r: seq<set<nat>>)
      requires Valid()
      ensures r == frames
    {
      r := [];
      var index := 0;
      while index < |choices|
        invariant 0 <= index <= |choices|
        invariant r == frames[..index]
      {
        var members := choices[index].Members();
        r := r + [SetOf(members)];
        assert frames[..index + 1] == frames[..index] + [frames[index]];
        index := index + 1;
      }
      assert frames[..|choices|] == frames;
    }

    /** `last`: the final step. */
    method Last() returns (c: IndexCollection)
      requires Valid() && |choices| > 0
      ensures c == choices[|choices| - 1] && c.Valid()
      ensures c.Elements() == frames[|frames| - 1]
    {
      c := choices[|choices| - 1];
    }

    /** `get`: the step at `index`. */
    method Get(index: nat) returns (c: IndexCollection)
      requires Valid() && index < |choices|
      ensures c == choices[index] && c.Valid()
      ensures c.Elements() == frames[index]
    {
      c := choices[index];
    }

    /** `length`: the number of steps. */
    function Length(): (n: nat)
      reads this, choices
      requires Valid()
      ensures n == |frames|
    {
      |choices|
    }
  }
}
