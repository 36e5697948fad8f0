/** `Index_collection`: a set of job indices that switches between a dense
    bit-set form and a sparse vector form depending on which is smaller. */
module IndexCollections {
  import opened ProblemModel

  /** `sizeof(Job_index)` in bytes (a `size_t`). */
  const JobIndexBytes: nat := 8

  /** The representation rule of `insert`: the dense form is used when its
      byte size, `(largest / 64) * 8`, is at most ten times the byte size
      of a vector holding the old elements plus one. */
  predicate PrefersSet(newLargest: nat, oldSize: nat) {
    (newLargest / 64) * 8 <= 10 * ((oldSize + 1) * JobIndexBytes)
  }

  function SetOf(s: seq<nat>): set<nat> { set x | x in s }

  lemma SetOfPrefix(s: seq<nat>, i: nat)
    requires i < |s|
    ensures SetOf(s[..i + 1]) == SetOf(s[..i]) + {s[i]}
  {
    assert s[..i + 1] == s[..i] + [s[i]];
  }

  lemma SetOfWhole(s: seq<nat>)
    ensures SetOf(s[..|s|]) == SetOf(s)
  {
    assert s[..|s|] == s;
  }

  /** The larger of two collections' largest indices is one of their
      elements, or 0 when both are empty; so adding it to their union adds
      nothing new unless both are empty. */
  lemma LargestCovered(e1: set<nat>, l1: nat, e2: set<nat>, l2: nat)
    requires (e1 == {} ==> l1 == 0) && (e1 != {} ==> l1 in e1)
    requires (e2 == {} ==> l2 == 0) && (e2 != {} ==> l2 in e2)
    ensures e1 != {} || e2 != {} ==> e1 + e2 + {Max(l1, l2)} == e1 + e2
    ensures e1 == {} && e2 == {} ==> e1 + e2 + {Max(l1, l2)} == {0}
  {
  }

  predicate Distinct(s: seq<nat>) {
    forall i, j :: 0 <= i < j < |s| ==> s[i] != s[j]
  }

  predicate Ascending(s: seq<nat>) {
    forall i, j :: 0 <= i < j < |s| ==> s[i] < s[j]
  }

  /** A list without repetitions has as many distinct elements as positions. */
  lemma {:induction false} DistinctCardinality(s: seq<nat>)
    requires Distinct(s)
    ensures |SetOf(s)| == |s|
  {
    if s != [] {
      var t := s[..|s| - 1];
      var last := s[|s| - 1];
      assert s == t + [last];
      assert Distinct(t) by {
        forall i, j | 0 <= i < j < |t| ensures t[i] != t[j] {
          assert t[i] == s[i] && t[j] == s[j];
        }
      }
      DistinctCardinality(t);
      assert last !in SetOf(t) by {
        forall k | 0 <= k < |t| ensures t[k] != last {
          assert t[k] == s[k];
        }
      }
      assert SetOf(s) == SetOf(t) + {last};
    }
  }

  /** After inserting `x`, the larger of `x` and the old largest index
      bounds the elements and is one of them. */
  lemma LargestAfterInsert(before: set<nat>, largest: nat, x: nat)
    requires forall y :: y in before ==> y <= largest
    requires (before == {} ==> largest == 0) && (before != {} ==> largest in before)
    ensures forall y :: y in before + {x} ==> y <= Max(largest, x)
    ensures Max(largest, x) in before + {x}
    ensures before + {Max(largest, x)} + {x} == before + {x}
  {
  }

  class IndexCollection {
    var indexSet: IndexSet
    var vector: seq<nat>
    var largestIndex: nat
    var currentSize: nat

    /** `uses_set`: the dense form is in use exactly when the bit set has storage. */
    predicate UsesSet()
      reads this
    {
      indexSet.words > 0
    }

    /** The indices the collection holds, in whichever form it is. */
    function Elements(): set<nat>
      reads this
    {
      if UsesSet() then indexSet.members else SetOf(vector)
    }

    /** The two forms agree with the recorded size, and only one is populated. */
    ghost predicate Consistent()
      reads this
    {
      (UsesSet() ==> vector == [] && indexSet.members != {} && currentSize == |indexSet.members|)
      && (!UsesSet() ==> indexSet.members == {} && Distinct(vector) && currentSize == |vector|)
    }

    ghost predicate Valid()
      reads this
    {
      Consistent()
      && (forall x :: x in Elements() ==> x <= largestIndex)
      && (Elements() == {} ==> largestIndex == 0)
      && (Elements() != {} ==> largestIndex in Elements())
    }

    constructor()
      ensures Valid() && Elements() == {} && !UsesSet()
      ensures largestIndex == 0 && vector == []
    {
      indexSet := EmptyIndexSet;
      vector := [];
      largestIndex := 0;
      currentSize := 0;
    }

    /** `size`: the number of indices held. */
    function Size(): (n: nat)
      reads this
      requires Valid()
      ensures n == |Elements()|
    {
      if !UsesSet() then DistinctCardinality(vector); currentSize
      else currentSize
    }

    /** `contains`: membership, answered by whichever form is in use. */
    function Contains(x: nat): (r: bool)
      reads this
      requires Valid()
      ensures r <==> x in Elements()
    {
      if UsesSet() then indexSet.Contains(x) else x in vector
    }

    /** Iteration over the collection (`begin`..`end`): in the dense form the
        indices `0..largest_index` held by the set, ascending; in the sparse
        form the vector in insertion order. */
    method Members() returns (r: seq<nat>)
      requires Valid()
      ensures SetOf(r) == Elements() && Distinct(r)
      ensures UsesSet() ==> Ascending(r)
      ensures !UsesSet() ==> r == vector
    {
      r := [];
      if !UsesSet() {
        var index := 0;
        while index < |vector|
          invariant 0 <= index <= |vector|
          invariant r == vector[..index]
        {
          r := r + [vector[index]];
          index := index + 1;
        }
        assert vector[..|vector|] == vector;
        return;
      }
      var index := 0;
      while index <= largestIndex && !indexSet.Contains(index)
        invariant 0 <= index <= largestIndex + 1
        invariant forall y :: y in indexSet.members && y < index ==> false
      {
        index := index + 1;
      }
      while index != largestIndex + 1
        invariant 0 <= index <= largestIndex + 1
        invariant index <= largestIndex ==> index in indexSet.members
        invariant Ascending(r)
        invariant forall k :: 0 <= k < |r| ==> r[k] < index
        invariant SetOf(r) == set y | y in indexSet.members && y < index
        decreases largestIndex + 1 - index
      {
        assert SetOf(r + [index]) == SetOf(r) + {index};
        r := r + [index];
        index := index + 1;
        while index <= largestIndex && !indexSet.Contains(index)
          invariant 0 <= index <= largestIndex + 1
          invariant SetOf(r) == set y | y in indexSet.members && y < index
          invariant forall k :: 0 <= k < |r| ==> r[k] < index
        {
          index := index + 1;
        }
      }
      assert SetOf(r) == indexSet.members;
    }

    /** The vector-to-set conversion of `insert`: the set receives the new
        largest index and every element of the vector, which is emptied. */
    method SwitchToSet(newLargest: nat)
      requires Consistent() && !UsesSet()
      modifies this
      ensures Consistent() && UsesSet()
      ensures Elements() == old(Elements()) + {newLargest}
      ensures largestIndex == old(largestIndex)
    {
      var dense := indexSet.Add(newLargest);
      var i := 0;
      while i < |vector|
        invariant 0 <= i <= |vector|
        invariant dense.words > 0
        invariant dense.members == SetOf(vector[..i]) + {newLargest}
      {
        assert SetOf(vector[..i + 1]) == SetOf(vector[..i]) + {vector[i]};
        dense := dense.Add(vector[i]);
        i := i + 1;
      }
      assert vector[..|vector|] == vector;
      indexSet := dense;
      currentSize := indexSet.Size();
      vector := [];
    }

    /** The set-to-vector conversion of `insert`: the vector receives the
        elements in iteration (ascending) order and the set is cleared. */
    method SwitchToVector()
      requires Valid() && UsesSet()
      modifies this
      ensures Consistent() && !UsesSet()
      ensures Elements() == old(Elements()) && Ascending(vector)
      ensures largestIndex == old(largestIndex)
    {
      var newVector := Members();
      indexSet := EmptyIndexSet;
      vector := newVector;
      currentSize := |vector|;
    }

    /** `insert`: adds `x`, first switching form when the representation
        rule asks for the other one. */
    method Insert(x: nat)
      requires Valid()
      modifies this
      ensures Valid()
      ensures Elements() == old(Elements()) + {x}
      ensures largestIndex == Max(old(largestIndex), x)
      ensures UsesSet() == PrefersSet(Max(old(largestIndex), x), old(currentSize))
      ensures !UsesSet() && !old(UsesSet()) ==> vector == old(vector) + (if x in old(vector) then [] else [x])
      ensures !UsesSet() && old(UsesSet()) ==>
                var kept := |vector| - (if x in old(Elements()) then 0 else 1);
                0 <= kept && Ascending(vector[..kept]) && SetOf(vector[..kept]) == old(Elements())
                && vector[kept..] == (if x in old(Elements()) then [] else [x])
    {
      var newLargest := Max(largestIndex, x);
      var shouldUseSet := PrefersSet(newLargest, currentSize);
      ghost var before := Elements();
      LargestAfterInsert(before, largestIndex, x);
      if shouldUseSet && !UsesSet() {
        SwitchToSet(newLargest);
      } else if !shouldUseSet && UsesSet() {
        SwitchToVector();
      }
      AddIfAbsent(x);
      largestIndex := newLargest;
    }

    /** The final step of `insert`: `x` is added to the form in use, and the
        size grows by one, unless it is already present. */
    method AddIfAbsent(x: nat)
      requires Consistent()
      modifies this
      ensures Consistent() && UsesSet() == old(UsesSet())
      ensures Elements() == old(Elements()) + {x}
      ensures largestIndex == old(largestIndex)
      ensures !UsesSet() ==> vector == old(vector) + (if x in old(vector) then [] else [x])
    {
      if UsesSet() {
        if !indexSet.Contains(x) {
          indexSet := indexSet.Add(x);
          currentSize := currentSize + 1;
        }
      } else if x !in vector {
        vector := vector + [x];
        currentSize := currentSize + 1;
      }
    }

    /** `merge`: inserts the larger of the two largest indices, then every
        index of `other`. Merging two empty collections therefore yields {0}. */
    method Merge(other: IndexCollection)
      requires Valid() && other.Valid() && other != this
      modifies this
      ensures Valid()
      ensures Elements() == old(Elements()) + other.Elements() + {Max(old(largestIndex), other.largestIndex)}
      ensures old(Elements()) != {} || other.Elements() != {} ==> Elements() == old(Elements()) + other.Elements()
      ensures old(Elements()) == {} && other.Elements() == {} ==> Elements() == {0}
    {
      ghost var before := Elements();
      var top := Max(largestIndex, other.largestIndex);
      LargestCovered(before, largestIndex, other.Elements(), other.largestIndex);
      Insert(top);
      var others := other.Members();
      InsertAll(others);
    }

    /** The loop of `merge`: every listed index is inserted in turn. */
    method InsertAll(others: seq<nat>)
      requires Valid()
      modifies this
      ensures Valid()
      ensures Elements() == old(Elements()) + SetOf(others)
    {
      ghost var before := Elements();
      var i := 0;
      while i < |others|
        invariant 0 <= i <= |others|
        invariant Valid()
        invariant Elements() == before + SetOf(others[..i])
      {
        SetOfPrefix(others, i);
        Insert(others[i]);
        i := i + 1;
      }
      SetOfWhole(others);
    }

    /** `is_subset_of`: every index held here is held by `other`. */
    method IsSubsetOf(other: IndexCollection) returns (b: bool)
      requires Valid() && other.Valid()
      ensures b <==> Elements() <= other.Elements()
    {
      var mine := Members();
      var i := 0;
      while i < |mine|
        invariant 0 <= i <= |mine|
        invariant SetOf(mine[..i]) <= other.Elements()
      {
        if !other.Contains(mine[i]) {
          return false;
        }
        assert SetOf(mine[..i + 1]) == SetOf(mine[..i]) + {mine[i]};
        i := i + 1;
      }
      assert mine[..|mine|] == mine;
      return true;
    }
  }
}
