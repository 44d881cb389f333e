/**
 * Lines 26-32 of split_dataset: the shuffled image list is cut into three
 * contiguous slices with Python's slice semantics.
 */
module Partitioning {

  /** Every element occurs at most once (a directory lists each name once). */
  ghost predicate Distinct(s: seq<string>) {
    forall x :: multiset(s)[x] <= 1
  }

  /**
   * Python's normalisation of a slice bound against a list of length n: a negative
   * bound counts from the end, and the result is clamped into [0, n].
   */
  function ClampIndex(i: int, n: nat): (k: nat)
    ensures k <= n
    ensures 0 <= i <= n ==> k == i
  {
    if i < 0 then (if i + n < 0 then 0 else i + n)
    else if i > n then n
    else i
  }

  /** Python slicing from lo to hi: an empty list when the normalised bounds cross. */
  function Slice<T>(s: seq<T>, lo: int, hi: int): (r: seq<T>)
    ensures |r| <= |s|
    ensures 0 <= lo <= hi <= |s| ==> r == s[lo..hi]
    ensures forall x :: x in r ==> x in s
  {
    var a, b := ClampIndex(lo, |s|), ClampIndex(hi, |s|);
    if a <= b then s[a..b] else []
  }

  datatype Partition = Partition(train: seq<string>, val: seq<string>, test: seq<string>)
  {
    /** The list of the split with the given name. */
    function Files(split: string): seq<string> {
      if split == "train" then train else if split == "val" then val else test
    }
  }

  /**
   * The three slices: up to the train count, the next val count elements, and
   * everything after both.
   */
  function SplitList(s: seq<string>, trainCount: int, valCount: int): (p: Partition)
    ensures forall x :: x in p.train || x in p.val || x in p.test ==> x in s
    ensures 0 <= trainCount <= |s| ==> p.train == s[..trainCount]
    ensures 0 <= trainCount && 0 <= valCount && trainCount + valCount <= |s| ==>
      p.val == s[trainCount..trainCount + valCount] && p.test == s[trainCount + valCount..]
  {
    Partition(
      Slice(s, 0, trainCount),
      Slice(s, trainCount, trainCount + valCount),
      Slice(s, trainCount + valCount, |s|))
  }

  /**
   * The three slices put back together give the list exactly when the normalised
   * end of the train slice does not lie beyond the normalised end of the val slice.
   */
  lemma SlicesConcatenateIff(s: seq<string>, trainCount: int, valCount: int)
    ensures var p := SplitList(s, trainCount, valCount);
      p.train + p.val + p.test == s
      <==> ClampIndex(trainCount, |s|) <= ClampIndex(trainCount + valCount, |s|)
  {
    var p := SplitList(s, trainCount, valCount);
    var a, b := ClampIndex(trainCount, |s|), ClampIndex(trainCount + valCount, |s|);
    if a <= b {
      assert p.train == s[..a] && p.val == s[a..b] && p.test == s[b..];
      assert s[..a] + s[a..b] + s[b..] == s;
    } else {
      assert |p.train + p.val + p.test| == a + |s| - b;
    }
  }

  /** Non-negative counts always keep the concatenation property, whether or not they fit. */
  lemma SlicesConcatenate(s: seq<string>, trainCount: int, valCount: int)
    requires 0 <= trainCount && 0 <= valCount
    ensures var p := SplitList(s, trainCount, valCount);
      p.train + p.val + p.test == s
  {
    SlicesConcatenateIff(s, trainCount, valCount);
  }

  /** When both counts are non-negative and fit, train and val have exactly those sizes. */
  lemma SliceSizes(s: seq<string>, trainCount: int, valCount: int)
    requires 0 <= trainCount && 0 <= valCount && trainCount + valCount <= |s|
    ensures var p := SplitList(s, trainCount, valCount);
      && |p.train| == trainCount
      && |p.val| == valCount
      && |p.test| == |s| - trainCount - valCount
  {
  }

  /**
   * With non-negative counts the three splits hold every element of the list
   * with its multiplicity: nothing is lost and nothing is duplicated.
   */
  lemma SplitsCoverList(s: seq<string>, trainCount: int, valCount: int)
    requires 0 <= trainCount && 0 <= valCount
    ensures var p := SplitList(s, trainCount, valCount);
      multiset(p.train) + multiset(p.val) + multiset(p.test) == multiset(s)
  {
    var p := SplitList(s, trainCount, valCount);
    SlicesConcatenate(s, trainCount, valCount);
    assert multiset(p.train + p.val + p.test) == multiset(p.train) + multiset(p.val) + multiset(p.test);
  }

  /** On a list without repetitions the three splits are pairwise disjoint. */
  lemma SplitsDisjoint(s: seq<string>, trainCount: int, valCount: int)
    requires 0 <= trainCount && 0 <= valCount && Distinct(s)
    ensures var p := SplitList(s, trainCount, valCount);
      && (forall x :: x in p.train ==> x !in p.val && x !in p.test)
      && (forall x :: x in p.val ==> x !in p.test)
  {
    var p := SplitList(s, trainCount, valCount);
    SplitsCoverList(s, trainCount, valCount);
    forall x | x in p.train || x in p.val
      ensures x in p.train ==> x !in p.val && x !in p.test
      ensures x in p.val ==> x !in p.test
    {
      assert multiset(s)[x] == multiset(p.train)[x] + multiset(p.val)[x] + multiset(p.test)[x];
    }
  }
}
