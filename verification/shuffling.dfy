/**
 * Line 24 of split_dataset: the image list is shuffled in place. The random source is a
 * parameter: `draws` is the stream of numbers the generator hands out, consumed
 * in order, and the i-th swap partner is the next draw reduced below i + 1, as in
 * the Fisher-Yates loop that `random.shuffle` runs.
 */
module Shuffling {

  /** The next draw of the stream (zero once the stream is exhausted). */
  function Head(draws: seq<nat>): nat {
    if draws == [] then 0 else draws[0]
  }

  /** The stream after one draw. */
  function Tail(draws: seq<nat>): seq<nat> {
    if draws == [] then [] else draws[1..]
  }

  /** Exchange the elements at positions i and j. */
  function SwapAt<T>(s: seq<T>, i: nat, j: nat): (r: seq<T>)
    requires i < |s| && j < |s|
    ensures |r| == |s| && r[i] == s[j] && r[j] == s[i]
    ensures forall k :: 0 <= k < |s| && k != i && k != j ==> r[k] == s[k]
    ensures multiset(r) == multiset(s)
  {
    s[i := s[j]][j := s[i]]
  }

  /**
   * The list after the swaps for positions m-1 down to 1: position i is exchanged
   * with a position drawn from 0..i.
   */
  function Shuffled<T>(s: seq<T>, m: nat, draws: seq<nat>): (r: seq<T>)
    requires m <= |s|
    ensures |r| == |s|
    ensures multiset(r) == multiset(s)
    ensures r[m..] == s[m..]
    decreases m
  {
    if m <= 1 then s
    else Shuffled(SwapAt(s, m - 1, Head(draws) % m), m - 1, Tail(draws))
  }

  /** `random.shuffle` on the list, in place. */
  method Shuffle<T>(a: array<T>, draws: seq<nat>)
    modifies a
    ensures a[..] == Shuffled(old(a[..]), a.Length, draws)
    ensures multiset(a[..]) == multiset(old(a[..]))
  {
    var m: nat := a.Length;
    var rest := draws;
    while m > 1
      invariant m <= a.Length
      invariant Shuffled(a[..], m, rest) == Shuffled(old(a[..]), a.Length, draws)
      decreases m
    {
      var j := Head(rest) % m;
      ghost var before := a[..];
      var t := a[m - 1];
      a[m - 1] := a[j];
      assert a[..] == before[m - 1 := before[j]];
      a[j] := t;
      assert a[..] == before[m - 1 := before[j]][j := before[m - 1]];
      rest := Tail(rest);
      m := m - 1;
    }
  }

  /**
   * Every reordering of the list is the outcome of some stream of draws, so the
   * shuffle can produce any permutation of its input and nothing but permutations.
   */
  lemma {:induction false} ShuffleReachesEveryPermutation<T>(s: seq<T>, p: seq<T>)
    requires multiset(p) == multiset(s)
    ensures exists draws :: Shuffled(s, |s|, draws) == p
  {
    assert |p| == |multiset(p)| == |multiset(s)| == |s|;
    assert s[..|s|] == s && p[..|p|] == p;
    ShuffledPrefixReaches(s, p, |s|);
  }

  /**
   * Induction step: placing the wanted last element by one swap leaves a shorter
   * prefix that is again a reordering of the wanted prefix.
   */
  lemma SwapIntoPlace<T>(s: seq<T>, p: seq<T>, m: nat, j: nat)
    requires 1 < m <= |s| == |p| && j < m
    requires multiset(s[..m]) == multiset(p[..m]) && s[m..] == p[m..]
    requires s[j] == p[m - 1]
    ensures var s' := SwapAt(s, m - 1, j);
      multiset(s'[..m - 1]) == multiset(p[..m - 1]) && s'[m - 1..] == p[m - 1..]
  {
    var s' := SwapAt(s, m - 1, j);
    SwappedPrefixMultiset(s, p, m, j);
    assert s'[m - 1..] == [p[m - 1]] + s[m..];
    assert p[m - 1..] == [p[m - 1]] + p[m..];
  }

  lemma SwappedPrefixMultiset<T>(s: seq<T>, p: seq<T>, m: nat, j: nat)
    requires 1 < m <= |s| == |p| && j < m
    requires multiset(s[..m]) == multiset(p[..m])
    requires s[j] == p[m - 1]
    ensures multiset(SwapAt(s, m - 1, j)[..m - 1]) == multiset(p[..m - 1])
  {
    var x := p[m - 1];
    var t := SwapAt(s[..m], m - 1, j);
    SwapCommutesWithPrefix(s, m, j);
    var s' := SwapAt(s, m - 1, j);
    assert s'[..m - 1] == s'[..m][..m - 1] == t[..m - 1];
    assert t == t[..m - 1] + [x];
    assert p[..m] == p[..m - 1] + [x];
    MultisetCancel(t[..m - 1], p[..m - 1], x);
  }

  /** Swapping inside a prefix and then taking the prefix is taking it and then swapping. */
  lemma SwapCommutesWithPrefix<T>(s: seq<T>, m: nat, j: nat)
    requires 1 < m <= |s| && j < m
    ensures SwapAt(s, m - 1, j)[..m] == SwapAt(s[..m], m - 1, j)
  {
  }

  /** Removing the same element from two equal multisets. */
  lemma MultisetCancel<T>(a: seq<T>, b: seq<T>, x: T)
    requires multiset(a + [x]) == multiset(b + [x])
    ensures multiset(a) == multiset(b)
  {
    assert multiset(a) == multiset(a + [x]) - multiset{x};
    assert multiset(b) == multiset(b + [x]) - multiset{x};
  }

  /** One unfolding of the shuffle when the next draw is already below m. */
  lemma ShuffledStep<T>(s: seq<T>, m: nat, j: nat, rest: seq<nat>)
    requires 1 < m <= |s| && j < m
    ensures Shuffled(s, m, [j] + rest) == Shuffled(SwapAt(s, m - 1, j), m - 1, rest)
  {
    var draws := [j] + rest;
    assert Head(draws) == j && Tail(draws) == rest;
    assert j % m == j;
  }

  /** The element wanted at position m-1 sits somewhere in the first m positions. */
  lemma FindInPrefix<T>(s: seq<T>, p: seq<T>, m: nat) returns (j: nat)
    requires 1 < m <= |s| == |p|
    requires multiset(s[..m]) == multiset(p[..m])
    ensures j < m && s[j] == p[m - 1]
  {
    assert p[..m][m - 1] == p[m - 1];
    assert p[m - 1] in multiset(s[..m]);
    j :| 0 <= j < m && s[..m][j] == p[m - 1];
  }

  /** Base case: a prefix of length at most one that is a reordering is already in place. */
  lemma ShortPrefixInPlace<T>(s: seq<T>, p: seq<T>, m: nat)
    requires m <= 1 && m <= |s| == |p|
    requires multiset(s[..m]) == multiset(p[..m]) && s[m..] == p[m..]
    ensures s == p
  {
    if m == 1 {
      assert s[..1] == [s[0]] && p[..1] == [p[0]];
      assert s[0] in multiset(p[..1]);
    }
    assert s == s[..m] + s[m..] && p == p[..m] + p[m..];
  }

  lemma {:induction false} ShuffledPrefixReaches<T>(s: seq<T>, p: seq<T>, m: nat)
    requires m <= |s| == |p|
    requires multiset(s[..m]) == multiset(p[..m]) && s[m..] == p[m..]
    ensures exists draws :: Shuffled(s, m, draws) == p
    decreases m
  {
    if m <= 1 {
      ShortPrefixInPlace(s, p, m);
      assert Shuffled(s, m, []) == p;
    } else {
      var j := FindInPrefix(s, p, m);
      SwapIntoPlace(s, p, m, j);
      var s' := SwapAt(s, m - 1, j);
      ShuffledPrefixReaches(s', p, m - 1);
      var rest :| Shuffled(s', m - 1, rest) == p;
      ShuffledStep(s, m, j, rest);
      assert Shuffled(s, m, [j] + rest) == p;
    }
  }
}
