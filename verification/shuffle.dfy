/**
  The Fisher-Yates shuffle of the seating order. `Math.random()` is an
  oracle: `rand[i]` is the value drawn when the loop is at index i, a real
  in [0, 1).
*/
module Shuffling {

  /** The values Math.random() can return. */
  predicate Unit(r: real)
  {
    0.0 <= r < 1.0
  }

  predicate Oracle(rand: seq<real>, n: nat)
  {
    |rand| == n && forall i :: 0 <= i < n ==> Unit(rand[i])
  }

  /** `Math.floor(r * (i + 1))`: an index in 0..i. */
  function Pick(r: real, i: nat): (j: int)
    requires Unit(r)
    ensures 0 <= j <= i
  {
    var m := (i + 1) as real;
    var x := r * m;
    ProductBelow(r, m);
    x.Floor
  }

  lemma ProductBelow(r: real, m: real)
    requires Unit(r) && m >= 1.0
    ensures 0.0 <= r * m < m
  {
    assert m - r * m == (1.0 - r) * m;
  }

  /** The destructuring swap of positions i and j. */
  function Swap<T>(s: seq<T>, i: nat, j: nat): (r: seq<T>)
    requires i < |s| && j < |s|
    ensures |r| == |s|
    ensures r[i] == s[j] && r[j] == s[i]
    ensures forall k :: 0 <= k < |s| && k != i && k != j ==> r[k] == s[k]
  {
    s[i := s[j]][j := s[i]]
  }

  /** A swap permutes. */
  lemma SwapPermutes<T>(s: seq<T>, i: nat, j: nat)
    requires i < |s| && j < |s|
    ensures multiset(Swap(s, i, j)) == multiset(s)
  {
  }

  /** The loop's remaining iterations, from index i down to 1. */
  function ShuffleFrom<T>(s: seq<T>, rand: seq<real>, i: nat): (r: seq<T>)
    requires Oracle(rand, |s|) && i < |s|
    ensures |r| == |s|
    decreases i
  {
    if i == 0 then s
    else ShuffleFrom(Swap(s, i, Pick(rand[i], i)), rand, i - 1)
  }

  /** Every remaining iteration swaps, so the result is a permutation. */
  lemma {:induction false} ShuffleFromPermutes<T>(s: seq<T>, rand: seq<real>, i: nat)
    requires Oracle(rand, |s|) && i < |s|
    ensures multiset(ShuffleFrom(s, rand, i)) == multiset(s)
    decreases i
  {
    if i > 0 {
      var j := Pick(rand[i], i);
      SwapPermutes(s, i, j);
      ShuffleFromPermutes(Swap(s, i, j), rand, i - 1);
    }
  }

  lemma ShuffleFromDone<T>(s: seq<T>, rand: seq<real>)
    requires Oracle(rand, |s|) && |s| > 0
    ensures ShuffleFrom(s, rand, 0) == s
  {
  }

  lemma ShuffleFromStep<T>(s: seq<T>, rand: seq<real>, i: nat)
    requires Oracle(rand, |s|) && 0 < i < |s|
    ensures ShuffleFrom(s, rand, i) == ShuffleFrom(Swap(s, i, Pick(rand[i], i)), rand, i - 1)
  {
  }

  /** The whole shuffle: a permutation of its input. */
  function FisherYates<T>(s: seq<T>, rand: seq<real>): (r: seq<T>)
    requires Oracle(rand, |s|)
    ensures |r| == |s|
    ensures multiset(r) == multiset(s)
  {
    if s == [] then []
    else
      ShuffleFromPermutes(s, rand, |s| - 1);
      ShuffleFrom(s, rand, |s| - 1)
  }

  /** With all draws 0.0 each position swaps with the first; a two-element list comes back reversed. */
  lemma TwoElementsWithZeroDraws<T>(x: T, y: T)
    ensures FisherYates([x, y], [0.0, 0.0]) == [y, x]
  {
    assert Pick(0.0, 1) == 0;
    assert Swap([x, y], 1, 0) == [y, x];
    assert FisherYates([x, y], [0.0, 0.0]) == ShuffleFrom([y, x], [0.0, 0.0], 0);
  }

  /** After the swap of iteration i, the remaining iterations continue from i - 1. */
  lemma SwappedStep<T>(before: seq<T>, after: seq<T>, rand: seq<real>, i: nat)
    requires Oracle(rand, |before|) && 0 < i < |before|
    requires after == before[i := before[Pick(rand[i], i)]][Pick(rand[i], i) := before[i]]
    ensures ShuffleFrom(after, rand, i - 1) == ShuffleFrom(before, rand, i)
  {
    ShuffleFromStep(before, rand, i);
  }

  /** `[...array]`: a fresh array with the same elements. */
  method CopyOf<T>(input: seq<T>) returns (a: array<T>)
    ensures fresh(a) && a[..] == input
  {
    a := new T[|input|](k requires 0 <= k < |input| => input[k]);
  }

  /** The loop of shuffle: swaps in place from the last index down to 1. */
  method ShuffleInPlace<T>(a: array<T>, rand: seq<real>)
    requires Oracle(rand, a.Length) && a.Length > 0
    modifies a
    ensures a[..] == ShuffleFrom(old(a[..]), rand, a.Length - 1)
  {
    var i := a.Length - 1;
    while i > 0
      invariant 0 <= i < a.Length
      invariant ShuffleFrom(a[..], rand, i) == ShuffleFrom(old(a[..]), rand, a.Length - 1)
    {
      ghost var before := a[..];
      var j := Pick(rand[i], i);
      a[i], a[j] := a[j], a[i];
      SwappedStep(before, a[..], rand, i);
      i := i - 1;
    }
    ShuffleFromDone(a[..], rand);
  }

  /**
    shuffle: copies the input into a fresh array and shuffles the copy; the
    input sequence is a value and stays as it was.
  */
  method Shuffle<T>(input: seq<T>, rand: seq<real>) returns (result: seq<T>)
    requires Oracle(rand, |input|)
    ensures result == FisherYates(input, rand)
    ensures multiset(result) == multiset(input)
  {
    if |input| == 0 {
      return [];
    }
    var a := CopyOf(input);
    ShuffleInPlace(a, rand);
    result := a[..];
  }
}
