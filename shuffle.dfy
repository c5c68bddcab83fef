/**
 * The shuffle the partitioners apply to a vector of indices. std::shuffle is
 * modelled as the forward swap algorithm: for every position i it exchanges the
 * element at i with the element at a position drawn from 0..i. The drawn positions
 * are an input. Every property of the partitioners rests only on the result being
 * a permutation of the input (ShuffledIsPermutation), which holds for whatever
 * algorithm the standard library uses.
 */
module Shuffle {

  /** Every step i draws a position at most i. */
  predicate DrawsBounded(draws: seq<nat>)
  {
    forall i :: 0 <= i < |draws| ==> draws[i] <= i
  }

  /** A valid draw sequence for n elements: one position at most i for each step i. */
  predicate ValidDraws(draws: seq<nat>, n: nat)
  {
    |draws| == n && DrawsBounded(draws)
  }

  function Swap(s: seq<int>, i: nat, j: nat): seq<int>
    requires i < |s| && j < |s|
  {
    seq(|s|, k requires 0 <= k < |s| => if k == i then s[j] else if k == j then s[i] else s[k])
  }

  /** The sequence after the first m swap steps. */
  function ShuffleSteps(s: seq<int>, draws: seq<nat>, m: nat): (r: seq<int>)
    requires m <= |s| && m <= |draws|
    requires DrawsBounded(draws)
    ensures |r| == |s|
  {
    if m == 0 then s else Swap(ShuffleSteps(s, draws, m - 1), m - 1, draws[m - 1])
  }

  function Shuffled(s: seq<int>, draws: seq<nat>): seq<int>
    requires ValidDraws(draws, |s|)
  {
    ShuffleSteps(s, draws, |s|)
  }

  /** Shuffling keeps every element and its multiplicity, and the length. */
  lemma SwapPermutes(s: seq<int>, i: nat, j: nat, r: seq<int>)
    requires i < |s| && j < |s| && r == Swap(s, i, j)
    ensures multiset(r) == multiset(s)
  {
    if i < j {
      SwapOrdered(s, i, j);
    } else if j < i {
      SwapOrdered(s, j, i);
      assert Swap(s, i, j) == Swap(s, j, i);
    } else {
      assert Swap(s, i, j) == s;
    }
  }

  lemma SwapOrdered(s: seq<int>, i: nat, j: nat)
    requires i < j < |s|
    ensures multiset(Swap(s, i, j)) == multiset(s)
  {
    var a, b, c := s[..i], s[i + 1..j], s[j + 1..];
    assert s == a + [s[i]] + b + [s[j]] + c;
    assert Swap(s, i, j) == a + [s[j]] + b + [s[i]] + c;
  }

  lemma {:induction false} ShuffleStepsPermutes(s: seq<int>, draws: seq<nat>, m: nat)
    requires m <= |s| && m <= |draws|
    requires DrawsBounded(draws)
    ensures multiset(ShuffleSteps(s, draws, m)) == multiset(s)
  {
    if m > 0 {
      var prev := ShuffleSteps(s, draws, m - 1);
      ShuffleStepsPermutes(s, draws, m - 1);
      SwapPermutes(prev, m - 1, draws[m - 1], ShuffleSteps(s, draws, m));
    }
  }

  lemma ShuffledIsPermutation(s: seq<int>, draws: seq<nat>)
    requires ValidDraws(draws, |s|)
    ensures |Shuffled(s, draws)| == |s|
    ensures multiset(Shuffled(s, draws)) == multiset(s)
    ensures forall x :: x in Shuffled(s, draws) <==> x in s
  {
    var r := Shuffled(s, draws);
    ShuffleStepsPermutes(s, draws, |s|);
    forall x
      ensures x in r <==> x in s
    {
      assert x in r <==> x in multiset(r);
      assert x in s <==> x in multiset(s);
    }
  }

  /** std::shuffle on a vector, in place. */
  method ShuffleInPlace(a: array<int>, draws: seq<nat>)
    requires ValidDraws(draws, a.Length)
    modifies a
    ensures a[..] == Shuffled(old(a[..]), draws)
  {
    ghost var s := a[..];
    for i := 0 to a.Length
      invariant a[..] == ShuffleSteps(s, draws, i)
    {
      var j := draws[i];
      ghost var before := a[..];
      var t := a[i];
      a[i] := a[j];
      a[j] := t;
      assert a[..] == Swap(before, i, j);
      assert ShuffleSteps(s, draws, i + 1) == Swap(ShuffleSteps(s, draws, i), i, j);
    }
    assert a[..] == ShuffleSteps(s, draws, |s|);
  }
}
