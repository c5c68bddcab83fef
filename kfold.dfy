/**
 * KFold: one shuffle of 0..n-1 at construction; fold f tests the f-th window of
 * n / k consecutive shuffled indices and trains on everything else. Every fold,
 * the last included, has exactly n / k test indices: the n mod k indices at the
 * tail of the shuffled vector are always trained on and never tested.
 */
module KFolding {
  import opened Seqs
  import opened Shuffle
  import opened FoldBase

  /** The test window of every fold lies inside the shuffled vector. */
  lemma WindowBounds(n: nat, k: int, f: int)
    requires k >= 1 && 0 <= f < k
    ensures 0 <= f * (n / k)
    ensures f * (n / k) + n / k == (f + 1) * (n / k)
    ensures (f + 1) * (n / k) <= k * (n / k) <= n
  {
    MulMono(0, f, n / k);
    MulMono(f + 1, k, n / k);
  }

  /** Positions lo..hi-1 of s are tested, all other positions trained on, in order. */
  function Window(s: seq<int>, lo: nat, hi: nat): Split
    requires lo <= hi <= |s|
  {
    Split(s[..lo] + s[hi..], s[lo..hi])
  }

  /** What getFold(f) returns for the shuffled vector s. */
  function KFoldSplit(s: seq<int>, k: int, f: int): Split
    requires k >= 1 && 0 <= f < k
  {
    var t := |s| / k;
    WindowBounds(|s|, k, f);
    Window(s, f * t, (f + 1) * t)
  }

  class KFold {
    const config: Fold
    const indices: array<int>

    ghost predicate Valid()
      reads indices
    {
      && config.n >= 0
      && indices.Length == config.n
      && IsPermutation(indices[..], config.n)
    }

    function NumberOfFolds(): int
    {
      config.NumberOfFolds()
    }

    /** Fills the vector with 0..n-1 and shuffles it with the engine's draws. */
    constructor (k: int, n: nat, seed: int, draws: seq<nat>)
      requires ValidDraws(draws, n)
      ensures config == Fold(k, n, seed) && NumberOfFolds() == k
      ensures Valid() && fresh(indices)
      ensures indices[..] == Shuffled(Range(n), draws)
    {
      config := Fold(k, n, seed);
      var a := new int[n];
      for i := 0 to n
        invariant forall j :: 0 <= j < i ==> a[j] == j
      {
        a[i] := i;
      }
      assert a[..] == Range(n);
      ShuffleInPlace(a, draws);
      ShuffledIsPermutation(Range(n), draws);
      indices := a;
    }

    method GetFold(nFold: int) returns (r: Result<Split>)
      requires Valid()
      ensures r.Err? <==> nFold < 0 || nFold >= config.k
      ensures r.Err? ==> r.error == OutOfRange(nFold, config.k)
      ensures r.Ok? ==> r.value == KFoldSplit(indices[..], config.k, nFold)
      ensures r.Ok? ==> IsPermutation(r.value.train + r.value.test, config.n)
      ensures r.Ok? ==> |r.value.test| == config.n / config.k
    {
      var check := config.CheckFold(nFold);
      if check.Err? {
        return Err(check.error);
      }
      var n, k := config.n, config.k;
      var nTest := n / k;
      WindowBounds(n, k, nFold);
      var train, test := SplitWindow(indices, nTest * nFold, nTest * (nFold + 1));
      r := Ok(Split(train, test));
      KFoldPartition(indices[..], n, k, nFold);
      KFoldSizes(indices[..], k, nFold);
    }
  }

  /**
   * The loop of getFold: positions lo..hi-1 of the shuffled vector go to test,
   * all other positions to train, each list keeping the vector's order.
   */
  method SplitWindow(a: array<int>, lo: int, hi: int) returns (train: seq<int>, test: seq<int>)
    requires 0 <= lo <= hi <= a.Length
    ensures test == a[lo..hi]
    ensures train == a[..lo] + a[hi..]
  {
    train, test := [], [];
    for i := 0 to a.Length
      invariant i <= lo ==> test == [] && train == a[..i]
      invariant lo <= i <= hi ==> test == a[lo..i] && train == a[..lo]
      invariant hi <= i ==> test == a[lo..hi] && train == a[..lo] + a[hi..i]
    {
      if i >= lo && i < hi {
        test := test + [a[i]];
        assert a[lo..i + 1] == a[lo..i] + [a[i]];
      } else {
        train := train + [a[i]];
        if i < lo {
          assert a[..i + 1] == a[..i] + [a[i]];
        } else {
          assert a[hi..i + 1] == a[hi..i] + [a[i]];
        }
      }
    }
    assert a[hi..a.Length] == a[hi..];
  }

  /** A window split of a permutation of 0..n-1 is a partition of 0..n-1 into two repetition-free lists. */
  lemma WindowPartition(s: seq<int>, n: nat, lo: nat, hi: nat)
    requires IsPermutation(s, n) && lo <= hi <= |s|
    ensures IsPermutation(Window(s, lo, hi).train + Window(s, lo, hi).test, n)
    ensures Distinct(Window(s, lo, hi).train) && Distinct(Window(s, lo, hi).test)
    ensures forall x :: x in Window(s, lo, hi).train ==> x !in Window(s, lo, hi).test
    ensures |Window(s, lo, hi).test| == hi - lo && |Window(s, lo, hi).train| == |s| - (hi - lo)
  {
    var w := Window(s, lo, hi);
    assert s == s[..lo] + s[lo..hi] + s[hi..];
    assert multiset(w.train + w.test) == multiset(s);
    PermutationFacts(w.train + w.test, n);
    DistinctConcat(w.train, w.test);
  }

  /** Each fold's train and test lists together are 0..n-1 reordered, and they share nothing. */
  lemma KFoldPartition(s: seq<int>, n: nat, k: int, f: int)
    requires IsPermutation(s, n) && k >= 1 && 0 <= f < k
    ensures IsPermutation(KFoldSplit(s, k, f).train + KFoldSplit(s, k, f).test, n)
    ensures Distinct(KFoldSplit(s, k, f).train) && Distinct(KFoldSplit(s, k, f).test)
    ensures forall x :: x in KFoldSplit(s, k, f).train ==> x !in KFoldSplit(s, k, f).test
  {
    var t := |s| / k;
    WindowBounds(|s|, k, f);
    WindowPartition(s, n, f * t, (f + 1) * t);
  }

  /**
   * Every test list has n / k entries and every train list the other n - n / k,
   * which lies between n*(k-1)/k and n*(k-1)/k + 1.
   */
  lemma KFoldSizes(s: seq<int>, k: int, f: int)
    requires k >= 1 && 0 <= f < k
    ensures |KFoldSplit(s, k, f).test| == |s| / k
    ensures |KFoldSplit(s, k, f).train| == |s| - |s| / k
    ensures |s| * (k - 1) / k <= |KFoldSplit(s, k, f).train| <= |s| * (k - 1) / k + 1
  {
    var t := |s| / k;
    WindowBounds(|s|, k, f);
    var lo, hi := f * t, (f + 1) * t;
    assert |Window(s, lo, hi).test| == t;
    assert |Window(s, lo, hi).train| == |s| - t;
    TrainSizeBounds(|s|, k);
  }

  lemma DivUnique(x: int, k: int, a: int, b: int)
    requires k >= 1 && 0 <= b < k && x == k * a + b
    ensures x / k == a
  {
    var q, r := x / k, x % k;
    assert k * (a - q) == r - b;
    if a > q {
      MulMono(1, a - q, k);
    } else if a < q {
      MulMono(1, q - a, k);
    }
  }

  /** n - n/k, the train size, is n*(k-1)/k or one more. */
  lemma TrainSizeBounds(n: nat, k: int)
    requires k >= 1
    ensures n * (k - 1) / k <= n - n / k <= n * (k - 1) / k + 1
  {
    var q, m := n / k, n % k;
    assert n == k * q + m;
    assert n * (k - 1) == n * k - n;
    assert n * k == k * n;
    assert k * n - n == k * (n - q) - m;
    if m == 0 {
      DivUnique(n * (k - 1), k, n - q, 0);
    } else {
      assert k * (n - q) - m == k * (n - q - 1) + (k - m);
      DivUnique(n * (k - 1), k, n - q - 1, k - m);
    }
  }

  lemma SliceJoin(s: seq<int>, a: nat, b: nat)
    requires a <= b <= |s|
    ensures s[..a] + s[a..b] == s[..b]
  {
  }

  /** The test windows of folds 0..g-1, in fold order. */
  function TestWindows(s: seq<int>, k: int, g: nat): (r: seq<seq<int>>)
    requires k >= 1 && g <= k
    ensures |r| == g
  {
    if g == 0 then [] else TestWindows(s, k, g - 1) + [KFoldSplit(s, k, g - 1).test]
  }

  /** Consecutive windows of width t starting at 0, laid end to end, fill s[..g*t]. */
  lemma {:induction false} WindowsTile(s: seq<int>, t: nat, g: nat, ws: seq<seq<int>>)
    requires g * t <= |s| && |ws| == g
    requires forall f :: 0 <= f < g ==> f * t + t <= |s| && ws[f] == s[f * t..f * t + t]
    ensures Concat(ws) == s[..g * t]
  {
    if g == 0 {
      assert s[..0] == [];
    } else {
      var lo := (g - 1) * t;
      assert lo + t == g * t;
      MulMono(0, g - 1, t);
      WindowsTile(s, t, g - 1, ws[..g - 1]);
      assert ws == ws[..g - 1] + [ws[g - 1]];
      ConcatAppend(ws[..g - 1], ws[g - 1]);
      SliceJoin(s, lo, lo + t);
    }
  }

  /**
   * The test lists of folds 0..k-1 laid end to end are exactly the first k*(n/k)
   * shuffled indices: together with KFoldTailNeverTested and KFoldTestsDisjoint,
   * the folds' test lists cover that prefix once each and nothing else.
   */
  lemma KFoldTestsTile(s: seq<int>, k: int)
    requires k >= 1
    ensures k * (|s| / k) <= |s|
    ensures Concat(TestWindows(s, k, k)) == s[..k * (|s| / k)]
  {
    var t := |s| / k;
    WindowBounds(|s|, k, 0);
    var ws := TestWindows(s, k, k);
    forall f | 0 <= f < k
      ensures f * t + t <= |s| && ws[f] == s[f * t..f * t + t]
    {
      WindowBounds(|s|, k, f);
      TestWindowsAt(s, k, k, f);
    }
    WindowsTile(s, t, k, ws);
  }

  lemma {:induction false} TestWindowsAt(s: seq<int>, k: int, g: nat, f: nat)
    requires k >= 1 && f < g <= k
    ensures TestWindows(s, k, g)[f] == KFoldSplit(s, k, f).test
  {
    if f < g - 1 {
      TestWindowsAt(s, k, g - 1, f);
    }
  }

  /** Slices of a repetition-free sequence at disjoint positions share no value. */
  lemma DisjointSlices(s: seq<int>, a: nat, b: nat, c: nat, d: nat)
    requires Distinct(s) && a <= b <= c <= d <= |s|
    ensures forall x :: x in s[a..b] ==> x !in s[c..d]
    ensures forall x :: x in s[c..d] ==> x !in s[a..b]
  {
    forall x | x in s[a..b]
      ensures x !in s[c..d]
    {
      var i :| a <= i < b && s[i] == x;
      forall j | c <= j < d
        ensures s[j] != x
      {
      }
    }
  }

  /** Test lists of different folds share no index. */
  lemma KFoldTestsDisjoint(s: seq<int>, k: int, f: int, g: int)
    requires Distinct(s) && k >= 1 && 0 <= f < k && 0 <= g < k && f != g
    ensures forall x :: x in KFoldSplit(s, k, f).test ==> x !in KFoldSplit(s, k, g).test
  {
    var t := |s| / k;
    WindowBounds(|s|, k, f);
    WindowBounds(|s|, k, g);
    if f < g {
      MulMono(f + 1, g, t);
      DisjointSlices(s, f * t, (f + 1) * t, g * t, (g + 1) * t);
    } else {
      MulMono(g + 1, f, t);
      DisjointSlices(s, g * t, (g + 1) * t, f * t, (f + 1) * t);
    }
  }

  /** The n mod k indices after the last window are in no fold's test list. */
  lemma KFoldTailNeverTested(s: seq<int>, k: int, f: int)
    requires Distinct(s) && k >= 1 && 0 <= f < k
    ensures k * (|s| / k) <= |s|
    ensures forall x :: x in s[k * (|s| / k)..] ==> x !in KFoldSplit(s, k, f).test
  {
    var t := |s| / k;
    WindowBounds(|s|, k, f);
    DisjointSlices(s, f * t, (f + 1) * t, k * t, |s|);
    assert s[k * t..] == s[k * t..|s|];
  }
}
