/**
 * What the stratified folds guarantee: every sample of a class with at least k
 * samples lands in exactly one fold and no other sample lands anywhere (coverage),
 * and every fold holds count / k samples of such a class, one more for exactly
 * count % k distinct folds (balance).
 */
module StratifiedProps {
  import opened Seqs
  import opened Shuffle
  import opened StratifiedSpec
  import KFolding

  // ---------------------------------------------------------------------------
  // Coverage

  lemma {:induction false} ConcatEmpty(ss: seq<seq<int>>)
    requires forall i :: 0 <= i < |ss| ==> ss[i] == []
    ensures Concat(ss) == []
  {
    if ss != [] {
      ConcatEmpty(ss[1..]);
    }
  }

  /** Dealing runs only moves entries: what the folds gained is what the list lost. */
  lemma {:induction false} DealEvenMultiset(folds: seq<seq<int>>, list: seq<int>, take: nat, f: nat, x: int)
    requires f <= |folds|
    ensures multiset(Concat(DealEven(folds, list, take, f)))[x] + multiset(Leftover(list, take, |folds| - f))[x]
         == multiset(Concat(folds))[x] + multiset(list)[x]
    decreases |folds| - f
  {
    if f < |folds| && |list| >= take {
      var run, tail := list[..take], list[take..];
      var next := folds[f := folds[f] + run];
      assert DealEven(folds, list, take, f) == DealEven(next, tail, take, f + 1);
      assert Leftover(list, take, |folds| - f) == Leftover(tail, take, |next| - (f + 1));
      DealEvenMultiset(next, tail, take, f + 1, x);
      ConcatUpdate(folds, f, run, x);
      SplitOccurrences(list, take, x);
    } else {
      assert DealEven(folds, list, take, f) == folds;
      assert Leftover(list, take, |folds| - f) == list;
    }
  }

  /** Dealing one leftover per pick moves every leftover into the folds. */
  lemma {:induction false} DealRemaindersMultiset(folds: seq<seq<int>>, rest: seq<int>, picks: seq<int>, x: int)
    requires forall i :: 0 <= i < |picks| ==> 0 <= picks[i] < |folds|
    requires |picks| == |rest|
    ensures multiset(Concat(DealRemainders(folds, rest, picks)))[x] == multiset(Concat(folds))[x] + multiset(rest)[x]
    decreases |picks|
  {
    if picks != [] {
      var next := folds[picks[0] := folds[picks[0]] + [rest[0]]];
      DealRemaindersMultiset(next, rest[1..], picks[1..], x);
      ConcatUpdate(folds, picks[0], [rest[0]], x);
      SplitOccurrences(rest, 1, x);
      assert rest[..1] == [rest[0]];
    }
  }

  /** Dealing a class list with one pick per leftover adds every entry of the list to the folds. */
  lemma DealClassMultiset(folds: seq<seq<int>>, list: seq<int>, take: nat, p: seq<int>, x: int)
    requires forall i :: 0 <= i < |p| ==> 0 <= p[i] < |folds|
    requires take > 0 && |p| == |Leftover(list, take, |folds|)|
    ensures multiset(Concat(DealClass(folds, list, take, p)))[x] == multiset(Concat(folds))[x] + multiset(list)[x]
  {
    var even := DealEven(folds, list, take, 0);
    DealEvenMultiset(folds, list, take, 0, x);
    DealRemaindersMultiset(even, Leftover(list, take, |folds|), p, x);
  }

  /** A dealt class adds every entry of its list to the folds; a skipped class adds nothing. */
  lemma AssignClassMultiset(folds: seq<seq<int>>, list: seq<int>, k: int, rolls: seq<nat>, x: int)
    requires k >= 1 && |folds| == k
    requires |list| >= k ==> |Picks(rolls, k, |list| % k, {})| == |list| % k
    ensures multiset(Concat(AssignClass(folds, list, k, rolls)))[x]
         == multiset(Concat(folds))[x] + (if |list| < k then 0 else multiset(list)[x])
  {
    ClassArith(list, k);
    var take, p := |list| / k, Picks(rolls, k, |list| % k, {});
    assert AssignClass(folds, list, k, rolls) == DealClass(folds, list, take, p);
    if |list| >= k {
      DealClassMultiset(folds, list, take, p, x);
    } else {
      assert DealClass(folds, list, take, p) == folds;
    }
  }

  /** The class lists have the length and the entries of the classes. */
  lemma ClassListFacts(y: seq<int>, shuffleDraws: seq<seq<nat>>, c: int)
    requires 0 <= c < |shuffleDraws| && ValidDraws(shuffleDraws[c], Count(y, c))
    ensures |ClassList(y, shuffleDraws, c)| == Count(y, c)
    ensures multiset(ClassList(y, shuffleDraws, c)) == multiset(Members(y, c, |y|))
    ensures AllOfClass(ClassList(y, shuffleDraws, c), y, c)
  {
    ShuffledIsPermutation(Members(y, c, |y|), shuffleDraws[c]);
    MembersOfClass(y, c);
  }

  /** For a class that is dealt, the retry loop finds all the folds it needs. */
  lemma ExtraFoldsLength(y: seq<int>, k: int, shuffleDraws: seq<seq<nat>>, rolls: seq<seq<nat>>, c: int)
    requires WellFormed(y, k, shuffleDraws, rolls) && 0 <= c < |rolls| && Count(y, c) >= k
    ensures |ExtraFolds(y, k, rolls, c)| == Count(y, c) % k
  {
    assert FoldsDrawn(rolls[c], k) - {} == FoldsDrawn(rolls[c], k);
    PicksLength(rolls[c], k, Count(y, c) % k, {});
  }

  /** One class step adds one copy of every sample of the class when it is dealt. */
  lemma ClassStepMultiplicity(y: seq<int>, k: int, shuffleDraws: seq<seq<nat>>, rolls: seq<seq<nat>>, c: int, folds: seq<seq<int>>, x: int)
    requires WellFormed(y, k, shuffleDraws, rolls) && 0 <= c < |shuffleDraws| && |folds| == k
    ensures multiset(Concat(AssignClass(folds, ClassList(y, shuffleDraws, c), k, rolls[c])))[x]
         == multiset(Concat(folds))[x] + (if 0 <= x < |y| && y[x] == c && Count(y, c) >= k then 1 else 0)
  {
    ClassListFacts(y, shuffleDraws, c);
    if Count(y, c) >= k {
      ExtraFoldsLength(y, k, shuffleDraws, rolls, c);
    }
    AssignClassMultiset(folds, ClassList(y, shuffleDraws, c), k, rolls[c], x);
    MembersMultiplicity(y, c, |y|, x);
  }

  lemma {:induction false} FoldsUpToMultiplicity(y: seq<int>, k: int, shuffleDraws: seq<seq<nat>>, rolls: seq<seq<nat>>, L: nat, x: int)
    requires WellFormed(y, k, shuffleDraws, rolls) && L <= |shuffleDraws|
    ensures multiset(Concat(FoldsUpTo(y, k, shuffleDraws, rolls, L)))[x]
         == if 0 <= x < |y| && y[x] < L && Count(y, y[x]) >= k then 1 else 0
  {
    if L == 0 {
      ConcatEmpty(FoldsUpTo(y, k, shuffleDraws, rolls, 0));
    } else {
      var prev := FoldsUpTo(y, k, shuffleDraws, rolls, L - 1);
      assert FoldsUpTo(y, k, shuffleDraws, rolls, L) == AssignClass(prev, ClassList(y, shuffleDraws, L - 1), k, rolls[L - 1]);
      FoldsUpToMultiplicity(y, k, shuffleDraws, rolls, L - 1, x);
      ClassStepMultiplicity(y, k, shuffleDraws, rolls, L - 1, prev, x);
    }
  }

  lemma KeptMultiplicity(y: seq<int>, k: int, x: int)
    ensures multiset(Kept(y, k))[x] == if 0 <= x < |y| && Count(y, y[x]) >= k then 1 else 0
  {
    FilterMultiplicity(KeptMask(y, k), |y|, x);
  }

  /** Every sample of a class with at least k samples occurs once in the folds; no other index occurs. */
  lemma StratifiedMultiplicity(y: seq<int>, k: int, shuffleDraws: seq<seq<nat>>, rolls: seq<seq<nat>>, x: int)
    requires WellFormed(y, k, shuffleDraws, rolls)
    ensures multiset(Concat(StratifiedFolds(y, k, shuffleDraws, rolls)))[x]
         == if 0 <= x < |y| && Count(y, y[x]) >= k then 1 else 0
  {
    FoldsUpToMultiplicity(y, k, shuffleDraws, rolls, MaxLabel(y) + 1, x);
  }

  /** The folds hold, between them, exactly the samples of the classes with at least k samples. */
  lemma StratifiedCoverage(y: seq<int>, k: int, shuffleDraws: seq<seq<nat>>, rolls: seq<seq<nat>>)
    requires WellFormed(y, k, shuffleDraws, rolls)
    ensures multiset(Concat(StratifiedFolds(y, k, shuffleDraws, rolls))) == multiset(Kept(y, k))
  {
    var all := Concat(StratifiedFolds(y, k, shuffleDraws, rolls));
    forall x
      ensures multiset(all)[x] == multiset(Kept(y, k))[x]
    {
      StratifiedMultiplicity(y, k, shuffleDraws, rolls, x);
      KeptMultiplicity(y, k, x);
    }
  }

  /**
   * No index is assigned twice, and an index is assigned exactly when it is a
   * sample of a class with at least k samples.
   */
  lemma StratifiedPartition(y: seq<int>, k: int, shuffleDraws: seq<seq<nat>>, rolls: seq<seq<nat>>)
    requires WellFormed(y, k, shuffleDraws, rolls)
    ensures Distinct(Concat(StratifiedFolds(y, k, shuffleDraws, rolls)))
    ensures forall x :: x in Concat(StratifiedFolds(y, k, shuffleDraws, rolls)) <==> 0 <= x < |y| && Count(y, y[x]) >= k
  {
    var all := Concat(StratifiedFolds(y, k, shuffleDraws, rolls));
    forall x
      ensures multiset(all)[x] <= 1
      ensures x in all <==> 0 <= x < |y| && Count(y, y[x]) >= k
    {
      StratifiedMultiplicity(y, k, shuffleDraws, rolls, x);
      assert x in all <==> x in multiset(all);
    }
    DistinctByMultiplicity(all);
  }

  /** The folds hold as many indices as there are samples of classes with at least k samples, so at most n. */
  lemma StratifiedSize(y: seq<int>, k: int, shuffleDraws: seq<seq<nat>>, rolls: seq<seq<nat>>)
    requires WellFormed(y, k, shuffleDraws, rolls)
    ensures |Concat(StratifiedFolds(y, k, shuffleDraws, rolls))| == |Kept(y, k)| <= |y|
  {
    var all := Concat(StratifiedFolds(y, k, shuffleDraws, rolls));
    StratifiedCoverage(y, k, shuffleDraws, rolls);
    assert |all| == |multiset(all)| == |multiset(Kept(y, k))| == |Kept(y, k)|;
    FilterLength(KeptMask(y, k), |y|);
  }

  /** When no class is short of samples, the folds partition 0..n-1. */
  lemma StratifiedPermutation(y: seq<int>, k: int, shuffleDraws: seq<seq<nat>>, rolls: seq<seq<nat>>)
    requires WellFormed(y, k, shuffleDraws, rolls) && !Faulty(y, k)
    ensures IsPermutation(Concat(StratifiedFolds(y, k, shuffleDraws, rolls)), |y|)
  {
    var all := Concat(StratifiedFolds(y, k, shuffleDraws, rolls));
    forall x
      ensures multiset(all)[x] == multiset(Range(|y|))[x]
    {
      StratifiedMultiplicity(y, k, shuffleDraws, rolls, x);
      RangeMultiplicity(|y|, x);
      if 0 <= x < |y| {
        assert 0 <= y[x] <= MaxLabel(y);
      }
    }
    assert multiset(all) == multiset(Range(|y|));
  }

  // ---------------------------------------------------------------------------
  // Balance

  lemma {:induction false} LabelCountConcat(a: seq<int>, b: seq<int>, y: seq<int>, c: int)
    ensures LabelCount(a + b, y, c) == LabelCount(a, y, c) + LabelCount(b, y, c)
  {
    if a == [] {
      assert a + b == b;
    } else {
      assert (a + b)[0] == a[0] && (a + b)[1..] == a[1..] + b;
      LabelCountConcat(a[1..], b, y, c);
    }
  }

  /** In a list of class d only, class d counts every entry and any other class none. */
  lemma {:induction false} LabelCountOfClass(s: seq<int>, y: seq<int>, d: int, c: int)
    requires AllOfClass(s, y, d)
    ensures LabelCount(s, y, c) == if c == d then |s| else 0
  {
    if s != [] {
      assert s[0] in s;
      assert AllOfClass(s[1..], y, d) by {
        forall x | x in s[1..] ensures x in s {
          var i :| 0 <= i < |s[1..]| && s[1..][i] == x;
          assert s[i + 1] == x;
        }
      }
      LabelCountOfClass(s[1..], y, d, c);
    }
  }

  lemma SliceOfClass(s: seq<int>, y: seq<int>, d: int, lo: nat, hi: nat)
    requires AllOfClass(s, y, d) && lo <= hi <= |s|
    ensures AllOfClass(s[lo..hi], y, d)
    ensures hi == |s| ==> AllOfClass(s[lo..], y, d)
  {
    forall x | x in s[lo..hi] ensures x in s {
      var i :| 0 <= i < hi - lo && s[lo..hi][i] == x;
      assert s[lo + i] == x;
    }
    if hi == |s| {
      assert s[lo..hi] == s[lo..];
    }
  }

  /** With every run present, folds f.. each gain `take` samples of the list's class d. */
  lemma {:induction false} DealEvenCount(folds: seq<seq<int>>, list: seq<int>, take: nat, f: nat, y: seq<int>, d: int, c: int, h: int)
    requires f <= |folds| && Enough(list, take, |folds| - f) && AllOfClass(list, y, d) && 0 <= h < |folds|
    ensures LabelCount(DealEven(folds, list, take, f)[h], y, c)
         == LabelCount(folds[h], y, c) + (if f <= h && c == d then take else 0)
    decreases |folds| - f
  {
    if f < |folds| {
      var run := list[..take];
      var next := folds[f := folds[f] + run];
      SliceOfClass(list, y, d, take, |list|);
      DealEvenCount(next, list[take..], take, f + 1, y, d, c, h);
      if h == f {
        LabelCountConcat(folds[f], run, y, c);
        SliceOfClass(list, y, d, 0, take);
        LabelCountOfClass(run, y, d, c);
      }
    }
  }

  /** Fold h gains one sample of the leftovers' class d exactly when h is picked. */
  lemma {:induction false} DealRemaindersCount(folds: seq<seq<int>>, rest: seq<int>, picks: seq<int>, y: seq<int>, d: int, c: int, h: int)
    requires forall i :: 0 <= i < |picks| ==> 0 <= picks[i] < |folds|
    requires |picks| == |rest| && Distinct(picks) && AllOfClass(rest, y, d) && 0 <= h < |folds|
    ensures LabelCount(DealRemainders(folds, rest, picks)[h], y, c)
         == LabelCount(folds[h], y, c) + (if c == d && h in picks then 1 else 0)
    decreases |picks|
  {
    if picks != [] {
      var f := picks[0];
      var next := folds[f := folds[f] + [rest[0]]];
      assert picks == [f] + picks[1..];
      DistinctConcat([f], picks[1..]);
      SliceOfClass(rest, y, d, 1, |rest|);
      DealRemaindersCount(next, rest[1..], picks[1..], y, d, c, h);
      if h == f {
        assert rest[0] in rest;
        LabelCountConcat(folds[f], [rest[0]], y, c);
        assert [rest[0]][1..] == [];
      }
    }
  }

  /** Dealing a list of class d adds `take` samples of d to every fold and one more to the picked folds. */
  lemma DealClassCount(folds: seq<seq<int>>, list: seq<int>, take: nat, p: seq<int>, y: seq<int>, d: int, c: int, f: int)
    requires forall i :: 0 <= i < |p| ==> 0 <= p[i] < |folds|
    requires take > 0 && Enough(list, take, |folds|) && |p| == |Leftover(list, take, |folds|)| && Distinct(p)
    requires AllOfClass(list, y, d) && 0 <= f < |folds|
    ensures LabelCount(DealClass(folds, list, take, p)[f], y, c)
         == LabelCount(folds[f], y, c) + (if c == d then take + (if f in p then 1 else 0) else 0)
  {
    LeftoverOfClass(list, take, |folds|, y, d);
    DealEvenCount(folds, list, take, 0, y, d, c, f);
    DealRemaindersCount(DealEven(folds, list, take, 0), Leftover(list, take, |folds|), p, y, d, c, f);
  }

  /** The samples of class c one class step adds to fold f. */
  lemma AssignClassCount(folds: seq<seq<int>>, list: seq<int>, k: int, rolls: seq<nat>, y: seq<int>, d: int, c: int, f: int)
    requires k >= 1 && |folds| == k && AllOfClass(list, y, d) && 0 <= f < k
    requires |list| >= k ==> |Picks(rolls, k, |list| % k, {})| == |list| % k
    ensures LabelCount(AssignClass(folds, list, k, rolls)[f], y, c)
         == LabelCount(folds[f], y, c)
          + (if c != d || |list| < k then 0
             else |list| / k + (if f in Picks(rolls, k, |list| % k, {}) then 1 else 0))
  {
    ClassArith(list, k);
    var take, p := |list| / k, Picks(rolls, k, |list| % k, {});
    assert AssignClass(folds, list, k, rolls) == DealClass(folds, list, take, p);
    if |list| >= k {
      DealClassCount(folds, list, take, p, y, d, c, f);
    } else {
      assert DealClass(folds, list, take, p) == folds;
    }
  }

  lemma {:induction false} LeftoverOfClass(list: seq<int>, take: nat, g: nat, y: seq<int>, d: int)
    requires AllOfClass(list, y, d)
    ensures AllOfClass(Leftover(list, take, g), y, d)
  {
    if g > 0 && |list| >= take {
      SliceOfClass(list, y, d, take, |list|);
      LeftoverOfClass(list[take..], take, g - 1, y, d);
    }
  }

  /**
   * Reference definition of how many samples of class c fold f receives: none for a
   * class with fewer than k samples, otherwise count / k plus one when f is among
   * the folds the retry loop picked for that class.
   */
  ghost function Share(y: seq<int>, k: int, rolls: seq<seq<nat>>, c: int, f: int): nat
    requires k >= 1 && 0 <= c < |rolls|
  {
    if Count(y, c) < k then 0
    else Count(y, c) / k + (if f in ExtraFolds(y, k, rolls, c) then 1 else 0)
  }

  /** The samples of class c that the step for class d adds to fold f. */
  lemma ClassStepCount(y: seq<int>, k: int, shuffleDraws: seq<seq<nat>>, rolls: seq<seq<nat>>, d: int, folds: seq<seq<int>>, c: int, f: int)
    requires WellFormed(y, k, shuffleDraws, rolls) && 0 <= d < |shuffleDraws| && |folds| == k
    requires 0 <= c < |rolls| && 0 <= f < k
    ensures LabelCount(AssignClass(folds, ClassList(y, shuffleDraws, d), k, rolls[d])[f], y, c)
         == LabelCount(folds[f], y, c) + (if c == d then Share(y, k, rolls, c, f) else 0)
  {
    ClassListFacts(y, shuffleDraws, d);
    if Count(y, d) >= k {
      ExtraFoldsLength(y, k, shuffleDraws, rolls, d);
    }
    AssignClassCount(folds, ClassList(y, shuffleDraws, d), k, rolls[d], y, d, c, f);
  }

  lemma {:induction false} FoldsUpToCount(y: seq<int>, k: int, shuffleDraws: seq<seq<nat>>, rolls: seq<seq<nat>>, L: nat, c: int, f: int)
    requires WellFormed(y, k, shuffleDraws, rolls) && L <= |shuffleDraws|
    requires 0 <= c < |rolls| && 0 <= f < k
    ensures LabelCount(FoldsUpTo(y, k, shuffleDraws, rolls, L)[f], y, c) == if c < L then Share(y, k, rolls, c, f) else 0
  {
    if L > 0 {
      var prev := FoldsUpTo(y, k, shuffleDraws, rolls, L - 1);
      assert FoldsUpTo(y, k, shuffleDraws, rolls, L) == AssignClass(prev, ClassList(y, shuffleDraws, L - 1), k, rolls[L - 1]);
      FoldsUpToCount(y, k, shuffleDraws, rolls, L - 1, c, f);
      ClassStepCount(y, k, shuffleDraws, rolls, L - 1, prev, c, f);
    }
  }

  /** Fold f holds exactly Share(c, f) samples of every class c in 0..max(y). */
  lemma StratifiedClassCounts(y: seq<int>, k: int, shuffleDraws: seq<seq<nat>>, rolls: seq<seq<nat>>, c: int, f: int)
    requires WellFormed(y, k, shuffleDraws, rolls) && 0 <= c <= MaxLabel(y) && 0 <= f < k
    ensures LabelCount(StratifiedFolds(y, k, shuffleDraws, rolls)[f], y, c) == Share(y, k, rolls, c, f)
  {
    FoldsUpToCount(y, k, shuffleDraws, rolls, MaxLabel(y) + 1, c, f);
  }

  /**
   * Class balance: for a class with at least k samples, every fold holds count / k
   * or count / k + 1 of them, and exactly count % k folds hold the larger number.
   */
  lemma ClassBalance(y: seq<int>, k: int, shuffleDraws: seq<seq<nat>>, rolls: seq<seq<nat>>, c: int)
    requires WellFormed(y, k, shuffleDraws, rolls) && 0 <= c <= MaxLabel(y) && Count(y, c) >= k
    ensures forall f :: 0 <= f < k ==>
      Count(y, c) / k <= LabelCount(StratifiedFolds(y, k, shuffleDraws, rolls)[f], y, c) <= Count(y, c) / k + 1
    ensures |FoldsHolding(StratifiedFolds(y, k, shuffleDraws, rolls), y, c, Count(y, c) / k + 1)| == Count(y, c) % k
  {
    var folds := StratifiedFolds(y, k, shuffleDraws, rolls);
    var p := ExtraFolds(y, k, rolls, c);
    forall f | 0 <= f < k
      ensures LabelCount(folds[f], y, c) == Count(y, c) / k + (if f in p then 1 else 0)
    {
      StratifiedClassCounts(y, k, shuffleDraws, rolls, c, f);
    }
    ExtraFoldsLength(y, k, shuffleDraws, rolls, c);
    LargerFolds(folds, y, c, k, Count(y, c) / k, p);
  }

  /** The folds that hold exactly `count` samples of class c. */
  ghost function FoldsHolding(folds: seq<seq<int>>, y: seq<int>, c: int, count: int): set<int>
  {
    set f | 0 <= f < |folds| && LabelCount(folds[f], y, c) == count
  }

  /** When fold f holds q samples of c plus one exactly for the f in p, |p| folds hold q + 1. */
  lemma LargerFolds(folds: seq<seq<int>>, y: seq<int>, c: int, k: int, q: int, p: seq<int>)
    requires |folds| == k && Distinct(p)
    requires forall i :: 0 <= i < |p| ==> 0 <= p[i] < k
    requires forall f :: 0 <= f < k ==> LabelCount(folds[f], y, c) == q + (if f in p then 1 else 0)
    ensures |FoldsHolding(folds, y, c, q + 1)| == |p|
  {
    var larger := FoldsHolding(folds, y, c, q + 1);
    var picked := set x | x in p;
    forall f
      ensures f in larger <==> f in picked
    {
      if f in p {
        var i :| 0 <= i < |p| && p[i] == f;
      }
    }
    assert larger == picked;
    DistinctCardinality(p);
  }

  /** A class with fewer than k samples is left out of every fold. */
  lemma ShortClassLeftOut(y: seq<int>, k: int, shuffleDraws: seq<seq<nat>>, rolls: seq<seq<nat>>, c: int)
    requires WellFormed(y, k, shuffleDraws, rolls) && 0 <= c <= MaxLabel(y) && Count(y, c) < k
    ensures forall f :: 0 <= f < k ==> LabelCount(StratifiedFolds(y, k, shuffleDraws, rolls)[f], y, c) == 0
  {
    forall f | 0 <= f < k
      ensures LabelCount(StratifiedFolds(y, k, shuffleDraws, rolls)[f], y, c) == 0
    {
      StratifiedClassCounts(y, k, shuffleDraws, rolls, c, f);
    }
  }

  /** The flag the assignment loop raises over the first L class lists is raised exactly when one of those classes has fewer than k samples. */
  lemma {:induction false} ShortUpToFaulty(lists: seq<seq<int>>, y: seq<int>, k: int, L: nat)
    requires L <= |lists| && forall c :: 0 <= c < L ==> |lists[c]| == Count(y, c)
    ensures ShortUpTo(lists, k, L) <==> exists c :: 0 <= c < L && Count(y, c) < k
  {
    if L > 0 {
      ShortUpToFaulty(lists, y, k, L - 1);
      if Count(y, L - 1) < k {
        assert 0 <= L - 1 < L && Count(y, L - 1) < k;
      }
    }
  }

  /**
   * The assignment loop run over every shuffled class list yields the folds of
   * build, and its flag is raised exactly when the partition is faulty.
   */
  lemma BuildOutcome(y: seq<int>, k: int, shuffleDraws: seq<seq<nat>>, rolls: seq<seq<nat>>)
    requires WellFormed(y, k, shuffleDraws, rolls)
    ensures StratifiedFolds(y, k, shuffleDraws, rolls) == AssignUpTo(ClassLists(y, shuffleDraws), k, rolls, |shuffleDraws|)
    ensures ShortUpTo(ClassLists(y, shuffleDraws), k, |shuffleDraws|) <==> Faulty(y, k)
  {
    var lists := ClassLists(y, shuffleDraws);
    forall c | 0 <= c < |lists|
      ensures |lists[c]| == Count(y, c)
    {
      ClassListFacts(y, shuffleDraws, c);
    }
    ShortUpToFaulty(lists, y, k, |lists|);
  }

  // ---------------------------------------------------------------------------
  // One fold against the rest

  /** The indices of every fold but f, in fold order (what getFold collects as train). */
  function OtherFolds(folds: seq<seq<int>>, f: int): seq<int>
    requires 0 <= f < |folds|
  {
    Concat(folds[..f]) + Concat(folds[f + 1..])
  }

  /**
   * Taking fold f as test and the others as train splits the assigned indices:
   * both halves repeat nothing, they share nothing, and together they hold every
   * assigned index.
   */
  lemma FoldSplit(folds: seq<seq<int>>, f: int)
    requires 0 <= f < |folds| && Distinct(Concat(folds))
    ensures multiset(OtherFolds(folds, f) + folds[f]) == multiset(Concat(folds))
    ensures Distinct(OtherFolds(folds, f)) && Distinct(folds[f])
    ensures forall x :: x in folds[f] ==> x !in OtherFolds(folds, f)
    ensures |OtherFolds(folds, f)| + |folds[f]| == |Concat(folds)|
  {
    var a, t, b := Concat(folds[..f]), folds[f], Concat(folds[f + 1..]);
    ConcatAround(folds, f);
    assert Concat(folds) == (a + t) + b;
    DistinctConcat(a + t, b);
    DistinctConcat(a, t);
    DistinctJoin(a, b);
    assert (a + b) + t == a + b + t;
  }

  // ---------------------------------------------------------------------------
  // Fold sizes

  /** With every run present, folds f.. each grow by `take` entries, and the folds lose no entry the list lost. */
  lemma {:induction false} DealEvenSize(folds: seq<seq<int>>, list: seq<int>, take: nat, f: nat, h: int)
    requires f <= |folds| && Enough(list, take, |folds| - f) && 0 <= h < |folds|
    ensures |DealEven(folds, list, take, f)[h]| == |folds[h]| + (if f <= h then take else 0)
    ensures |Concat(DealEven(folds, list, take, f))| + |Leftover(list, take, |folds| - f)| == |Concat(folds)| + |list|
    decreases |folds| - f
  {
    if f < |folds| {
      var run := list[..take];
      var next := folds[f := folds[f] + run];
      assert Leftover(list, take, |folds| - f) == Leftover(list[take..], take, |next| - (f + 1));
      DealEvenSize(next, list[take..], take, f + 1, h);
      ConcatUpdateLength(folds, f, run);
    }
  }

  /** With distinct picks, fold h grows by one exactly when it is picked, and the folds gain every leftover. */
  lemma {:induction false} DealRemaindersSize(folds: seq<seq<int>>, rest: seq<int>, picks: seq<int>, h: int)
    requires forall i :: 0 <= i < |picks| ==> 0 <= picks[i] < |folds|
    requires |picks| == |rest| && Distinct(picks) && 0 <= h < |folds|
    ensures |DealRemainders(folds, rest, picks)[h]| == |folds[h]| + (if h in picks then 1 else 0)
    ensures |Concat(DealRemainders(folds, rest, picks))| == |Concat(folds)| + |rest|
    decreases |picks|
  {
    if picks != [] {
      var f := picks[0];
      var next := folds[f := folds[f] + [rest[0]]];
      assert picks == [f] + picks[1..];
      DistinctConcat([f], picks[1..]);
      DealRemaindersSize(next, rest[1..], picks[1..], h);
      ConcatUpdateLength(folds, f, [rest[0]]);
    }
  }

  /** One class step: fold f grows by count / k, plus one if picked, and the folds by the whole list; a short class changes nothing. */
  lemma AssignClassSize(folds: seq<seq<int>>, list: seq<int>, k: int, rolls: seq<nat>, f: int)
    requires k >= 1 && |folds| == k && 0 <= f < k
    requires |list| >= k ==> |Picks(rolls, k, |list| % k, {})| == |list| % k
    ensures |AssignClass(folds, list, k, rolls)[f]|
         == |folds[f]| + (if |list| < k then 0 else |list| / k + (if f in Picks(rolls, k, |list| % k, {}) then 1 else 0))
    ensures |Concat(AssignClass(folds, list, k, rolls))| == |Concat(folds)| + (if |list| < k then 0 else |list|)
  {
    ClassArith(list, k);
    var take, p := |list| / k, Picks(rolls, k, |list| % k, {});
    assert AssignClass(folds, list, k, rolls) == DealClass(folds, list, take, p);
    if |list| >= k {
      var even := DealEven(folds, list, take, 0);
      DealEvenSize(folds, list, take, 0, f);
      DealRemaindersSize(even, Leftover(list, take, k), p, f);
    } else {
      assert DealClass(folds, list, take, p) == folds;
    }
  }

  /** The step for class d adds Share(d, f) indices to fold f, and the samples of d to the folds when d is dealt. */
  lemma ClassStepSize(y: seq<int>, k: int, shuffleDraws: seq<seq<nat>>, rolls: seq<seq<nat>>, d: int, folds: seq<seq<int>>, f: int)
    requires WellFormed(y, k, shuffleDraws, rolls) && 0 <= d < |shuffleDraws| && |folds| == k && 0 <= f < k
    ensures |AssignClass(folds, ClassList(y, shuffleDraws, d), k, rolls[d])[f]| == |folds[f]| + Share(y, k, rolls, d, f)
    ensures |Concat(AssignClass(folds, ClassList(y, shuffleDraws, d), k, rolls[d]))|
         == |Concat(folds)| + (if Count(y, d) < k then 0 else Count(y, d))
  {
    ClassListFacts(y, shuffleDraws, d);
    if Count(y, d) >= k {
      ExtraFoldsLength(y, k, shuffleDraws, rolls, d);
    }
    AssignClassSize(folds, ClassList(y, shuffleDraws, d), k, rolls[d], f);
  }

  /** A fold receives at least count / k samples of a class that is dealt, and at most one more than another fold. */
  lemma ShareAtLeast(y: seq<int>, k: int, rolls: seq<seq<nat>>, c: int, f: int)
    requires k >= 1 && 0 <= c < |rolls|
    ensures (if Count(y, c) < k then 0 else Count(y, c)) / k <= Share(y, k, rolls, c, f)
    ensures forall g :: Share(y, k, rolls, c, f) <= Share(y, k, rolls, c, g) + 1
  {
    if Count(y, c) < k {
      assert 0 / k == 0;
    }
  }

  /** The folds after label L-1 are those after label L-2 with class L-1 assigned. */
  lemma FoldsUpToStep(y: seq<int>, k: int, shuffleDraws: seq<seq<nat>>, rolls: seq<seq<nat>>, L: nat)
    requires WellFormed(y, k, shuffleDraws, rolls) && 0 < L <= |shuffleDraws|
    ensures FoldsUpTo(y, k, shuffleDraws, rolls, L)
         == AssignClass(FoldsUpTo(y, k, shuffleDraws, rolls, L - 1), ClassList(y, shuffleDraws, L - 1), k, rolls[L - 1])
  {
  }

  /**
   * The two size bounds after L labels: the indices outside fold f number at
   * most (k-1)/k of all assigned indices plus L (at most one leftover of each
   * class), and fold f is at most L larger than fold g.
   */
  ghost predicate SizesWithin(folds: seq<seq<int>>, k: int, L: int, f: int, g: int)
    requires k >= 1 && 0 <= f < |folds| && 0 <= g < |folds|
  {
    && |Concat(folds)| - |folds[f]| <= |Concat(folds)| * (k - 1) / k + L
    && |folds[f]| <= |folds[g]| + L
  }

  /** The k empty folds the build starts from meet both bounds with L = 0. */
  lemma EmptySizes(folds: seq<seq<int>>, k: int, f: int, g: int)
    requires k >= 1 && |folds| == k && 0 <= f < k && 0 <= g < k
    requires forall i :: 0 <= i < |folds| ==> folds[i] == []
    ensures SizesWithin(folds, k, 0, f, g)
  {
    ConcatEmpty(folds);
    assert 0 * (k - 1) == 0;
  }

  /** The step for label L-1 keeps both size bounds, each growing by one. */
  lemma FoldsUpToSizesStep(y: seq<int>, k: int, shuffleDraws: seq<seq<nat>>, rolls: seq<seq<nat>>, L: nat, f: int, g: int)
    requires WellFormed(y, k, shuffleDraws, rolls) && 0 < L <= |shuffleDraws| && 0 <= f < k && 0 <= g < k
    requires SizesWithin(FoldsUpTo(y, k, shuffleDraws, rolls, L - 1), k, L - 1, f, g)
    ensures SizesWithin(FoldsUpTo(y, k, shuffleDraws, rolls, L), k, L, f, g)
  {
    var d := L - 1;
    var prev, cur := FoldsUpTo(y, k, shuffleDraws, rolls, d), FoldsUpTo(y, k, shuffleDraws, rolls, L);
    FoldsUpToStep(y, k, shuffleDraws, rolls, L);
    ClassStepSize(y, k, shuffleDraws, rolls, d, prev, f);
    ClassStepSize(y, k, shuffleDraws, rolls, d, prev, g);
    var a: nat := if Count(y, d) < k then 0 else Count(y, d);
    ShareAtLeast(y, k, rolls, d, f);
    TrainStep(|Concat(prev)|, |prev[f]|, a, Share(y, k, rolls, d, f), d, k, |Concat(cur)|, |cur[f]|);
  }

  /** a / k + b / k <= (a + b) / k. */
  lemma DivAdd(a: nat, b: nat, k: int)
    requires k >= 1
    ensures a / k + b / k <= (a + b) / k
  {
    var qa, ra, qb, rb := a / k, a % k, b / k, b % k;
    assert a + b == k * (qa + qb) + (ra + rb);
    if ra + rb < k {
      KFolding.DivUnique(a + b, k, qa + qb, ra + rb);
    } else {
      KFolding.DivUnique(a + b, k, qa + qb + 1, ra + rb - k);
    }
  }

  /** The train bound survives one class step: t indices with F in the fold grow by a with s in the fold. */
  lemma TrainStep(t: nat, F: int, a: nat, s: int, L: int, k: int, t': nat, F': int)
    requires k >= 1 && t - F <= t * (k - 1) / k + L && a / k <= s
    requires t' == t + a && F' == F + s
    ensures t' - F' <= t' * (k - 1) / k + L + 1
  {
    MulMono(0, t, k - 1);
    MulMono(0, a, k - 1);
    var x: nat, z: nat := t * (k - 1), a * (k - 1);
    assert x + z == t' * (k - 1);
    KFolding.TrainSizeBounds(a, k);
    assert a - s <= z / k + 1;
    DivAdd(x, z, k);
    assert x / k + z / k <= t' * (k - 1) / k;
  }

  /** A bound in terms of t of the assigned indices holds in terms of n >= t. */
  lemma TrainBoundMono(t: nat, n: nat, x: int, k: int, m: int)
    requires k >= 1 && t <= n && x <= t * (k - 1) / k + m
    ensures x <= n * (k - 1) / k + m
  {
    MulMono(t, n, k - 1);
    MulMono(0, t, k - 1);
    var u: nat, w: nat := t * (k - 1), n * (k - 1);
    DivAdd(u, w - u, k);
    KFolding.DivUnique(w - u, k, (w - u) / k, (w - u) % k);
    assert u / k <= w / k;
  }

  /** Both size bounds hold after every prefix 0..L-1 of the labels. */
  lemma {:induction false} FoldsUpToSizes(y: seq<int>, k: int, shuffleDraws: seq<seq<nat>>, rolls: seq<seq<nat>>, L: nat, f: int, g: int)
    requires WellFormed(y, k, shuffleDraws, rolls) && L <= |shuffleDraws| && 0 <= f < k && 0 <= g < k
    ensures SizesWithin(FoldsUpTo(y, k, shuffleDraws, rolls, L), k, L, f, g)
  {
    var cur := FoldsUpTo(y, k, shuffleDraws, rolls, L);
    if L == 0 {
      EmptySizes(cur, k, f, g);
    } else {
      FoldsUpToSizes(y, k, shuffleDraws, rolls, L - 1, f, g);
      FoldsUpToSizesStep(y, k, shuffleDraws, rolls, L, f, g);
    }
  }

  /**
   * The train list of every fold holds at most n*(k-1)/k indices plus one per
   * label in 0..max(y): a fold misses at most the leftover of each class.
   */
  lemma StratifiedTrainSize(y: seq<int>, k: int, shuffleDraws: seq<seq<nat>>, rolls: seq<seq<nat>>, f: int)
    requires WellFormed(y, k, shuffleDraws, rolls) && 0 <= f < k
    ensures |OtherFolds(StratifiedFolds(y, k, shuffleDraws, rolls), f)| <= |y| * (k - 1) / k + MaxLabel(y) + 1
  {
    var folds := StratifiedFolds(y, k, shuffleDraws, rolls);
    FoldsUpToSizes(y, k, shuffleDraws, rolls, MaxLabel(y) + 1, f, f);
    ConcatAround(folds, f);
    StratifiedSize(y, k, shuffleDraws, rolls);
    TrainBoundMono(|Concat(folds)|, |y|, |OtherFolds(folds, f)|, k, MaxLabel(y) + 1);
  }

  /** Near-equal folds: two folds differ in size by at most one index per label in 0..max(y). */
  lemma StratifiedFoldSizes(y: seq<int>, k: int, shuffleDraws: seq<seq<nat>>, rolls: seq<seq<nat>>, f: int, g: int)
    requires WellFormed(y, k, shuffleDraws, rolls) && 0 <= f < k && 0 <= g < k
    ensures |StratifiedFolds(y, k, shuffleDraws, rolls)[f]| <= |StratifiedFolds(y, k, shuffleDraws, rolls)[g]| + MaxLabel(y) + 1
  {
    FoldsUpToSizes(y, k, shuffleDraws, rolls, MaxLabel(y) + 1, f, g);
  }
}
