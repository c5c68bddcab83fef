/**
 * StratifiedKFold: the samples of every class are shuffled and dealt to the k
 * folds, count / k to each fold in fold order, then the count mod k leftovers one
 * each to distinct folds chosen with rand(). A class with fewer than k samples is
 * dealt to no fold and marks the partition as faulty. getFold(f) tests fold f and
 * trains on all other folds.
 */
module StratifiedFolding {
  import opened Seqs
  import opened Shuffle
  import opened FoldBase
  import opened StratifiedSpec
  import opened StratifiedProps

  /** *max_element over a non-empty label vector. */
  method MaxElement(y: seq<int>) returns (m: int)
    requires |y| > 0
    ensures m == MaxLabel(y)
  {
    m := y[0];
    assert y[..1] == [y[0]];
    for i := 1 to |y|
      invariant m == MaxLabel(y[..i])
    {
      assert y[..i + 1][..i] == y[..i];
      if y[i] > m {
        m := y[i];
      }
    }
    assert y[..|y|] == y;
  }

  /**
   * The first loop of build: class_counts[c] counts the samples labelled c, and
   * class_indices holds, for every label that occurs, its positions in ascending order.
   */
  method CollectClasses(y: seq<int>, maxLabel: int) returns (counts: seq<int>, classIndices: map<int, seq<int>>)
    requires |y| > 0 && maxLabel == MaxLabel(y)
    requires forall i :: 0 <= i < |y| ==> y[i] >= 0
    ensures |counts| == maxLabel + 1
    ensures forall c :: 0 <= c <= maxLabel ==> counts[c] == Count(y, c)
    ensures forall c :: c in classIndices <==> 0 <= c <= maxLabel && Count(y, c) > 0
    ensures forall c :: c in classIndices ==> classIndices[c] == Members(y, c, |y|)
  {
    counts := seq(maxLabel + 1, _ => 0);
    classIndices := map[];
    for i := 0 to |y|
      invariant |counts| == maxLabel + 1
      invariant forall c :: 0 <= c <= maxLabel ==> counts[c] == |Members(y, c, i)| && (c in classIndices <==> counts[c] > 0)
      invariant forall c :: c in classIndices ==> 0 <= c <= maxLabel && classIndices[c] == Members(y, c, i)
    {
      var cls := y[i];
      MembersStep(y, i);
      counts := counts[cls := counts[cls] + 1];
      var entries := if cls in classIndices then classIndices[cls] else [];
      assert entries == Members(y, cls, i);
      ghost var before := classIndices;
      classIndices := classIndices[cls := entries + [i]];
      forall c | c in classIndices
        ensures 0 <= c <= maxLabel && classIndices[c] == Members(y, c, i + 1)
      {
        if c != cls {
          assert classIndices[c] == before[c];
        }
      }
    }
  }

  /** The second loop of build: every class list, in label order, shuffled with its own draws. */
  method ShuffleClasses(classIndices: map<int, seq<int>>, maxLabel: int, shuffleDraws: seq<seq<nat>>)
    returns (shuffled: map<int, seq<int>>)
    requires |shuffleDraws| == maxLabel + 1
    requires forall c :: c in classIndices ==> 0 <= c <= maxLabel && ValidDraws(shuffleDraws[c], |classIndices[c]|)
    ensures forall c :: c in shuffled <==> c in classIndices
    ensures forall c :: c in shuffled ==> shuffled[c] == Shuffled(classIndices[c], shuffleDraws[c])
  {
    shuffled := classIndices;
    for c := 0 to maxLabel + 1
      invariant forall d :: d in shuffled <==> d in classIndices
      invariant forall d :: d in shuffled && d < c ==> shuffled[d] == Shuffled(classIndices[d], shuffleDraws[d])
      invariant forall d :: d in shuffled && c <= d ==> shuffled[d] == classIndices[d]
    {
      if c in shuffled {
        var list := shuffled[c];
        var a := new int[|list|](j requires 0 <= j < |list| => list[j]);
        assert a[..] == list;
        ShuffleInPlace(a, shuffleDraws[c]);
        shuffled := shuffled[c := a[..]];
      }
    }
  }

  /** The train loop of getFold: every fold but nFold, appended in fold order. */
  method CollectTrain(folds: seq<seq<int>>, nFold: int) returns (train: seq<int>)
    requires 0 <= nFold < |folds|
    ensures train == OtherFolds(folds, nFold)
  {
    train := [];
    for i := 0 to |folds|
      invariant i <= nFold ==> train == Concat(folds[..i])
      invariant nFold < i ==> train == Concat(folds[..nFold]) + Concat(folds[nFold + 1..i])
    {
      if i == nFold {
        assert folds[nFold + 1..i + 1] == [];
        continue;
      }
      if i < nFold {
        assert folds[..i + 1] == folds[..i] + [folds[i]];
        ConcatAppend(folds[..i], folds[i]);
      } else {
        assert folds[nFold + 1..i + 1] == folds[nFold + 1..i] + [folds[i]];
        ConcatAppend(folds[nFold + 1..i], folds[i]);
      }
      train := train + folds[i];
    }
    assert folds[nFold + 1..|folds|] == folds[nFold + 1..];
  }

  /**
   * What the first two loops of build leave, read as the shuffled class lists:
   * for every label 0..max(y), its count and its list (empty for a label that
   * never occurs), and enough rand() values for its leftovers.
   */
  lemma ClassTables(y: seq<int>, k: int, shuffleDraws: seq<seq<nat>>, rolls: seq<seq<nat>>,
                    counts: seq<int>, collected: map<int, seq<int>>, classIndices: map<int, seq<int>>)
    requires WellFormed(y, k, shuffleDraws, rolls)
    requires |counts| == MaxLabel(y) + 1
    requires forall c :: 0 <= c <= MaxLabel(y) ==> counts[c] == Count(y, c)
    requires forall c :: c in collected <==> 0 <= c <= MaxLabel(y) && Count(y, c) > 0
    requires forall c :: c in collected ==> collected[c] == Members(y, c, |y|)
    requires forall c :: c in classIndices <==> c in collected
    requires forall c :: c in classIndices ==> classIndices[c] == Shuffled(collected[c], shuffleDraws[c])
    ensures |counts| == |ClassLists(y, shuffleDraws)| == |rolls|
    ensures forall c :: 0 <= c < |ClassLists(y, shuffleDraws)| ==>
      && (if c in classIndices then classIndices[c] else []) == ClassLists(y, shuffleDraws)[c]
      && counts[c] == |ClassLists(y, shuffleDraws)[c]|
    ensures forall c :: 0 <= c < |ClassLists(y, shuffleDraws)| && |ClassLists(y, shuffleDraws)[c]| >= k ==>
      |Picks(rolls[c], k, |ClassLists(y, shuffleDraws)[c]| % k, {})| == |ClassLists(y, shuffleDraws)[c]| % k
  {
    var lists := ClassLists(y, shuffleDraws);
    forall c | 0 <= c < |lists|
      ensures (if c in classIndices then classIndices[c] else []) == lists[c] && counts[c] == |lists[c]| == Count(y, c)
      ensures |lists[c]| >= k ==> |Picks(rolls[c], k, |lists[c]| % k, {})| == |lists[c]| % k
    {
      ClassListFacts(y, shuffleDraws, c);
      if Count(y, c) >= k {
        ExtraFoldsLength(y, k, shuffleDraws, rolls, c);
      }
    }
  }

  class StratifiedKFold {
    const config: Fold
    const y: seq<int>
    /** The engine's draws for every class list's shuffle, and the rand() values every class's retry loop reads. */
    ghost const shuffleDraws: seq<seq<nat>>
    ghost const rolls: seq<seq<nat>>
    var stratifiedIndices: seq<seq<int>>
    var faulty: bool

    ghost predicate Valid()
      reads this
    {
      && WellFormed(y, config.k, shuffleDraws, rolls)
      && config.n == |y|
      && stratifiedIndices == StratifiedFolds(y, config.k, shuffleDraws, rolls)
      && faulty == Faulty(y, config.k)
    }

    function NumberOfFolds(): int
    {
      config.NumberOfFolds()
    }

    constructor (k: int, y: seq<int>, seed: int, shuffleDraws: seq<seq<nat>>, rolls: seq<seq<nat>>)
      requires WellFormed(y, k, shuffleDraws, rolls)
      ensures config == Fold(k, |y|, seed) && NumberOfFolds() == k && this.y == y
      ensures this.shuffleDraws == shuffleDraws && this.rolls == rolls
      ensures Valid()
    {
      config := Fold(k, |y|, seed);
      this.y := y;
      this.shuffleDraws := shuffleDraws;
      this.rolls := rolls;
      stratifiedIndices := [];
      faulty := false;
      new;
      Build(shuffleDraws, rolls);
    }

    /** build: k empty folds, then every label 0..max(y) dealt in turn. */
    method Build(shuffleDraws: seq<seq<nat>>, rolls: seq<seq<nat>>)
      requires WellFormed(y, config.k, shuffleDraws, rolls)
      modifies this
      ensures stratifiedIndices == StratifiedFolds(y, config.k, shuffleDraws, rolls)
      ensures faulty == (old(faulty) || Faulty(y, config.k))
    {
      var k := config.k;
      stratifiedIndices := seq(k, _ => []);
      var maxLabel := MaxElement(y);
      var counts, collected := CollectClasses(y, maxLabel);
      var classIndices := ShuffleClasses(collected, maxLabel, shuffleDraws);
      ClassTables(y, k, shuffleDraws, rolls, counts, collected, classIndices);
      AssignLabels(counts, classIndices, ClassLists(y, shuffleDraws), rolls);
      BuildOutcome(y, k, shuffleDraws, rolls);
    }

    /** The assignment loop of build, over the labels 0..max(y) in order. */
    method AssignLabels(counts: seq<int>, classIndices: map<int, seq<int>>, ghost lists: seq<seq<int>>, rolls: seq<seq<nat>>)
      requires config.k >= 1 && |counts| == |lists| == |rolls|
      requires stratifiedIndices == seq(config.k, _ => [])
      requires forall c :: 0 <= c < |lists| ==> (if c in classIndices then classIndices[c] else []) == lists[c] && counts[c] == |lists[c]|
      requires forall c :: 0 <= c < |lists| && |lists[c]| >= config.k ==> |Picks(rolls[c], config.k, |lists[c]| % config.k, {})| == |lists[c]| % config.k
      modifies this
      ensures stratifiedIndices == AssignUpTo(lists, config.k, rolls, |lists|)
      ensures faulty == (old(faulty) || ShortUpTo(lists, config.k, |lists|))
    {
      var k := config.k;
      for cls := 0 to |counts|
        invariant stratifiedIndices == AssignUpTo(lists, k, rolls, cls)
        invariant faulty == (old(faulty) || ShortUpTo(lists, k, cls))
      {
        // A label that never occurs has no entry, and no samples to deal.
        var list := if cls in classIndices then classIndices[cls] else [];
        var short := AssignLabel(list, counts[cls], rolls[cls]);
        assert AssignUpTo(lists, k, rolls, cls + 1) == AssignClass(AssignUpTo(lists, k, rolls, cls), lists[cls], k, rolls[cls]);
        assert ShortUpTo(lists, k, cls + 1) == (ShortUpTo(lists, k, cls) || |lists[cls]| < k);
      }
    }

    /**
     * One label of the assignment loop: a class with fewer samples than folds sets
     * faulty and is skipped; otherwise the fold loop and then the retry loop deal it.
     */
    method AssignLabel(list: seq<int>, count: int, draws: seq<nat>) returns (short: bool)
      requires config.k >= 1 && |stratifiedIndices| == config.k && count == |list|
      requires count >= config.k ==> |Picks(draws, config.k, count % config.k, {})| == count % config.k
      modifies this
      ensures stratifiedIndices == AssignClass(old(stratifiedIndices), list, config.k, draws)
      ensures short <==> count < config.k
      ensures faulty == (old(faulty) || short)
    {
      var k := config.k;
      ClassArith(list, k);
      ghost var before := stratifiedIndices;
      ghost var picks := Picks(draws, k, count % k, {});
      assert AssignClass(before, list, k, draws) == DealClass(before, list, count / k, picks);
      var take := count / k;
      if take == 0 {
        faulty := true;
        return true;
      }
      var rest := MoveRuns(list, take);
      MoveLeftovers(rest, draws, count % k);
      short := false;
    }

    /** The fold loop: each fold in turn moves the next `take` entries of the class list. */
    method MoveRuns(list: seq<int>, take: nat) returns (rest: seq<int>)
      requires config.k >= 1 && |stratifiedIndices| == config.k && Enough(list, take, config.k)
      modifies this
      ensures stratifiedIndices == DealEven(old(stratifiedIndices), list, take, 0)
      ensures rest == Leftover(list, take, config.k)
      ensures faulty == old(faulty)
    {
      ghost var folds := stratifiedIndices;
      var k := config.k;
      rest := list;
      for fold := 0 to k
        invariant |stratifiedIndices| == k && Enough(rest, take, k - fold)
        invariant DealEven(stratifiedIndices, rest, take, fold) == DealEven(folds, list, take, 0)
        invariant Leftover(rest, take, k - fold) == Leftover(list, take, k)
        invariant faulty == old(faulty)
      {
        ghost var s := stratifiedIndices;
        stratifiedIndices := stratifiedIndices[fold := stratifiedIndices[fold] + rest[..take]];
        assert DealEven(s, rest, take, fold) == DealEven(stratifiedIndices, rest[take..], take, fold + 1);
        assert Leftover(rest, take, k - fold) == Leftover(rest[take..], take, k - fold - 1);
        rest := rest[take..];
      }
    }

    /**
     * The retry loop: every rand() value names the fold value mod k; a fold already
     * chosen for this class is skipped, a free one receives the next leftover.
     */
    method MoveLeftovers(rest: seq<int>, draws: seq<nat>, need: nat)
      requires config.k >= 1 && |stratifiedIndices| == config.k
      requires |rest| == need && |Picks(draws, config.k, need, {})| == need
      modifies this
      ensures stratifiedIndices == DealRemainders(old(stratifiedIndices), rest, Picks(draws, config.k, need, {}))
      ensures faulty == old(faulty)
    {
      var k := config.k;
      ghost var target := DealRemainders(stratifiedIndices, rest, Picks(draws, k, need, {}));
      var chosen := seq(k, _ => false);
      ghost var taken: set<int> := {};
      var left, remaining, pos := rest, need, 0;
      assert draws[0..] == draws;
      while remaining > 0
        invariant 0 <= pos <= |draws|
        invariant |stratifiedIndices| == k && |left| == remaining
        invariant |chosen| == k && forall f :: 0 <= f < k ==> (chosen[f] <==> f in taken)
        invariant RetryOnTrack(stratifiedIndices, left, draws, pos, k, taken, target)
        invariant faulty == old(faulty)
        decreases |draws| - pos
      {
        RetryContinues(stratifiedIndices, left, draws, pos, k, taken, target);
        var fold := draws[pos] % k;
        if chosen[fold] {
          RetrySkip(stratifiedIndices, left, draws, pos, k, taken, target);
          pos := pos + 1;
          continue;
        }
        RetryTake(stratifiedIndices, left, draws, pos, k, taken, target, fold);
        pos := pos + 1;
        chosen := chosen[fold := true];
        stratifiedIndices := stratifiedIndices[fold := stratifiedIndices[fold] + [left[0]]];
        left := left[1..];
        taken := taken + {fold};
        remaining := remaining - 1;
      }
    }

    /** Whether some label in 0..max(y) has fewer samples than folds; when none has, the folds cover every sample. */
    function IsFaulty(): (r: bool)
      requires Valid()
      reads this
      ensures r <==> exists c :: 0 <= c <= MaxLabel(y) && Count(y, c) < config.k
      ensures !r ==> IsPermutation(Concat(stratifiedIndices), config.n)
    {
      if faulty then true
      else
        StratifiedPermutation(y, config.k, shuffleDraws, rolls);
        false
    }

    /**
     * Fold nFold as test, the other folds concatenated in fold order as train;
     * a fold number outside 0..k-1 is rejected.
     */
    method GetFold(nFold: int) returns (r: Result<Split>)
      requires Valid()
      ensures r.Err? <==> nFold < 0 || nFold >= config.k
      ensures r.Err? ==> r.error == OutOfRange(nFold, config.k)
      ensures r.Ok? ==> r.value == Split(OtherFolds(stratifiedIndices, nFold), stratifiedIndices[nFold])
      ensures r.Ok? ==> Distinct(r.value.train) && Distinct(r.value.test)
      ensures r.Ok? ==> forall x :: x in r.value.test ==> x !in r.value.train
      ensures r.Ok? ==> multiset(r.value.train + r.value.test) == multiset(Kept(y, config.k))
      ensures r.Ok? ==> |r.value.train| + |r.value.test| == |Kept(y, config.k)| <= config.n
      ensures r.Ok? && !faulty ==> IsPermutation(r.value.train + r.value.test, config.n)
    {
      var check := config.CheckFold(nFold);
      if check.Err? {
        return Err(check.error);
      }
      var folds := stratifiedIndices;
      var test := folds[nFold];
      var train := CollectTrain(folds, nFold);
      r := Ok(Split(train, test));
      StratifiedPartition(y, config.k, shuffleDraws, rolls);
      StratifiedCoverage(y, config.k, shuffleDraws, rolls);
      StratifiedSize(y, config.k, shuffleDraws, rolls);
      FoldSplit(folds, nFold);
      if !faulty {
        StratifiedPermutation(y, config.k, shuffleDraws, rolls);
      }
    }
  }
}
