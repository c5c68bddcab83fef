/**
 * The value StratifiedKFold::build computes, as functions of its inputs: the
 * labels y, the fold count k, the shuffle draws of every class list and the
 * rand() values the remainder loop of every class consumes.
 */
module StratifiedSpec {
  import opened Seqs
  import opened Shuffle

  /** Which positions of y are labelled c. */
  function ClassMask(y: seq<int>, c: int): (r: seq<bool>)
    ensures |r| == |y| && forall i :: 0 <= i < |y| ==> r[i] == (y[i] == c)
  {
    seq(|y|, i requires 0 <= i < |y| => y[i] == c)
  }

  /** The positions among 0..m-1 labelled c, ascending: the list build collects for class c. */
  function Members(y: seq<int>, c: int, m: nat): seq<int>
    requires m <= |y|
  {
    Filter(ClassMask(y, c), m)
  }

  /** The number of samples labelled c. */
  function Count(y: seq<int>, c: int): nat
  {
    |Members(y, c, |y|)|
  }

  /** The largest label (what *max_element yields). */
  function MaxLabel(y: seq<int>): (r: int)
    requires |y| > 0
    ensures forall i :: 0 <= i < |y| ==> y[i] <= r
    ensures exists i :: 0 <= i < |y| && y[i] == r
  {
    if |y| == 1 then y[0]
    else
      var m := MaxLabel(y[..|y| - 1]);
      assert forall i :: 0 <= i < |y| - 1 ==> y[..|y| - 1][i] == y[i];
      if y[|y| - 1] > m then y[|y| - 1] else m
  }

  /** Scanning one more position appends it to the list of its own class only. */
  lemma MembersStep(y: seq<int>, i: nat)
    requires i < |y|
    ensures forall c :: Members(y, c, i + 1) == Members(y, c, i) + (if y[i] == c then [i] else [])
  {
  }

  lemma MembersMultiplicity(y: seq<int>, c: int, m: nat, x: int)
    requires m <= |y|
    ensures multiset(Members(y, c, m))[x] == if 0 <= x < m && y[x] == c then 1 else 0
  {
    FilterMultiplicity(ClassMask(y, c), m, x);
  }

  /** Every entry of s is a sample of class d. */
  ghost predicate AllOfClass(s: seq<int>, y: seq<int>, d: int)
  {
    forall x :: x in s ==> 0 <= x < |y| && y[x] == d
  }

  lemma MembersOfClass(y: seq<int>, c: int)
    ensures AllOfClass(Members(y, c, |y|), y, c)
  {
    forall x | x in Members(y, c, |y|)
      ensures 0 <= x < |y| && y[x] == c
    {
      MembersMultiplicity(y, c, |y|, x);
    }
  }

  // ---------------------------------------------------------------------------
  // The remainder loop

  /** The fold ids a sequence of rand() values can reach: each value modulo k. */
  function FoldsDrawn(rolls: seq<nat>, k: int): set<int>
    requires k >= 1
  {
    if rolls == [] then {} else {rolls[0] % k} + FoldsDrawn(rolls[1..], k)
  }

  /**
   * The folds the retry loop chooses from the rand() values rolls, `need` more
   * wanted and the folds in `chosen` already taken: a value whose fold is taken is
   * skipped, a free fold is taken, and the loop stops as soon as nothing is needed.
   */
  function Picks(rolls: seq<nat>, k: int, need: nat, chosen: set<int>): (r: seq<int>)
    requires k >= 1
    ensures |r| <= need
    ensures forall i :: 0 <= i < |r| ==> 0 <= r[i] < k && r[i] !in chosen
    ensures Distinct(r)
  {
    if need == 0 || rolls == [] then []
    else
      var f := rolls[0] % k;
      if f in chosen then Picks(rolls[1..], k, need, chosen)
      else
        var rest := Picks(rolls[1..], k, need - 1, chosen + {f});
        assert forall i :: 0 <= i < |rest| ==> rest[i] != f;
        assert forall i :: 1 <= i < |rest| + 1 ==> ([f] + rest)[i] == rest[i - 1];
        [f] + rest
  }

  /** The loop picks all it needs as long as the values reach enough free folds. */
  lemma {:induction false} PicksLength(rolls: seq<nat>, k: int, need: nat, chosen: set<int>)
    requires k >= 1 && need <= |FoldsDrawn(rolls, k) - chosen|
    ensures |Picks(rolls, k, need, chosen)| == need
  {
    if need > 0 && rolls != [] {
      var f := rolls[0] % k;
      var later := FoldsDrawn(rolls[1..], k);
      assert FoldsDrawn(rolls, k) == {f} + later;
      if f in chosen {
        assert FoldsDrawn(rolls, k) - chosen == later - chosen;
        PicksLength(rolls[1..], k, need, chosen);
      } else {
        var free := FoldsDrawn(rolls, k) - chosen;
        assert later - (chosen + {f}) == free - {f};
        assert free == (free - {f}) + {f};
        PicksLength(rolls[1..], k, need - 1, chosen + {f});
      }
    }
  }

  /** One turn of the retry loop: the value at pos is either skipped or yields the next pick. */
  lemma PicksStep(rolls: seq<nat>, pos: nat, k: int, need: nat, chosen: set<int>)
    requires k >= 1 && pos <= |rolls| && need > 0 && |Picks(rolls[pos..], k, need, chosen)| == need
    ensures pos < |rolls|
    ensures rolls[pos] % k in chosen ==> Picks(rolls[pos..], k, need, chosen) == Picks(rolls[pos + 1..], k, need, chosen)
    ensures rolls[pos] % k !in chosen ==>
      Picks(rolls[pos..], k, need, chosen) == [rolls[pos] % k] + Picks(rolls[pos + 1..], k, need - 1, chosen + {rolls[pos] % k})
  {
    if pos < |rolls| {
      assert rolls[pos..][0] == rolls[pos] && rolls[pos..][1..] == rolls[pos + 1..];
    }
  }

  // ---------------------------------------------------------------------------
  // Dealing one class to the folds

  /** count == k * (count / k) + count % k, with the parts in range. */
  lemma ClassBounds(count: nat, k: int)
    requires k >= 1
    ensures 0 <= count / k && 0 <= k * (count / k) <= count
    ensures count - k * (count / k) == count % k < k
    ensures count / k == 0 <==> count < k
  {
    MulMono(0, k, count / k);
    if count >= k {
      MulMono(1, count / k, k);
    }
  }

  /** The next g runs of `take` entries all exist in list. */
  ghost predicate Enough(list: seq<int>, take: nat, g: nat)
  {
    g == 0 || (|list| >= take && Enough(list[take..], take, g - 1))
  }

  /** What is left of list once g runs of `take` entries are taken from its front. */
  function Leftover(list: seq<int>, take: nat, g: nat): seq<int>
  {
    if g == 0 || |list| < take then list else Leftover(list[take..], take, g - 1)
  }

  /** A list of at least g * take entries holds g runs, and loses exactly g * take entries to them. */
  lemma {:induction false} EnoughFromSize(list: seq<int>, take: nat, g: nat)
    requires g * take <= |list|
    ensures Enough(list, take, g)
    ensures |Leftover(list, take, g)| == |list| - g * take
  {
    if g > 0 {
      MulMono(0, g - 1, take);
      assert (g - 1) * take == g * take - take;
      EnoughFromSize(list[take..], take, g - 1);
    }
  }

  /** The arithmetic of one class: k runs of count / k exist, and count % k entries are left over. */
  lemma ClassArith(list: seq<int>, k: int)
    requires k >= 1
    ensures 0 <= |list| / k && Enough(list, |list| / k, k)
    ensures |Leftover(list, |list| / k, k)| == |list| % k
    ensures |list| / k == 0 <==> |list| < k
  {
    ClassBounds(|list|, k);
    EnoughFromSize(list, |list| / k, k);
  }

  /**
   * The folds after folds f..|folds|-1, in order, each received the next `take`
   * entries of list (the fold loop moving take indices from the front of the list).
   */
  ghost function DealEven(folds: seq<seq<int>>, list: seq<int>, take: nat, f: nat): (r: seq<seq<int>>)
    requires f <= |folds|
    ensures |r| == |folds|
    decreases |folds| - f
  {
    if f == |folds| || |list| < take then folds
    else DealEven(folds[f := folds[f] + list[..take]], list[take..], take, f + 1)
  }

  /** The folds after the i-th leftover rest[i] went to fold picks[i], for every pick (the retry loop's moves). */
  ghost function DealRemainders(folds: seq<seq<int>>, rest: seq<int>, picks: seq<int>): (r: seq<seq<int>>)
    requires forall i :: 0 <= i < |picks| ==> 0 <= picks[i] < |folds|
    ensures |r| == |folds|
    decreases |picks|
  {
    if picks == [] || rest == [] then folds
    else DealRemainders(folds[picks[0] := folds[picks[0]] + [rest[0]]], rest[1..], picks[1..])
  }

  /** The first leftover goes to the first pick. */
  lemma DealRemaindersStep(folds: seq<seq<int>>, rest: seq<int>, f: int, picks: seq<int>)
    requires 0 <= f < |folds| && rest != []
    requires forall i :: 0 <= i < |picks| ==> 0 <= picks[i] < |folds|
    ensures forall i :: 0 <= i < |[f] + picks| ==> 0 <= ([f] + picks)[i] < |folds|
    ensures DealRemainders(folds, rest, [f] + picks) == DealRemainders(folds[f := folds[f] + [rest[0]]], rest[1..], picks)
  {
    assert ([f] + picks)[0] == f && ([f] + picks)[1..] == picks;
  }

  /**
   * The state of the retry loop is on track: from position pos on, the rand()
   * values still pick one free fold per remaining leftover, and dealing the
   * remaining leftovers to those picks yields the final folds target.
   */
  ghost predicate RetryOnTrack(folds: seq<seq<int>>, left: seq<int>, rolls: seq<nat>, pos: nat, k: int, taken: set<int>, target: seq<seq<int>>)
    requires k >= 1 && |folds| == k && pos <= |rolls|
  {
    && |Picks(rolls[pos..], k, |left|, taken)| == |left|
    && DealRemainders(folds, left, Picks(rolls[pos..], k, |left|, taken)) == target
  }

  /** While leftovers remain, an on-track loop has rand() values left to read. */
  lemma RetryContinues(folds: seq<seq<int>>, left: seq<int>, rolls: seq<nat>, pos: nat, k: int, taken: set<int>, target: seq<seq<int>>)
    requires k >= 1 && |folds| == k && pos <= |rolls| && left != []
    requires RetryOnTrack(folds, left, rolls, pos, k, taken, target)
    ensures pos < |rolls|
  {
    PicksStep(rolls, pos, k, |left|, taken);
  }

  /** A value naming a fold already chosen is skipped, and the loop stays on track. */
  lemma RetrySkip(folds: seq<seq<int>>, left: seq<int>, rolls: seq<nat>, pos: nat, k: int, taken: set<int>, target: seq<seq<int>>)
    requires k >= 1 && |folds| == k && pos < |rolls| && left != [] && rolls[pos] % k in taken
    requires RetryOnTrack(folds, left, rolls, pos, k, taken, target)
    ensures RetryOnTrack(folds, left, rolls, pos + 1, k, taken, target)
  {
    PicksStep(rolls, pos, k, |left|, taken);
  }

  /** A value naming a free fold f gives f the next leftover, and the loop stays on track. */
  lemma RetryTake(folds: seq<seq<int>>, left: seq<int>, rolls: seq<nat>, pos: nat, k: int, taken: set<int>, target: seq<seq<int>>, f: int)
    requires k >= 1 && |folds| == k && pos < |rolls| && left != []
    requires f == rolls[pos] % k && f !in taken
    requires RetryOnTrack(folds, left, rolls, pos, k, taken, target)
    ensures RetryOnTrack(folds[f := folds[f] + [left[0]]], left[1..], rolls, pos + 1, k, taken + {f}, target)
  {
    PicksStep(rolls, pos, k, |left|, taken);
    DealRemaindersStep(folds, left, f, Picks(rolls[pos + 1..], k, |left| - 1, taken + {f}));
  }

  /**
   * A class list dealt to the folds: nothing when take is 0; otherwise `take`
   * entries to every fold in fold order, then the i-th leftover to fold p[i].
   */
  ghost function DealClass(folds: seq<seq<int>>, list: seq<int>, take: nat, p: seq<int>): (r: seq<seq<int>>)
    requires forall i :: 0 <= i < |p| ==> 0 <= p[i] < |folds|
    ensures |r| == |folds|
  {
    if take == 0 then folds
    else DealRemainders(DealEven(folds, list, take, 0), Leftover(list, take, |folds|), p)
  }

  /**
   * One class of the assignment loop: a class with fewer entries than folds is
   * skipped; otherwise every fold gets count / k entries in fold order, and the
   * count % k leftovers go one each to the folds the retry loop picks.
   */
  ghost function AssignClass(folds: seq<seq<int>>, list: seq<int>, k: int, rolls: seq<nat>): (r: seq<seq<int>>)
    requires k >= 1 && |folds| == k
    ensures |r| == k
  {
    DealClass(folds, list, |list| / k, Picks(rolls, k, |list| % k, {}))
  }

  // ---------------------------------------------------------------------------
  // The whole build

  /**
   * What build demands of its inputs: a non-empty label vector (max_element is
   * dereferenced), non-negative labels (they index class_counts), k >= 1 (it
   * divides and sizes the fold vector), one valid draw sequence per class list,
   * and, for every class that is dealt, rand() values reaching enough distinct
   * folds for its remainder so that the retry loop ends.
   */
  ghost predicate WellFormed(y: seq<int>, k: int, shuffleDraws: seq<seq<nat>>, rolls: seq<seq<nat>>)
  {
    && |y| > 0
    && k >= 1
    && (forall i :: 0 <= i < |y| ==> y[i] >= 0)
    && |shuffleDraws| == MaxLabel(y) + 1
    && |rolls| == MaxLabel(y) + 1
    && (forall c :: 0 <= c < |shuffleDraws| ==> ValidDraws(shuffleDraws[c], Count(y, c)))
    && (forall c :: 0 <= c < |rolls| && Count(y, c) >= k ==> Count(y, c) % k <= |FoldsDrawn(rolls[c], k)|)
  }

  /** Class c's list after its shuffle. */
  function ClassList(y: seq<int>, shuffleDraws: seq<seq<nat>>, c: int): seq<int>
    requires 0 <= c < |shuffleDraws| && ValidDraws(shuffleDraws[c], Count(y, c))
  {
    Shuffled(Members(y, c, |y|), shuffleDraws[c])
  }

  /** The shuffled list of every label 0..|shuffleDraws|-1. */
  function ClassLists(y: seq<int>, shuffleDraws: seq<seq<nat>>): (r: seq<seq<int>>)
    requires forall c :: 0 <= c < |shuffleDraws| ==> ValidDraws(shuffleDraws[c], Count(y, c))
    ensures |r| == |shuffleDraws|
  {
    seq(|shuffleDraws|, c requires 0 <= c < |shuffleDraws| => ClassList(y, shuffleDraws, c))
  }

  /** The folds once the lists of labels 0..L-1 are assigned, in label order, starting from k empty folds. */
  ghost function AssignUpTo(lists: seq<seq<int>>, k: int, rolls: seq<seq<nat>>, L: nat): (r: seq<seq<int>>)
    requires k >= 1 && L <= |lists| && L <= |rolls|
    ensures |r| == k
  {
    if L == 0 then seq(k, _ => [])
    else AssignClass(AssignUpTo(lists, k, rolls, L - 1), lists[L - 1], k, rolls[L - 1])
  }

  /** Some list among the first L has fewer than k entries. */
  ghost predicate ShortUpTo(lists: seq<seq<int>>, k: int, L: nat)
    requires L <= |lists|
  {
    L > 0 && (ShortUpTo(lists, k, L - 1) || |lists[L - 1]| < k)
  }

  /** The folds once classes 0..L-1 are assigned. */
  ghost function FoldsUpTo(y: seq<int>, k: int, shuffleDraws: seq<seq<nat>>, rolls: seq<seq<nat>>, L: nat): (r: seq<seq<int>>)
    requires WellFormed(y, k, shuffleDraws, rolls) && L <= |shuffleDraws|
    ensures |r| == k
  {
    AssignUpTo(ClassLists(y, shuffleDraws), k, rolls, L)
  }

  /** stratified_indices as build leaves it. */
  ghost function StratifiedFolds(y: seq<int>, k: int, shuffleDraws: seq<seq<nat>>, rolls: seq<seq<nat>>): (r: seq<seq<int>>)
    requires WellFormed(y, k, shuffleDraws, rolls)
    ensures |r| == k
  {
    FoldsUpTo(y, k, shuffleDraws, rolls, MaxLabel(y) + 1)
  }

  /** Some label in 0..max(y) has fewer than k samples (absent labels included). */
  ghost predicate Faulty(y: seq<int>, k: int)
    requires |y| > 0
  {
    exists c :: 0 <= c <= MaxLabel(y) && Count(y, c) < k
  }

  /** The folds that receive one leftover of class c. */
  ghost function ExtraFolds(y: seq<int>, k: int, rolls: seq<seq<nat>>, c: int): seq<int>
    requires k >= 1 && 0 <= c < |rolls|
  {
    Picks(rolls[c], k, Count(y, c) % k, {})
  }

  /** Which positions of y belong to a class with at least k samples. */
  ghost function KeptMask(y: seq<int>, k: int): (r: seq<bool>)
    ensures |r| == |y| && forall i :: 0 <= i < |y| ==> r[i] == (Count(y, y[i]) >= k)
  {
    seq(|y|, i requires 0 <= i < |y| => Count(y, y[i]) >= k)
  }

  /** Reference definition: the positions of y whose class has at least k samples, ascending. */
  ghost function Kept(y: seq<int>, k: int): seq<int>
  {
    Filter(KeptMask(y, k), |y|)
  }

  /** The number of entries of s that are samples of class c. */
  ghost function LabelCount(s: seq<int>, y: seq<int>, c: int): nat
  {
    if s == [] then 0
    else (if 0 <= s[0] < |y| && y[s[0]] == c then 1 else 0) + LabelCount(s[1..], y, c)
  }
}
