# Folding: cross-validation index partitioners

A model of `folding.hpp`, the header that splits the sample indices `0..n-1` into `k`
train/test folds for cross-validation. The model covers both partitioners and their
shared base, `Fold`.

- **Fold** (module `FoldBase`) holds `k`, `n` and `seed`. `getNumberOfFolds` returns `k`.
  Both `getFold` implementations reject a fold number outside `0..k-1` with
  `std::out_of_range`, modelled as `Err(OutOfRange(nFold, k))`.
- **KFold** (module `KFolding`) fills an array with `0..n-1` and shuffles it once.
  `getFold(f)` tests the positions `[f*(n/k), (f+1)*(n/k))` of that array and trains on
  all other positions.
- **StratifiedKFold** (module `StratifiedFolding`, with the specification functions in
  `StratifiedSpec` and their properties in `StratifiedProps`) runs `build` at
  construction:
  - It counts the samples of every label and collects each label's positions.
  - It shuffles every class list.
  - For every label `0..max(y)` it does one of two things:
    - Too few samples: a class with fewer than `k` samples sets `faulty` and is
      skipped.
    - Otherwise: every fold receives the next `count / k` entries, in fold order.
      Then a `rand()` retry loop with a `chosen` bitmap deals the `count mod k`
      leftovers, one each, to distinct folds.
  - `getFold(f)` tests fold `f` and trains on the other folds, concatenated in fold
    order.

Module `Shuffle` models `std::shuffle` as the forward swap algorithm: step `i` swaps
position `i` with a drawn position `<= i`, and the drawn positions are an input. The C++
standard fixes only the distribution of `std::shuffle`, not its algorithm. Every property
below rests only on the shuffle's result being a permutation of its input
(`ShuffledIsPermutation`), which any standard library's shuffle satisfies. That forward
swaps reach every permutation is not proved here. Likewise, the `rand()` values of the
retry loop are an input sequence per class, and the loop's fold is `value % k`. Module
`Seqs` holds the sequence vocabulary: `Range`, `Distinct`, `IsPermutation`, `Concat` and
`Filter`.

Points of `folding.hpp` that the model reproduces as written:

- **KFold remainder.** Every fold, the last included, tests exactly `n / k` indices.
  The `n mod k` indices at the tail of the shuffled array are always in `train` and in
  no `test` (`KFoldTailNeverTested`); no fold receives the remainder.
- **Short classes.** A class with fewer than `k` samples is skipped by the `continue`
  at folding.hpp:103, before any leftover is dealt, so its samples go to no fold
  (`ShortClassLeftOut`). The same branch also fires for labels in `0..max(y)` that
  never occur. Such a label therefore sets `faulty` too (`Faulty`, `IsFaulty`).
- **Argument checks.** Neither constructor checks `k` or `n`:
  - A `KFold` with `k <= 0` is built, and then `getFold` rejects every fold number.
  - `StratifiedKFold::build` sizes the fold vector with `k` (folding.hpp:82) and divides
    by `k` (folding.hpp:83 and :98). A negative `k` makes `std::vector(k)` throw
    `std::length_error`, and `k == 0` divides by zero. It also dereferences
    `max_element` and indexes `class_counts` by label (folding.hpp:87-89), so an empty
    label vector or a negative label is undefined behaviour. The model therefore
    requires `k >= 1`, a non-empty label vector and labels `>= 0` (`WellFormed`); the
    `length_error` path is listed under "Left out".
- **Leftover folds.** The leftovers of a class are not sampled without replacement
  in one step. The code retries `rand() % k` until it finds a fold not yet chosen, and
  that retry loop is what the model has (`Picks`, `MoveLeftovers`).

Both `getFold`s change nothing and their results are functions of the stored state:
`KFoldSplit` of `indices`, and `OtherFolds` / a fold of `stratifiedIndices`. Repeated
calls therefore return the same pair. `Build` ends in the state
`StratifiedFolds(y, k, draws, rolls)`, so equal labels and equal random inputs give equal
folds.

## Model

The rows below name the members whose contracts state properties. They are stated
against these reference definitions, which have no row of their own:
`KFolding.KFoldSplit` (the window split of folding.hpp:50-66), `Shuffle.Shuffled`
(folding.hpp:48 and :94), `StratifiedSpec.DealEven` (the fold loop, folding.hpp:106-110),
`StratifiedSpec.DealRemainders` (the moves of the retry loop, folding.hpp:117-120),
`StratifiedSpec.AssignClass` (one label, folding.hpp:97-122),
`StratifiedSpec.StratifiedFolds` (build, folding.hpp:80-124) and
`StratifiedProps.OtherFolds` (the train list of getFold, folding.hpp:131-135).

| member | source | states |
|---|---|---|
| FoldBase.Fold.NumberOfFolds | folding.hpp:18 | `getNumberOfFolds()` returns `k`; both constructors ensure it equals the `k` they were given |
| FoldBase.Fold.CheckFold | folding.hpp:52-54 | the guard passes exactly when `0 <= nFold < k`; otherwise the error carries `nFold` and `k` |
| Shuffle.ShuffleInPlace | folding.hpp:48 | the array ends as `Shuffled(old contents, draws)`: the forward swap steps applied in place |
| Shuffle.SwapPermutes | folding.hpp:48 | exchanging two positions keeps every element and its multiplicity |
| Shuffle.ShuffleStepsPermutes | folding.hpp:94 | any number of swap steps keeps the multiset of the list |
| Shuffle.ShuffledIsPermutation | folding.hpp:48 | a shuffled list has the same length, multiset and members as the original |
| KFolding.KFold.constructor | folding.hpp:45-49 | config is `(k, n, seed)` and `getNumberOfFolds() == k`; `indices` is `0..n-1` shuffled by the draws, a permutation of `0..n-1` |
| KFolding.KFold.GetFold | folding.hpp:50-66 | out_of_range exactly when `nFold < 0 \|\| nFold >= k`; otherwise the window split of `indices`, with `train ++ test` a permutation of `0..n-1` and exactly `n / k` test indices |
| KFolding.SplitWindow | folding.hpp:58-64 | the push_back loop yields test = positions `lo..hi-1` and train = all other positions, each in array order |
| KFolding.WindowBounds | folding.hpp:55-59 | the test window of every fold `0..k-1` lies inside `0..n` and has width `n / k` |
| KFolding.WindowPartition | folding.hpp:58-64 | splitting a permutation by a window gives two repetition-free, disjoint lists whose concatenation is a permutation of `0..n-1` |
| KFolding.KFoldPartition | folding.hpp:45-64 | for every fold, train and test share nothing, repeat nothing and together are `0..n-1` |
| KFolding.KFoldSizes | folding.hpp:55-63 | `\|test\| == n / k`, `\|train\| == n - n / k`, and the train size lies in `{n*(k-1)/k, n*(k-1)/k + 1}` |
| KFolding.TrainSizeBounds | folding.hpp:55 | `n - n / k` is `n*(k-1)/k` or one more |
| KFolding.KFoldTestsTile | folding.hpp:55-60 | the test lists of folds `0..k-1`, laid end to end, are exactly the first `k*(n/k)` shuffled indices |
| KFolding.KFoldTestsDisjoint | folding.hpp:55-60 | test lists of two different folds share no index |
| KFolding.KFoldTailNeverTested | folding.hpp:55-63 | the `n mod k` indices after the last window are in no fold's test list |
| StratifiedSpec.MaxLabel | folding.hpp:87 | the result bounds every label and is one of them |
| StratifiedSpec.MembersMultiplicity | folding.hpp:88-91 | the list collected for label `c` holds every position labelled `c` once and nothing else |
| StratifiedSpec.MembersOfClass | folding.hpp:88-91 | every entry of the list collected for `c` is a sample labelled `c` |
| StratifiedSpec.Picks | folding.hpp:111-122 | the retry loop picks at most the folds it needs, each in `0..k-1`, none already chosen, no fold twice |
| StratifiedSpec.PicksLength | folding.hpp:112-122 | when the `rand()` values reach enough free folds, the loop picks all `count mod k` folds it needs |
| StratifiedSpec.PicksStep | folding.hpp:113-117 | one turn of the retry loop skips a chosen fold or takes a free one as the next pick |
| StratifiedSpec.ClassBounds | folding.hpp:98-105 | `count == k*(count/k) + count%k` with both parts in range, and `count/k == 0` exactly when `count < k` |
| StratifiedSpec.EnoughFromSize | folding.hpp:106-110 | a list of at least `g*take` entries holds `g` runs of `take` and leaves `\|list\| - g*take` |
| StratifiedSpec.ClassArith | folding.hpp:98-110 | the fold loop finds `k` runs of `count / k`, and the `count mod k` leftovers remain |
| StratifiedSpec.DealRemaindersStep | folding.hpp:117-120 | the first leftover goes to the first pick, the rest are dealt to the remaining picks |
| StratifiedSpec.RetryContinues | folding.hpp:112-113 | while leftovers remain, an on-track retry loop still has `rand()` values to read |
| StratifiedSpec.RetrySkip | folding.hpp:113-116 | a value naming a fold already chosen is skipped, and the loop stays on track to deal the remaining leftovers to the remaining picks |
| StratifiedSpec.RetryTake | folding.hpp:113-121 | a value naming a free fold marks it chosen and appends the front leftover to it, and the loop stays on track with one leftover fewer |
| StratifiedSpec.MembersStep | folding.hpp:88-90 | scanning position `i` appends it to the list of its own label only |
| StratifiedProps.ConcatEmpty | folding.hpp:82 | `k` empty folds hold no index |
| StratifiedProps.DealEvenMultiset | folding.hpp:106-110 | the fold loop only moves entries: what the folds gain is what the class list loses |
| StratifiedProps.DealRemaindersMultiset | folding.hpp:111-122 | the retry loop moves every leftover into the folds |
| StratifiedProps.DealClassMultiset | folding.hpp:105-122 | dealing a class adds every entry of its list to the folds exactly once |
| StratifiedProps.AssignClassMultiset | folding.hpp:97-122 | a dealt class adds its whole list to the folds; a skipped class adds nothing |
| StratifiedProps.ClassListFacts | folding.hpp:93-95 | a shuffled class list has the class's count as length and the class's samples as members |
| StratifiedProps.ExtraFoldsLength | folding.hpp:111-122 | for a dealt class the retry loop finds `count mod k` folds |
| StratifiedProps.ClassStepMultiplicity | folding.hpp:97-122 | one label's step adds one copy of each of its samples when `count >= k`, none otherwise |
| StratifiedProps.FoldsUpToMultiplicity | folding.hpp:96-123 | after labels `0..L-1`, an index occurs once in the folds iff its label is below `L` with at least `k` samples |
| StratifiedProps.KeptMultiplicity | folding.hpp:97-104 | the reference list `Kept` holds each sample of a class with at least `k` samples once and nothing else |
| StratifiedProps.StratifiedMultiplicity | folding.hpp:80-124 | after build, each sample of a class with at least `k` samples occurs exactly once in the folds, and no other index occurs |
| StratifiedProps.StratifiedCoverage | folding.hpp:80-124 | the folds together hold exactly the multiset of `Kept(y, k)` |
| StratifiedProps.StratifiedPartition | folding.hpp:80-124 | no index is assigned twice, and an index is assigned iff its class has at least `k` samples |
| StratifiedProps.StratifiedSize | folding.hpp:80-124 | the folds hold `\|Kept(y, k)\|` indices, at most `n` |
| StratifiedProps.StratifiedPermutation | folding.hpp:97-104 | when no label is short of samples, the folds partition `0..n-1` |
| StratifiedProps.LabelCountConcat | folding.hpp:108 | the samples of a class in two appended lists add up |
| StratifiedProps.LabelCountOfClass | folding.hpp:107-108 | in a list of one class, that class counts every entry and any other class none |
| StratifiedProps.DealEvenCount | folding.hpp:106-110 | the fold loop gives folds `f..k-1` each `take` samples of the class and folds before `f` none |
| StratifiedProps.DealRemaindersCount | folding.hpp:111-122 | a fold gains one leftover of the class exactly when it is picked |
| StratifiedProps.DealClassCount | folding.hpp:105-122 | dealing a class gives each fold `count / k` of its samples, plus one for a picked fold |
| StratifiedProps.AssignClassCount | folding.hpp:97-122 | a class step gives fold `f` `count / k` samples of its own class, plus one when `f` is picked, none of any other class, and nothing at all when the class is skipped |
| StratifiedProps.ClassStepCount | folding.hpp:97-122 | label `d`'s step adds `Share(d, f)` samples of class `d` to fold `f` and nothing of another class |
| StratifiedProps.FoldsUpToCount | folding.hpp:96-123 | after labels `0..L-1`, fold `f` holds `Share(c, f)` samples of class `c` for `c < L` and none of the others |
| StratifiedProps.StratifiedClassCounts | folding.hpp:96-123 | after build, fold `f` holds exactly `Share(c, f)` samples of each class `c` |
| StratifiedProps.ClassBalance | folding.hpp:98-122 | for a class with `count >= k`, every fold holds `count / k` or `count / k + 1` of it, and exactly `count mod k` folds hold the larger number |
| StratifiedProps.LargerFolds | folding.hpp:111-122 | distinct picks make exactly as many folds hold the extra sample as there are picks |
| StratifiedProps.ShortClassLeftOut | folding.hpp:99-104 | a class with fewer than `k` samples has no sample in any fold |
| StratifiedProps.ShortUpToFaulty | folding.hpp:97-104 | the flag raised over the first `L` labels is raised iff one of them has fewer than `k` samples |
| StratifiedProps.BuildOutcome | folding.hpp:96-123 | the label loop over every shuffled class list yields the folds of build, and its flag is raised iff some label in `0..max(y)` has fewer than `k` samples |
| StratifiedProps.FoldSplit | folding.hpp:130-135 | fold `f` and the other folds concatenated repeat nothing, share nothing, and together hold all assigned indices, with sizes adding up |
| StratifiedProps.DealEvenSize | folding.hpp:106-110 | the fold loop makes folds `f..k-1` each `take` longer and the others no longer, and the folds gain exactly the entries the list loses |
| StratifiedProps.DealRemaindersSize | folding.hpp:111-122 | with distinct picks, a fold grows by one exactly when it is picked, and the folds gain every leftover |
| StratifiedProps.AssignClassSize | folding.hpp:97-122 | a dealt class makes fold `f` longer by `count / k`, plus one when `f` is picked, and the folds by `count`; a skipped class changes no size |
| StratifiedProps.ClassStepSize | folding.hpp:97-122 | label `d`'s step makes fold `f` longer by `Share(d, f)`, and the folds by `count` when `d` is dealt |
| StratifiedProps.FoldsUpToSizesStep | folding.hpp:96-123 | one label's step keeps both size bounds below, each allowed one index more |
| StratifiedProps.FoldsUpToSizes | folding.hpp:96-123 | after labels `0..L-1`, the indices outside fold `f` number at most `(k-1)/k` of the assigned ones plus `L`, and two folds differ by at most `L` indices |
| StratifiedProps.StratifiedTrainSize | tests/TestFolding.cc:49-71 | every fold's train list holds at most `n*(k-1)/k + max(y) + 1` indices: a fold misses at most one leftover per class |
| StratifiedProps.StratifiedFoldSizes | folding.hpp:96-123 | near-equal folds: the sizes of two folds differ by at most `max(y) + 1`, one leftover per label |
| StratifiedFolding.MaxElement | folding.hpp:87 | `*max_element(y)` is `MaxLabel(y)` |
| StratifiedFolding.CollectClasses | folding.hpp:86-91 | `class_counts[c]` is the count of label `c`; `class_indices` has a key exactly for the labels that occur, each holding that label's positions in ascending order |
| StratifiedFolding.ShuffleClasses | folding.hpp:93-95 | every class list is replaced by its shuffle with its own draws; the keys are unchanged |
| StratifiedFolding.CollectTrain | folding.hpp:131-135 | the train loop yields every fold but `nFold`, concatenated in fold order |
| StratifiedFolding.ClassTables | folding.hpp:86-98 | after the counting and shuffling loops, every label `0..max(y)` has its count and its shuffled list (empty for a label that never occurs), and every dealt label has enough `rand()` values |
| StratifiedFolding.StratifiedKFold.constructor | folding.hpp:73-79 | config is `(k, \|y\|, seed)`, `getNumberOfFolds() == k`, `y` is stored, and build has run: the object is `Valid()` |
| StratifiedFolding.StratifiedKFold.Build | folding.hpp:80-124 | `stratified_indices` ends as `StratifiedFolds(...)`, and `faulty` is raised iff some label in `0..max(y)` has fewer than `k` samples |
| StratifiedFolding.StratifiedKFold.AssignLabels | folding.hpp:96-123 | the label loop deals the lists of labels `0..max(y)` in order from `k` empty folds, and raises `faulty` iff some list is shorter than `k` |
| StratifiedFolding.StratifiedKFold.AssignLabel | folding.hpp:97-122 | one label: skipped with `faulty` raised iff `count < k`; otherwise dealt by the fold loop and the retry loop |
| StratifiedFolding.StratifiedKFold.MoveRuns | folding.hpp:106-110 | each fold in turn moves the next `count / k` entries from the front of the class list; the leftover list remains |
| StratifiedFolding.StratifiedKFold.MoveLeftovers | folding.hpp:111-122 | the retry loop deals the i-th leftover to the i-th distinct free fold the `rand()` values name |
| StratifiedFolding.StratifiedKFold.IsFaulty | folding.hpp:37 | `isFaulty()` holds iff some label in `0..max(y)` has fewer than `k` samples; when it does not, the folds partition `0..n-1` |
| StratifiedFolding.StratifiedKFold.GetFold | folding.hpp:125-137 | out_of_range exactly when `nFold < 0 \|\| nFold >= k`; otherwise test is fold `nFold` and train is the other folds in order, both repetition-free and disjoint. Together they hold exactly the samples of classes with at least `k` samples, at most `n` of them, and all of `0..n-1` when not faulty. Train is `OtherFolds(stratifiedIndices, nFold)` of the `Valid()` state, so `StratifiedTrainSize` bounds it |

## Left out

- The `torch::Tensor` constructor of StratifiedKFold (folding.hpp:67-72) reads a foreign library's data pointer. Only the `std::vector<int>` constructor is modelled.
- The random machinery is not modelled: `std::random_device`, `std::default_random_engine`, `std::srand` and `time(0)` (folding.hpp:41-43). The seed is stored as data. The engine's output enters as explicit inputs: the swap positions of each shuffle and the `rand()` values of each retry loop. The model does not compute which inputs a given seed produces.
- The single engine that `build` shares across all class shuffles, and the single `rand()` stream shared by all labels, are modelled as one input sequence per class. Any split of the shared stream is one such choice, so the model covers every outcome. It does not tie the per-class sequences to one stream.
- StratifiedFolding.StratifiedKFold.Build: requires the `rand()` values of every dealt class to reach at least `count mod k` distinct folds (`WellFormed`). With fewer, the retry loop of folding.hpp:112-122 never ends, and the model does not represent that non-termination.
- The `std::cerr` warning (folding.hpp:100-101) is diagnostic output. Only the `faulty` flag is kept.
- The unused local `fold_size` (folding.hpp:83).
- StratifiedSpec.WellFormed: `k >= 1`. For a negative `k`, `std::vector<std::vector<int>>(k)` at folding.hpp:82 throws `std::length_error`; that exception path is not modelled, and `k == 0` divides by zero at folding.hpp:83.
- KFolding.KFold.constructor: `n` is a `nat`. A negative `n` makes `std::vector<int>(n)` throw, and that path is not modelled.
- 32-bit `int` arithmetic is not modelled: counts, labels, `n` and `y.size()` are unbounded integers, so narrowing a size above `INT_MAX` into `n` is outside the model. The window bounds of KFold::getFold cannot overflow: `nFold` is range-checked first (folding.hpp:52), so `nTest * (nFold + 1) <= k * (n / k) <= n` (`WindowBounds`).
- `class_counts`, the `chosen` bitmap and each class vector are local containers in the source. Here they are sequences the loops reassign. Erasing from the front of a class vector is a suffix slice.
- tests/TestUtils.h (dataset loading, CSV and ARFF I/O), the test harness in tests/TestFolding.cc, and conanfile.py (packaging) are not part of this model.
