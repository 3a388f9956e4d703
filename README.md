# RecSys: user-based KNN prediction and MovieLens loading

This project models two parts of the RecSys recommender in Dafny and proves properties of them.

- **`UserKNN.PredictRatings`.** This is the Resnick/GroupLens neighbourhood predictor. For every
  (user, item) position stored in the mask matrix `R_unknown`, it walks the user's top-K neighbours.
  Only neighbours whose training rating of the item is non-zero count. It sums their
  similarity-weighted, mean-centred ratings and their similarities. It falls back to the global mean
  when the weighted sum is zero, and clamps the result to `[MinRating, MaxRating]`. It counts
  fallbacks and clamps, and writes every prediction into a fresh matrix.
- **`Utils.LoadMovieLensSplitByCount`.** This is the MovieLens loader, and it works in three passes.
  - Pass 1 numbers users and items by first appearance and counts each user's ratings.
  - Pass 2 removes users with fewer than `minCountOfRatings` ratings. After each removal it shifts
    the indices above the removed one down by one.
  - Pass 3 reads the lines, in file order or shuffled. It sends each kept user's first
    `countOfRatingsForTrain` lines, and at least one, to the training matrix and the user's later
    lines to the test matrix.
- **Related members of `Utils.cs`.** These are the Fisher–Yates `ExtensionsToDotNet.Shuffle`, the
  obsolete `LoadMovieLens` single-matrix loader, and `CreateHeading`.

Modules:

- `Ratings` (ratings.dfy): the sparse rating matrix. It holds two dimensions and a map from
  (user, item) to the stored value. A stored 0 is still a stored entry; the class remark at the
  top of `Utils.cs` says the same.
- `UserKnn` (user_knn.dfy): the prediction loops as methods, each proved against the
  specification functions `WeightSum`, `WeightedSum`, `Estimate`, `Cap` and `PredictEntry`.
- `Records` (records.dfy): the parsed lines `(user, item, rating)` and their projections.
- `Indexing` (indexing.dfy):
  - passes 1 and 2 as methods;
  - their specification, made of first-appearance order (`FirstAppearance`), the index map of a
    distinct sequence (`Positions`) and removal (`Without`);
  - the proof that in-place removal with index shifting equals renumbering the remaining users.
- `ExtensionsToDotNet` (shuffle.dfy): `Shuffle` on an array, specified by the function
  `Shuffled` of the draws the generator hands out.
- `Utils` (utils.dfy):
  - the routing of pass 3 (`Route`, `Part`, `Scatter`);
  - the loaders;
  - the proof of the loader's closing `Debug.Assert`;
  - `CreateHeading`.

Modelling choices:

- File reading is replaced by the sequence of parsed lines.
- `Random` is replaced by the sequence of numbers it returns.
- The neighbour table, the user means and the global mean come from code that is not part of
  this model, so they are inputs.
- A division by a zero weight sum gives an infinity in IEEE arithmetic. The model represents
  that value explicitly (`Extended`) and clamps it the way the code does.
- `UserKnn.WorkedExample`: both neighbours of user 2 stored a non-zero rating of item 1, so both
  count, and the estimate is 0.4 before clamping.

## Model

| member | source | states |
|---|---|---|
| Ratings.RatingMatrix.Set | src/RecSys/Numerical/UserKNN.cs:101 | Writing a value keeps the dimensions, adds exactly that position to the stored ones, makes it read back as the written value, and leaves every other stored entry unchanged. |
| UserKnn.Cap | src/RecSys/Numerical/UserKNN.cs:89-99 | When MinRating ≤ MaxRating, the clamped value lies in the range and the capped counter rises at most once. It rises not at all exactly when the estimate is already in range, and then the estimate is kept unchanged. With any range it rises at most twice. |
| UserKnn.SumNeighbours | src/RecSys/Numerical/UserKNN.cs:62-77 | The neighbour loop computes exactly the signed similarity sum and the similarity-weighted mean-centred sum over the neighbours whose training rating is non-zero. |
| UserKnn.PredictOne | src/RecSys/Numerical/UserKNN.cs:56-99 | The item-loop body produces the specified outcome for (user, item): prediction, fallback flag and capped increments. |
| UserKnn.PredictUser | src/RecSys/Numerical/UserKNN.cs:41-102 | The user-loop body extends the loop invariant from the start of row u to the start of row u+1. It writes the outcome of every masked item of u and counts fallbacks and clamps. |
| UserKnn.PredictUsers | src/RecSys/Numerical/UserKNN.cs:41-103 | At the end of the outer loop, every masked position has been visited in row-major order, with the counters matching the visited outcomes. |
| UserKnn.PredictRatings | src/RecSys/Numerical/UserKNN.cs:26-107 | The result has the mask's dimensions. It is written at exactly the mask's stored positions, each with the specified prediction. globalMeanCount is the number of fallbacks and at most the mask size. cappedCount counts the clamps. Given MinRating ≤ MaxRating, cappedCount is at most the mask size and every prediction lies in the range. |
| UserKnn.Conclude | src/RecSys/Numerical/UserKNN.cs:31-106 | The finished loops have written exactly the mask positions, and the counters equal the sizes of the sets of fallback and clamped positions. |
| UserKnn.RatersRated | src/RecSys/Numerical/UserKNN.cs:64-76 | The contributing neighbours are top-K neighbours with a non-zero training rating of the item. |
| UserKnn.OnlyRatersContribute | src/RecSys/Numerical/UserKNN.cs:64-76 | Both sums over all neighbours equal the sums over the contributing neighbours alone. |
| UserKnn.UnratedSumsVanish | src/RecSys/Numerical/UserKNN.cs:64-77 | When no neighbour rated the item, both sums are zero. |
| UserKnn.ColdItem | src/RecSys/Numerical/UserKNN.cs:78-87 | A cold item takes the global mean, clamped, and counts as a fallback. A global mean already in range is written unchanged, with no clamp. |
| UserKnn.PositiveWeightsAverage | src/RecSys/Numerical/UserKNN.cs:64-77 | With positive similarities, the weight sum is non-negative. The weighted sum lies between lo and hi times the weight sum when every rater's mean-centred rating lies in [lo, hi]. |
| UserKnn.PositiveWeightsStayInRange | src/RecSys/Numerical/UserKNN.cs:79-82 | With positive similarities and a non-zero weighted sum, the estimate is finite and lies within the user's mean plus [lo, hi]. |
| UserKnn.SignedWeightsCancel | src/RecSys/Numerical/UserKNN.cs:74-99 | Because weightSum is a signed sum, it can be zero while weightedSum is not. The division then overflows and the prediction is clamped to MaxRating. |
| UserKnn.RatedAtMeanLooksCold | src/RecSys/Numerical/UserKNN.cs:75-87 | A neighbour who rated the item exactly at their own mean makes the weighted sum zero, so a rated item falls back to the global mean. |
| UserKnn.WorkedExample | src/RecSys/Numerical/UserKNN.cs:62-99 | On a three-user example, the weighted sum is -0.6 over a weight sum of 1. The estimate is 0.4, and it is clamped to 1.0 with one clamp. |
| Records.ProjectPermutation | src/RecSys/Core/Utils.cs:99-110 | Reordering the lines reorders their user ids (or pairs) the same way: the projected multisets agree. |
| Records.PermutationKeepsCounts | src/RecSys/Core/Utils.cs:99-110 | After a shuffle, every user has as many lines as before, and no (user, item) pair repeats if none repeated before. |
| Records.NoRepeatedPairDistinct | src/RecSys/Core/Utils.cs:143 | A file without a repeated (user, item) pair has pairwise different pairs on its lines. |
| Indexing.FirstAppearance | src/RecSys/Core/Utils.cs:55-57 | The ids in first-appearance order are distinct and are exactly the ids that occur. |
| Indexing.Positions | src/RecSys/Core/Utils.cs:57 | A distinct sequence's index map is a bijection from its elements onto 0..n-1 that sends each element to its position. |
| Indexing.NewIdGetsNextIndex | src/RecSys/Core/Utils.cs:55-57 | An id first seen on line k gets the number of distinct ids before line k, which was the map's size at that moment. |
| Indexing.FirstAppearanceOrder | src/RecSys/Core/Utils.cs:55-57 | An id first seen earlier gets a smaller index than an id first seen later. |
| Indexing.AddIfNew | src/RecSys/Core/Utils.cs:55-57 | Numbering one more id keeps the map equal to the first-appearance numbering of the ids read so far. |
| Indexing.CountRating | src/RecSys/Core/Utils.cs:58-60 | Counting one more rating keeps every count equal to that user's number of lines read so far. |
| Indexing.ReadLine | src/RecSys/Core/Utils.cs:52-65 | One line of pass 1 keeps the three dictionaries equal to the numbering and the counts of the lines read. |
| Indexing.DiscoverStructure | src/RecSys/Core/Utils.cs:50-66 | After pass 1, users and items are numbered 0..n-1 in first-appearance order. Every numbered user has a rating count equal to their number of lines. |
| Indexing.Without | src/RecSys/Core/Utils.cs:68-88 | Removing a set keeps exactly the elements outside it, and a distinct sequence stays distinct. |
| Indexing.PositionsCut | src/RecSys/Core/Utils.cs:75-85 | Removing the element at r and decrementing the indices above r gives the index map of the sequence with that element cut out. |
| Indexing.ShiftDown | src/RecSys/Core/Utils.cs:79-85 | The inner loop decrements exactly the indices above the removed user's and leaves the others unchanged, whatever the key order. |
| Indexing.RemoveUser | src/RecSys/Core/Utils.cs:75-86 | Removing one user and shifting turns the numbering of the remaining users into the numbering without that user, one shorter. |
| Indexing.VisitUser | src/RecSys/Core/Utils.cs:71-87 | A user is removed, and counted, exactly when their rating count is below the minimum; otherwise nothing changes. |
| Indexing.VisitAll | src/RecSys/Core/Utils.cs:71-88 | After visiting every key of the enumeration, the removed users are exactly the visited users below the minimum, the index map is the numbering of the remaining users in their original order, and the removal count is the number removed. |
| Indexing.RemoveSparseUsers | src/RecSys/Core/Utils.cs:68-88 | After pass 2, in any enumeration order of the keys, the index map is the numbering of the kept users in their original order. The remaining users are exactly those with at least minCountOfRatings ratings, and their indices are 0..Count-1. countOfRemovedUsers equals the number of users removed, and it plus the kept count is the original count. |
| Indexing.WithoutKeepsOrder | src/RecSys/Core/Utils.cs:68-88 | Removal keeps relative order: two kept users compare the same way after pruning as before. |
| Indexing.WithoutPrecedes | src/RecSys/Core/Utils.cs:68-88 | Removing users other than x and y leaves x before y exactly when it was before y. |
| ExtensionsToDotNet.Swap | src/RecSys/Core/Utils.cs:312-314 | Exchanging two positions swaps their elements, keeps every other element, and keeps the multiset. |
| ExtensionsToDotNet.Shuffled | src/RecSys/Core/Utils.cs:305-316 | The shuffled order under any valid draws has the same length and multiset as the input. |
| ExtensionsToDotNet.Exchange | src/RecSys/Core/Utils.cs:312-314 | The array after the exchange is the input with positions k and n swapped. |
| ExtensionsToDotNet.Shuffle | src/RecSys/Core/Utils.cs:305-316 | The loop leaves the array in the shuffled order determined by the draws, which is a permutation of the input. |
| ExtensionsToDotNet.ShuffleStep | src/RecSys/Core/Utils.cs:310-314 | One iteration (draw k ≤ n, exchange k and n, step past n) preserves the shuffled order of the whole array. |
| ExtensionsToDotNet.ReachingChoices | src/RecSys/Core/Utils.cs:305-316 | For every permutation of the input there are valid draws that lead the shuffle to it. |
| Utils.Quota | src/RecSys/Core/Utils.cs:123-134 | A kept user's training quota is at least one (the first line always goes to train) and equals countOfRatingsForTrain when that is positive. |
| Utils.Part | src/RecSys/Core/Utils.cs:113-141 | The lines routed to one destination are no more than the lines read. |
| Utils.PartPrefix | src/RecSys/Core/Utils.cs:113-141 | Routing keeps the order of the lines read: the lines routed from a prefix of the input are a prefix of the lines routed from all of it. |
| Utils.RouteLine | src/RecSys/Core/Utils.cs:115-139 | One line of pass 3 writes the line into train or test exactly as its route says, or writes nothing for a removed user, and keeps the train counts equal to the number of the user's lines routed to train. |
| Utils.FillTrainTest | src/RecSys/Core/Utils.cs:96-141 | After pass 3, the training and test matrices hold exactly the lines routed to each, at their user's and item's indices, a later line overwriting an earlier one. |
| Utils.RoutedLine | src/RecSys/Core/Utils.cs:119-139 | One more line changes only the matrix it is routed to, at its cell. |
| Utils.PartCounts | src/RecSys/Core/Utils.cs:119-139 | For a kept user with n lines, train gets min(n, quota) of them and test gets the rest. A removed user's lines go to neither and are all dropped. |
| Utils.PartsPartition | src/RecSys/Core/Utils.cs:113-141 | Train, test and dropped lines together are exactly the lines read, as a multiset. |
| Utils.ScatterSize | src/RecSys/Core/Utils.cs:126-138 | Writing lines with no repeated (user, item) pair under injective numberings stores one entry per line. |
| Utils.ScatterValid | src/RecSys/Core/Utils.cs:92-93 | Lines written through numberings onto 0..n-1 land inside the matrix dimensions. |
| Utils.TrainSize | src/RecSys/Core/Utils.cs:123-134 | When every kept user has at least quota lines, train receives exactly (kept users) × quota lines. |
| Utils.KeptUsers | src/RecSys/Core/Utils.cs:68-88 | The kept users are distinct, and they are exactly the users with at least minCountOfRatings lines. |
| Utils.LinesRead | src/RecSys/Core/Utils.cs:99-110 | The lines pass 3 reads, shuffled or not, are a permutation of the file's lines. |
| Utils.TrainHoldsQuotaPerUser | src/RecSys/Core/Utils.cs:143 | The asserted invariant holds when countOfRatingsForTrain ≥ 1, minCountOfRatings ≥ countOfRatingsForTrain and no (user, item) pair repeats among the lines routed to train: the training matrix stores (kept users) × countOfRatingsForTrain entries. |
| Utils.QuotaPerUserWithoutRepeats | src/RecSys/Core/Utils.cs:143 | The same invariant for a file in which no (user, item) pair repeats at all, since then none repeats among the training lines. |
| Utils.QuotaNeedsEnoughRatings | src/RecSys/Core/Utils.cs:143 | Without minCountOfRatings ≥ countOfRatingsForTrain the asserted invariant fails: one line, minimum 1, quota 2 gives one user and one training entry, not two. |
| Utils.TrainUserKept | src/RecSys/Core/Utils.cs:119 | Every training line belongs to a kept user. |
| Utils.SparseAgrees | src/RecSys/Core/Utils.cs:68-73 | The users pass 2 finds below the minimum, from the pass-1 counts, are exactly the users of the file with fewer than minCountOfRatings lines. |
| Utils.NumberUsersAndItems | src/RecSys/Core/Utils.cs:45-88 | Passes 1 and 2 yield the numbering of the kept users by first appearance and of all items by first appearance. |
| Utils.ReadOrder | src/RecSys/Core/Utils.cs:99-110 | The order pass 3 reads is the file order, or the file shuffled in place by Fisher–Yates with the given draws. |
| Utils.LoadMovieLensSplitByCount | src/RecSys/Core/Utils.cs:41-144 | Both matrices have dimensions (kept users) × (all items). They hold exactly the lines routed to train and to test from the lines read, and they are valid. When countOfRatingsForTrain ≥ 1, minCountOfRatings ≥ countOfRatingsForTrain and no (user, item) pair repeats among the lines routed to train, train's stored entries equal userCount × countOfRatingsForTrain. |
| Utils.NumberInOrder | src/RecSys/Core/Utils.cs:265-278 | The first loop of the obsolete loader numbers users and items 0..n-1 by first appearance. |
| Utils.NumberLine | src/RecSys/Core/Utils.cs:267-277 | One more line keeps both maps equal to the first-appearance numbering of the users and items read so far. |
| Utils.WriteLines | src/RecSys/Core/Utils.cs:280-289 | The second loop writes every line at its user's and item's indices, a later line overwriting an earlier one. |
| Utils.LoadMovieLens | src/RecSys/Core/Utils.cs:258-291 | The obsolete loader's matrix has dimensions (all users) × (all items) and holds every line at its first-appearance indices. It is valid, and it stores one entry per line when no pair repeats. |
| Utils.PadLeft | src/RecSys/Core/Utils.cs:200 | Right-aligning in a field pads with spaces on the left up to the width and never cuts the text. |
| Utils.CreateHeading | src/RecSys/Core/Utils.cs:196-203 | The heading is a 42-asterisk rule line, then the title right-aligned to 25 characters and a newline, then the rule line again. |

## Left out

- File I/O and parsing are not modelled: `File.ReadLines`, `File.ReadAllLines`, `Split`, `int.Parse` and `double.Parse`. The loaders take the parsed lines instead, and a malformed line is not modelled.
- Reading the file twice is modelled as reading the same line sequence in both passes.
- Shuffling the text lines is modelled as shuffling the parsed lines, which gives the same order.
- `System.Random` and the seed are not modelled; the draws of `rng.Next` are a parameter. Uniformity of the shuffle is not stated. All reachable orders are covered instead (`ReachingChoices`).
- `LoadMovieLensSplitByCount`: .NET enumerates a dictionary that has never had a removal in insertion order. The pruning loop takes that enumeration order as a parameter, and its result is proved not to depend on it. The top level passes first-appearance order.
- The MathNet matrix I/O and the random dense matrix are not modelled: `WriteMatrix`, `ReadDenseMatrix`, `ReadSparseMatrix` and `CreateRandomDenseMatrix`. They are wrappers over a library that is not part of this model.
- Console output is not modelled: `PrintValue`, `PrintHeading`, `PrintEpoch`, the `Console.WriteLine` calls in both files, the stopwatch timer (`StartTimer` and `StopTimer`) and `Pause`. These are output and clock operations with no computed result.
- `KNNCore.GetTopKNeighborsByUser` is not part of this model, nor are the `RatingMatrix` statistics (`GetGlobalMean`, `GetUserMeans`) and the similarity matrix. The neighbour lists, means and global mean are inputs; K only enters through the neighbour lists.
- `itemMeans` (src/RecSys/Numerical/UserKNN.cs:39) is computed and never used, so the model leaves it out.
- `UserKnn.PredictRatings`: `double` arithmetic is modelled as exact `real` arithmetic, so rounding and NaN are not modelled. A NaN would come from a user's mean with no ratings. The infinity from a zero weight sum is modelled explicitly.
- `UserKnn.PredictRatings`: `MinRating` and `MaxRating` come from a configuration that is not part of this model, so they are inputs.
- `Utils.LoadMovieLens`: the `Obsolete` attribute has no counterpart.
- `Utils.PadLeft`: the width counts Dafny characters, while .NET's `{0,25}` counts UTF-16 code units. A title with characters outside the Basic Multilingual Plane gets one more space of padding per such character in the model than in .NET, as long as the field is not already full.
