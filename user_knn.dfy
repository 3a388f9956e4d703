/** User-based KNN prediction after Resnick et al. (GroupLens, 1994): every masked
    (user, item) position is predicted from the mean-centred ratings that the user's
    top-K neighbours gave the item, weighted by similarity, with the global mean as
    the fallback for cold items and the result clamped to the rating range. */
module UserKnn {
  import opened Ratings

  /** The top-K neighbours of one user as (neighbour index, similarity) pairs, in the
      order the neighbour dictionary enumerates them. */
  type Neighbours = seq<(int, real)>

  /** The values a prediction can take before clamping. A double division by a zero
      weight sum gives an infinity of the numerator's sign. */
  datatype Extended = Finite(value: real) | PosInf | NegInf

  /** A clamped prediction and how many times the capped counter was incremented. */
  datatype Capped = Capped(value: real, count: nat)

  /** What one masked position contributes: the written value, whether the global
      mean was used, and the increments of the capped counter. */
  datatype Outcome = Outcome(value: real, fallback: bool, capped: nat)

  /** Everything the prediction reads besides the mask: the training matrix, the
      statistics derived from it, the top-K neighbourhood of every user, and the
      configured rating range. */
  datatype Inputs = Inputs(train: RatingMatrix, userMeans: seq<real>, globalMean: real,
                           topK: seq<Neighbours>, minRating: real, maxRating: real)
  {
    predicate Valid() {
      train.Valid() && |userMeans| == train.userCount && |topK| == train.userCount &&
      forall u, j :: 0 <= u < |topK| && 0 <= j < |topK[u]| ==> 0 <= topK[u][j].0 < train.userCount
    }
  }

  /** The caller's obligation: well-formed inputs and a mask of the training matrix's
      dimensions. */
  predicate Compatible(inp: Inputs, mask: RatingMatrix) {
    inp.Valid() && mask.Valid() &&
    mask.userCount == inp.train.userCount && mask.itemCount == inp.train.itemCount
  }

  predicate NeighboursIn(neighbours: Neighbours, n: int) {
    forall j :: 0 <= j < |neighbours| ==> 0 <= neighbours[j].0 < n
  }

  /** A neighbour contributes to an item only when its training rating is non-zero. */
  predicate Rated(train: RatingMatrix, n: int, item: int) {
    train.Get(n, item) != 0.0
  }

  /** The normalizer: the signed sum of the similarities of the neighbours who rated
      the item (no absolute value is taken). */
  function WeightSum(train: RatingMatrix, neighbours: Neighbours, item: int): real
    decreases |neighbours|
  {
    if neighbours == [] then 0.0
    else
      var last := neighbours[|neighbours| - 1];
      WeightSum(train, neighbours[..|neighbours| - 1], item) +
        (if Rated(train, last.0, item) then last.1 else 0.0)
  }

  /** The similarity-weighted sum of the neighbours' mean-centred ratings of the item. */
  function WeightedSum(train: RatingMatrix, userMeans: seq<real>, neighbours: Neighbours, item: int): real
    requires NeighboursIn(neighbours, |userMeans|)
    decreases |neighbours|
  {
    if neighbours == [] then 0.0
    else
      var last := neighbours[|neighbours| - 1];
      WeightedSum(train, userMeans, neighbours[..|neighbours| - 1], item) +
        (if Rated(train, last.0, item) then (train.Get(last.0, item) - userMeans[last.0]) * last.1 else 0.0)
  }

  /** The neighbours who rated the item, in neighbour order. */
  function Raters(train: RatingMatrix, neighbours: Neighbours, item: int): Neighbours
    decreases |neighbours|
  {
    if neighbours == [] then []
    else
      var last := neighbours[|neighbours| - 1];
      Raters(train, neighbours[..|neighbours| - 1], item) +
        (if Rated(train, last.0, item) then [last] else [])
  }

  /** The prediction before clamping. */
  function Estimate(userMean: real, globalMean: real, weightedSum: real, weightSum: real): Extended {
    if weightedSum != 0.0 then
      if weightSum != 0.0 then Finite(userMean + weightedSum / weightSum)
      else if weightedSum > 0.0 then PosInf
      else NegInf
    else Finite(globalMean)
  }

  predicate AboveMax(p: Extended, maxRating: real) {
    match p
    case Finite(v) => v > maxRating
    case PosInf => true
    case NegInf => false
  }

  predicate BelowMin(p: Extended, minRating: real) {
    match p
    case Finite(v) => v < minRating
    case PosInf => false
    case NegInf => true
  }

  predicate Within(p: Extended, minRating: real, maxRating: real) {
    p.Finite? && minRating <= p.value <= maxRating
  }

  /** Clamping as coded: first against the maximum, then against the minimum, one
      counter increment per correction. */
  function Cap(p: Extended, minRating: real, maxRating: real): (c: Capped)
    ensures minRating <= maxRating ==> minRating <= c.value <= maxRating && c.count <= 1
    ensures minRating <= maxRating ==> (c.count == 0 <==> Within(p, minRating, maxRating))
    ensures Within(p, minRating, maxRating) ==> c == Capped(p.value, 0)
    ensures c.count <= 2
  {
    var q := if AboveMax(p, maxRating) then Finite(maxRating) else p;
    var n := if AboveMax(p, maxRating) then 1 else 0;
    if BelowMin(q, minRating) then Capped(minRating, n + 1) else Capped(q.value, n)
  }

  /** The outcome of predicting item i for user u. */
  function PredictEntry(inp: Inputs, u: int, i: int): Outcome
    requires inp.Valid() && 0 <= u < inp.train.userCount
  {
    var neighbours := inp.topK[u];
    var weightedSum := WeightedSum(inp.train, inp.userMeans, neighbours, i);
    var weightSum := WeightSum(inp.train, neighbours, i);
    var c := Cap(Estimate(inp.userMeans[u], inp.globalMean, weightedSum, weightSum), inp.minRating, inp.maxRating);
    Outcome(c.value, weightedSum == 0.0, c.count)
  }

  /** The outcome of every masked position. */
  function Outcomes(inp: Inputs, mask: RatingMatrix): map<(int, int), Outcome>
    requires Compatible(inp, mask)
  {
    map p | p in mask.entries :: PredictEntry(inp, p.0, p.1)
  }

  /** The kinds of masked positions the method counts. */
  datatype Tally = Fallback | CappedOnce | CappedTwice

  predicate Counts(o: Outcome, kind: Tally) {
    match kind
    case Fallback => o.fallback
    case CappedOnce => o.capped >= 1
    case CappedTwice => o.capped >= 2
  }

  /** The positions whose outcome is of the given kind. */
  function Tallied(outcomes: map<(int, int), Outcome>, kind: Tally): set<(int, int)> {
    set p | p in outcomes && Counts(outcomes[p], kind)
  }

  /** Position p comes before (u, i) in the row-major order of the two loops. */
  predicate Before(p: (int, int), u: int, i: int) {
    p.0 < u || (p.0 == u && p.1 < i)
  }

  /** The outcomes of the positions before (u, i). */
  function Prefix(outcomes: map<(int, int), Outcome>, u: int, i: int): map<(int, int), Outcome> {
    map p | p in outcomes && Before(p, u, i) :: outcomes[p]
  }

  /** The predicted values of a set of outcomes. */
  function Values(outcomes: map<(int, int), Outcome>): map<(int, int), real> {
    map p | p in outcomes :: outcomes[p].value
  }

  /** The state of the loops of PredictRatings when they reach (u, i). */
  predicate Progress(outcomes: map<(int, int), Outcome>, entries: map<(int, int), real>,
                     cappedCount: nat, globalMeanCount: nat, u: int, i: int)
  {
    var done := Prefix(outcomes, u, i);
    entries == Values(done) &&
    globalMeanCount == |Tallied(done, Fallback)| &&
    cappedCount == |Tallied(done, CappedOnce)| + |Tallied(done, CappedTwice)|
  }

  lemma PrefixStep(outcomes: map<(int, int), Outcome>, u: int, i: int)
    ensures (u, i) !in Prefix(outcomes, u, i)
    ensures Prefix(outcomes, u, i + 1) ==
              if (u, i) in outcomes then Prefix(outcomes, u, i)[(u, i) := outcomes[(u, i)]]
              else Prefix(outcomes, u, i)
  {
    var before, after := Prefix(outcomes, u, i), Prefix(outcomes, u, i + 1);
    if (u, i) in outcomes {
      assert after.Keys == before[(u, i) := outcomes[(u, i)]].Keys;
    } else {
      assert after.Keys == before.Keys;
    }
  }

  lemma TalliedInsert(done: map<(int, int), Outcome>, p: (int, int), o: Outcome, kind: Tally)
    requires p !in done
    ensures |Tallied(done[p := o], kind)| == |Tallied(done, kind)| + (if Counts(o, kind) then 1 else 0)
  {
    TalliedUpdate(done, p, o, kind);
  }

  lemma TalliedUpdate(done: map<(int, int), Outcome>, p: (int, int), o: Outcome, kind: Tally)
    requires p !in done
    ensures Tallied(done[p := o], kind) == Tallied(done, kind) + (if Counts(o, kind) then {p} else {})
    ensures p !in Tallied(done, kind)
  {
    var after, before := Tallied(done[p := o], kind), Tallied(done, kind);
    forall q
      ensures q in after <==> q in before || (q == p && Counts(o, kind))
    {
      if q != p {
        assert q in done[p := o] <==> q in done;
      }
    }
  }

  lemma ValuesInsert(done: map<(int, int), Outcome>, p: (int, int), o: Outcome)
    ensures Values(done[p := o]) == Values(done)[p := o.value]
  {
    assert Values(done[p := o]).Keys == Values(done)[p := o.value].Keys;
  }

  /** One turn of the item loop keeps Progress: a masked position adds its
      prediction and its counter increments, an unmasked one changes nothing. */
  lemma ProgressStep(outcomes: map<(int, int), Outcome>, entries: map<(int, int), real>,
                     cappedCount: nat, globalMeanCount: nat,
                     entries': map<(int, int), real>, cappedCount': nat, globalMeanCount': nat, u: int, i: int)
    requires Progress(outcomes, entries, cappedCount, globalMeanCount, u, i)
    requires (u, i) !in outcomes ==>
               entries' == entries && cappedCount' == cappedCount && globalMeanCount' == globalMeanCount
    requires (u, i) in outcomes ==>
               var o := outcomes[(u, i)];
               o.capped <= 2 &&
               entries' == entries[(u, i) := o.value] &&
               cappedCount' == cappedCount + o.capped &&
               globalMeanCount' == globalMeanCount + (if o.fallback then 1 else 0)
    ensures Progress(outcomes, entries', cappedCount', globalMeanCount', u, i + 1)
  {
    PrefixStep(outcomes, u, i);
    if (u, i) in outcomes {
      var done, o := Prefix(outcomes, u, i), outcomes[(u, i)];
      ValuesInsert(done, (u, i), o);
      TalliedInsert(done, (u, i), o, Fallback);
      TalliedInsert(done, (u, i), o, CappedOnce);
      TalliedInsert(done, (u, i), o, CappedTwice);
    }
  }

  /** Before the first user nothing is written and nothing is counted. */
  lemma ProgressStart(inp: Inputs, mask: RatingMatrix)
    requires Compatible(inp, mask)
    ensures Progress(Outcomes(inp, mask), map[], 0, 0, 0, 0)
  {
    var done := Prefix(Outcomes(inp, mask), 0, 0);
    assert done.Keys == {};
    assert Values(done).Keys == {};
    assert Tallied(done, Fallback) == {};
    assert Tallied(done, CappedOnce) == {};
    assert Tallied(done, CappedTwice) == {};
  }

  lemma RowEnd(outcomes: map<(int, int), Outcome>, u: int, itemCount: int)
    requires forall p :: p in outcomes ==> 0 <= p.1 < itemCount
    ensures Prefix(outcomes, u, itemCount) == Prefix(outcomes, u + 1, 0)
  {
    assert Prefix(outcomes, u, itemCount).Keys == Prefix(outcomes, u + 1, 0).Keys;
  }

  lemma Complete(outcomes: map<(int, int), Outcome>, userCount: int)
    requires forall p :: p in outcomes ==> p.0 < userCount
    ensures Prefix(outcomes, userCount, 0) == outcomes
  {
    assert Prefix(outcomes, userCount, 0).Keys == outcomes.Keys;
  }

  lemma SubsetSize<T>(a: set<T>, b: set<T>)
    requires a <= b
    ensures |a| <= |b|
  {
    assert b == a + (b - a);
  }

  /** What the finished loops establish about the written entries and the counters. */
  lemma Conclude(inp: Inputs, mask: RatingMatrix, entries: map<(int, int), real>, cappedCount: nat, globalMeanCount: nat)
    requires Compatible(inp, mask)
    requires Progress(Outcomes(inp, mask), entries, cappedCount, globalMeanCount, mask.userCount, 0)
    ensures entries.Keys == mask.entries.Keys
    ensures forall p :: p in entries ==> entries[p] == PredictEntry(inp, p.0, p.1).value
    ensures globalMeanCount == |Tallied(Outcomes(inp, mask), Fallback)| <= |mask.entries|
    ensures cappedCount == |Tallied(Outcomes(inp, mask), CappedOnce)| + |Tallied(Outcomes(inp, mask), CappedTwice)|
    ensures inp.minRating <= inp.maxRating ==>
              cappedCount == |Tallied(Outcomes(inp, mask), CappedOnce)| <= |mask.entries| &&
              forall p :: p in entries ==> inp.minRating <= entries[p] <= inp.maxRating
  {
    var outcomes := Outcomes(inp, mask);
    Complete(outcomes, mask.userCount);
    assert entries == Values(outcomes);
    WrittenValues(inp, mask);
    SubsetSize(Tallied(outcomes, Fallback), mask.entries.Keys);
    SubsetSize(Tallied(outcomes, CappedOnce), mask.entries.Keys);
    if inp.minRating <= inp.maxRating {
      CappedOnceAtMost(inp, mask);
    }
  }

  /** The values of all outcomes: one per masked position, the predicted value, in the
      rating range when the range is proper. */
  lemma WrittenValues(inp: Inputs, mask: RatingMatrix)
    requires Compatible(inp, mask)
    ensures Values(Outcomes(inp, mask)).Keys == mask.entries.Keys
    ensures forall p :: p in Values(Outcomes(inp, mask)) ==>
              Values(Outcomes(inp, mask))[p] == PredictEntry(inp, p.0, p.1).value
    ensures inp.minRating <= inp.maxRating ==>
              forall p :: p in Values(Outcomes(inp, mask)) ==>
                inp.minRating <= Values(Outcomes(inp, mask))[p] <= inp.maxRating
  {
  }

  /** With a proper rating range no masked prediction is capped twice. */
  lemma CappedOnceAtMost(inp: Inputs, mask: RatingMatrix)
    requires Compatible(inp, mask) && inp.minRating <= inp.maxRating
    ensures Tallied(Outcomes(inp, mask), CappedTwice) == {}
  {
    var outcomes := Outcomes(inp, mask);
    forall p | p in outcomes
      ensures outcomes[p].capped <= 1
    {
      assert outcomes[p] == PredictEntry(inp, p.0, p.1);
    }
  }

  /** The raters are neighbours who rated the item. */
  lemma {:induction false} RatersRated(train: RatingMatrix, neighbours: Neighbours, item: int)
    ensures forall r :: r in Raters(train, neighbours, item) ==> r in neighbours && Rated(train, r.0, item)
    decreases |neighbours|
  {
    if neighbours != [] {
      var init := neighbours[..|neighbours| - 1];
      RatersRated(train, init, item);
      forall r | r in init ensures r in neighbours {
        var k :| 0 <= k < |init| && init[k] == r;
        assert neighbours[k] == r;
      }
    }
  }

  /** Both sums of a sequence extended by one neighbour. */
  lemma SumsAppend(train: RatingMatrix, userMeans: seq<real>, neighbours: Neighbours, last: (int, real), item: int)
    requires NeighboursIn(neighbours + [last], |userMeans|)
    ensures WeightSum(train, neighbours + [last], item) ==
              WeightSum(train, neighbours, item) + (if Rated(train, last.0, item) then last.1 else 0.0)
    ensures NeighboursIn(neighbours, |userMeans|)
    ensures WeightedSum(train, userMeans, neighbours + [last], item) ==
              WeightedSum(train, userMeans, neighbours, item) +
              (if Rated(train, last.0, item) then (train.Get(last.0, item) - userMeans[last.0]) * last.1 else 0.0)
  {
    assert (neighbours + [last])[..|neighbours|] == neighbours;
  }

  /** Summing over the raters alone gives the same sums as the loop over all
      neighbours: an unrated neighbour contributes nothing. */
  lemma {:induction false} OnlyRatersContribute(train: RatingMatrix, userMeans: seq<real>, neighbours: Neighbours, item: int)
    requires NeighboursIn(neighbours, |userMeans|)
    ensures NeighboursIn(Raters(train, neighbours, item), |userMeans|)
    ensures WeightSum(train, Raters(train, neighbours, item), item) == WeightSum(train, neighbours, item)
    ensures WeightedSum(train, userMeans, Raters(train, neighbours, item), item) ==
              WeightedSum(train, userMeans, neighbours, item)
    decreases |neighbours|
  {
    RatersRated(train, neighbours, item);
    if neighbours != [] {
      var init, last := neighbours[..|neighbours| - 1], neighbours[|neighbours| - 1];
      OnlyRatersContribute(train, userMeans, init, item);
      var rs := Raters(train, init, item);
      if Rated(train, last.0, item) {
        assert Raters(train, neighbours, item) == rs + [last];
        SumsAppend(train, userMeans, rs, last, item);
      } else {
        assert Raters(train, neighbours, item) == rs;
      }
    }
  }

  /** No neighbour rated the item: both sums are zero. */
  lemma {:induction false} UnratedSumsVanish(train: RatingMatrix, userMeans: seq<real>, neighbours: Neighbours, item: int)
    requires NeighboursIn(neighbours, |userMeans|)
    requires forall j :: 0 <= j < |neighbours| ==> !Rated(train, neighbours[j].0, item)
    ensures WeightSum(train, neighbours, item) == 0.0
    ensures WeightedSum(train, userMeans, neighbours, item) == 0.0
    decreases |neighbours|
  {
    if neighbours != [] {
      UnratedSumsVanish(train, userMeans, neighbours[..|neighbours| - 1], item);
    }
  }

  /** Cold item: when none of the user's neighbours rated the item, the global mean is
      used (and counted), clamped like any other estimate. */
  lemma ColdItem(inp: Inputs, u: int, i: int)
    requires inp.Valid() && 0 <= u < inp.train.userCount
    requires forall j :: 0 <= j < |inp.topK[u]| ==> !Rated(inp.train, inp.topK[u][j].0, i)
    ensures PredictEntry(inp, u, i).fallback
    ensures PredictEntry(inp, u, i).value == Cap(Finite(inp.globalMean), inp.minRating, inp.maxRating).value
    ensures inp.minRating <= inp.globalMean <= inp.maxRating ==>
              PredictEntry(inp, u, i) == Outcome(inp.globalMean, true, 0)
  {
    UnratedSumsVanish(inp.train, inp.userMeans, inp.topK[u], i);
  }

  /** With positive similarities the estimate is a weighted average: if every rater's
      mean-centred rating lies in [lo, hi], the weighted sum lies between lo and hi
      times the (non-negative) weight sum. */
  lemma {:induction false} PositiveWeightsAverage(train: RatingMatrix, userMeans: seq<real>, neighbours: Neighbours,
                                                  item: int, lo: real, hi: real)
    requires NeighboursIn(neighbours, |userMeans|)
    requires forall j :: 0 <= j < |neighbours| && Rated(train, neighbours[j].0, item) ==>
               neighbours[j].1 > 0.0 && lo <= train.Get(neighbours[j].0, item) - userMeans[neighbours[j].0] <= hi
    ensures WeightSum(train, neighbours, item) >= 0.0
    ensures lo * WeightSum(train, neighbours, item) <= WeightedSum(train, userMeans, neighbours, item)
              <= hi * WeightSum(train, neighbours, item)
    decreases |neighbours|
  {
    if neighbours != [] {
      var init := neighbours[..|neighbours| - 1];
      PositiveWeightsAverage(train, userMeans, init, item, lo, hi);
      PositiveWeightsStep(train, userMeans, neighbours, item, lo, hi);
    }
  }

  /** The induction step of PositiveWeightsAverage: the bounds carry over from all
      neighbours but the last to all neighbours. */
  lemma PositiveWeightsStep(train: RatingMatrix, userMeans: seq<real>, neighbours: Neighbours,
                            item: int, lo: real, hi: real)
    requires NeighboursIn(neighbours, |userMeans|) && neighbours != []
    requires var last := neighbours[|neighbours| - 1];
             Rated(train, last.0, item) ==>
               last.1 > 0.0 && lo <= train.Get(last.0, item) - userMeans[last.0] <= hi
    requires var init := neighbours[..|neighbours| - 1];
             var ws, wd := WeightSum(train, init, item), WeightedSum(train, userMeans, init, item);
             ws >= 0.0 && lo * ws <= wd <= hi * ws
    ensures var total, weighted := WeightSum(train, neighbours, item), WeightedSum(train, userMeans, neighbours, item);
            total >= 0.0 && lo * total <= weighted <= hi * total
  {
    var init := neighbours[..|neighbours| - 1];
    var w, d := LastTerm(train, userMeans, neighbours, item);
    StepBounds(lo, hi, WeightSum(train, init, item), WeightedSum(train, userMeans, init, item), w, d,
               WeightSum(train, neighbours, item), WeightedSum(train, userMeans, neighbours, item));
  }

  /** The last neighbour's weight w and mean-centred rating d, both zero when the
      neighbour did not rate the item, and how they extend the two sums. */
  lemma LastTerm(train: RatingMatrix, userMeans: seq<real>, neighbours: Neighbours, item: int)
    returns (w: real, d: real)
    requires NeighboursIn(neighbours, |userMeans|) && neighbours != []
    ensures var last := neighbours[|neighbours| - 1];
            if Rated(train, last.0, item) then w == last.1 && d == train.Get(last.0, item) - userMeans[last.0]
            else w == 0.0 && d == 0.0
    ensures WeightSum(train, neighbours, item) == WeightSum(train, neighbours[..|neighbours| - 1], item) + w
    ensures WeightedSum(train, userMeans, neighbours, item) ==
              WeightedSum(train, userMeans, neighbours[..|neighbours| - 1], item) + d * w
  {
    var last := neighbours[|neighbours| - 1];
    if Rated(train, last.0, item) {
      w, d := last.1, train.Get(last.0, item) - userMeans[last.0];
    } else {
      w, d := 0.0, 0.0;
    }
  }

  /** The bounds of the weighted sum survive one more term that is either zero or
      positively weighted. */
  lemma StepBounds(lo: real, hi: real, ws: real, wd: real, w: real, d: real, total: real, weighted: real)
    requires lo * ws <= wd <= hi * ws && w >= 0.0 && (w > 0.0 ==> lo <= d <= hi) && (w == 0.0 ==> d == 0.0)
    requires total == ws + w && weighted == wd + d * w
    ensures lo * total <= weighted <= hi * total
  {
    if w > 0.0 {
      ScaledBounds(lo, d, hi, w);
    }
    Distribute(lo, ws, w);
    Distribute(hi, ws, w);
  }

  lemma ScaledBounds(lo: real, d: real, hi: real, w: real)
    requires w > 0.0 && lo <= d <= hi
    ensures lo * w <= d * w <= hi * w
  {
  }

  lemma Distribute(x: real, a: real, b: real)
    ensures x * (a + b) == x * a + x * b
  {
  }

  /** A zero weight sum squeezes the weighted sum to zero. */
  lemma SqueezedByZero(lo: real, hi: real, ws: real, wd: real)
    requires lo * ws <= wd <= hi * ws
    ensures ws == 0.0 ==> wd == 0.0
  {
    if ws == 0.0 {
      assert lo * ws == 0.0 && hi * ws == 0.0;
    }
  }

  lemma QuotientBounds(lo: real, hi: real, ws: real, wd: real)
    requires ws > 0.0 && lo * ws <= wd <= hi * ws
    ensures lo <= wd / ws <= hi
  {
  }

  /** Resnick's estimate with positive similarities stays within the user's mean plus
      the range of the raters' mean-centred ratings. */
  lemma PositiveWeightsStayInRange(inp: Inputs, u: int, i: int, lo: real, hi: real)
    requires inp.Valid() && 0 <= u < inp.train.userCount
    requires forall j :: 0 <= j < |inp.topK[u]| && Rated(inp.train, inp.topK[u][j].0, i) ==>
               inp.topK[u][j].1 > 0.0 &&
               lo <= inp.train.Get(inp.topK[u][j].0, i) - inp.userMeans[inp.topK[u][j].0] <= hi
    ensures var weightedSum := WeightedSum(inp.train, inp.userMeans, inp.topK[u], i);
            var e := Estimate(inp.userMeans[u], inp.globalMean, weightedSum, WeightSum(inp.train, inp.topK[u], i));
            weightedSum != 0.0 ==> e.Finite? && inp.userMeans[u] + lo <= e.value <= inp.userMeans[u] + hi
  {
    var ws := WeightSum(inp.train, inp.topK[u], i);
    var wd := WeightedSum(inp.train, inp.userMeans, inp.topK[u], i);
    PositiveWeightsAverage(inp.train, inp.userMeans, inp.topK[u], i, lo, hi);
    SqueezedByZero(lo, hi, ws, wd);
    if wd != 0.0 {
      QuotientBounds(lo, hi, ws, wd);
    }
  }

  /** The target user 0 of a three-user, one-item table whose two neighbours rated the
      item one point above and one point below their means, with similarities 1 and -1. */
  function SignedInputs(): Inputs {
    Inputs(RatingMatrix(3, 1, map[(1, 0) := 4.0, (2, 0) := 2.0]), [3.0, 3.0, 3.0], 3.0,
           [[(1, 1.0), (2, -1.0)], [], []], 1.0, 5.0)
  }

  /** The signed normalizer can vanish while the weighted sum does not: the division
      yields an infinity and the prediction is clamped to the maximum rating, although
      one neighbour liked the item and the other, dissimilar, one did not. */
  lemma SignedWeightsCancel()
    ensures SignedInputs().Valid()
    ensures WeightSum(SignedInputs().train, SignedInputs().topK[0], 0) == 0.0
    ensures WeightedSum(SignedInputs().train, SignedInputs().userMeans, SignedInputs().topK[0], 0) == 2.0
    ensures PredictEntry(SignedInputs(), 0, 0) == Outcome(5.0, false, 1)
  {
    var inp := SignedInputs();
    var ns := inp.topK[0];
    assert ns[..1][..0] == [];
    assert ns[..|ns| - 1] == ns[..1];
  }

  /** A neighbour who rated the item exactly at their own mean makes the weighted sum
      zero, so the item is treated as cold although it was rated. */
  lemma RatedAtMeanLooksCold()
    ensures var inp := Inputs(RatingMatrix(2, 1, map[(1, 0) := 3.0]), [4.0, 3.0], 2.5,
                              [[(1, 0.9)], []], 1.0, 5.0);
            inp.Valid() && Rated(inp.train, 1, 0) && PredictEntry(inp, 0, 0) == Outcome(2.5, true, 0)
  {
    var inp := Inputs(RatingMatrix(2, 1, map[(1, 0) := 3.0]), [4.0, 3.0], 2.5, [[(1, 0.9)], []], 1.0, 5.0);
    assert inp.topK[0][..0] == [];
  }

  /** Three users and two items; user 2 is predicted on item 1 from neighbours 0
      (similarity 0.8) and 1 (similarity 0.2), who both rated item 1. */
  function ExampleInputs(): Inputs {
    Inputs(RatingMatrix(3, 2, map[(0, 0) := 4.0, (0, 1) := 2.0, (1, 0) := 3.0, (1, 1) := 5.0, (2, 0) := 1.0]),
           [3.0, 4.0, 1.0], 3.0, [[(1, 1.0)], [(0, 1.0)], [(0, 0.8), (1, 0.2)]], 1.0, 5.0)
  }

  /** Both neighbours count: 0.8 * (2 - 3) + 0.2 * (5 - 4) = -0.6 over a weight sum of 1,
      so the estimate is 1 - 0.6 = 0.4, which is clamped to the minimum rating 1. */
  lemma WorkedExample()
    ensures ExampleInputs().Valid()
    ensures WeightedSum(ExampleInputs().train, ExampleInputs().userMeans, ExampleInputs().topK[2], 1) == -0.6
    ensures WeightSum(ExampleInputs().train, ExampleInputs().topK[2], 1) == 1.0
    ensures Estimate(1.0, 3.0, -0.6, 1.0) == Finite(0.4)
    ensures PredictEntry(ExampleInputs(), 2, 1) == Outcome(1.0, false, 1)
  {
    var inp := ExampleInputs();
    var ns := inp.topK[2];
    assert ns[..1][..0] == [];
    assert ns[..|ns| - 1] == ns[..1];
  }

  /** The neighbour loop: accumulates the weighted sum and the weight sum of the
      neighbours who rated the item. */
  method SumNeighbours(train: RatingMatrix, userMeans: seq<real>, neighbours: Neighbours, item: int)
    returns (weightedSum: real, weightSum: real)
    requires NeighboursIn(neighbours, |userMeans|)
    ensures weightedSum == WeightedSum(train, userMeans, neighbours, item)
    ensures weightSum == WeightSum(train, neighbours, item)
  {
    weightedSum, weightSum := 0.0, 0.0;
    var j := 0;
    while j < |neighbours|
      invariant 0 <= j <= |neighbours|
      invariant weightSum == WeightSum(train, neighbours[..j], item)
      invariant weightedSum == WeightedSum(train, userMeans, neighbours[..j], item)
    {
      assert neighbours[..j + 1][..j] == neighbours[..j];
      var (neighbourIndex, similarity) := neighbours[j];
      var rating := train.Get(neighbourIndex, item);
      if rating != 0.0 {
        weightSum := weightSum + similarity;
        weightedSum := weightedSum + (rating - userMeans[neighbourIndex]) * similarity;
      }
      j := j + 1;
    }
    assert neighbours[..j] == neighbours;
  }

  /** The body of the item loop: the mean-centred estimate or the global-mean
      fallback, then the two clamping steps. */
  method PredictOne(inp: Inputs, u: int, i: int) returns (prediction: real, usedGlobalMean: bool, increments: nat)
    requires inp.Valid() && 0 <= u < inp.train.userCount
    ensures Outcome(prediction, usedGlobalMean, increments) == PredictEntry(inp, u, i)
  {
    var userMean := inp.userMeans[u];
    var weightedSum, weightSum := SumNeighbours(inp.train, inp.userMeans, inp.topK[u], i);
    var estimate: Extended;
    if weightedSum != 0.0 {
      if weightSum != 0.0 {
        estimate := Finite(userMean + weightedSum / weightSum);
      } else if weightedSum > 0.0 {
        estimate := PosInf;
      } else {
        estimate := NegInf;
      }
      usedGlobalMean := false;
    } else {
      estimate := Finite(inp.globalMean);
      usedGlobalMean := true;
    }
    increments := 0;
    if AboveMax(estimate, inp.maxRating) {
      increments := increments + 1;
      estimate := Finite(inp.maxRating);
    }
    if BelowMin(estimate, inp.minRating) {
      increments := increments + 1;
      estimate := Finite(inp.minRating);
    }
    prediction := estimate.value;
  }

  /** The body of the user loop: predicts the masked items of user u in item order. */
  method PredictUser(inp: Inputs, mask: RatingMatrix, u: int,
                     entries: map<(int, int), real>, cappedCount: nat, globalMeanCount: nat)
    returns (entries': map<(int, int), real>, cappedCount': nat, globalMeanCount': nat)
    requires Compatible(inp, mask) && 0 <= u < mask.userCount
    requires Progress(Outcomes(inp, mask), entries, cappedCount, globalMeanCount, u, 0)
    ensures Progress(Outcomes(inp, mask), entries', cappedCount', globalMeanCount', u + 1, 0)
  {
    ghost var outcomes := Outcomes(inp, mask);
    entries', cappedCount', globalMeanCount' := entries, cappedCount, globalMeanCount;
    var i := 0;
    while i < mask.itemCount
      invariant 0 <= i <= mask.itemCount
      invariant Progress(outcomes, entries', cappedCount', globalMeanCount', u, i)
    {
      ghost var was := (entries', cappedCount', globalMeanCount');
      if (u, i) in mask.entries {
        var prediction, usedGlobalMean, increments := PredictOne(inp, u, i);
        assert outcomes[(u, i)] == Outcome(prediction, usedGlobalMean, increments);
        if usedGlobalMean {
          globalMeanCount' := globalMeanCount' + 1;
        }
        cappedCount' := cappedCount' + increments;
        entries' := entries'[(u, i) := prediction];
      }
      ProgressStep(outcomes, was.0, was.1, was.2, entries', cappedCount', globalMeanCount', u, i);
      i := i + 1;
    }
    RowEnd(outcomes, u, mask.itemCount);
  }

  /** The user loop: predicts the masked items of every user in user order. */
  method PredictUsers(inp: Inputs, mask: RatingMatrix)
    returns (entries: map<(int, int), real>, cappedCount: nat, globalMeanCount: nat)
    requires Compatible(inp, mask)
    ensures Progress(Outcomes(inp, mask), entries, cappedCount, globalMeanCount, mask.userCount, 0)
  {
    entries, cappedCount, globalMeanCount := map[], 0, 0;
    ProgressStart(inp, mask);
    var u := 0;
    while u < mask.userCount
      invariant 0 <= u <= mask.userCount
      invariant Progress(Outcomes(inp, mask), entries, cappedCount, globalMeanCount, u, 0)
    {
      entries, cappedCount, globalMeanCount := PredictUser(inp, mask, u, entries, cappedCount, globalMeanCount);
      u := u + 1;
    }
    assert u == mask.userCount;
  }

  /** Predicts every position stored in the mask and reports how many predictions
      were capped and how many fell back to the global mean. */
  method PredictRatings(inp: Inputs, mask: RatingMatrix)
    returns (predicted: RatingMatrix, cappedCount: nat, globalMeanCount: nat)
    requires Compatible(inp, mask)
    ensures predicted.userCount == mask.userCount && predicted.itemCount == mask.itemCount
    ensures predicted.entries.Keys == mask.entries.Keys
    ensures forall p :: p in predicted.entries ==> predicted.entries[p] == PredictEntry(inp, p.0, p.1).value
    ensures globalMeanCount == |Tallied(Outcomes(inp, mask), Fallback)| <= |mask.entries|
    ensures cappedCount == |Tallied(Outcomes(inp, mask), CappedOnce)| + |Tallied(Outcomes(inp, mask), CappedTwice)|
    ensures inp.minRating <= inp.maxRating ==>
              cappedCount == |Tallied(Outcomes(inp, mask), CappedOnce)| <= |mask.entries| &&
              forall p :: p in predicted.entries ==> inp.minRating <= predicted.entries[p] <= inp.maxRating
  {
    var entries;
    entries, cappedCount, globalMeanCount := PredictUsers(inp, mask);
    predicted := RatingMatrix(mask.userCount, mask.itemCount, entries);
    Conclude(inp, mask, predicted.entries, cappedCount, globalMeanCount);
  }
}
