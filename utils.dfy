/** The MovieLens loader: numbering, pruning, and the split of every kept user's
    ratings into a training matrix (the first ones) and a test matrix (the rest). */
module Utils {
  import opened Ratings
  import opened Records
  import opened Indexing
  import opened ExtensionsToDotNet

  datatype Destination = Train | Test | Dropped

  function Min(a: int, b: int): int { if a <= b then a else b }

  /** How many ratings of a user the training matrix takes: the first one always, and
      up to countOfRatingsForTrain of them. */
  function Quota(countOfRatingsForTrain: int): (q: int)
    ensures q >= 1 && (countOfRatingsForTrain >= 1 ==> q == countOfRatingsForTrain)
  {
    if countOfRatingsForTrain < 1 then 1 else countOfRatingsForTrain
  }

  /** Where the third pass sends a line, given the lines it has processed before it:
      nowhere for a removed user, to train while the user's quota is not used up, and to
      test afterwards. */
  function Route(before: seq<Record>, line: Record, userByIndex: map<int, int>, countOfRatingsForTrain: int): Destination {
    if line.user !in userByIndex then Dropped
    else if Occurrences(UserIds(before), line.user) < Quota(countOfRatingsForTrain) then Train
    else Test
  }

  /** The lines the third pass sends to the destination, in processing order. */
  function Part(lines: seq<Record>, userByIndex: map<int, int>, countOfRatingsForTrain: int, dest: Destination): (r: seq<Record>)
    ensures |r| <= |lines|
    decreases |lines|
  {
    if lines == [] then []
    else
      var n := |lines| - 1;
      Part(lines[..n], userByIndex, countOfRatingsForTrain, dest) +
      (if Route(lines[..n], lines[n], userByIndex, countOfRatingsForTrain) == dest then [lines[n]] else [])
  }

  /** Routing keeps the order of the lines read: the lines routed from a prefix of the
      input are a prefix of the lines routed from all of it. */
  lemma {:induction false} PartPrefix(lines: seq<Record>, userByIndex: map<int, int>, countOfRatingsForTrain: int,
                                      dest: Destination, k: int)
    requires 0 <= k <= |lines|
    ensures Part(lines[..k], userByIndex, countOfRatingsForTrain, dest) <= Part(lines, userByIndex, countOfRatingsForTrain, dest)
    decreases |lines|
  {
    if k == |lines| {
      assert lines[..k] == lines;
    } else {
      var n := |lines| - 1;
      PartPrefix(lines[..n], userByIndex, countOfRatingsForTrain, dest, k);
      assert lines[..n][..k] == lines[..k];
    }
  }

  /** The entries a matrix holds after the lines are written into it in order: a later
      line for the same position overwrites an earlier one. */
  function Scatter(lines: seq<Record>, userByIndex: map<int, int>, itemByIndex: map<int, int>): (m: map<(int, int), real>)
    decreases |lines|
  {
    if lines == [] then map[]
    else
      var n := |lines| - 1;
      var line := lines[n];
      var m := Scatter(lines[..n], userByIndex, itemByIndex);
      if line.user in userByIndex && line.item in itemByIndex then
        m[(userByIndex[line.user], itemByIndex[line.item]) := line.rating]
      else m
  }

  lemma PartAppend(before: seq<Record>, line: Record, userByIndex: map<int, int>, countOfRatingsForTrain: int,
                   dest: Destination)
    ensures Part(before + [line], userByIndex, countOfRatingsForTrain, dest) ==
            Part(before, userByIndex, countOfRatingsForTrain, dest) +
            (if Route(before, line, userByIndex, countOfRatingsForTrain) == dest then [line] else [])
  {
    var e := before + [line];
    assert e[..|e| - 1] == before;
    assert e[|e| - 1] == line;
  }

  lemma ScatterAppend(lines: seq<Record>, line: Record, userByIndex: map<int, int>, itemByIndex: map<int, int>)
    ensures Scatter(lines + [line], userByIndex, itemByIndex) ==
            if line.user in userByIndex && line.item in itemByIndex then
              Scatter(lines, userByIndex, itemByIndex)[(userByIndex[line.user], itemByIndex[line.item]) := line.rating]
            else Scatter(lines, userByIndex, itemByIndex)
  {
    var e := lines + [line];
    assert e[..|e| - 1] == lines;
    assert e[|e| - 1] == line;
  }

  /** Different users have different matrix indices. */
  predicate Injective(m: map<int, int>) {
    forall x, y :: x in m && y in m && m[x] == m[y] ==> x == y
  }

  /** What trainCountByUser holds after the given users' lines were processed: for
      every kept user with a line so far, the number of lines sent to train. */
  ghost predicate TrainCounted(trainCountByUser: map<int, int>, seen: seq<int>, userByIndex: map<int, int>,
                               countOfRatingsForTrain: int)
  {
    forall x :: x in userByIndex ==>
      (userByIndex[x] in trainCountByUser <==> Occurrences(seen, x) > 0) &&
      (userByIndex[x] in trainCountByUser ==>
         trainCountByUser[userByIndex[x]] == Min(Occurrences(seen, x), Quota(countOfRatingsForTrain)))
  }

  /** The body of the third pass: one line goes to train, to test, or nowhere. */
  method RouteLine(trainCountByUser: map<int, int>, train: RatingMatrix, test: RatingMatrix,
                   userByIndex: map<int, int>, itemByIndex: map<int, int>, countOfRatingsForTrain: int,
                   ghost before: seq<Record>, line: Record)
    returns (trainCountByUser': map<int, int>, train': RatingMatrix, test': RatingMatrix)
    requires Injective(userByIndex) && line.item in itemByIndex
    requires TrainCounted(trainCountByUser, UserIds(before), userByIndex, countOfRatingsForTrain)
    ensures TrainCounted(trainCountByUser', UserIds(before + [line]), userByIndex, countOfRatingsForTrain)
    ensures var dest := Route(before, line, userByIndex, countOfRatingsForTrain);
            && train'.userCount == train.userCount && train'.itemCount == train.itemCount
            && test'.userCount == test.userCount && test'.itemCount == test.itemCount
            && train'.entries == (if dest == Train then train.entries[(userByIndex[line.user], itemByIndex[line.item]) := line.rating] else train.entries)
            && test'.entries == (if dest == Test then test.entries[(userByIndex[line.user], itemByIndex[line.item]) := line.rating] else test.entries)
  {
    IdsAppend(before, line);
    AppendCount(UserIds(before), line.user);
    trainCountByUser', train', test' := trainCountByUser, train, test;
    if line.user in userByIndex {
      var indexOfUser := userByIndex[line.user];
      var indexOfItem := itemByIndex[line.item];
      if indexOfUser !in trainCountByUser {
        train' := train.Set(indexOfUser, indexOfItem, line.rating);
        trainCountByUser' := trainCountByUser[indexOfUser := 1];
      } else if trainCountByUser[indexOfUser] < countOfRatingsForTrain {
        train' := train.Set(indexOfUser, indexOfItem, line.rating);
        trainCountByUser' := trainCountByUser[indexOfUser := trainCountByUser[indexOfUser] + 1];
      } else {
        test' := test.Set(indexOfUser, indexOfItem, line.rating);
      }
    }
  }

  /** The third pass over the (possibly shuffled) lines: the training matrix ends up
      holding exactly the lines routed to train, the test matrix the lines routed to
      test (Utils.cs, LoadMovieLensSplitByCount). */
  method FillTrainTest(lines: seq<Record>, userByIndex: map<int, int>, itemByIndex: map<int, int>,
                       countOfRatingsForTrain: int, userCount: nat, itemCount: nat)
    returns (train: RatingMatrix, test: RatingMatrix)
    requires Injective(userByIndex)
    requires forall k :: 0 <= k < |lines| ==> lines[k].item in itemByIndex
    ensures train == RatingMatrix(userCount, itemCount, Scatter(Part(lines, userByIndex, countOfRatingsForTrain, Train), userByIndex, itemByIndex))
    ensures test == RatingMatrix(userCount, itemCount, Scatter(Part(lines, userByIndex, countOfRatingsForTrain, Test), userByIndex, itemByIndex))
  {
    train, test := Empty(userCount, itemCount), Empty(userCount, itemCount);
    var trainCountByUser: map<int, int> := map[];
    for j := 0 to |lines|
      invariant train == RatingMatrix(userCount, itemCount, Scatter(Part(lines[..j], userByIndex, countOfRatingsForTrain, Train), userByIndex, itemByIndex))
      invariant test == RatingMatrix(userCount, itemCount, Scatter(Part(lines[..j], userByIndex, countOfRatingsForTrain, Test), userByIndex, itemByIndex))
      invariant TrainCounted(trainCountByUser, UserIds(lines[..j]), userByIndex, countOfRatingsForTrain)
    {
      PrefixExtend(lines, j);
      trainCountByUser, train, test :=
        RouteLine(trainCountByUser, train, test, userByIndex, itemByIndex, countOfRatingsForTrain, lines[..j], lines[j]);
      RoutedLine(lines[..j], lines[j], userByIndex, itemByIndex, countOfRatingsForTrain);
    }
    assert lines[..|lines|] == lines;
  }

  /** Sending a line to its destination extends that destination's matrix by the line
      and leaves the other one as it was. */
  lemma RoutedLine(before: seq<Record>, line: Record, userByIndex: map<int, int>, itemByIndex: map<int, int>,
                   countOfRatingsForTrain: int)
    requires line.item in itemByIndex
    ensures var dest := Route(before, line, userByIndex, countOfRatingsForTrain);
            var cell := if line.user in userByIndex then (userByIndex[line.user], itemByIndex[line.item]) else (0, 0);
            && Scatter(Part(before + [line], userByIndex, countOfRatingsForTrain, Train), userByIndex, itemByIndex) ==
               (if dest == Train then Scatter(Part(before, userByIndex, countOfRatingsForTrain, Train), userByIndex, itemByIndex)[cell := line.rating]
                else Scatter(Part(before, userByIndex, countOfRatingsForTrain, Train), userByIndex, itemByIndex))
            && Scatter(Part(before + [line], userByIndex, countOfRatingsForTrain, Test), userByIndex, itemByIndex) ==
               (if dest == Test then Scatter(Part(before, userByIndex, countOfRatingsForTrain, Test), userByIndex, itemByIndex)[cell := line.rating]
                else Scatter(Part(before, userByIndex, countOfRatingsForTrain, Test), userByIndex, itemByIndex))
  {
    var train := Part(before, userByIndex, countOfRatingsForTrain, Train);
    var test := Part(before, userByIndex, countOfRatingsForTrain, Test);
    PartAppend(before, line, userByIndex, countOfRatingsForTrain, Train);
    PartAppend(before, line, userByIndex, countOfRatingsForTrain, Test);
    ScatterAppend(train, line, userByIndex, itemByIndex);
    ScatterAppend(test, line, userByIndex, itemByIndex);
    assert train + [] == train && test + [] == test;
  }

  /** One more line adds one to the count of its user in its destination. */
  /** How the last line read changes the number of a user's lines in a destination,
      and in the whole input. */
  lemma PartOccurrences(lines: seq<Record>, userByIndex: map<int, int>, countOfRatingsForTrain: int,
                        dest: Destination, x: int)
    requires lines != []
    ensures var before, line := lines[..|lines| - 1], lines[|lines| - 1];
            && Occurrences(UserIds(Part(lines, userByIndex, countOfRatingsForTrain, dest)), x) ==
               Occurrences(UserIds(Part(before, userByIndex, countOfRatingsForTrain, dest)), x) +
               (if Route(before, line, userByIndex, countOfRatingsForTrain) == dest && line.user == x then 1 else 0)
            && Occurrences(UserIds(lines), x) == Occurrences(UserIds(before), x) + (if line.user == x then 1 else 0)
  {
    var before, line := lines[..|lines| - 1], lines[|lines| - 1];
    var p := Part(before, userByIndex, countOfRatingsForTrain, dest);
    SplitLast(lines);
    PartAppend(before, line, userByIndex, countOfRatingsForTrain, dest);
    IdsAppend(before, line);
    AppendCount(UserIds(before), line.user);
    if Route(before, line, userByIndex, countOfRatingsForTrain) == dest {
      IdsAppend(p, line);
      AppendCount(UserIds(p), line.user);
    } else {
      assert p + [] == p;
    }
  }

  /** The split of each user's lines: a kept user has its first min(count, quota)
      lines in train and the others in test; a removed user has all its lines dropped
      and none in either matrix. */
  lemma {:induction false} PartCounts(lines: seq<Record>, userByIndex: map<int, int>, countOfRatingsForTrain: int, x: int)
    ensures var all, q := Occurrences(UserIds(lines), x), Quota(countOfRatingsForTrain);
            && Occurrences(UserIds(Part(lines, userByIndex, countOfRatingsForTrain, Train)), x) == (if x in userByIndex then Min(all, q) else 0)
            && Occurrences(UserIds(Part(lines, userByIndex, countOfRatingsForTrain, Test)), x) == (if x in userByIndex then all - Min(all, q) else 0)
            && Occurrences(UserIds(Part(lines, userByIndex, countOfRatingsForTrain, Dropped)), x) == (if x in userByIndex then 0 else all)
    decreases |lines|
  {
    if lines != [] {
      var n := |lines| - 1;
      var before, line := lines[..n], lines[n];
      PartCounts(before, userByIndex, countOfRatingsForTrain, x);
      PartOccurrences(lines, userByIndex, countOfRatingsForTrain, Train, x);
      PartOccurrences(lines, userByIndex, countOfRatingsForTrain, Test, x);
      PartOccurrences(lines, userByIndex, countOfRatingsForTrain, Dropped, x);
      CountsStep(Occurrences(UserIds(before), x), Quota(countOfRatingsForTrain), x in userByIndex, line.user == x,
                 Route(before, line, userByIndex, countOfRatingsForTrain));
    }
  }

  /** The arithmetic of one step of PartCounts: a line of user x raises x's count in
      the destination it is routed to, and the split of x's lines stays as stated. */
  lemma CountsStep(all: int, q: int, kept: bool, isX: bool, dest: Destination)
    requires q >= 1 && all >= 0
    requires isX ==> dest == if !kept then Dropped else if all < q then Train else Test
    ensures var all' := all + (if isX then 1 else 0);
            && (if kept then Min(all, q) else 0) + (if dest == Train && isX then 1 else 0) == (if kept then Min(all', q) else 0)
            && (if kept then all - Min(all, q) else 0) + (if dest == Test && isX then 1 else 0) == (if kept then all' - Min(all', q) else 0)
            && (if kept then 0 else all) + (if dest == Dropped && isX then 1 else 0) == (if kept then 0 else all')
  {
  }

  /** Every line goes to exactly one of train, test and nowhere. */
  lemma {:induction false} PartsPartition(lines: seq<Record>, userByIndex: map<int, int>, countOfRatingsForTrain: int)
    ensures multiset(Part(lines, userByIndex, countOfRatingsForTrain, Train)) +
            multiset(Part(lines, userByIndex, countOfRatingsForTrain, Test)) +
            multiset(Part(lines, userByIndex, countOfRatingsForTrain, Dropped)) == multiset(lines)
    decreases |lines|
  {
    if lines != [] {
      var n := |lines| - 1;
      var before, line := lines[..n], lines[n];
      SplitLast(lines);
      PartsPartition(before, userByIndex, countOfRatingsForTrain);
      PartAppend(before, line, userByIndex, countOfRatingsForTrain, Train);
      PartAppend(before, line, userByIndex, countOfRatingsForTrain, Test);
      PartAppend(before, line, userByIndex, countOfRatingsForTrain, Dropped);
    }
  }

  /** The matrix position a line is written to. */
  function Cell(line: Record, userByIndex: map<int, int>, itemByIndex: map<int, int>): (int, int)
    requires line.user in userByIndex && line.item in itemByIndex
  {
    (userByIndex[line.user], itemByIndex[line.item])
  }

  /** Every stored position was written by one of the lines. */
  lemma {:induction false} ScatterKey(lines: seq<Record>, userByIndex: map<int, int>, itemByIndex: map<int, int>,
                                      p: (int, int)) returns (k: int)
    requires p in Scatter(lines, userByIndex, itemByIndex)
    ensures 0 <= k < |lines| && lines[k].user in userByIndex && lines[k].item in itemByIndex
    ensures Cell(lines[k], userByIndex, itemByIndex) == p
    decreases |lines|
  {
    var n := |lines| - 1;
    var line := lines[n];
    if line.user in userByIndex && line.item in itemByIndex && Cell(line, userByIndex, itemByIndex) == p {
      k := n;
    } else {
      k := ScatterKey(lines[..n], userByIndex, itemByIndex, p);
      assert lines[..n][k] == lines[k];
    }
  }

  /** Lines that rate different pairs of kept users and known items fill as many
      positions as there are lines. */
  lemma {:induction false} ScatterSize(lines: seq<Record>, userByIndex: map<int, int>, itemByIndex: map<int, int>)
    requires Injective(userByIndex) && Injective(itemByIndex) && DistinctPairs(lines)
    requires forall k :: 0 <= k < |lines| ==> lines[k].user in userByIndex && lines[k].item in itemByIndex
    ensures |Scatter(lines, userByIndex, itemByIndex)| == |lines|
    decreases |lines|
  {
    if lines != [] {
      var n := |lines| - 1;
      var before, line := lines[..n], lines[n];
      assert DistinctPairs(before) by {
        forall j, k | 0 <= j < k < |before|
          ensures PairOf(before[j]) != PairOf(before[k])
        {
          assert before[j] == lines[j] && before[k] == lines[k];
        }
      }
      ScatterSize(before, userByIndex, itemByIndex);
      var m := Scatter(before, userByIndex, itemByIndex);
      var p := Cell(line, userByIndex, itemByIndex);
      if p in m {
        var k := ScatterKey(before, userByIndex, itemByIndex, p);
        assert false;
      }
      assert lines == before + [line];
      ScatterAppend(before, line, userByIndex, itemByIndex);
    }
  }

  /** Unrepeated pairs in the file stay unrepeated in the lines sent to train. */
  lemma TrainPairsUnrepeated(lines: seq<Record>, userByIndex: map<int, int>, countOfRatingsForTrain: int)
    requires NoRepeatedPair(lines)
    ensures NoRepeatedPair(Part(lines, userByIndex, countOfRatingsForTrain, Train))
  {
    var a := Part(lines, userByIndex, countOfRatingsForTrain, Train);
    var b := Part(lines, userByIndex, countOfRatingsForTrain, Test);
    var c := Part(lines, userByIndex, countOfRatingsForTrain, Dropped);
    var pa, pb, pc := multiset(Pairs(a)), multiset(Pairs(b)), multiset(Pairs(c));
    assert multiset(Pairs(lines)) == pa + (pb + pc) by {
      PartsPartition(lines, userByIndex, countOfRatingsForTrain);
      assert multiset(lines) == multiset(a + b + c);
      ProjectPermutation(lines, a + b + c, PairOf);
      ProjectAppend(a + b, c, PairOf);
      ProjectAppend(a, b, PairOf);
    }
    SubUnrepeated(multiset(Pairs(lines)), pa, pb + pc);
  }

  lemma SubUnrepeated<T>(m: multiset<T>, a: multiset<T>, b: multiset<T>)
    requires m == a + b && forall p | p in m :: m[p] <= 1
    ensures forall p | p in a :: a[p] <= 1
  {
    forall p | p in a
      ensures a[p] <= 1
    {
      assert p in m;
    }
  }

  /** The number of elements of s that are elements of d, counted user by user. */
  function SumOccurrences(d: seq<int>, s: seq<int>): int
    decreases |d|
  {
    if d == [] then 0 else SumOccurrences(d[..|d| - 1], s) + Occurrences(s, d[|d| - 1])
  }

  lemma {:induction false} SumOccurrencesAppend(d: seq<int>, s: seq<int>, y: int)
    requires Distinct(d)
    ensures SumOccurrences(d, s + [y]) == SumOccurrences(d, s) + (if y in d then 1 else 0)
    decreases |d|
  {
    if d != [] {
      var n := |d| - 1;
      assert d == d[..n] + [d[n]];
      assert d[n] !in d[..n];
      SumOccurrencesAppend(d[..n], s, y);
      AppendCount(s, y);
    }
  }

  /** Counting user by user counts every element once when d lists every user of s. */
  lemma {:induction false} CountByUsers(d: seq<int>, s: seq<int>)
    requires Distinct(d) && forall k :: 0 <= k < |s| ==> s[k] in d
    ensures |s| == SumOccurrences(d, s)
    decreases |s|
  {
    if s == [] {
      SumOccurrencesEmpty(d);
    } else {
      var n := |s| - 1;
      assert s == s[..n] + [s[n]];
      CountByUsers(d, s[..n]);
      SumOccurrencesAppend(d, s[..n], s[n]);
    }
  }

  lemma {:induction false} SumOccurrencesEmpty(d: seq<int>)
    ensures SumOccurrences(d, []) == 0
    decreases |d|
  {
    if d != [] {
      SumOccurrencesEmpty(d[..|d| - 1]);
    }
  }

  /** Users that all occur c times add up to c times their number. */
  lemma {:induction false} SumOccurrencesConstant(d: seq<int>, s: seq<int>, c: int)
    requires forall k :: 0 <= k < |d| ==> Occurrences(s, d[k]) == c
    ensures SumOccurrences(d, s) == |d| * c
    decreases |d|
  {
    if d != [] {
      var n := |d| - 1;
      SumOccurrencesConstant(d[..n], s, c);
      assert |d| * c == n * c + c;
    }
  }

  /** When every kept user has at least its quota of lines, the training lines are
      exactly quota lines per kept user. */
  lemma TrainSize(lines: seq<Record>, userByIndex: map<int, int>, countOfRatingsForTrain: int, kept: seq<int>)
    requires Distinct(kept) && forall x :: x in kept <==> x in userByIndex
    requires forall x :: x in userByIndex ==> Occurrences(UserIds(lines), x) >= Quota(countOfRatingsForTrain)
    ensures |Part(lines, userByIndex, countOfRatingsForTrain, Train)| == |kept| * Quota(countOfRatingsForTrain)
  {
    var q := Quota(countOfRatingsForTrain);
    var t := Part(lines, userByIndex, countOfRatingsForTrain, Train);
    var s := UserIds(t);
    forall k | 0 <= k < |s|
      ensures s[k] in kept
    {
      PartCounts(lines, userByIndex, countOfRatingsForTrain, s[k]);
      assert s[k] in multiset(s);
    }
    CountByUsers(kept, s);
    forall k | 0 <= k < |kept|
      ensures Occurrences(s, kept[k]) == q
    {
      PartCounts(lines, userByIndex, countOfRatingsForTrain, kept[k]);
    }
    SumOccurrencesConstant(kept, s, q);
  }

  /** The users of the file with fewer than minCountOfRatings lines. */
  function SparseUsers(records: seq<Record>, minCountOfRatings: int): set<int> {
    set x | x in UserIds(records) && Occurrences(UserIds(records), x) < minCountOfRatings
  }

  /** The users the loader keeps, in the order of their first line. */
  function KeptUsers(records: seq<Record>, minCountOfRatings: int): (d: seq<int>)
    ensures Distinct(d)
    ensures forall x :: x in d <==> x in UserIds(records) && Occurrences(UserIds(records), x) >= minCountOfRatings
  {
    Without(FirstAppearance(UserIds(records)), SparseUsers(records, minCountOfRatings))
  }

  /** The numbering of the kept users and of all items the loader settles on. */
  function UserNumbering(records: seq<Record>, minCountOfRatings: int): map<int, int> {
    Positions(KeptUsers(records, minCountOfRatings))
  }

  function ItemNumbering(records: seq<Record>): map<int, int> {
    Positions(FirstAppearance(ItemIds(records)))
  }

  /** The order the third pass reads the lines in. */
  function LinesRead(records: seq<Record>, shuffle: bool, choices: seq<int>): (lines: seq<Record>)
    requires shuffle ==> ValidChoices(choices, |records|)
    ensures multiset(lines) == multiset(records)
  {
    if shuffle then Shuffled(records, choices) else records
  }

  /** Every line of a reordering of the file, and of any part of it, has a numbered
      item. */
  lemma ItemsKnown(records: seq<Record>, lines: seq<Record>)
    requires multiset(lines) <= multiset(records)
    ensures forall k :: 0 <= k < |lines| ==> lines[k].item in ItemNumbering(records)
  {
    forall k | 0 <= k < |lines|
      ensures lines[k].item in ItemNumbering(records)
    {
      assert lines[k] in multiset(lines);
      var j :| 0 <= j < |records| && records[j] == lines[k];
      ProjectAt(records, ItemOf, j);
      assert ItemIds(records)[j] == lines[k].item;
    }
  }

  /** With dense numberings of the users and items, every position written lies inside
      the matrix: the result is a valid |users| × |items| matrix. */
  lemma {:induction false} ScatterValid(lines: seq<Record>, userByIndex: map<int, int>, itemByIndex: map<int, int>)
    requires Dense(userByIndex) && Dense(itemByIndex)
    ensures RatingMatrix(|userByIndex|, |itemByIndex|, Scatter(lines, userByIndex, itemByIndex)).Valid()
    decreases |lines|
  {
    if lines != [] {
      ScatterValid(lines[..|lines| - 1], userByIndex, itemByIndex);
    }
  }

  /** The Debug.Assert at the end of the loader: with a quota of at least one rating,
      kept users that all have at least that many, and no pair routed to train twice,
      the training matrix stores exactly quota ratings per kept user. */
  lemma TrainHoldsQuotaPerUser(records: seq<Record>, lines: seq<Record>, minCountOfRatings: int, countOfRatingsForTrain: int)
    requires multiset(lines) == multiset(records)
    requires countOfRatingsForTrain >= 1 && minCountOfRatings >= countOfRatingsForTrain
    requires NoRepeatedPair(Part(lines, UserNumbering(records, minCountOfRatings), countOfRatingsForTrain, Train))
    ensures var users, items := UserNumbering(records, minCountOfRatings), ItemNumbering(records);
            |Scatter(Part(lines, users, countOfRatingsForTrain, Train), users, items)| == |users| * countOfRatingsForTrain
  {
    var kept := KeptUsers(records, minCountOfRatings);
    var users, items := UserNumbering(records, minCountOfRatings), ItemNumbering(records);
    var t := Part(lines, users, countOfRatingsForTrain, Train);
    PermutationKeepsCounts(records, lines);
    NoRepeatedPairDistinct(t);
    PositionsDense(kept);
    PositionsDense(FirstAppearance(ItemIds(records)));
    assert multiset(t) <= multiset(records) by {
      PartsPartition(lines, users, countOfRatingsForTrain);
    }
    ItemsKnown(records, t);
    forall k | 0 <= k < |t|
      ensures t[k].user in users
    {
      TrainUserKept(lines, users, countOfRatingsForTrain, k);
    }
    ScatterSize(t, users, items);
    TrainSize(lines, users, countOfRatingsForTrain, kept);
    assert |users| == |kept| && Quota(countOfRatingsForTrain) == countOfRatingsForTrain;
  }

  /** The same assertion for a file in which no pair repeats at all: then none repeats
      among the lines routed to train either. */
  lemma QuotaPerUserWithoutRepeats(records: seq<Record>, lines: seq<Record>, minCountOfRatings: int, countOfRatingsForTrain: int)
    requires multiset(lines) == multiset(records)
    requires countOfRatingsForTrain >= 1 && minCountOfRatings >= countOfRatingsForTrain && NoRepeatedPair(records)
    ensures var users, items := UserNumbering(records, minCountOfRatings), ItemNumbering(records);
            |Scatter(Part(lines, users, countOfRatingsForTrain, Train), users, items)| == |users| * countOfRatingsForTrain
  {
    var users := UserNumbering(records, minCountOfRatings);
    PermutationKeepsCounts(records, lines);
    TrainPairsUnrepeated(lines, users, countOfRatingsForTrain);
    TrainHoldsQuotaPerUser(records, lines, minCountOfRatings, countOfRatingsForTrain);
  }

  /** Only kept users have lines in train. */
  lemma TrainUserKept(lines: seq<Record>, userByIndex: map<int, int>, countOfRatingsForTrain: int, k: int)
    requires 0 <= k < |Part(lines, userByIndex, countOfRatingsForTrain, Train)|
    ensures Part(lines, userByIndex, countOfRatingsForTrain, Train)[k].user in userByIndex
  {
    var t := Part(lines, userByIndex, countOfRatingsForTrain, Train);
    var x := t[k].user;
    PartCounts(lines, userByIndex, countOfRatingsForTrain, x);
    ProjectAt(t, UserOf, k);
    assert UserIds(t)[k] == x;
    assert x in multiset(UserIds(t));
  }

  /** After pass 1, the users pass 2 removes are the sparse users of the file. */
  lemma SparseAgrees(records: seq<Record>, userByIndex: map<int, int>, ratingCountByUser: map<int, int>,
                     minCountOfRatings: int)
    requires userByIndex == Positions(FirstAppearance(UserIds(records)))
    requires ratingCountByUser.Keys == userByIndex.Keys
    requires forall x :: x in ratingCountByUser ==> ratingCountByUser[x] == Occurrences(UserIds(records), x)
    ensures Sparse(userByIndex.Keys, ratingCountByUser, minCountOfRatings) == SparseUsers(records, minCountOfRatings)
  {
    var d := FirstAppearance(UserIds(records));
    forall x
      ensures x in Sparse(userByIndex.Keys, ratingCountByUser, minCountOfRatings) <==> x in SparseUsers(records, minCountOfRatings)
    {
      assert x in userByIndex <==> x in d;
    }
  }

  /** Passes 1 and 2 of the loader: the numbering of the kept users and of the
      items. */
  method NumberUsersAndItems(records: seq<Record>, minCountOfRatings: int)
    returns (userByIndex: map<int, int>, itemByIndex: map<int, int>)
    ensures userByIndex == UserNumbering(records, minCountOfRatings)
    ensures itemByIndex == ItemNumbering(records)
  {
    var seenUsers, ratingCountByUser;
    seenUsers, ratingCountByUser, itemByIndex := DiscoverStructure(records);
    var order := FirstAppearance(UserIds(records));
    var countOfRemovedUsers;
    userByIndex, countOfRemovedUsers := RemoveSparseUsers(seenUsers, ratingCountByUser, minCountOfRatings, order, order);
    SparseAgrees(records, seenUsers, ratingCountByUser, minCountOfRatings);
    ghost var gone := Sparse(seenUsers.Keys, ratingCountByUser, minCountOfRatings);
    assert gone == SparseUsers(records, minCountOfRatings);
    assert Without(order, gone) == KeptUsers(records, minCountOfRatings);
  }

  /** Loads the rating file, removes the users with fewer than minCountOfRatings
      ratings, and splits the lines of every kept user between a training matrix (the
      first countOfRatingsForTrain, and at least one) and a test matrix (the rest),
      reading the lines in file order or in the order of a Fisher–Yates shuffle driven
      by the given draws (Utils.cs, LoadMovieLensSplitByCount). */
  method LoadMovieLensSplitByCount(records: seq<Record>, minCountOfRatings: int, countOfRatingsForTrain: int,
                                   shuffle: bool, choices: seq<int>)
    returns (train: RatingMatrix, test: RatingMatrix)
    requires shuffle ==> ValidChoices(choices, |records|)
    ensures var users, items := UserNumbering(records, minCountOfRatings), ItemNumbering(records);
            var lines := LinesRead(records, shuffle, choices);
            && train == RatingMatrix(|users|, |items|, Scatter(Part(lines, users, countOfRatingsForTrain, Train), users, items))
            && test == RatingMatrix(|users|, |items|, Scatter(Part(lines, users, countOfRatingsForTrain, Test), users, items))
    ensures train.Valid() && test.Valid()
    ensures countOfRatingsForTrain >= 1 && minCountOfRatings >= countOfRatingsForTrain &&
            NoRepeatedPair(Part(LinesRead(records, shuffle, choices), UserNumbering(records, minCountOfRatings),
                                countOfRatingsForTrain, Train)) ==>
              train.userCount * countOfRatingsForTrain == train.NonZerosCount()
  {
    var userByIndex, itemByIndex := NumberUsersAndItems(records, minCountOfRatings);
    var lines := ReadOrder(records, shuffle, choices);
    Numbered(records, lines, minCountOfRatings);
    train, test := FillTrainTest(lines, userByIndex, itemByIndex, countOfRatingsForTrain, |userByIndex|, |itemByIndex|);
    Loaded(records, lines, minCountOfRatings, countOfRatingsForTrain);
  }

  /** The lines of the file in the order the third pass reads them: as they are, or
      shuffled in place. */
  method ReadOrder(records: seq<Record>, shuffle: bool, choices: seq<int>) returns (lines: seq<Record>)
    requires shuffle ==> ValidChoices(choices, |records|)
    ensures lines == LinesRead(records, shuffle, choices)
  {
    lines := records;
    if shuffle {
      var allLines := new Record[|records|](i requires 0 <= i < |records| => records[i]);
      assert allLines[..] == records;
      Shuffle(allLines, choices);
      lines := allLines[..];
    }
  }

  /** What the third pass needs of the numberings. */
  lemma Numbered(records: seq<Record>, lines: seq<Record>, minCountOfRatings: int)
    requires multiset(lines) == multiset(records)
    ensures Injective(UserNumbering(records, minCountOfRatings))
    ensures forall k :: 0 <= k < |lines| ==> lines[k].item in ItemNumbering(records)
  {
    PositionsDense(KeptUsers(records, minCountOfRatings));
    ItemsKnown(records, lines);
  }

  /** The two matrices the loader returns are valid, and the training one passes the
      final Debug.Assert when its conditions hold. */
  lemma Loaded(records: seq<Record>, lines: seq<Record>, minCountOfRatings: int, countOfRatingsForTrain: int)
    requires multiset(lines) == multiset(records)
    ensures var users, items := UserNumbering(records, minCountOfRatings), ItemNumbering(records);
            && RatingMatrix(|users|, |items|, Scatter(Part(lines, users, countOfRatingsForTrain, Train), users, items)).Valid()
            && RatingMatrix(|users|, |items|, Scatter(Part(lines, users, countOfRatingsForTrain, Test), users, items)).Valid()
            && (countOfRatingsForTrain >= 1 && minCountOfRatings >= countOfRatingsForTrain &&
                NoRepeatedPair(Part(lines, users, countOfRatingsForTrain, Train)) ==>
                  |users| * countOfRatingsForTrain == |Scatter(Part(lines, users, countOfRatingsForTrain, Train), users, items)|)
  {
    var users, items := UserNumbering(records, minCountOfRatings), ItemNumbering(records);
    PositionsDense(KeptUsers(records, minCountOfRatings));
    PositionsDense(FirstAppearance(ItemIds(records)));
    ScatterValid(Part(lines, users, countOfRatingsForTrain, Train), users, items);
    ScatterValid(Part(lines, users, countOfRatingsForTrain, Test), users, items);
    if countOfRatingsForTrain >= 1 && minCountOfRatings >= countOfRatingsForTrain &&
       NoRepeatedPair(Part(lines, users, countOfRatingsForTrain, Train)) {
      TrainHoldsQuotaPerUser(records, lines, minCountOfRatings, countOfRatingsForTrain);
    }
  }

  /** Every line's user and item are numbered by first appearance. */
  lemma AllNumbered(records: seq<Record>)
    ensures forall k :: 0 <= k < |records| ==> records[k].user in Positions(FirstAppearance(UserIds(records)))
    ensures forall k :: 0 <= k < |records| ==> records[k].item in ItemNumbering(records)
  {
    ItemsKnown(records, records);
    forall k | 0 <= k < |records|
      ensures records[k].user in Positions(FirstAppearance(UserIds(records)))
    {
      ProjectAt(records, UserOf, k);
      assert UserIds(records)[k] == records[k].user;
    }
  }

  /** The obsolete loader: numbers users and items by first appearance and writes
      every line into one matrix (Utils.cs, LoadMovieLens). */
  method LoadMovieLens(records: seq<Record>) returns (r: RatingMatrix)
    ensures var users, items := Positions(FirstAppearance(UserIds(records))), ItemNumbering(records);
            r == RatingMatrix(|users|, |items|, Scatter(records, users, items))
    ensures r.Valid()
    ensures NoRepeatedPair(records) ==> r.NonZerosCount() == |records|
  {
    var userMap, itemMap := NumberInOrder(records);
    AllNumbered(records);
    r := WriteLines(records, userMap, itemMap);
    WholeFileLoaded(records);
  }

  /** The first loop of the obsolete loader: a user or item gets the next free index
      the first time it is seen. */
  method NumberInOrder(records: seq<Record>) returns (userMap: map<int, int>, itemMap: map<int, int>)
    ensures userMap == Positions(FirstAppearance(UserIds(records)))
    ensures itemMap == Positions(FirstAppearance(ItemIds(records)))
  {
    userMap, itemMap := map[], map[];
    for j := 0 to |records|
      invariant userMap == Positions(FirstAppearance(UserIds(records[..j])))
      invariant itemMap == Positions(FirstAppearance(ItemIds(records[..j])))
    {
      PrefixExtend(records, j);
      userMap, itemMap := NumberLine(userMap, itemMap, records[..j], records[j]);
    }
    assert records[..|records|] == records;
  }

  /** Numbers the user and the item of one more line. */
  method NumberLine(userMap: map<int, int>, itemMap: map<int, int>, ghost lines: seq<Record>, line: Record)
    returns (userMap': map<int, int>, itemMap': map<int, int>)
    requires userMap == Positions(FirstAppearance(UserIds(lines)))
    requires itemMap == Positions(FirstAppearance(ItemIds(lines)))
    ensures userMap' == Positions(FirstAppearance(UserIds(lines + [line])))
    ensures itemMap' == Positions(FirstAppearance(ItemIds(lines + [line])))
  {
    IdsAppend(lines, line);
    userMap' := AddIfNew(userMap, UserIds(lines), line.user);
    itemMap' := AddIfNew(itemMap, ItemIds(lines), line.item);
  }

  /** The second loop of the obsolete loader: every line is written at its user's and
      item's indices, a later line overwriting an earlier one. */
  method WriteLines(records: seq<Record>, userMap: map<int, int>, itemMap: map<int, int>) returns (r: RatingMatrix)
    requires forall k :: 0 <= k < |records| ==> records[k].user in userMap && records[k].item in itemMap
    ensures r == RatingMatrix(|userMap|, |itemMap|, Scatter(records, userMap, itemMap))
  {
    r := Empty(|userMap|, |itemMap|);
    for j := 0 to |records|
      invariant r == RatingMatrix(|userMap|, |itemMap|, Scatter(records[..j], userMap, itemMap))
    {
      PrefixExtend(records, j);
      ScatterAppend(records[..j], records[j], userMap, itemMap);
      var uid := userMap[records[j].user];
      var iid := itemMap[records[j].item];
      r := r.Set(uid, iid, records[j].rating);
    }
    assert records[..|records|] == records;
  }

  /** The obsolete loader's matrix is valid and, without repeated pairs, stores one
      entry per line. */
  lemma WholeFileLoaded(records: seq<Record>)
    ensures var users, items := Positions(FirstAppearance(UserIds(records))), ItemNumbering(records);
            && RatingMatrix(|users|, |items|, Scatter(records, users, items)).Valid()
            && (NoRepeatedPair(records) ==> |Scatter(records, users, items)| == |records|)
  {
    var users, items := Positions(FirstAppearance(UserIds(records))), ItemNumbering(records);
    PositionsDense(FirstAppearance(UserIds(records)));
    PositionsDense(FirstAppearance(ItemIds(records)));
    ScatterValid(records, users, items);
    if NoRepeatedPair(records) {
      AllNumbered(records);
      NoRepeatedPairDistinct(records);
      ScatterSize(records, users, items);
    }
  }

  /** The rule above and below a heading. */
  const Rule: string := "******************************************\n"

  function Max(a: int, b: int): int { if a >= b then a else b }

  /** s right-aligned in a field of the given width, as the {0,width} format item
      writes it: padded with spaces on the left, never cut. */
  function PadLeft(s: string, width: int): (r: string)
    ensures |r| == Max(|s|, width)
    ensures r[|r| - |s|..] == s
    ensures forall k :: 0 <= k < |r| - |s| ==> r[k] == ' '
  {
    if width <= |s| then s else seq(width - |s|, _ => ' ') + s
  }

  /** h is the line of text between two copies of the rule, the text being the title
      right-aligned: the rule, spaces, the title, a line break, the rule. */
  predicate Framed(h: string, rule: string, title: string, width: int) {
    && |h| == 2 * |rule| + Max(|title|, width) + 1
    && h[..|rule|] == rule && h[|h| - |rule|..] == rule && h[|h| - |rule| - 1] == '\n'
    && h[|h| - |rule| - 1 - |title|..|h| - |rule| - 1] == title
    && forall k :: |rule| <= k < |h| - |rule| - 1 - |title| ==> h[k] == ' '
  }

  /** A heading: the rule of 42 asterisks, then the title right-aligned in 25 columns
      and a line break, then the rule again (Utils.cs, CreateHeading). */
  function CreateHeading(title: string): (h: string)
    ensures Framed(h, Rule, title, 25)
  {
    FrameLine(Rule, PadLeft(title, 25), title, 25);
    Rule + PadLeft(title, 25) + "\n" + Rule
  }

  /** A line padded on the left to the title is framed by any rule. */
  lemma FrameLine(rule: string, line: string, title: string, width: int)
    requires |line| == Max(|title|, width) && line[|line| - |title|..] == title
    requires forall k :: 0 <= k < |line| - |title| ==> line[k] == ' '
    ensures Framed(rule + line + "\n" + rule, rule, title, width)
  {
    var h := rule + line + "\n" + rule;
    assert h[|rule|..|rule| + |line|] == line;
    forall k | |rule| <= k < |h| - |rule| - 1 - |title|
      ensures h[k] == ' '
    {
      assert h[k] == line[k - |rule|];
    }
  }

  /** The condition on the training quota is needed: a file with one line, every user
      kept (at least one rating) and a quota of two leaves the training matrix with one
      entry for its one user, not two. */
  lemma QuotaNeedsEnoughRatings()
    ensures var records := [Record(1, 10, 4.0)];
            var users, items := UserNumbering(records, 1), ItemNumbering(records);
            && |users| == 1
            && |Scatter(Part(records, users, 2, Train), users, items)| == 1
  {
    var records := [Record(1, 10, 4.0)];
    OneLineNumberings();
    var users, items := map[1 := 0], map[10 := 0];
    assert records[..0] == [];
    assert Part(records, users, 2, Train) == records by {
      assert Route([], records[0], users, 2) == Train;
    }
    assert Scatter(records, users, items) == map[(0, 0) := 4.0];
  }

  /** A one-line file numbers its user and its item 0, the user being kept at a
      minimum of one rating. */
  lemma OneLineNumberings()
    ensures UserNumbering([Record(1, 10, 4.0)], 1) == map[1 := 0]
    ensures ItemNumbering([Record(1, 10, 4.0)]) == map[10 := 0]
  {
    var records := [Record(1, 10, 4.0)];
    OneLineIds(records[0]);
    SingleNumbering(1);
    SingleNumbering(10);
    assert SparseUsers(records, 1) == {} by {
      assert Occurrences([1], 1) == 1;
    }
    WithoutNothing([1]);
  }

  lemma OneLineIds(r: Record)
    ensures UserIds([r]) == [r.user] && ItemIds([r]) == [r.item]
  {
    assert [r][..0] == [];
  }

  /** A single id is numbered 0. */
  lemma SingleNumbering(x: int)
    ensures FirstAppearance([x]) == [x]
    ensures Positions([x]) == map[x := 0]
  {
    assert [x][..0] == [];
    SameMap(Positions([x]), map[x := 0]);
  }
}
