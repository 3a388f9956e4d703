/** The first two passes of the MovieLens loader: numbering the user and item ids of
    the file in the order they first appear, and removing the users with too few
    ratings while keeping the user numbering dense. */
module Indexing {
  import opened Records

  predicate Distinct(d: seq<int>) {
    forall j, k :: 0 <= j < k < |d| ==> d[j] != d[k]
  }

  /** The ids of the sequence, each once, in the order of their first occurrence. */
  function FirstAppearance(ids: seq<int>): (d: seq<int>)
    ensures Distinct(d)
    ensures forall x :: x in d <==> x in ids
    decreases |ids|
  {
    if ids == [] then []
    else
      var d := FirstAppearance(ids[..|ids| - 1]);
      var x := ids[|ids| - 1];
      assert ids == ids[..|ids| - 1] + [x];
      if x in d then d else d + [x]
  }

  /** The map from each element of a sequence without repetitions to its index. */
  function Positions(d: seq<int>): (m: map<int, int>)
    requires Distinct(d)
    ensures forall x :: x in m <==> x in d
    ensures forall k :: 0 <= k < |d| ==> d[k] in m && m[d[k]] == k
    ensures forall x :: x in m ==> 0 <= m[x] < |d| && d[m[x]] == x
    ensures |m| == |d|
    decreases |d|
  {
    if d == [] then map[]
    else
      var n := |d| - 1;
      var init := d[..n];
      assert d[n] !in init;
      var p := Positions(init);
      assert forall k :: 0 <= k < n ==> d[k] == init[k];
      assert d[n] !in p;
      p[d[n] := n]
  }

  /** The values of the map are the indices 0 .. |m| - 1, each used once: a valid
      numbering of the rows or columns of a matrix. */
  predicate Dense(m: map<int, int>) {
    (forall x :: x in m ==> 0 <= m[x] < |m|) &&
    (forall x, y :: x in m && y in m && m[x] == m[y] ==> x == y)
  }

  lemma PositionsDense(d: seq<int>)
    requires Distinct(d)
    ensures Dense(Positions(d))
  {
  }

  lemma PrefixExtend<T>(s: seq<T>, j: int)
    requires 0 <= j < |s|
    ensures s[..j + 1] == s[..j] + [s[j]]
  {
  }

  /** The first appearances in a prefix are a prefix of the first appearances. */
  lemma {:induction false} FirstAppearancePrefix(ids: seq<int>, k: int)
    requires 0 <= k <= |ids|
    ensures FirstAppearance(ids[..k]) <= FirstAppearance(ids)
    decreases |ids| - k
  {
    if k < |ids| {
      assert ids[..k + 1][..k] == ids[..k];
      FirstAppearancePrefix(ids, k + 1);
    } else {
      assert ids[..k] == ids;
    }
  }

  /** An id seen for the first time at line k is given the next free index: the
      number of distinct ids on the lines before. */
  lemma NewIdGetsNextIndex(ids: seq<int>, k: int)
    requires 0 <= k < |ids| && ids[k] !in ids[..k]
    ensures Positions(FirstAppearance(ids))[ids[k]] == |FirstAppearance(ids[..k])|
  {
    assert ids[..k + 1][..k] == ids[..k];
    FirstAppearancePrefix(ids, k + 1);
    var d := FirstAppearance(ids[..k]);
    assert FirstAppearance(ids[..k + 1]) == d + [ids[k]];
    assert FirstAppearance(ids)[|d|] == ids[k];
  }

  /** An id that first appears earlier in the file gets the smaller index. */
  lemma FirstAppearanceOrder(ids: seq<int>, j: int, k: int)
    requires 0 <= j < k < |ids| && ids[j] !in ids[..j] && ids[k] !in ids[..k]
    ensures ids[j] != ids[k]
    ensures Positions(FirstAppearance(ids))[ids[j]] < Positions(FirstAppearance(ids))[ids[k]]
  {
    assert ids[..k][j] == ids[j];
    NewIdGetsNextIndex(ids, j);
    NewIdGetsNextIndex(ids, k);
    FirstAppearanceNew(ids, j);
    FirstAppearanceGrows(ids, j + 1, k);
  }

  /** An id not seen before extends the first appearances by itself. */
  lemma FirstAppearanceNew(ids: seq<int>, j: int)
    requires 0 <= j < |ids| && ids[j] !in ids[..j]
    ensures FirstAppearance(ids[..j + 1]) == FirstAppearance(ids[..j]) + [ids[j]]
  {
    var p := ids[..j + 1];
    assert p[..|p| - 1] == ids[..j];
    assert p[|p| - 1] == ids[j];
  }

  /** Reading more lines never shrinks the first appearances. */
  lemma FirstAppearanceGrows(ids: seq<int>, a: int, b: int)
    requires 0 <= a <= b <= |ids|
    ensures |FirstAppearance(ids[..a])| <= |FirstAppearance(ids[..b])|
  {
    assert ids[..b][..a] == ids[..a];
    FirstAppearancePrefix(ids[..b], a);
  }

  /** Numbers an id when it is seen for the first time: the current size of the map
      is the next free index. */
  method AddIfNew(byIndex: map<int, int>, ghost seen: seq<int>, id: int) returns (updated: map<int, int>)
    requires byIndex == Positions(FirstAppearance(seen))
    ensures updated == Positions(FirstAppearance(seen + [id]))
  {
    AppendId(seen, id);
    updated := byIndex;
    if id !in byIndex {
      updated := byIndex[id := |byIndex|];
    }
  }

  /** Counts one more rating of a user: 1 for a new user, one more otherwise. */
  method CountRating(ratingCountByUser: map<int, int>, ghost seen: seq<int>, user: int) returns (updated: map<int, int>)
    requires forall x :: x in ratingCountByUser <==> x in seen
    requires forall x :: x in ratingCountByUser ==> ratingCountByUser[x] == Occurrences(seen, x)
    ensures forall x :: x in updated <==> x in seen + [user]
    ensures forall x :: x in updated ==> updated[x] == Occurrences(seen + [user], x)
  {
    AppendCount(seen, user);
    if user !in ratingCountByUser {
      updated := ratingCountByUser[user := 1];
    } else {
      updated := ratingCountByUser[user := ratingCountByUser[user] + 1];
    }
  }

  /** The state of pass 1 after reading the given lines. */
  ghost predicate Discovered(lines: seq<Record>, userByIndex: map<int, int>, ratingCountByUser: map<int, int>,
                             itemByIndex: map<int, int>)
  {
    userByIndex == Positions(FirstAppearance(UserIds(lines))) &&
    itemByIndex == Positions(FirstAppearance(ItemIds(lines))) &&
    (forall x :: x in ratingCountByUser <==> x in UserIds(lines)) &&
    (forall x :: x in ratingCountByUser ==> ratingCountByUser[x] == Occurrences(UserIds(lines), x))
  }

  /** The body of pass 1: one line of the file. */
  method ReadLine(userByIndex: map<int, int>, ratingCountByUser: map<int, int>, itemByIndex: map<int, int>,
                  ghost lines: seq<Record>, line: Record)
    returns (userByIndex': map<int, int>, ratingCountByUser': map<int, int>, itemByIndex': map<int, int>)
    requires Discovered(lines, userByIndex, ratingCountByUser, itemByIndex)
    ensures Discovered(lines + [line], userByIndex', ratingCountByUser', itemByIndex')
  {
    IdsAppend(lines, line);
    ratingCountByUser' := CountRating(ratingCountByUser, UserIds(lines), line.user);
    userByIndex' := AddIfNew(userByIndex, UserIds(lines), line.user);
    itemByIndex' := AddIfNew(itemByIndex, ItemIds(lines), line.item);
  }

  lemma IdsAppend(lines: seq<Record>, line: Record)
    ensures UserIds(lines + [line]) == UserIds(lines) + [line.user]
    ensures ItemIds(lines + [line]) == ItemIds(lines) + [line.item]
  {
    assert (lines + [line])[..|lines|] == lines;
  }

  /** Pass 1 (reading the file to discover the matrix structure): numbers users and
      items by first appearance and counts the ratings of every user. */
  method DiscoverStructure(records: seq<Record>)
    returns (userByIndex: map<int, int>, ratingCountByUser: map<int, int>, itemByIndex: map<int, int>)
    ensures userByIndex == Positions(FirstAppearance(UserIds(records)))
    ensures itemByIndex == Positions(FirstAppearance(ItemIds(records)))
    ensures ratingCountByUser.Keys == userByIndex.Keys
    ensures forall x :: x in ratingCountByUser ==> ratingCountByUser[x] == Occurrences(UserIds(records), x)
  {
    userByIndex, ratingCountByUser, itemByIndex := map[], map[], map[];
    for j := 0 to |records|
      invariant Discovered(records[..j], userByIndex, ratingCountByUser, itemByIndex)
    {
      PrefixExtend(records, j);
      userByIndex, ratingCountByUser, itemByIndex := ReadLine(userByIndex, ratingCountByUser, itemByIndex, records[..j], records[j]);
    }
    assert records[..|records|] == records;
    CountedUsersNumbered(records, userByIndex, ratingCountByUser, itemByIndex);
  }

  /** After pass 1 the users with a rating count are exactly the numbered users. */
  lemma CountedUsersNumbered(lines: seq<Record>, userByIndex: map<int, int>, ratingCountByUser: map<int, int>,
                             itemByIndex: map<int, int>)
    requires Discovered(lines, userByIndex, ratingCountByUser, itemByIndex)
    ensures ratingCountByUser.Keys == userByIndex.Keys
  {
    var d := FirstAppearance(UserIds(lines));
    forall x
      ensures x in ratingCountByUser <==> x in userByIndex
    {
      assert x in userByIndex <==> x in d;
      assert x in d <==> x in UserIds(lines);
    }
  }

  /** What reading one more id does to the numbering. */
  lemma AppendId(ids: seq<int>, x: int)
    ensures x in ids ==> Positions(FirstAppearance(ids + [x])) == Positions(FirstAppearance(ids))
    ensures x !in ids ==> Positions(FirstAppearance(ids + [x])) == Positions(FirstAppearance(ids))[x := |FirstAppearance(ids)|]
  {
    var longer := ids + [x];
    assert longer[..|longer| - 1] == ids;
    var d := FirstAppearance(ids);
    if x in ids {
      assert FirstAppearance(longer) == d;
      assert Positions(FirstAppearance(longer)) == Positions(d);
    } else {
      assert FirstAppearance(longer) == d + [x];
      PositionsAppend(d, x);
      assert Positions(FirstAppearance(longer)) == Positions(d)[x := |d|];
    }
  }

  /** What reading one more id does to the counts. */
  lemma AppendCount(ids: seq<int>, x: int)
    ensures forall y :: y in ids + [x] <==> y in ids || y == x
    ensures forall y :: Occurrences(ids + [x], y) == Occurrences(ids, y) + (if y == x then 1 else 0)
  {
  }

  /** The elements of d not in gone, in the order of d. */
  function Without(d: seq<int>, gone: set<int>): (r: seq<int>)
    ensures forall x :: x in r <==> x in d && x !in gone
    ensures Distinct(d) ==> Distinct(r)
    decreases |d|
  {
    if d == [] then []
    else
      var n := |d| - 1;
      var w := Without(d[..n], gone);
      assert d == d[..n] + [d[n]];
      if d[n] in gone then w else w + [d[n]]
  }

  lemma {:induction false} WithoutNothing(d: seq<int>)
    ensures Without(d, {}) == d
    decreases |d|
  {
    if d != [] {
      var n := |d| - 1;
      WithoutNothing(d[..n]);
      assert Without(d, {}) == Without(d[..n], {}) + [d[n]];
      assert d == d[..n] + [d[n]];
    }
  }

  /** Removing one more element x from the filtered sequence cuts it out at its
      index r and leaves everything else in place. */
  lemma {:induction false} WithoutOneMore(d: seq<int>, gone: set<int>, x: int, r: int)
    requires Distinct(d) && x !in gone
    requires 0 <= r < |Without(d, gone)| && Without(d, gone)[r] == x
    ensures Without(d, gone + {x}) == Without(d, gone)[..r] + Without(d, gone)[r + 1..]
    ensures |Without(d, gone + {x})| + 1 == |Without(d, gone)|
    decreases |d|
  {
    var n := |d| - 1;
    var init, last := d[..n], d[n];
    var wi := Without(init, gone);
    DistinctInit(d);
    WithoutLast(d, gone);
    WithoutLast(d, gone + {x});
    if last == x {
      WithoutUnchanged(init, gone, x);
      CutLast(wi, x, r);
    } else if last in gone {
      WithoutOneMore(init, gone, x, r);
    } else {
      assert r < |wi|;
      WithoutOneMore(init, gone, x, r);
      CutBeforeLast(wi, last, r);
    }
  }

  /** The last element of a sequence without repetitions does not occur before it. */
  lemma DistinctInit(d: seq<int>)
    requires Distinct(d) && d != []
    ensures d[|d| - 1] !in d[..|d| - 1] && Distinct(d[..|d| - 1])
  {
  }

  /** Cutting out the last element of w + [x], which does not occur in w, leaves w. */
  lemma CutLast(w: seq<int>, x: int, r: int)
    requires x !in w && 0 <= r <= |w| && (w + [x])[r] == x
    ensures r == |w| && (w + [x])[..r] + (w + [x])[r + 1..] == w
  {
    assert (w + [x])[..|w|] == w;
  }

  /** Cutting out an index before the last element of w + [y] commutes with appending y. */
  lemma CutBeforeLast(w: seq<int>, y: int, r: int)
    requires 0 <= r < |w|
    ensures (w + [y])[..r] + (w + [y])[r + 1..] == (w[..r] + w[r + 1..]) + [y]
  {
    var e := w + [y];
    assert e[..r] == w[..r];
    assert e[r + 1..] == w[r + 1..] + [y];
  }

  /** Adding an element that does not occur in d to the removed set changes nothing. */
  lemma {:induction false} WithoutUnchanged(d: seq<int>, gone: set<int>, x: int)
    requires x !in d
    ensures Without(d, gone + {x}) == Without(d, gone)
    decreases |d|
  {
    if d != [] {
      var n := |d| - 1;
      assert d[..n] + [d[n]] == d;
      WithoutUnchanged(d[..n], gone, x);
    }
  }

  /** The numbering after taking out the entry at index r: entries below r keep their
      index, entries above move down by one. */
  function Shifted(m: map<int, int>, r: int): (s: map<int, int>)
    ensures s.Keys == m.Keys
    ensures forall k :: k in m && m[k] <= r ==> s[k] == m[k]
    ensures forall k :: k in m && m[k] > r ==> s[k] == m[k] - 1
  {
    map k | k in m :: if m[k] > r then m[k] - 1 else m[k]
  }

  /** Cutting out index r of a sequence without repetitions shifts its positions. */
  lemma PositionsCut(w: seq<int>, r: int)
    requires Distinct(w) && 0 <= r < |w|
    ensures Distinct(w[..r] + w[r + 1..])
    ensures Positions(w[..r] + w[r + 1..]) == Shifted(Positions(w) - {w[r]}, r)
  {
    var cut := w[..r] + w[r + 1..];
    CutAt(w, r, cut);
    ShiftPositions(w, cut, r);
  }

  lemma CutAt(w: seq<int>, r: int, cut: seq<int>)
    requires 0 <= r < |w| && cut == w[..r] + w[r + 1..]
    ensures |cut| == |w| - 1
    ensures forall k {:trigger cut[k]} :: 0 <= k < |cut| ==> cut[k] == if k < r then w[k] else w[k + 1]
  {
  }

  /** The positions in a sequence whose element k is element k of w below r and
      element k + 1 of w from r on. */
  lemma ShiftPositions(w: seq<int>, cut: seq<int>, r: int)
    requires Distinct(w) && 0 <= r < |w|
    requires |cut| == |w| - 1
    requires forall k {:trigger cut[k]} :: 0 <= k < |cut| ==> cut[k] == if k < r then w[k] else w[k + 1]
    ensures Distinct(cut)
    ensures Positions(cut) == Shifted(Positions(w) - {w[r]}, r)
  {
    CutDistinct(w, cut, r);
    var p := Positions(w);
    var lhs, rhs := Positions(cut), Shifted(p - {w[r]}, r);
    forall x | x in lhs
      ensures x in rhs && lhs[x] == rhs[x]
    {
      CutKeeps(w, cut, r, x);
    }
    forall x | x in rhs
      ensures x in lhs
    {
      CutReaches(w, cut, r, x);
    }
    SameMap(lhs, rhs);
  }

  lemma CutDistinct(w: seq<int>, cut: seq<int>, r: int)
    requires Distinct(w) && 0 <= r < |w|
    requires |cut| == |w| - 1
    requires forall k {:trigger cut[k]} :: 0 <= k < |cut| ==> cut[k] == if k < r then w[k] else w[k + 1]
    ensures Distinct(cut)
  {
    forall j, k | 0 <= j < k < |cut|
      ensures cut[j] != cut[k]
    {
      CutIndex(w, cut, r, j);
      CutIndex(w, cut, r, k);
    }
  }

  /** An element of the cut sequence was in w at a position other than r, one
      further on from r. */
  lemma CutKeeps(w: seq<int>, cut: seq<int>, r: int, x: int)
    requires Distinct(w) && Distinct(cut) && 0 <= r < |w|
    requires |cut| == |w| - 1
    requires forall k {:trigger cut[k]} :: 0 <= k < |cut| ==> cut[k] == if k < r then w[k] else w[k + 1]
    requires x in Positions(cut)
    ensures x in Shifted(Positions(w) - {w[r]}, r)
    ensures Positions(cut)[x] == Shifted(Positions(w) - {w[r]}, r)[x]
  {
    var j := CutSource(w, cut, r, x);
    PositionOf(w, j);
    assert w[j] != w[r];
    ShiftedValue(Positions(w), w[r], r, x, j);
  }

  /** The shifted index of a key other than the removed one. */
  lemma ShiftedValue(m: map<int, int>, gone: int, r: int, x: int, j: int)
    requires x in m && m[x] == j && x != gone && j != r
    ensures x in Shifted(m - {gone}, r) && Shifted(m - {gone}, r)[x] == if j < r then j else j - 1
  {
  }

  /** The index in w of an element of the cut sequence, and how it relates to the
      element's index in the cut sequence. */
  lemma CutSource(w: seq<int>, cut: seq<int>, r: int, x: int) returns (j: int)
    requires Distinct(cut) && 0 <= r < |w|
    requires |cut| == |w| - 1
    requires forall k {:trigger cut[k]} :: 0 <= k < |cut| ==> cut[k] == if k < r then w[k] else w[k + 1]
    requires x in Positions(cut)
    ensures 0 <= j < |w| && j != r && w[j] == x
    ensures Positions(cut)[x] == if j < r then j else j - 1
  {
    var k := Positions(cut)[x];
    CutIndex(w, cut, r, k);
    j := if k < r then k else k + 1;
  }

  /** An element of w other than w[r] is in the cut sequence. */
  lemma CutReaches(w: seq<int>, cut: seq<int>, r: int, x: int)
    requires Distinct(w) && Distinct(cut) && 0 <= r < |w|
    requires |cut| == |w| - 1
    requires forall k {:trigger cut[k]} :: 0 <= k < |cut| ==> cut[k] == if k < r then w[k] else w[k + 1]
    requires x in Shifted(Positions(w) - {w[r]}, r)
    ensures x in Positions(cut)
  {
    var q := Positions(w) - {w[r]};
    assert x in q;
    assert x in Positions(w) && x != w[r];
    assert x in w;
    CutMember(w, cut, r, x);
  }

  lemma CutMember(w: seq<int>, cut: seq<int>, r: int, x: int)
    requires 0 <= r < |w|
    requires |cut| == |w| - 1
    requires forall k {:trigger cut[k]} :: 0 <= k < |cut| ==> cut[k] == if k < r then w[k] else w[k + 1]
    requires x in w && x != w[r]
    ensures x in cut
  {
    var j :| 0 <= j < |w| && w[j] == x;
    assert j != r;
    var k := if j < r then j else j - 1;
    CutIndex(w, cut, r, k);
    assert cut[k] == x;
  }

  lemma PositionOf(d: seq<int>, k: int)
    requires Distinct(d) && 0 <= k < |d|
    ensures d[k] in Positions(d) && Positions(d)[d[k]] == k
  {
  }

  lemma CutIndex(w: seq<int>, cut: seq<int>, r: int, k: int)
    requires 0 <= r < |w| && |cut| == |w| - 1
    requires forall k {:trigger cut[k]} :: 0 <= k < |cut| ==> cut[k] == if k < r then w[k] else w[k + 1]
    requires 0 <= k < |cut|
    ensures k < r ==> cut[k] == w[k]
    ensures k >= r ==> cut[k] == w[k + 1]
  {
  }

  /** Two maps with the same keys and the same value at every key are equal. */
  lemma SameMap(a: map<int, int>, b: map<int, int>)
    requires forall x :: x in a ==> x in b && a[x] == b[x]
    requires forall x :: x in b ==> x in a
    ensures a == b
  {
    forall x
      ensures x in a <==> x in b
    {
      if x in a {
        assert a[x] == b[x];
      }
    }
    assert a.Keys == b.Keys;
    assert forall x :: x in a ==> a[x] == b[x];
  }

  /** The users counted as too sparse among the given ones. */
  function Sparse(users: set<int>, ratingCountByUser: map<int, int>, minCountOfRatings: int): (s: set<int>)
    ensures forall x :: x in s <==> x in users && x in ratingCountByUser && ratingCountByUser[x] < minCountOfRatings
  {
    set x | x in users && x in ratingCountByUser && ratingCountByUser[x] < minCountOfRatings
  }

  /** The sequence lists every key of the set once: an enumeration of a dictionary's
      keys (Keys.ToList()) in the dictionary's own order. */
  ghost predicate Enumerates(keys: seq<int>, of: set<int>) {
    Distinct(keys) && forall x :: x in keys <==> x in of
  }

  lemma SparseAdd(users: set<int>, ratingCountByUser: map<int, int>, minCountOfRatings: int, x: int)
    requires x in ratingCountByUser
    ensures Sparse(users + {x}, ratingCountByUser, minCountOfRatings) ==
              Sparse(users, ratingCountByUser, minCountOfRatings) +
              (if ratingCountByUser[x] < minCountOfRatings then {x} else {})
  {
  }

  /** The inner loop of pass 2: after a removal, every index above the removed one
      moves down by one. The keys are visited in the given enumeration order. */
  method ShiftDown(userByIndex: map<int, int>, indexOfRemovedUser: int, keys: seq<int>) returns (shifted: map<int, int>)
    requires Enumerates(keys, userByIndex.Keys)
    ensures shifted == Shifted(userByIndex, indexOfRemovedUser)
  {
    ghost var target := Shifted(userByIndex, indexOfRemovedUser);
    shifted := userByIndex;
    for j := 0 to |keys|
      invariant shifted.Keys == userByIndex.Keys
      invariant forall k :: k in shifted ==> shifted[k] == if k in keys[..j] then target[k] else userByIndex[k]
    {
      var key := keys[j];
      assert key !in keys[..j];
      assert keys[..j + 1] == keys[..j] + [key];
      if shifted[key] > indexOfRemovedUser {
        shifted := shifted[key := shifted[key] - 1];
      }
    }
    assert keys[..|keys|] == keys;
    forall k | k in shifted
      ensures shifted[k] == target[k]
    {
      assert k in keys;
    }
    assert shifted.Keys == target.Keys;
  }

  /** The body of pass 2 for a user with too few ratings: the user's entry is
      removed and the indices above it move down. The keys still present are
      visited in the enumeration order with the removed users left out. */
  method RemoveUser(kept: map<int, int>, removedUsers: set<int>, fileIndexOfUser: int,
                    indexes: seq<int>, ghost order: seq<int>)
    returns (kept': map<int, int>, removedUsers': set<int>)
    requires Distinct(order) && Distinct(indexes) && forall x :: x in indexes <==> x in order
    requires kept == Positions(Without(order, removedUsers))
    requires fileIndexOfUser in order && fileIndexOfUser !in removedUsers
    ensures removedUsers' == removedUsers + {fileIndexOfUser}
    ensures kept' == Positions(Without(order, removedUsers'))
    ensures |Without(order, removedUsers')| + 1 == |Without(order, removedUsers)|
  {
    ghost var w := Without(order, removedUsers);
    var indexOfRemovedUser := kept[fileIndexOfUser];
    WithoutOneMore(order, removedUsers, fileIndexOfUser, indexOfRemovedUser);
    PositionsCut(w, indexOfRemovedUser);
    RemainingEnumerated(indexes, order, removedUsers, kept, fileIndexOfUser);
    kept' := kept - {fileIndexOfUser};
    removedUsers' := removedUsers + {fileIndexOfUser};
    kept' := ShiftDown(kept', indexOfRemovedUser, Without(indexes, removedUsers'));
  }

  /** The users not yet removed, in enumeration order, enumerate the remaining keys. */
  lemma RemainingEnumerated(indexes: seq<int>, order: seq<int>, removedUsers: set<int>, kept: map<int, int>, x: int)
    requires Distinct(order) && Distinct(indexes) && forall y :: y in indexes <==> y in order
    requires kept == Positions(Without(order, removedUsers))
    ensures Enumerates(Without(indexes, removedUsers + {x}), (kept - {x}).Keys)
  {
  }

  lemma AddFresh(s: set<int>, x: int)
    requires x !in s
    ensures |s + {x}| == |s| + 1
  {
  }

  /** One turn of pass 2: a user with too few ratings is removed and counted. */
  method VisitUser(ratingCountByUser: map<int, int>, minCountOfRatings: int, fileIndexOfUser: int,
                   kept: map<int, int>, removedUsers: set<int>, countOfRemovedUsers: nat,
                   indexes: seq<int>, ghost order: seq<int>)
    returns (kept': map<int, int>, removedUsers': set<int>, countOfRemovedUsers': nat)
    requires Distinct(order) && Distinct(indexes) && forall x :: x in indexes <==> x in order
    requires kept == Positions(Without(order, removedUsers))
    requires fileIndexOfUser in order && fileIndexOfUser !in removedUsers && fileIndexOfUser in ratingCountByUser
    ensures var sparse := ratingCountByUser[fileIndexOfUser] < minCountOfRatings;
            removedUsers' == removedUsers + (if sparse then {fileIndexOfUser} else {}) &&
            countOfRemovedUsers' == countOfRemovedUsers + (if sparse then 1 else 0) &&
            |removedUsers'| == |removedUsers| + (if sparse then 1 else 0) &&
            |Without(order, removedUsers')| + (if sparse then 1 else 0) == |Without(order, removedUsers)|
    ensures kept' == Positions(Without(order, removedUsers'))
  {
    kept', removedUsers', countOfRemovedUsers' := kept, removedUsers, countOfRemovedUsers;
    if ratingCountByUser[fileIndexOfUser] < minCountOfRatings {
      kept', removedUsers' := RemoveUser(kept, removedUsers, fileIndexOfUser, indexes, order);
      AddFresh(removedUsers, fileIndexOfUser);
      countOfRemovedUsers' := countOfRemovedUsers + 1;
    }
  }

  /** Pass 2 (removing users with too few ratings). The users are visited in the
      enumeration order of the dictionary, which is left open: every enumeration
      gives the same numbering, the first-appearance order with the sparse users
      taken out. */
  method RemoveSparseUsers(userByIndex: map<int, int>, ratingCountByUser: map<int, int>,
                           minCountOfRatings: int, indexes: seq<int>, ghost order: seq<int>)
    returns (kept: map<int, int>, countOfRemovedUsers: nat)
    requires Distinct(order) && userByIndex == Positions(order)
    requires userByIndex.Keys <= ratingCountByUser.Keys
    requires Enumerates(indexes, userByIndex.Keys)
    ensures kept == Positions(Without(order, Sparse(userByIndex.Keys, ratingCountByUser, minCountOfRatings)))
    ensures forall x :: x in kept <==> x in userByIndex && ratingCountByUser[x] >= minCountOfRatings
    ensures Dense(kept)
    ensures countOfRemovedUsers == |Sparse(userByIndex.Keys, ratingCountByUser, minCountOfRatings)|
    ensures countOfRemovedUsers + |kept| == |userByIndex|
  {
    EnumeratesOrder(indexes, order, userByIndex, ratingCountByUser);
    PruningStart(order, ratingCountByUser, minCountOfRatings, userByIndex);
    kept, countOfRemovedUsers := VisitAll(userByIndex, ratingCountByUser, minCountOfRatings, indexes, order);
    Pruned(order, userByIndex, ratingCountByUser, minCountOfRatings,
           Sparse(userByIndex.Keys, ratingCountByUser, minCountOfRatings), kept, countOfRemovedUsers);
  }

  /** An enumeration of the numbered users lists the users of the numbering's order. */
  lemma EnumeratesOrder(indexes: seq<int>, order: seq<int>, userByIndex: map<int, int>, ratingCountByUser: map<int, int>)
    requires Distinct(order) && userByIndex == Positions(order)
    requires userByIndex.Keys <= ratingCountByUser.Keys
    requires Enumerates(indexes, userByIndex.Keys)
    ensures Distinct(indexes) && forall x :: x in indexes <==> x in order
    ensures forall x :: x in indexes ==> x in ratingCountByUser
    ensures (set x | x in indexes) == userByIndex.Keys
  {
    assert forall x :: x in (set x | x in indexes) <==> x in userByIndex.Keys;
  }

  /** Before pass 2 nobody is removed and the numbering is the original one. */
  lemma PruningStart(order: seq<int>, ratingCountByUser: map<int, int>, minCountOfRatings: int, userByIndex: map<int, int>)
    requires Distinct(order) && userByIndex == Positions(order)
    ensures Pruning(order, ratingCountByUser, minCountOfRatings, {}, {}, userByIndex, 0)
  {
    WithoutNothing(order);
  }

  /** The loop of pass 2, visiting the users in the given enumeration order. */
  method VisitAll(userByIndex: map<int, int>, ratingCountByUser: map<int, int>, minCountOfRatings: int,
                  indexes: seq<int>, ghost order: seq<int>)
    returns (kept: map<int, int>, countOfRemovedUsers: nat)
    requires Distinct(order) && Distinct(indexes) && forall x :: x in indexes <==> x in order
    requires forall x :: x in indexes ==> x in ratingCountByUser
    requires Pruning(order, ratingCountByUser, minCountOfRatings, {}, {}, userByIndex, 0)
    ensures Pruning(order, ratingCountByUser, minCountOfRatings, (set x | x in indexes),
                    Sparse((set x | x in indexes), ratingCountByUser, minCountOfRatings), kept, countOfRemovedUsers)
  {
    kept := userByIndex;
    countOfRemovedUsers := 0;
    var removedUsers: set<int> := {};
    ghost var visited: set<int> := {};
    for j := 0 to |indexes|
      invariant forall x :: x in visited <==> x in indexes[..j]
      invariant Pruning(order, ratingCountByUser, minCountOfRatings, visited, removedUsers, kept, countOfRemovedUsers)
    {
      var fileIndexOfUser := indexes[j];
      assert fileIndexOfUser !in visited && fileIndexOfUser !in removedUsers;
      ghost var before := (removedUsers, countOfRemovedUsers);
      kept, removedUsers, countOfRemovedUsers :=
        VisitUser(ratingCountByUser, minCountOfRatings, fileIndexOfUser, kept, removedUsers, countOfRemovedUsers, indexes, order);
      PruningStep(order, ratingCountByUser, minCountOfRatings, visited, before.0, before.1,
                  fileIndexOfUser, removedUsers, kept, countOfRemovedUsers);
      VisitedGrows(indexes, j, visited);
      visited := visited + {fileIndexOfUser};
    }
    assert indexes[..|indexes|] == indexes;
    assert forall x :: x in visited <==> x in indexes;
    assert visited == set x | x in indexes;
  }

  /** The state of pass 2 after visiting some users: those among them with too few
      ratings are removed and counted, and the others keep their order. */
  ghost predicate Pruning(order: seq<int>, ratingCountByUser: map<int, int>, minCountOfRatings: int,
                          visited: set<int>, removedUsers: set<int>, kept: map<int, int>, countOfRemovedUsers: nat) {
    Distinct(order) &&
    removedUsers == Sparse(visited, ratingCountByUser, minCountOfRatings) &&
    kept == Positions(Without(order, removedUsers)) &&
    countOfRemovedUsers == |removedUsers| &&
    countOfRemovedUsers + |Without(order, removedUsers)| == |order|
  }

  lemma PruningStep(order: seq<int>, ratingCountByUser: map<int, int>, minCountOfRatings: int,
                    visited: set<int>, removedUsers: set<int>, countOfRemovedUsers: nat, x: int,
                    removedUsers': set<int>, kept': map<int, int>, countOfRemovedUsers': nat)
    requires Distinct(order) && x in ratingCountByUser
    requires removedUsers == Sparse(visited, ratingCountByUser, minCountOfRatings)
    requires countOfRemovedUsers == |removedUsers|
    requires countOfRemovedUsers + |Without(order, removedUsers)| == |order|
    requires var sparse := ratingCountByUser[x] < minCountOfRatings;
             removedUsers' == removedUsers + (if sparse then {x} else {}) &&
             countOfRemovedUsers' == countOfRemovedUsers + (if sparse then 1 else 0) &&
             |removedUsers'| == |removedUsers| + (if sparse then 1 else 0) &&
             |Without(order, removedUsers')| + (if sparse then 1 else 0) == |Without(order, removedUsers)|
    requires kept' == Positions(Without(order, removedUsers'))
    ensures Pruning(order, ratingCountByUser, minCountOfRatings, visited + {x}, removedUsers', kept', countOfRemovedUsers')
  {
    SparseAdd(visited, ratingCountByUser, minCountOfRatings, x);
  }

  /** What pass 2 establishes once every user has been visited. */
  lemma Pruned(order: seq<int>, userByIndex: map<int, int>, ratingCountByUser: map<int, int>, minCountOfRatings: int,
               removedUsers: set<int>, kept: map<int, int>, countOfRemovedUsers: nat)
    requires Distinct(order) && userByIndex == Positions(order) && userByIndex.Keys <= ratingCountByUser.Keys
    requires Pruning(order, ratingCountByUser, minCountOfRatings, userByIndex.Keys, removedUsers, kept, countOfRemovedUsers)
    ensures kept == Positions(Without(order, Sparse(userByIndex.Keys, ratingCountByUser, minCountOfRatings)))
    ensures forall x :: x in kept <==> x in userByIndex && ratingCountByUser[x] >= minCountOfRatings
    ensures Dense(kept)
    ensures countOfRemovedUsers == |Sparse(userByIndex.Keys, ratingCountByUser, minCountOfRatings)|
    ensures countOfRemovedUsers + |kept| == |userByIndex|
  {
    PositionsDense(Without(order, removedUsers));
  }

  lemma VisitedGrows(indexes: seq<int>, j: int, visited: set<int>)
    requires 0 <= j < |indexes|
    requires forall x :: x in visited <==> x in indexes[..j]
    ensures forall x :: x in visited + {indexes[j]} <==> x in indexes[..j + 1]
  {
    assert indexes[..j + 1] == indexes[..j] + [indexes[j]];
  }

  /** Removing users keeps the relative order of the remaining ones. */
  lemma WithoutKeepsOrder(d: seq<int>, gone: set<int>, x: int, y: int)
    requires Distinct(d)
    requires x in Without(d, gone) && y in Without(d, gone)
    ensures Positions(Without(d, gone))[x] < Positions(Without(d, gone))[y] <==> Positions(d)[x] < Positions(d)[y]
  {
    WithoutPrecedes(d, gone, x, y);
    PrecedesPositions(Without(d, gone), x, y);
    PrecedesPositions(d, x, y);
  }

  /** x occurs in s before y does. */
  predicate Precedes(s: seq<int>, x: int, y: int)
    decreases |s|
  {
    s != [] &&
    var n := |s| - 1;
    if s[n] == y then x in s[..n] else Precedes(s[..n], x, y)
  }

  /** Removing elements other than x and y does not change whether x comes before y. */
  lemma {:induction false} WithoutPrecedes(d: seq<int>, gone: set<int>, x: int, y: int)
    requires x !in gone && y !in gone
    ensures Precedes(Without(d, gone), x, y) <==> Precedes(d, x, y)
    decreases |d|
  {
    if d != [] {
      var n := |d| - 1;
      var init, last := d[..n], d[n];
      var wi := Without(init, gone);
      WithoutLast(d, gone);
      WithoutPrecedes(init, gone, x, y);
      if last !in gone {
        var e := wi + [last];
        assert e[..|e| - 1] == wi;
      }
    }
  }

  /** In a sequence without repetitions, x precedes y exactly when its index is
      smaller. */
  lemma {:induction false} PrecedesPositions(s: seq<int>, x: int, y: int)
    requires Distinct(s) && x in s && y in s
    ensures Precedes(s, x, y) <==> Positions(s)[x] < Positions(s)[y]
    decreases |s|
  {
    var n := |s| - 1;
    var init, last := s[..n], s[n];
    DistinctInit(s);
    PositionsLast(s);
    if y != last {
      InInit(s, y);
      if x == last {
        if Precedes(init, x, y) {
          PrecedesMember(init, x, y);
        }
        PositionBelow(init, y);
      } else {
        InInit(s, x);
        PrecedesPositions(init, x, y);
      }
    } else if x != last {
      InInit(s, x);
      PositionBelow(init, x);
    }
  }

  /** An element of s other than its last one occurs before it. */
  lemma InInit(s: seq<int>, x: int)
    requires x in s && x != s[|s| - 1]
    ensures x in s[..|s| - 1]
  {
    assert s == s[..|s| - 1] + [s[|s| - 1]];
  }

  /** Only elements of s precede one another in s. */
  lemma {:induction false} PrecedesMember(s: seq<int>, x: int, y: int)
    requires Precedes(s, x, y)
    ensures x in s
    decreases |s|
  {
    var n := |s| - 1;
    assert s == s[..n] + [s[n]];
    if s[n] != y {
      PrecedesMember(s[..n], x, y);
    }
  }

  /** An element's position lies below the length of the sequence. */
  lemma PositionBelow(s: seq<int>, x: int)
    requires Distinct(s) && x in s
    ensures x in Positions(s) && Positions(s)[x] < |s|
  {
  }

  lemma PositionsLast(d: seq<int>)
    requires Distinct(d) && d != []
    ensures Positions(d) == Positions(d[..|d| - 1])[d[|d| - 1] := |d| - 1]
  {
  }

  lemma WithoutLast(d: seq<int>, gone: set<int>)
    requires d != []
    ensures Without(d, gone) ==
              if d[|d| - 1] in gone then Without(d[..|d| - 1], gone)
              else Without(d[..|d| - 1], gone) + [d[|d| - 1]]
  {
  }

  lemma PositionsAppend(d: seq<int>, x: int)
    requires Distinct(d) && x !in d
    ensures Distinct(d + [x])
    ensures Positions(d + [x]) == Positions(d)[x := |d|]
  {
    DistinctAppend(d, x);
    var e := d + [x];
    assert e[..|e| - 1] == d;
    assert Positions(e) == Positions(e[..|e| - 1])[e[|e| - 1] := |e| - 1];
  }

  lemma DistinctAppend(d: seq<int>, x: int)
    requires Distinct(d) && x !in d
    ensures Distinct(d + [x])
  {
    var e := d + [x];
    forall j, k | 0 <= j < k < |e|
      ensures e[j] != e[k]
    {
      if k < |d| {
        assert e[j] == d[j] && e[k] == d[k];
      } else {
        assert e[j] == d[j] && e[k] == x;
      }
    }
  }
}
