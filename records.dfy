/** The parsed lines of a MovieLens rating file (user id, item id, rating, separated
    by tabs) and the projections of a sequence of lines the loader works with. */
module Records {

  /** One line of the rating file, as int.Parse and double.Parse read its first three
      fields. */
  datatype Record = Record(user: int, item: int, rating: real)

  function UserOf(r: Record): int { r.user }
  function ItemOf(r: Record): int { r.item }
  function PairOf(r: Record): (int, int) { (r.user, r.item) }

  /** The sequence of f applied to every element, in order. */
  function Project<A, B>(s: seq<A>, f: A -> B): (r: seq<B>)
    ensures |r| == |s|
    decreases |s|
  {
    if s == [] then [] else Project(s[..|s| - 1], f) + [f(s[|s| - 1])]
  }

  function UserIds(rs: seq<Record>): seq<int> { Project(rs, UserOf) }
  function ItemIds(rs: seq<Record>): seq<int> { Project(rs, ItemOf) }
  function Pairs(rs: seq<Record>): seq<(int, int)> { Project(rs, PairOf) }

  /** How many times x occurs in s. */
  function Occurrences(s: seq<int>, x: int): nat { multiset(s)[x] }

  /** No (user, item) pair is rated on two lines. */
  predicate NoRepeatedPair(rs: seq<Record>) {
    forall p | p in multiset(Pairs(rs)) :: multiset(Pairs(rs))[p] <= 1
  }

  /** Element k of the projection is f of element k. */
  lemma {:induction false} ProjectAt<A, B>(s: seq<A>, f: A -> B, k: int)
    requires 0 <= k < |s|
    ensures Project(s, f)[k] == f(s[k])
    decreases |s|
  {
    var n := |s| - 1;
    if k < n {
      ProjectAt(s[..n], f, k);
    }
  }

  /** No two lines rate the same (user, item) pair, stated on positions. */
  predicate DistinctPairs(rs: seq<Record>) {
    forall j, k :: 0 <= j < k < |rs| ==> PairOf(rs[j]) != PairOf(rs[k])
  }

  /** The two ways of saying that no pair repeats agree. */
  lemma NoRepeatedPairDistinct(rs: seq<Record>)
    requires NoRepeatedPair(rs)
    ensures DistinctPairs(rs)
  {
    forall j, k | 0 <= j < k < |rs|
      ensures PairOf(rs[j]) != PairOf(rs[k])
    {
      var ps := Pairs(rs);
      ProjectAt(rs, PairOf, j);
      ProjectAt(rs, PairOf, k);
      SeenTwice(ps, j, k);
    }
  }

  /** A value at two positions of a sequence is counted at least twice. */
  lemma SeenTwice<T>(s: seq<T>, j: int, k: int)
    requires 0 <= j < k < |s|
    ensures s[j] == s[k] ==> multiset(s)[s[k]] >= 2
  {
    SplitAt(s, k);
    var rest := s[..k] + s[k + 1..];
    assert multiset(s) == multiset(rest) + multiset{s[k]} by {
      assert multiset(s) == multiset(s[..k]) + multiset{s[k]} + multiset(s[k + 1..]);
    }
    assert rest[j] == s[j];
    assert s[j] in multiset(rest);
  }

  lemma {:induction false} ProjectAppend<A, B>(s: seq<A>, t: seq<A>, f: A -> B)
    ensures Project(s + t, f) == Project(s, f) + Project(t, f)
    decreases |t|
  {
    if t == [] {
      assert s + t == s;
    } else {
      var n := |t| - 1;
      assert (s + t)[..|s + t| - 1] == s + t[..n];
      ProjectAppend(s, t[..n], f);
    }
  }

  lemma SplitAt<A>(b: seq<A>, k: int)
    requires 0 <= k < |b|
    ensures b == b[..k] + [b[k]] + b[k + 1..]
  {
  }

  /** Taking out the element at k takes its image out of the projection. */
  lemma ProjectRemove<A, B>(b: seq<A>, k: int, f: A -> B)
    requires 0 <= k < |b|
    ensures multiset(b) == multiset(b[..k] + b[k + 1..]) + multiset{b[k]}
    ensures multiset(Project(b, f)) == multiset(Project(b[..k] + b[k + 1..], f)) + multiset{f(b[k])}
  {
    SplitAt(b, k);
    MiddleOut(b[..k], b[k], b[k + 1..]);
    ProjectSplit(b, k, f);
    MiddleOut(Project(b[..k], f), f(b[k]), Project(b[k + 1..], f));
  }

  /** The multiset of l + [y] + r is that of l + r with y added. */
  lemma MiddleOut<T>(l: seq<T>, y: T, r: seq<T>)
    ensures multiset(l + [y] + r) == multiset(l + r) + multiset{y}
  {
  }

  /** The projection of b around position k. */
  lemma ProjectSplit<A, B>(b: seq<A>, k: int, f: A -> B)
    requires 0 <= k < |b|
    ensures Project(b, f) == Project(b[..k], f) + [f(b[k])] + Project(b[k + 1..], f)
    ensures Project(b[..k] + b[k + 1..], f) == Project(b[..k], f) + Project(b[k + 1..], f)
  {
    var l, m, r := b[..k], [b[k]], b[k + 1..];
    SplitAt(b, k);
    ProjectAppend(l + m, r, f);
    ProjectAppend(l, m, f);
    ProjectAppend(l, r, f);
    assert Project(m, f) == [f(b[k])] by {
      assert m[..0] == [];
    }
  }

  lemma Cancel<T>(m: multiset<T>, n: multiset<T>, x: T)
    requires m + multiset{x} == n + multiset{x}
    ensures m == n
  {
    assert m == m + multiset{x} - multiset{x};
  }

  /** Reordering a sequence reorders its projection the same way: the projected
      multisets agree. */
  lemma {:induction false} ProjectPermutation<A, B>(a: seq<A>, b: seq<A>, f: A -> B)
    requires multiset(a) == multiset(b)
    ensures multiset(Project(a, f)) == multiset(Project(b, f))
    decreases |a|
  {
    if a == [] {
      assert |multiset(b)| == 0;
    } else {
      var n := |a| - 1;
      assert a[n] in multiset(b) by {
        assert a[n] in multiset(a);
      }
      var k :| 0 <= k < |b| && b[k] == a[n];
      var rest := b[..k] + b[k + 1..];
      ProjectRemove(b, k, f);
      ProjectRemove(a, n, f);
      assert a[..n] + a[n + 1..] == a[..n];
      Cancel(multiset(a[..n]), multiset(rest), a[n]);
      ProjectPermutation(a[..n], rest, f);
    }
  }

  /** A permutation of the lines has, for every user, as many lines of that user, and
      repeats no more pairs. */
  lemma PermutationKeepsCounts(a: seq<Record>, b: seq<Record>)
    requires multiset(a) == multiset(b)
    ensures forall x :: Occurrences(UserIds(a), x) == Occurrences(UserIds(b), x)
    ensures NoRepeatedPair(a) <==> NoRepeatedPair(b)
  {
    ProjectPermutation(a, b, UserOf);
    ProjectPermutation(a, b, PairOf);
    assert multiset(Pairs(a)) == multiset(Pairs(b));
  }
}
