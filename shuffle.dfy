/** The in-place Fisher–Yates shuffle the loader applies to the lines of the rating
    file. The random generator is replaced by the sequence of numbers it hands out:
    the step that works on the first n + 1 elements draws a number in 0 .. n. */
module ExtensionsToDotNet {
  import Records

  /** The draws a generator can hand out for a list of the given length: one per step,
      the draw of step j lying in 0 .. length - 1 - j. */
  predicate ValidChoices(choices: seq<int>, length: int) {
    |choices| >= length - 1 &&
    forall j :: 0 <= j < length - 1 ==> 0 <= choices[j] <= length - 1 - j
  }

  /** s with the elements at i and j exchanged. */
  function Swap<T>(s: seq<T>, i: int, j: int): (t: seq<T>)
    requires 0 <= i < |s| && 0 <= j < |s|
    ensures |t| == |s| && t[i] == s[j] && t[j] == s[i]
    ensures forall k :: 0 <= k < |s| && k != i && k != j ==> t[k] == s[k]
    ensures multiset(t) == multiset(s)
  {
    s[i := s[j]][j := s[i]]
  }

  /** The order the shuffle leaves s in when the generator hands out the given draws:
      the last element is exchanged with the drawn one and stays put, and the rest is
      shuffled with the remaining draws. */
  function Shuffled<T>(s: seq<T>, choices: seq<int>): (r: seq<T>)
    requires ValidChoices(choices, |s|)
    ensures |r| == |s|
    ensures multiset(r) == multiset(s)
    decreases |s|
  {
    if |s| <= 1 then s
    else
      var n := |s| - 1;
      var t := Swap(s, choices[0], n);
      assert t == t[..n] + [t[n]];
      Shuffled(t[..n], choices[1..]) + [t[n]]
  }

  /** Shuffles the array in place (Utils.cs, ExtensionsToDotNet.Shuffle). */
  method Shuffle<T>(list: array<T>, choices: seq<int>)
    requires ValidChoices(choices, list.Length)
    modifies list
    ensures list[..] == Shuffled(old(list[..]), choices)
    ensures multiset(list[..]) == multiset(old(list[..]))
  {
    var n := list.Length;
    var step := 0;
    PendingStart(list[..], choices);
    while n > 1
      invariant 0 <= n <= list.Length && step + n == list.Length && step <= |choices|
      invariant ValidChoices(choices[step..], n)
      invariant Shuffled(old(list[..]), choices) == Pending(list[..], choices, step, n)
      decreases n
    {
      ghost var before := list[..];
      n := n - 1;
      var k := choices[step];
      Exchange(list, k, n);
      ShuffleStep(before, list[..], choices, step, n, k);
      step := step + 1;
    }
    PendingDone(list[..], choices, step, n);
  }

  /** What the loop still owes when its first n elements are yet to be shuffled with
      the draws from step on: their shuffled order, followed by the settled rest. */
  function Pending<T>(a: seq<T>, choices: seq<int>, step: int, n: int): seq<T>
    requires 0 <= n <= |a| && 0 <= step <= |choices| && ValidChoices(choices[step..], n)
  {
    Shuffled(a[..n], choices[step..]) + a[n..]
  }

  lemma PendingStart<T>(a: seq<T>, choices: seq<int>)
    requires ValidChoices(choices, |a|)
    ensures choices[0..] == choices && Pending(a, choices, 0, |a|) == Shuffled(a, choices)
  {
    assert a[..|a|] == a && a[|a|..] == [];
    assert choices[0..] == choices;
  }

  lemma PendingDone<T>(a: seq<T>, choices: seq<int>, step: int, n: int)
    requires 0 <= n <= 1 && n <= |a| && 0 <= step <= |choices| && ValidChoices(choices[step..], n)
    ensures Pending(a, choices, step, n) == a
  {
    assert a[..n] + a[n..] == a;
  }

  /** Exchanges two elements of the array. */
  method Exchange<T>(list: array<T>, k: int, n: int)
    requires 0 <= k < list.Length && 0 <= n < list.Length
    modifies list
    ensures list[..] == Swap(old(list[..]), k, n)
  {
    var value := list[k];
    list[k] := list[n];
    list[n] := value;
  }

  /** One step of the loop: exchanging position n with the drawn k and stepping past n
      keeps the shuffled order of the whole the same. */
  lemma ShuffleStep<T>(before: seq<T>, after: seq<T>, choices: seq<int>, step: int, n: int, k: int)
    requires 0 <= step < |choices| && 1 <= n && n + 1 <= |before| && ValidChoices(choices[step..], n + 1)
    requires k == choices[step] && after == Swap(before, k, n)
    ensures ValidChoices(choices[step + 1..], n)
    ensures Pending(before, choices, step, n + 1) == Pending(after, choices, step + 1, n)
  {
    var cs := choices[step..];
    assert cs[1..] == choices[step + 1..];
    HeadShuffled(before, after, cs, n, k);
    SwapKeepsTail(before, after, n, k);
    ConcatAssoc(Shuffled(after[..n], cs[1..]), [after[n]], after[n + 1..]);
  }

  lemma ConcatAssoc<T>(a: seq<T>, b: seq<T>, c: seq<T>)
    ensures (a + b) + c == a + (b + c)
  {
  }

  /** The first n + 1 elements: the shuffle exchanges position n with the draw, keeps
      that element last and shuffles the others with the remaining draws. */
  lemma HeadShuffled<T>(before: seq<T>, after: seq<T>, choices: seq<int>, n: int, k: int)
    requires 1 <= n && n + 1 <= |before| && ValidChoices(choices, n + 1)
    requires k == choices[0] && after == Swap(before, k, n)
    ensures ValidChoices(choices[1..], n)
    ensures Shuffled(before[..n + 1], choices) == Shuffled(after[..n], choices[1..]) + [after[n]]
  {
    var head := before[..n + 1];
    var t := Swap(head, k, n);
    assert t[..n] == after[..n];
    assert t[n] == after[n];
    ShuffledUnfold(head, choices);
  }

  /** The exchange leaves everything after position n alone. */
  lemma SwapKeepsTail<T>(before: seq<T>, after: seq<T>, n: int, k: int)
    requires 0 <= k <= n < |before| && after == Swap(before, k, n)
    ensures before[n + 1..] == after[n + 1..]
    ensures after[n..] == [after[n]] + after[n + 1..]
  {
    SplitFirst(after[n..]);
    assert after[n..][1..] == after[n + 1..];
  }

  lemma SplitFirst<T>(s: seq<T>)
    requires |s| >= 1
    ensures s == [s[0]] + s[1..]
  {
  }

  lemma SplitLast<T>(s: seq<T>)
    requires |s| >= 1
    ensures s == s[..|s| - 1] + [s[|s| - 1]]
  {
  }

  /** The first index of x in s. */
  function IndexOf<T(==)>(s: seq<T>, x: T): (k: int)
    requires x in s
    ensures 0 <= k < |s| && s[k] == x
    ensures forall j :: 0 <= j < k ==> s[j] != x
  {
    if s[0] == x then 0 else 1 + IndexOf(s[1..], x)
  }

  /** The shuffle can produce every reordering of s: for every permutation b, these
      are draws the generator may hand out that lead to b. */
  function ReachingChoices<T(==)>(s: seq<T>, b: seq<T>): (choices: seq<int>)
    requires multiset(s) == multiset(b)
    ensures ValidChoices(choices, |s|) && Shuffled(s, choices) == b
    decreases |s|
  {
    SameSize(s, b);
    if |s| <= 1 then
      SmallPermutation(s, b);
      []
    else
      var n := |s| - 1;
      assert b[n] in multiset(s) by {
        assert b[n] in multiset(b);
      }
      var k := IndexOf(s, b[n]);
      RemainingPermutation(s, b, k);
      var rest := ReachingChoices(Swap(s, k, n)[..n], b[..n]);
      ReachStep(s, b, k, rest);
      [k] + rest
  }

  lemma SameSize<T>(s: seq<T>, b: seq<T>)
    requires multiset(s) == multiset(b)
    ensures |s| == |b|
  {
    assert |multiset(b)| == |multiset(s)|;
  }

  /** After the last element of b is moved to the end, the rest of s is a permutation
      of the rest of b. */
  lemma RemainingPermutation<T>(s: seq<T>, b: seq<T>, k: int)
    requires |s| >= 2 && |b| == |s| && multiset(s) == multiset(b)
    requires 0 <= k < |s| && s[k] == b[|s| - 1]
    ensures multiset(Swap(s, k, |s| - 1)[..|s| - 1]) == multiset(b[..|s| - 1])
  {
    var n := |s| - 1;
    var t := Swap(s, k, n);
    LastApart(t);
    LastApart(b);
    Records.Cancel(multiset(t[..n]), multiset(b[..n]), b[n]);
  }

  /** The multiset of a non-empty sequence is that of all but its last element plus the
      last element. */
  lemma LastApart<T>(s: seq<T>)
    requires |s| >= 1
    ensures multiset(s) == multiset(s[..|s| - 1]) + multiset{s[|s| - 1]}
  {
    SplitLast(s);
  }

  /** Drawing k first and then the draws that order the rest leads to b. */
  lemma ReachStep<T>(s: seq<T>, b: seq<T>, k: int, rest: seq<int>)
    requires |s| >= 2 && |b| == |s| && 0 <= k < |s| && s[k] == b[|s| - 1]
    requires ValidChoices(rest, |s| - 1)
    requires Shuffled(Swap(s, k, |s| - 1)[..|s| - 1], rest) == b[..|s| - 1]
    ensures ValidChoices([k] + rest, |s|) && Shuffled(s, [k] + rest) == b
  {
    var n := |s| - 1;
    ChoicesCons(k, rest, n);
    ShuffledUnfold(s, [k] + rest);
    assert Swap(s, k, n)[n] == b[n];
    SplitLast(b);
  }

  lemma ShuffledUnfold<T>(s: seq<T>, choices: seq<int>)
    requires |s| >= 2 && ValidChoices(choices, |s|)
    ensures Shuffled(s, choices) ==
            Shuffled(Swap(s, choices[0], |s| - 1)[..|s| - 1], choices[1..]) + [Swap(s, choices[0], |s| - 1)[|s| - 1]]
  {
  }

  lemma ChoicesCons(k: int, rest: seq<int>, n: int)
    requires 0 <= k <= n && ValidChoices(rest, n)
    ensures ValidChoices([k] + rest, n + 1) && ([k] + rest)[0] == k && ([k] + rest)[1..] == rest
  {
    var choices := [k] + rest;
    assert choices[1..] == rest;
    forall j | 0 <= j < n
      ensures 0 <= choices[j] <= n - j
    {
      if j > 0 {
        assert choices[j] == rest[j - 1];
      }
    }
  }

  lemma SmallPermutation<T>(s: seq<T>, b: seq<T>)
    requires |s| <= 1 && multiset(s) == multiset(b)
    ensures s == b
  {
    assert |b| == |multiset(b)| == |multiset(s)|;
    if |s| == 1 {
      assert b[0] in multiset(s);
    }
  }
}
