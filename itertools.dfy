/** Python's itertools.permutations, which the processor uses twice: with r = 2 to list
    the ordered pairs of cities, and with r = len(s) to list the interiors of the tours. */
module Itertools {

  /** No element occurs twice (the cities are the keys of a mapping, so they are distinct). */
  predicate NoDup<T(==)>(xs: seq<T>)
  {
    forall a, b :: 0 <= a < b < |xs| ==> xs[a] != xs[b]
  }

  function Factorial(n: nat): nat
  {
    if n == 0 then 1 else n * Factorial(n - 1)
  }

  /** n * (n - 1) * ... * (n - r + 1): the number of ordered selections of r items out of n. */
  function Falling(n: nat, r: nat): nat
  {
    if r == 0 then 1 else if n == 0 then 0 else n * Falling(n - 1, r - 1)
  }

  function RemoveAt<T(==)>(s: seq<T>, i: nat): seq<T>
    requires i < |s|
  {
    s[..i] + s[i + 1..]
  }

  /** Every sequence of xs with x put in front of it. */
  function Prefixed<T(==)>(x: T, xs: seq<seq<T>>): seq<seq<T>>
  {
    seq(|xs|, k requires 0 <= k < |xs| => [x] + xs[k])
  }

  /** permutations(s, r): the selections of r elements at distinct positions of s, in the
      lexicographic order of the chosen positions (empty when r > |s|, [[]] when r == 0). */
  function Arrangements<T(==)>(s: seq<T>, r: nat): seq<seq<T>>
    decreases |s|, 1
  {
    if r == 0 then [[]] else ArrangementsFrom(s, r, 0)
  }

  /** The arrangements of size r > 0 whose first element is taken from position i or later. */
  function ArrangementsFrom<T(==)>(s: seq<T>, r: nat, i: nat): seq<seq<T>>
    requires 0 < r && i <= |s|
    decreases |s|, 0, |s| - i
  {
    if i == |s| then []
    else Prefixed(s[i], Arrangements(RemoveAt(s, i), r - 1)) + ArrangementsFrom(s, r, i + 1)
  }

  /** permutations(s): every ordering of all of s. */
  function Permutations<T(==)>(s: seq<T>): seq<seq<T>>
  {
    Arrangements(s, |s|)
  }

  lemma MultisetRemoveAt<T>(s: seq<T>, i: nat)
    requires i < |s|
    ensures multiset(s) == multiset{s[i]} + multiset(RemoveAt(s, i))
  {
    assert s == s[..i] + [s[i]] + s[i + 1..];
  }

  lemma NoDupRemoveAt<T>(s: seq<T>, i: nat)
    requires NoDup(s) && i < |s|
    ensures NoDup(RemoveAt(s, i))
    ensures s[i] !in RemoveAt(s, i)
  {
  }

  lemma NoDupConcat<T>(a: seq<T>, b: seq<T>)
    requires NoDup(a) && NoDup(b)
    requires forall x :: x in a ==> x !in b
    ensures NoDup(a + b)
  {
    var c := a + b;
    forall i, j | 0 <= i < j < |c| ensures c[i] != c[j] {
      if j < |a| {
        assert c[i] == a[i] && c[j] == a[j];
      } else if i >= |a| {
        assert c[i] == b[i - |a|] && c[j] == b[j - |a|];
      } else {
        assert c[i] in a && c[j] in b;
      }
    }
  }

  /** An element of a distinct sequence occurs once in its multiset. */
  lemma {:induction false} NoDupHasSingleCounts<T>(s: seq<T>)
    requires NoDup(s)
    ensures forall x :: multiset(s)[x] <= 1
  {
    if s != [] {
      var init := s[..|s| - 1];
      assert s == init + [s[|s| - 1]];
      NoDupHasSingleCounts(init);
      assert s[|s| - 1] !in init;
    }
  }

  lemma SingleCountsHaveNoDup<T>(s: seq<T>)
    requires forall x :: multiset(s)[x] <= 1
    ensures NoDup(s)
  {
    forall a, b | 0 <= a < b < |s| ensures s[a] != s[b] {
      assert s == s[..b] + s[b..];
      assert s[b] in s[b..];
      assert multiset(s)[s[b]] == multiset(s[..b])[s[b]] + multiset(s[b..])[s[b]];
      assert s[b] !in s[..b];
      assert s[a] in s[..b];
    }
  }

  /** A rearrangement of a distinct sequence is distinct. */
  lemma RearrangementNoDup<T>(p: seq<T>, s: seq<T>)
    requires NoDup(s) && multiset(p) == multiset(s)
    ensures NoDup(p)
  {
    NoDupHasSingleCounts(s);
    SingleCountsHaveNoDup(p);
  }

  lemma SameSizeSubMultiset<T>(a: multiset<T>, b: multiset<T>)
    requires a <= b && |a| == |b|
    ensures a == b
  {
    var d := b - a;
    assert b == a + d;
    assert |d| == 0;
  }

  lemma {:induction false} FallingFull(n: nat)
    ensures Falling(n, n) == Factorial(n)
  {
    if n > 0 {
      FallingFull(n - 1);
    }
  }

  /** permutations(s, r) yields n! / (n - r)! selections. */
  lemma {:induction false} ArrangementsCount<T>(s: seq<T>, r: nat)
    ensures |Arrangements(s, r)| == Falling(|s|, r)
    decreases |s|, 1
  {
    if r > 0 {
      ArrangementsFromCount(s, r, 0);
    }
  }

  lemma MulStep(m: nat, f: nat)
    requires m > 0
    ensures m * f == f + (m - 1) * f
  {
  }

  lemma {:induction false} ArrangementsFromCount<T>(s: seq<T>, r: nat, i: nat)
    requires 0 < r && i <= |s|
    ensures |ArrangementsFrom(s, r, i)| == if |s| == 0 then 0 else (|s| - i) * Falling(|s| - 1, r - 1)
    decreases |s|, 0, |s| - i
  {
    if i < |s| {
      var rest := Arrangements(RemoveAt(s, i), r - 1);
      var f := Falling(|s| - 1, r - 1);
      ArrangementsCount(RemoveAt(s, i), r - 1);
      assert |Prefixed(s[i], rest)| == f;
      ArrangementsFromCount(s, r, i + 1);
      assert |ArrangementsFrom(s, r, i)| == f + (|s| - i - 1) * f;
      MulStep(|s| - i, f);
    }
  }

  /** Every selection has r elements, all drawn from s without reuse. */
  lemma {:induction false} ArrangementIsSelection<T>(s: seq<T>, r: nat, p: seq<T>)
    requires p in Arrangements(s, r)
    ensures |p| == r && multiset(p) <= multiset(s)
    decreases |s|, 1
  {
    if r > 0 {
      ArrangementFromIsSelection(s, r, 0, p);
    }
  }

  lemma {:induction false} ArrangementFromIsSelection<T>(s: seq<T>, r: nat, i: nat, p: seq<T>)
    requires 0 < r && i <= |s| && p in ArrangementsFrom(s, r, i)
    ensures |p| == r && multiset(p) <= multiset(s)
    ensures exists j :: i <= j < |s| && p[0] == s[j]
    decreases |s|, 0, |s| - i
  {
    var rest := Arrangements(RemoveAt(s, i), r - 1);
    if p in Prefixed(s[i], rest) {
      var k :| 0 <= k < |rest| && Prefixed(s[i], rest)[k] == p;
      ArrangementIsSelection(RemoveAt(s, i), r - 1, rest[k]);
      MultisetRemoveAt(s, i);
      assert p == [s[i]] + rest[k];
      assert multiset(p) == multiset{s[i]} + multiset(rest[k]);
      assert p[0] == s[i];
    } else {
      ArrangementFromIsSelection(s, r, i + 1, p);
    }
  }

  lemma {:induction false} BlockInArrangementsFrom<T>(s: seq<T>, r: nat, j: nat, i: nat, p: seq<T>)
    requires 0 < r && j <= i < |s|
    requires p in Prefixed(s[i], Arrangements(RemoveAt(s, i), r - 1))
    ensures p in ArrangementsFrom(s, r, j)
    decreases i - j
  {
    if j < i {
      BlockInArrangementsFrom(s, r, j + 1, i, p);
    }
  }

  /** Taking the first element of a selection out of s leaves a selection of the rest. */
  lemma SelectionTail<T>(s: seq<T>, i: nat, p: seq<T>)
    requires i < |s| && |p| > 0 && s[i] == p[0] && multiset(p) <= multiset(s)
    ensures multiset(p[1..]) <= multiset(RemoveAt(s, i))
  {
    assert p == [p[0]] + p[1..];
    MultisetRemoveAt(s, i);
    forall x ensures multiset(p[1..])[x] <= multiset(RemoveAt(s, i))[x] {
      assert multiset(p)[x] == multiset{p[0]}[x] + multiset(p[1..])[x];
      assert multiset(s)[x] == multiset{s[i]}[x] + multiset(RemoveAt(s, i))[x];
    }
  }

  /** Every selection of r elements of s, without reuse, is produced. */
  lemma {:induction false} SelectionIsArrangement<T>(s: seq<T>, r: nat, p: seq<T>)
    requires |p| == r && multiset(p) <= multiset(s)
    ensures p in Arrangements(s, r)
    decreases |s|
  {
    if r == 0 {
      assert p == [];
    } else {
      assert p[0] in multiset(s) by {
        assert p[0] in multiset(p);
      }
      var i :| 0 <= i < |s| && s[i] == p[0];
      SelectionTail(s, i, p);
      SelectionIsArrangement(RemoveAt(s, i), r - 1, p[1..]);
      var rest := Arrangements(RemoveAt(s, i), r - 1);
      var k :| 0 <= k < |rest| && rest[k] == p[1..];
      assert Prefixed(s[i], rest)[k] == p;
      BlockInArrangementsFrom(s, r, 0, i, p);
    }
  }

  /** Over distinct elements no selection is produced twice. */
  lemma {:induction false} ArrangementsNoDup<T>(s: seq<T>, r: nat)
    requires NoDup(s)
    ensures NoDup(Arrangements(s, r))
    decreases |s|, 1
  {
    if r > 0 {
      ArrangementsFromNoDup(s, r, 0);
    }
  }

  lemma {:induction false} ArrangementsFromNoDup<T>(s: seq<T>, r: nat, i: nat)
    requires NoDup(s) && 0 < r && i <= |s|
    ensures NoDup(ArrangementsFrom(s, r, i))
    decreases |s|, 0, |s| - i
  {
    if i < |s| {
      var rest := Arrangements(RemoveAt(s, i), r - 1);
      NoDupRemoveAt(s, i);
      ArrangementsNoDup(RemoveAt(s, i), r - 1);
      var block := Prefixed(s[i], rest);
      forall a, b | 0 <= a < b < |block| ensures block[a] != block[b] {
        assert block[a][1..] == rest[a];
        assert block[b][1..] == rest[b];
      }
      ArrangementsFromNoDup(s, r, i + 1);
      var tail := ArrangementsFrom(s, r, i + 1);
      forall p | p in tail ensures |p| > 0 && p[0] != s[i] {
        ArrangementFromIsSelection(s, r, i + 1, p);
      }
      NoDupConcat(block, tail);
    }
  }

  /** Every selection has exactly r elements. */
  lemma ArrangementLengths<T>(s: seq<T>, r: nat)
    ensures forall k :: 0 <= k < |Arrangements(s, r)| ==> |Arrangements(s, r)[k]| == r
  {
    forall k | 0 <= k < |Arrangements(s, r)| ensures |Arrangements(s, r)[k]| == r {
      ArrangementIsSelection(s, r, Arrangements(s, r)[k]);
    }
  }

  /** permutations(s, 2) over distinct s: exactly the pairs of two different elements of s,
      each once, n * (n - 1) of them. */
  lemma PairArrangements<T>(s: seq<T>)
    requires NoDup(s)
    ensures forall p :: p in Arrangements(s, 2) <==> |p| == 2 && p[0] in s && p[1] in s && p[0] != p[1]
    ensures NoDup(Arrangements(s, 2))
    ensures |Arrangements(s, 2)| == |s| * (|s| - 1)
  {
    var pairs := Arrangements(s, 2);
    NoDupHasSingleCounts(s);
    forall p ensures p in pairs <==> |p| == 2 && p[0] in s && p[1] in s && p[0] != p[1] {
      if p in pairs {
        ArrangementIsSelection(s, 2, p);
        assert p == [p[0], p[1]];
        assert p[0] in multiset(s) && p[1] in multiset(s);
        assert multiset(p)[p[0]] <= 1;
      }
      if |p| == 2 && p[0] in s && p[1] in s && p[0] != p[1] {
        assert p == [p[0], p[1]];
        assert multiset(p) <= multiset(s);
        SelectionIsArrangement(s, 2, p);
      }
    }
    ArrangementsNoDup(s, 2);
    ArrangementsCount(s, 2);
    if |s| >= 1 {
      assert Falling(|s| - 1, 1) == |s| - 1 by {
        if |s| >= 2 {
          assert Falling(|s| - 2, 0) == 1;
        }
      }
    }
  }

  /** permutations(s) yields exactly the rearrangements of s. */
  lemma PermutationsSpec<T>(s: seq<T>)
    ensures forall p :: p in Permutations(s) <==> multiset(p) == multiset(s)
  {
    forall p ensures p in Permutations(s) <==> multiset(p) == multiset(s) {
      if p in Permutations(s) {
        ArrangementIsSelection(s, |s|, p);
        SameSizeSubMultiset(multiset(p), multiset(s));
      }
      if multiset(p) == multiset(s) {
        assert |p| == |multiset(p)| == |multiset(s)| == |s|;
        SelectionIsArrangement(s, |s|, p);
      }
    }
  }

  /** permutations(s) yields |s|! orderings. */
  lemma PermutationsCount<T>(s: seq<T>)
    ensures |Permutations(s)| == Factorial(|s|)
  {
    ArrangementsCount(s, |s|);
    FallingFull(|s|);
  }

  /** Over distinct elements every ordering is produced once. */
  lemma PermutationsNoDup<T>(s: seq<T>)
    requires NoDup(s)
    ensures NoDup(Permutations(s))
  {
    ArrangementsNoDup(s, |s|);
  }
}
