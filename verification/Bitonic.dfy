/**
 * The comparison network of the bitonic sort for arbitrary lengths, on sequences. The values stand
 * for any element type whose `>` is a total order.
 */
module Bitonic {

  predicate IsPow2(n: nat) {
    n == 1 || (n > 1 && n % 2 == 0 && IsPow2(n / 2))
  }

  /** The greatest power of two not above `x`. */
  function GreatestPow2(x: nat): (p: nat)
    requires x >= 1
    ensures p <= x < 2 * p && IsPow2(p)
  {
    if x == 1 then 1 else 2 * GreatestPow2(x / 2)
  }

  lemma {:induction false} GreatestPow2Unique(x: nat, p: nat)
    requires IsPow2(p) && p <= x < 2 * p
    ensures p == GreatestPow2(x)
  {
    if p > 1 { GreatestPow2Unique(x / 2, p / 2); }
  }

  /** A power of two is split in its middle. */
  lemma SplitOfPow2(n: nat)
    requires IsPow2(n) && n > 1
    ensures GreatestPow2(n - 1) == n / 2
  {
    GreatestPow2Unique(n - 1, n / 2);
  }

  /** What a compare-and-swap leaves at the lower index, and at the higher one. */
  function First(x: int, y: int, dir: bool): int { if dir == (x > y) then y else x }

  function Second(x: int, y: int, dir: bool): int { if dir == (x > y) then x else y }

  /** One round of the merge: every index is compared with the one `k` further on, if there is one. */
  function Exchanged(s: seq<int>, k: nat, dir: bool): (e: seq<int>)
    requires k <= |s| <= 2 * k
    ensures |e| == |s|
  {
    seq(|s|, i requires 0 <= i < |s| =>
      if i < |s| - k then First(s[i], s[i + k], dir)
      else if i >= k then Second(s[i - k], s[i], dir)
      else s[i])
  }

  function Merged(s: seq<int>, dir: bool): (m: seq<int>)
    ensures |m| == |s|
    decreases |s|
  {
    if |s| <= 1 then s
    else
      var k := GreatestPow2(|s| - 1);
      var e := Exchanged(s, k, dir);
      Merged(e[..k], dir) + Merged(e[k..], dir)
  }

  function BitonicSorted(s: seq<int>, dir: bool): (r: seq<int>)
    ensures |r| == |s|
    decreases |s|
  {
    if |s| <= 1 then s
    else
      var k := |s| / 2;
      Merged(BitonicSorted(s[..k], !dir) + BitonicSorted(s[k..], dir), dir)
  }

  ghost predicate Ascending(s: seq<int>) {
    forall i, j :: 0 <= i < j < |s| ==> s[i] <= s[j]
  }

  ghost predicate Descending(s: seq<int>) {
    forall i, j :: 0 <= i < j < |s| ==> s[i] >= s[j]
  }

  // ---------------------------------------------------------------- permutation

  lemma MultisetSlices(s: seq<int>, k: nat)
    requires k <= |s|
    ensures multiset(s) == multiset(s[..k]) + multiset(s[k..])
  {
    assert s == s[..k] + s[k..];
  }

  /** Swapping some elements of `x` with their partners in `y` permutes the two together. */
  lemma {:induction false} PairsPermute(x: seq<int>, y: seq<int>, lo: seq<int>, hi: seq<int>)
    requires |x| == |y| == |lo| == |hi|
    requires forall i :: 0 <= i < |x| ==> (lo[i] == x[i] && hi[i] == y[i]) || (lo[i] == y[i] && hi[i] == x[i])
    ensures multiset(lo) + multiset(hi) == multiset(x) + multiset(y)
  {
    if x == [] {
      assert lo == x && hi == y;
    } else {
      var m := |x| - 1;
      PairsPermute(x[..m], y[..m], lo[..m], hi[..m]);
      LastOfMultiset(x);
      LastOfMultiset(y);
      LastOfMultiset(lo);
      LastOfMultiset(hi);
      assert multiset{lo[m]} + multiset{hi[m]} == multiset{x[m]} + multiset{y[m]};
      SumsAgree(multiset(lo[..m]), multiset(hi[..m]), multiset(x[..m]), multiset(y[..m]),
                multiset{lo[m]}, multiset{hi[m]}, multiset{x[m]}, multiset{y[m]});
    }
  }

  lemma SumsAgree(a: multiset<int>, b: multiset<int>, c: multiset<int>, d: multiset<int>,
                  a': multiset<int>, b': multiset<int>, c': multiset<int>, d': multiset<int>)
    requires a + b == c + d && a' + b' == c' + d'
    ensures (a + a') + (b + b') == (c + c') + (d + d')
  {
    assert (a + a') + (b + b') == (a + b) + (a' + b');
  }

  lemma LastOfMultiset(s: seq<int>)
    requires s != []
    ensures multiset(s) == multiset(s[..|s| - 1]) + multiset{s[|s| - 1]}
  {
    assert s == s[..|s| - 1] + [s[|s| - 1]];
  }

  /** The three stretches of a round: the lower partners, the values without one, the upper partners. */
  lemma ThreeSlices(s: seq<int>, m: nat, k: nat)
    requires m <= k <= |s|
    ensures multiset(s) == multiset(s[..m]) + multiset(s[m..k]) + multiset(s[k..])
  {
    MultisetSlices(s, k);
    MultisetSlices(s[..k], m);
    assert s[..k][..m] == s[..m] && s[..k][m..] == s[m..k];
  }

  lemma ExchangePermutes(s: seq<int>, k: nat, dir: bool)
    requires k <= |s| <= 2 * k
    ensures multiset(Exchanged(s, k, dir)) == multiset(s)
  {
    var m := |s| - k;
    ExchangePairs(s, k, dir);
    SlicesPermute(s, Exchanged(s, k, dir), m, k);
  }

  lemma SlicesPermute(s: seq<int>, e: seq<int>, m: nat, k: nat)
    requires |e| == |s| == m + k && m <= k
    requires e[m..k] == s[m..k]
    requires forall i :: 0 <= i < m ==>
      (e[..m][i] == s[..m][i] && e[k..][i] == s[k..][i]) || (e[..m][i] == s[k..][i] && e[k..][i] == s[..m][i])
    ensures multiset(e) == multiset(s)
  {
    PairsPermute(s[..m], s[k..], e[..m], e[k..]);
    ThreeSlices(e, m, k);
    ThreeSlices(s, m, k);
    assert multiset(e) == (multiset(e[..m]) + multiset(e[k..])) + multiset(s[m..k]);
    assert multiset(s) == (multiset(s[..m]) + multiset(s[k..])) + multiset(s[m..k]);
  }

  lemma ExchangePairs(s: seq<int>, k: nat, dir: bool)
    requires k <= |s| <= 2 * k
    ensures var e, m := Exchanged(s, k, dir), |s| - k;
      && e[m..k] == s[m..k]
      && forall i :: 0 <= i < m ==>
        (e[..m][i] == s[..m][i] && e[k..][i] == s[k..][i]) || (e[..m][i] == s[k..][i] && e[k..][i] == s[..m][i])
  {
    var e := Exchanged(s, k, dir);
    forall i | 0 <= i < |s| - k
      ensures e[i] == First(s[i], s[i + k], dir) && e[k..][i] == Second(s[i], s[i + k], dir) && s[k..][i] == s[i + k]
    {
      assert e[k..][i] == e[i + k];
    }
  }

  lemma {:induction false} MergePermutes(s: seq<int>, dir: bool)
    ensures multiset(Merged(s, dir)) == multiset(s)
    decreases |s|
  {
    if |s| > 1 {
      var k := GreatestPow2(|s| - 1);
      var e := Exchanged(s, k, dir);
      ExchangePermutes(s, k, dir);
      MultisetSlices(e, k);
      MergePermutes(e[..k], dir);
      MergePermutes(e[k..], dir);
    }
  }

  lemma {:induction false} SortPermutes(s: seq<int>, dir: bool)
    ensures multiset(BitonicSorted(s, dir)) == multiset(s)
    decreases |s|
  {
    if |s| > 1 {
      var k := |s| / 2;
      SortPermutes(s[..k], !dir);
      SortPermutes(s[k..], dir);
      MultisetSlices(s, k);
      MergePermutes(BitonicSorted(s[..k], !dir) + BitonicSorted(s[k..], dir), dir);
    }
  }

  // ---------------------------------------------------------------- order, seen through one threshold

  /** The values below `c` are those at the indices from `a` up to `b`. */
  ghost predicate BelowAt(s: seq<int>, c: int, a: nat, b: nat) {
    a <= b <= |s| && forall j :: 0 <= j < |s| ==> (s[j] < c <==> a <= j < b)
  }

  /** The values not below `c` are those at the indices from `a` up to `b`. */
  ghost predicate AboveAt(s: seq<int>, c: int, a: nat, b: nat) {
    a <= b <= |s| && forall j :: 0 <= j < |s| ==> (s[j] >= c <==> a <= j < b)
  }

  /** Seen through the threshold `c`, the sequence is V-shaped. */
  ghost predicate Valley(s: seq<int>, c: int) {
    exists a: nat, b: nat :: BelowAt(s, c, a, b)
  }

  ghost predicate Hill(s: seq<int>, c: int) {
    exists a: nat, b: nat :: AboveAt(s, c, a, b)
  }

  /** What the merge needs: a V shape, or any shape with two changes when the length is a power of two. */
  ghost predicate Mergeable(s: seq<int>, c: int) {
    Valley(s, c) || (IsPow2(|s|) && Hill(s, c))
  }

  ghost predicate AllBelow(s: seq<int>, c: int) { forall j :: 0 <= j < |s| ==> s[j] < c }

  ghost predicate NoneBelow(s: seq<int>, c: int) { forall j :: 0 <= j < |s| ==> s[j] >= c }

  ghost predicate StepSorted(s: seq<int>, c: int) {
    forall i, j :: 0 <= i < j < |s| && s[j] < c ==> s[i] < c
  }

  /** The two halves after a round, seen through a threshold: a lower partner is below it when one of
      the pair was, an upper partner when both were. */
  ghost predicate Halves(s: seq<int>, k: nat, c: int, lo: seq<int>, hi: seq<int>) {
    && k < |s| <= 2 * k && |lo| == k && |hi| == |s| - k
    && (forall i :: 0 <= i < k ==> (lo[i] < c <==> OneBelow(s, k, c, i)))
    && (forall i :: 0 <= i < |s| - k ==> (hi[i] < c <==> BothBelow(s, k, c, i)))
  }

  ghost predicate OneBelow(s: seq<int>, k: nat, c: int, i: int)
    requires 0 <= i < k <= |s|
  {
    s[i] < c || (i + k < |s| && s[i + k] < c)
  }

  ghost predicate BothBelow(s: seq<int>, k: nat, c: int, i: int)
    requires 0 <= i < |s| - k
  {
    s[i] < c && s[i + k] < c
  }

  lemma RoundHalves(s: seq<int>, k: nat, c: int)
    requires k < |s| <= 2 * k
    ensures var e := Exchanged(s, k, true); Halves(s, k, c, e[..k], e[k..])
  {
    var e := Exchanged(s, k, true);
    forall i | 0 <= i < |s| - k
      ensures e[k..][i] < c <==> BothBelow(s, k, c, i)
    {
      assert e[k..][i] == e[i + k];
    }
  }

  lemma HalvesOfValley(s: seq<int>, k: nat, c: int, a: nat, b: nat, lo: seq<int>, hi: seq<int>)
    requires BelowAt(s, c, a, b) && Halves(s, k, c, lo, hi)
    ensures forall i :: 0 <= i < k ==> (lo[i] < c <==> a <= i < b || a <= i + k < b)
    ensures forall i :: 0 <= i < |s| - k ==> (hi[i] < c <==> a <= i && i + k < b)
  {
    forall i | 0 <= i < k
      ensures lo[i] < c <==> a <= i < b || a <= i + k < b
      ensures i < |s| - k ==> (hi[i] < c <==> a <= i && i + k < b)
    {
      var low := s[i] < c;
      assert low <==> a <= i < b;
      if i + k < |s| {
        var high := s[i + k] < c;
        assert high <==> a <= i + k < b;
        assert lo[i] < c <==> low || high;
        assert hi[i] < c <==> low && high;
      } else {
        assert lo[i] < c <==> low;
      }
    }
  }

  lemma HalvesOfHill(s: seq<int>, k: nat, c: int, a: nat, b: nat, lo: seq<int>, hi: seq<int>)
    requires AboveAt(s, c, a, b) && Halves(s, k, c, lo, hi) && |s| == 2 * k
    ensures forall i :: 0 <= i < k ==> (lo[i] >= c <==> a <= i && i + k < b)
    ensures forall i :: 0 <= i < k ==> (hi[i] >= c <==> a <= i < b || a <= i + k < b)
  {
    forall i | 0 <= i < k
      ensures lo[i] >= c <==> a <= i && i + k < b
      ensures hi[i] >= c <==> a <= i < b || a <= i + k < b
    {
      assert s[i] >= c <==> a <= i < b;
      assert s[i + k] >= c <==> a <= i + k < b;
    }
  }

  /** Splitting a V: one half ends up on one side of the threshold, the other can be merged again. */
  lemma SplitValley(s: seq<int>, k: nat, c: int, a: nat, b: nat, lo: seq<int>, hi: seq<int>)
    requires BelowAt(s, c, a, b) && Halves(s, k, c, lo, hi) && IsPow2(k)
    ensures (AllBelow(lo, c) && Valley(hi, c)) || (NoneBelow(hi, c) && Mergeable(lo, c))
  {
    HalvesOfValley(s, k, c, a, b, lo, hi);
    if b - a >= k {
      assert BelowAt(hi, c, a, b - k);
    } else if b <= k {
      assert BelowAt(lo, c, a, b);
    } else if a >= k {
      assert BelowAt(lo, c, a - k, b - k);
    } else {
      assert AboveAt(lo, c, b - k, a);
    }
  }

  lemma SplitHill(s: seq<int>, k: nat, c: int, a: nat, b: nat, lo: seq<int>, hi: seq<int>)
    requires AboveAt(s, c, a, b) && Halves(s, k, c, lo, hi) && IsPow2(k) && |s| == 2 * k
    ensures (AllBelow(lo, c) && Mergeable(hi, c)) || (NoneBelow(hi, c) && Mergeable(lo, c))
  {
    HalvesOfHill(s, k, c, a, b, lo, hi);
    if b - a >= k {
      assert AboveAt(lo, c, a, b - k);
    } else if b <= k {
      assert AboveAt(hi, c, a, b);
    } else if a >= k {
      assert AboveAt(hi, c, a - k, b - k);
    } else {
      assert BelowAt(hi, c, b - k, a);
    }
  }

  lemma Split(s: seq<int>, c: int)
    requires |s| > 1 && Mergeable(s, c)
    ensures var k := GreatestPow2(|s| - 1);
      var e := Exchanged(s, k, true);
      (AllBelow(e[..k], c) && Mergeable(e[k..], c)) || (NoneBelow(e[k..], c) && Mergeable(e[..k], c))
  {
    var k := GreatestPow2(|s| - 1);
    var e := Exchanged(s, k, true);
    RoundHalves(s, k, c);
    if Valley(s, c) {
      var a: nat, b: nat :| BelowAt(s, c, a, b);
      SplitValley(s, k, c, a, b, e[..k], e[k..]);
    } else {
      var a: nat, b: nat :| AboveAt(s, c, a, b);
      SplitOfPow2(|s|);
      SplitHill(s, k, c, a, b, e[..k], e[k..]);
    }
  }

  lemma PermutedSide(s: seq<int>, t: seq<int>, c: int)
    requires multiset(s) == multiset(t)
    ensures AllBelow(s, c) ==> AllBelow(t, c)
    ensures NoneBelow(s, c) ==> NoneBelow(t, c)
  {
    forall j | 0 <= j < |t|
      ensures exists i :: 0 <= i < |s| && s[i] == t[j]
    {
      assert t[j] in multiset(t);
      assert t[j] in multiset(s);
    }
  }

  lemma {:induction false} MergeStepSorts(s: seq<int>, c: int)
    requires Mergeable(s, c)
    ensures StepSorted(Merged(s, true), c)
    decreases |s|
  {
    if |s| > 1 {
      var k := GreatestPow2(|s| - 1);
      var e := Exchanged(s, k, true);
      Split(s, c);
      MergePermutes(e[..k], true);
      MergePermutes(e[k..], true);
      PermutedSide(e[..k], Merged(e[..k], true), c);
      PermutedSide(e[k..], Merged(e[k..], true), c);
      if AllBelow(e[..k], c) && Mergeable(e[k..], c) {
        MergeStepSorts(e[k..], c);
      } else {
        MergeStepSorts(e[..k], c);
      }
    }
  }

  lemma DownThenUpIsValley(x: seq<int>, y: seq<int>, c: int)
    requires Descending(x) && Ascending(y)
    ensures Valley(x + y, c)
  {
    var a := FirstBelow(x, c);
    var b := FirstAbove(y, c);
    assert BelowAt(x + y, c, a, |x| + b);
  }

  lemma {:induction false} FirstBelow(x: seq<int>, c: int) returns (a: nat)
    requires Descending(x)
    ensures BelowAt(x, c, a, |x|)
  {
    if x == [] || x[|x| - 1] >= c {
      a := |x|;
    } else {
      a := FirstBelow(x[..|x| - 1], c);
    }
  }

  lemma {:induction false} FirstAbove(y: seq<int>, c: int) returns (b: nat)
    requires Ascending(y)
    ensures BelowAt(y, c, 0, b)
  {
    if y == [] || y[|y| - 1] < c {
      b := |y|;
    } else {
      b := FirstAbove(y[..|y| - 1], c);
    }
  }

  /** The arbitrary-length merge: a descending run followed by an ascending one becomes ascending. */
  lemma MergeAscends(x: seq<int>, y: seq<int>)
    requires Descending(x) && Ascending(y)
    ensures Ascending(Merged(x + y, true))
  {
    var m := Merged(x + y, true);
    forall i, j | 0 <= i < j < |m|
      ensures m[i] <= m[j]
    {
      DownThenUpIsValley(x, y, m[i]);
      MergeStepSorts(x + y, m[i]);
    }
  }

  // ---------------------------------------------------------------- the other direction, by negation

  function Negated(s: seq<int>): (t: seq<int>)
    ensures |t| == |s| && forall i :: 0 <= i < |s| ==> t[i] == -s[i]
  {
    seq(|s|, i requires 0 <= i < |s| => -s[i])
  }

  lemma RoundNegates(s: seq<int>, k: nat)
    requires k <= |s| <= 2 * k
    ensures Exchanged(Negated(s), k, true) == Negated(Exchanged(s, k, false))
  {
    var n := Negated(s);
    var x, y := Exchanged(n, k, true), Exchanged(s, k, false);
    forall i | 0 <= i < |s|
      ensures x[i] == -y[i]
    {
      if i < |s| - k { assert n[i + k] == -s[i + k]; }
    }
    assert x == Negated(y);
  }

  lemma NegatedSlices(s: seq<int>, k: nat)
    requires k <= |s|
    ensures Negated(s)[..k] == Negated(s[..k]) && Negated(s)[k..] == Negated(s[k..])
  {}

  lemma NegatedConcat(x: seq<int>, y: seq<int>)
    ensures Negated(x + y) == Negated(x) + Negated(y)
  {}

  lemma {:induction false} MergeNegates(s: seq<int>)
    ensures Merged(Negated(s), true) == Negated(Merged(s, false))
    decreases |s|
  {
    hide Exchanged, Negated;
    if |s| > 1 {
      var k := GreatestPow2(|s| - 1);
      var e := Exchanged(s, k, false);
      RoundNegates(s, k);
      NegatedSlices(e, k);
      MergeNegates(e[..k]);
      MergeNegates(e[k..]);
      NegatedConcat(Merged(e[..k], false), Merged(e[k..], false));
    }
  }

  lemma MergeDescends(x: seq<int>, y: seq<int>)
    requires Ascending(x) && Descending(y)
    ensures Descending(Merged(x + y, false))
  {
    MergeNegates(x + y);
    NegatedConcat(x, y);
    MergeAscends(Negated(x), Negated(y));
    NegatedIsDescending(Merged(x + y, false));
  }

  lemma NegatedIsDescending(s: seq<int>)
    requires Ascending(Negated(s))
    ensures Descending(s)
  {
    forall i, j | 0 <= i < j < |s|
      ensures s[i] >= s[j]
    {
      assert Negated(s)[i] <= Negated(s)[j];
    }
  }

  /** The network sorts every sequence, of any length, in the direction asked for. */
  lemma {:induction false} SortSorts(s: seq<int>, dir: bool)
    ensures dir ==> Ascending(BitonicSorted(s, dir))
    ensures !dir ==> Descending(BitonicSorted(s, dir))
    ensures multiset(BitonicSorted(s, dir)) == multiset(s)
    decreases |s|
  {
    SortPermutes(s, dir);
    if |s| > 1 {
      var k := |s| / 2;
      SortSorts(s[..k], !dir);
      SortSorts(s[k..], dir);
      if dir {
        MergeAscends(BitonicSorted(s[..k], false), BitonicSorted(s[k..], true));
      } else {
        MergeDescends(BitonicSorted(s[..k], true), BitonicSorted(s[k..], false));
      }
    }
  }
}
