/** The bitonic sort run in place: over an array, and over an array kept in stored blocks through a buffer. */
module BitonicSort {
  import opened Bitonic
  import opened Words

  /** One smearing step on a word of `n` significant bits. */
  method SmearBy(x: nat, j: nat, ghost n: nat) returns (y: nat)
    requires TopOnes(x, n, Min(j, n))
    ensures TopOnes(y, n, Min(2 * j, n))
  {
    Smear(x, n, j);
    y := Or(x, Shr(x, j));
  }

  /** Smears the leading one over the word, then removes all ones but the first. */
  method Flp2(w: nat) returns (p: nat)
    requires 1 <= w < 0x1_0000_0000
    ensures p == GreatestPow2(w)
  {
    ghost var n := SmearStart(w);
    var x := SmearBy(w, 1, n);
    x := SmearBy(x, 2, n);
    x := SmearBy(x, 4, n);
    x := SmearBy(x, 8, n);
    x := SmearBy(x, 16, n);
    SmearEnd(w, x, n);
    p := x - Shr(x, 1);
  }

  lemma SmearStart(w: nat) returns (n: nat)
    requires 1 <= w < 0x1_0000_0000
    ensures 1 <= n <= 32 && Pow2(n - 1) <= w < Pow2(n) && TopOnes(w, n, 1)
  {
    Pow2Of32();
    n := BitLength(w, 32);
  }

  lemma Pow2Of32()
    ensures Pow2(32) == 0x1_0000_0000
  {
    assert Pow2(8) == 0x100;
    assert Pow2(16) == 0x1_0000;
    assert Pow2(24) == 0x100_0000;
  }

  lemma SmearEnd(w: nat, x: nat, n: nat)
    requires 1 <= n <= 32 && Pow2(n - 1) <= w < Pow2(n) && TopOnes(x, n, n)
    ensures x - Shr(x, 1) == GreatestPow2(w)
  {
    assert x == Pow2(n) - 1;
    assert Shr(x, 1) == x / 2;
    Pow2IsPow2(n - 1);
    GreatestPow2Unique(w, Pow2(n - 1));
  }

  lemma {:induction false} Pow2IsPow2(n: nat)
    ensures IsPow2(Pow2(n))
  {
    if n > 0 { Pow2IsPow2(n - 1); }
  }

  /** Indices and lengths are 32-bit, and `int` where the source says so. */
  const MAX_LENGTH: nat := 0x8000_0000

  /** `b` with the elements from `low` on replaced by `mid`. */
  ghost function Replaced(b: seq<int>, low: nat, mid: seq<int>): (a: seq<int>)
    requires low + |mid| <= |b|
    ensures |a| == |b|
  {
    b[..low] + mid + b[low + |mid|..]
  }

  lemma ReplacedSlice(b: seq<int>, low: nat, mid: seq<int>, i: nat, j: nat)
    requires low + |mid| <= |b| && i <= j <= |mid|
    ensures Replaced(b, low, mid)[low + i..low + j] == mid[i..j]
  {}

  lemma ReplacedAfter(b: seq<int>, low: nat, mid: seq<int>, h: nat)
    requires low + |mid| <= h <= |b|
    ensures Replaced(b, low, mid)[low + |mid|..h] == b[low + |mid|..h]
  {}

  lemma ReplacedTwice(b: seq<int>, low: nat, mid: seq<int>, mid': seq<int>)
    requires low + |mid| <= |b| && |mid| == |mid'|
    ensures Replaced(Replaced(b, low, mid), low, mid') == Replaced(b, low, mid')
  {}

  lemma ReplacedInTurn(b: seq<int>, low: nat, x: seq<int>, y: seq<int>)
    requires low + |x| + |y| <= |b|
    ensures Replaced(Replaced(b, low, x), low + |x|, y) == Replaced(b, low, x + y)
  {}

  /** Replacing a slice as a whole and then again in two parts. */
  lemma ReplacedInParts(b: seq<int>, low: nat, e: seq<int>, x: seq<int>, y: seq<int>)
    requires low + |e| <= |b| && |e| == |x| + |y|
    ensures var b1 := Replaced(b, low, e);
      var b2 := Replaced(b1, low, x);
      && b1[low..low + |x|] == e[..|x|]
      && b2[low + |x|..low + |e|] == e[|x|..]
      && Replaced(b2, low + |x|, y) == Replaced(b, low, x + y)
  {
    hide Replaced;
    var b1 := Replaced(b, low, e);
    ReplacedSlice(b, low, e, 0, |x|);
    ReplacedSlice(b, low, e, |x|, |e|);
    ReplacedAfter(b1, low, x, low + |e|);
    ReplacedInTurn(b1, low, x, y);
    ReplacedTwice(b, low, e, x + y);
  }

  /** Replacing a slice in two parts and then again as a whole. */
  lemma ReplacedAsWhole(b: seq<int>, low: nat, x: seq<int>, y: seq<int>, m: seq<int>)
    requires low + |m| <= |b| && |m| == |x| + |y|
    ensures var b1 := Replaced(b, low, x);
      var b2 := Replaced(b1, low + |x|, y);
      && b1[low + |x|..low + |m|] == b[low + |x|..low + |m|]
      && b2[low..low + |m|] == x + y
      && Replaced(b2, low, m) == Replaced(b, low, m)
  {
    hide Replaced;
    ReplacedAfter(b, low, x, low + |m|);
    ReplacedInTurn(b, low, x, y);
    ReplacedSlice(b, low, x + y, 0, |m|);
    assert (x + y)[0..|m|] == x + y;
    ReplacedTwice(b, low, x + y, m);
  }

  lemma ReplacedBySelf(b: seq<int>, low: nat, nb: nat)
    requires low + nb <= |b|
    ensures Replaced(b, low, b[low..low + nb]) == b
  {}

  /** The effect of a merge, and of a sort, of the `nb` elements from `low` on. */
  ghost function MergedIn(b: seq<int>, low: nat, nb: nat, dir: bool): (a: seq<int>)
    requires low + nb <= |b|
    ensures |a| == |b|
  {
    Replaced(b, low, Merged(b[low..low + nb], dir))
  }

  ghost function SortedIn(b: seq<int>, low: nat, nb: nat, dir: bool): (a: seq<int>)
    requires low + nb <= |b|
    ensures |a| == |b|
  {
    Replaced(b, low, BitonicSorted(b[low..low + nb], dir))
  }

  ghost function RoundIn(b: seq<int>, low: nat, nb: nat, k: nat, dir: bool): (a: seq<int>)
    requires low + nb <= |b| && k <= nb <= 2 * k
    ensures |a| == |b|
  {
    Replaced(b, low, Exchanged(b[low..low + nb], k, dir))
  }

  lemma AtMostOne(b: seq<int>, low: nat, nb: nat, dir: bool)
    requires low + nb <= |b| && nb <= 1
    ensures MergedIn(b, low, nb, dir) == b && SortedIn(b, low, nb, dir) == b
  {
    ReplacedBySelf(b, low, nb);
  }

  /** What the compare loop has done once it has handled `m` pairs. */
  ghost predicate RoundUpTo(a: seq<int>, b: seq<int>, low: nat, k: nat, m: nat, dir: bool) {
    && |a| == |b| && low + m + k <= |b| && m <= k
    && (forall j :: low <= j < low + m ==> a[j] == First(b[j], b[j + k], dir))
    && (forall j :: low + k <= j < low + k + m ==> a[j] == Second(b[j - k], b[j], dir))
    && (forall j :: 0 <= j < |b| && !(low <= j < low + m) && !(low + k <= j < low + k + m) ==> a[j] == b[j])
  }

  lemma RoundStep(a: seq<int>, b: seq<int>, low: nat, k: nat, m: nat, dir: bool)
    requires RoundUpTo(a, b, low, k, m, dir) && low + m + 1 + k <= |b| && m + 1 <= k
    ensures a[low + m] == b[low + m] && a[low + m + k] == b[low + m + k]
    ensures var i := low + m;
      RoundUpTo(a[i := First(b[i], b[i + k], dir)][i + k := Second(b[i], b[i + k], dir)], b, low, k, m + 1, dir)
  {}

  lemma RoundStart(b: seq<int>, low: nat, k: nat, dir: bool)
    requires low + k <= |b|
    ensures RoundUpTo(b, b, low, k, 0, dir)
  {}

  lemma RoundDone(a: seq<int>, b: seq<int>, low: nat, nb: nat, k: nat, dir: bool)
    requires k <= nb <= 2 * k && RoundUpTo(a, b, low, k, nb - k, dir)
    ensures a == RoundIn(b, low, nb, k, dir)
  {
    var s := b[low..low + nb];
    var r := RoundIn(b, low, nb, k, dir);
    forall j | 0 <= j < |b|
      ensures a[j] == r[j]
    {
      if low <= j < low + nb {
        assert s[j - low] == b[j];
        if j < low + nb - k { assert s[j - low + k] == b[j + k]; }
        if j >= low + k { assert s[j - low - k] == b[j - k]; }
      }
    }
  }

  /** Merging both parts of the slice, one after the other, completes the merge after a round. */
  lemma PartsMerged(b: seq<int>, low: nat, nb: nat, dir: bool)
    requires nb > 1 && low + nb <= |b|
    ensures var k := GreatestPow2(nb - 1);
      MergedIn(MergedIn(RoundIn(b, low, nb, k, dir), low, k, dir), low + k, nb - k, dir) == MergedIn(b, low, nb, dir)
  {
    hide Replaced, Exchanged;
    var k := GreatestPow2(nb - 1);
    var e := Exchanged(b[low..low + nb], k, dir);
    ReplacedInParts(b, low, e, Merged(e[..k], dir), Merged(e[k..], dir));
  }

  lemma MergeComposes(b: seq<int>, b1: seq<int>, b2: seq<int>, b3: seq<int>, low: nat, nb: nat, k: nat, dir: bool)
    requires nb > 1 && low + nb <= |b| == |b1| == |b2| && k == GreatestPow2(nb - 1)
    requires b1 == RoundIn(b, low, nb, k, dir)
    requires b2 == MergedIn(b1, low, k, dir)
    requires b3 == MergedIn(b2, low + k, nb - k, dir)
    ensures b3 == MergedIn(b, low, nb, dir)
  {
    hide RoundIn, MergedIn;
    PartsMerged(b, low, nb, dir);
  }

  /** Sorting both halves and merging completes the sort. */
  lemma HalvesSorted(b: seq<int>, low: nat, nb: nat, dir: bool)
    requires nb > 1 && low + nb <= |b|
    ensures var k := nb / 2;
      MergedIn(SortedIn(SortedIn(b, low, k, !dir), low + k, nb - k, dir), low, nb, dir) == SortedIn(b, low, nb, dir)
  {
    hide Replaced, Merged;
    var k := nb / 2;
    var x, y := BitonicSorted(b[low..low + k], !dir), BitonicSorted(b[low + k..low + nb], dir);
    assert b[low..low + nb][..k] == b[low..low + k] && b[low..low + nb][k..] == b[low + k..low + nb];
    ReplacedAsWhole(b, low, x, y, Merged(x + y, dir));
  }

  lemma SortComposes(b: seq<int>, b1: seq<int>, b2: seq<int>, b3: seq<int>, low: nat, nb: nat, k: nat, dir: bool)
    requires nb > 1 && low + nb <= |b| == |b1| == |b2| && k == nb / 2
    requires b1 == SortedIn(b, low, k, !dir)
    requires b2 == SortedIn(b1, low + k, nb - k, dir)
    requires b3 == MergedIn(b2, low, nb, dir)
    ensures b3 == SortedIn(b, low, nb, dir)
  {
    hide SortedIn, MergedIn;
    HalvesSorted(b, low, nb, dir);
  }

  /** The compare loop of one merge. */
  method Round(a: array<int>, low: nat, nb: nat, k: nat, dir: bool)
    requires low + nb <= a.Length <= MAX_LENGTH && 0 < k <= nb <= 2 * k
    modifies a
    ensures a[..] == RoundIn(old(a[..]), low, nb, k, dir)
  {
    hide RoundUpTo, RoundIn;
    RoundStart(a[..], low, k, dir);
    for i := low to low + nb - k
      invariant RoundUpTo(a[..], old(a[..]), low, k, i - low, dir)
    {
      RoundStep(a[..], old(a[..]), low, k, i - low, dir);
      var atI, atJ := a[i], a[i + k];
      assert a[..] == a[..][i := atI][i + k := atJ];
      if dir == (atI > atJ) {
        a[i] := atJ;
        a[i + k] := atI;
      }
    }
    RoundDone(a[..], old(a[..]), low, nb, k, dir);
  }

  method MergeBlock(a: array<int>, low: nat, nb: nat, dir: bool)
    requires low + nb <= a.Length <= MAX_LENGTH
    modifies a
    ensures a[..] == MergedIn(old(a[..]), low, nb, dir)
    decreases nb
  {
    hide RoundIn, MergedIn;
    if nb > 1 {
      var k := Flp2(nb - 1);
      ghost var b := a[..];
      Round(a, low, nb, k, dir);
      ghost var b1 := a[..];
      MergeBlock(a, low, k, dir);
      ghost var b2 := a[..];
      MergeBlock(a, low + k, nb - k, dir);
      MergeComposes(b, b1, b2, a[..], low, nb, k, dir);
    } else {
      AtMostOne(a[..], low, nb, dir);
    }
  }

  method SortVec(a: array<int>, low: nat, nb: nat, dir: bool)
    requires low + nb <= a.Length <= MAX_LENGTH
    modifies a
    ensures a[..] == SortedIn(old(a[..]), low, nb, dir)
    decreases nb
  {
    hide SortedIn, MergedIn;
    if nb > 1 {
      var k := nb / 2;
      ghost var b := a[..];
      SortVec(a, low, k, !dir);
      ghost var b1 := a[..];
      SortVec(a, low + k, nb - k, dir);
      ghost var b2 := a[..];
      MergeBlock(a, low, nb, dir);
      SortComposes(b, b1, b2, a[..], low, nb, k, dir);
    } else {
      AtMostOne(a[..], low, nb, dir);
    }
  }

  lemma SortedWhole(b: seq<int>, dir: bool)
    ensures SortedIn(b, 0, |b|, dir) == BitonicSorted(b, dir)
    ensures multiset(BitonicSorted(b, dir)) == multiset(b)
    ensures if dir then Ascending(BitonicSorted(b, dir)) else Descending(BitonicSorted(b, dir))
  {
    hide BitonicSorted;
    SortSorts(b, dir);
    assert b[0..|b|] == b;
  }

  /** The entry point: the whole vector, ascending. */
  method SortAscending(a: array<int>)
    requires a.Length <= MAX_LENGTH
    modifies a
    ensures Ascending(a[..]) && multiset(a[..]) == multiset(old(a[..]))
  {
    SortVec(a, 0, a.Length, true);
    SortedWhole(old(a[..]), true);
  }
}
