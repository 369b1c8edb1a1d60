/** The sort of an array kept in stored blocks: it is only reached through a small buffer. */
module BufferedSort {
  import opened Bitonic
  import opened BitonicSort

  lemma ReplacedGrows(b: seq<int>, at: nat, v: seq<int>, i: nat, z: nat)
    requires i + z < |v| && at + z < |b|
    ensures Replaced(b, at, v[i..i + z])[at + z := v[i + z]] == Replaced(b, at, v[i..i + z + 1])
  {
    assert v[i..i + z + 1] == v[i..i + z] + [v[i + z]];
  }

  lemma ReplacedByNothing(b: seq<int>, at: nat)
    requires at <= |b|
    ensures Replaced(b, at, []) == b
  {}

  /** An array in storage; `GetNb` and `SetNb` move a run of elements to and from a buffer. */
  class StoredArray {
    var values: seq<int>

    method GetNb(i: nat, buffer: array<int>, at: nat, nb: nat)
      requires i + nb <= |values| && at + nb <= buffer.Length
      modifies buffer
      ensures buffer[..] == Replaced(old(buffer[..]), at, values[i..i + nb])
    {
      hide Replaced;
      ReplacedByNothing(buffer[..], at);
      assert values[i..i] == [];
      for z := 0 to nb
        invariant buffer[..] == Replaced(old(buffer[..]), at, values[i..i + z])
      {
        ReplacedGrows(old(buffer[..]), at, values, i, z);
        buffer[at + z] := values[i + z];
      }
    }

    method SetNb(i: nat, buffer: array<int>, at: nat, nb: nat)
      requires i + nb <= |values| && at + nb <= buffer.Length
      modifies this
      ensures values == Replaced(old(values), i, buffer[at..at + nb])
    {
      values := values[..i] + buffer[at..at + nb] + values[i + nb..];
    }
  }

  /** Compares the first `nb` elements of the buffer with the next `nb`, pair by pair. */
  method CompareHalves(buffer: array<int>, nb: nat, dir: bool)
    requires 0 < nb && 2 * nb <= buffer.Length
    modifies buffer
    ensures buffer[..] == RoundIn(old(buffer[..]), 0, 2 * nb, nb, dir)
  {
    hide RoundUpTo, RoundIn;
    RoundStart(buffer[..], 0, nb, dir);
    for z := 0 to nb
      invariant RoundUpTo(buffer[..], old(buffer[..]), 0, nb, z, dir)
    {
      RoundStep(buffer[..], old(buffer[..]), 0, nb, z, dir);
      var atI, atJ := buffer[z], buffer[nb + z];
      assert buffer[..] == buffer[..][z := atI][z + nb := atJ];
      if dir == (atI > atJ) {
        buffer[z] := atJ;
        buffer[nb + z] := atI;
      }
    }
    RoundDone(buffer[..], old(buffer[..]), 0, 2 * nb, nb, dir);
  }

  /** The slice of `nb` elements from `i` and the one `k` further on, replaced by their exchange. */
  ghost function ChunkIn(v: seq<int>, i: nat, k: nat, nb: nat, dir: bool): (w: seq<int>)
    requires nb <= k && i + k + nb <= |v|
    ensures |w| == |v|
  {
    var e := Exchanged(v[i..i + nb] + v[i + k..i + k + nb], nb, dir);
    Replaced(Replaced(v, i, e[..nb]), i + k, e[nb..])
  }

  lemma TwoRuns(x: seq<int>, y: seq<int>, p: seq<int>, q: seq<int>)
    requires |p| + |q| <= |x|
    requires y == Replaced(Replaced(x, 0, p), |p|, q)
    ensures |y| == |x| && y[0..|p| + |q|] == p + q
  {}

  lemma RoundOfFront(y: seq<int>, z: seq<int>, nb: nat, dir: bool)
    requires 0 < nb && 2 * nb <= |y|
    requires z == RoundIn(y, 0, 2 * nb, nb, dir)
    ensures |z| == |y|
    ensures z[..nb] == Exchanged(y[0..2 * nb], nb, dir)[..nb]
    ensures z[nb..nb + nb] == Exchanged(y[0..2 * nb], nb, dir)[nb..]
  {
    hide Exchanged;
  }

  /** One chunk: a run of pairs is read, compared and written back. */
  method RoundChunk(buffer: array<int>, arr: StoredArray, i: nat, k: nat, nb: nat, dir: bool)
    requires 0 < nb && 2 * nb <= buffer.Length && nb <= k && i + k + nb <= |arr.values|
    modifies buffer, arr
    ensures arr.values == ChunkIn(old(arr.values), i, k, nb, dir)
  {
    hide Exchanged, Replaced, RoundIn;
    ghost var v := arr.values;
    ghost var x := buffer[..];
    arr.GetNb(i, buffer, 0, nb);
    arr.GetNb(i + k, buffer, nb, nb);
    ghost var y := buffer[..];
    TwoRuns(x, y, v[i..i + nb], v[i + k..i + k + nb]);
    CompareHalves(buffer, nb, dir);
    RoundOfFront(y, buffer[..], nb, dir);
    assert buffer[0..nb] == buffer[..][..nb] && buffer[nb..nb + nb] == buffer[..][nb..nb + nb];
    arr.SetNb(i, buffer, 0, nb);
    arr.SetNb(i + k, buffer, nb, nb);
  }

  lemma ReplacedAt(b: seq<int>, low: nat, mid: seq<int>, j: nat)
    requires low + |mid| <= |b| && j < |b|
    ensures Replaced(b, low, mid)[j] == if low <= j < low + |mid| then mid[j - low] else b[j]
  {}

  lemma ChunkAt(v: seq<int>, i: nat, k: nat, nb: nat, dir: bool, j: nat)
    requires nb <= k && i + k + nb <= |v| && j < |v|
    ensures ChunkIn(v, i, k, nb, dir)[j] ==
      if i <= j < i + nb then First(v[j], v[j + k], dir)
      else if i + k <= j < i + k + nb then Second(v[j - k], v[j], dir)
      else v[j]
  {
    hide Replaced, Exchanged;
    var x := v[i..i + nb] + v[i + k..i + k + nb];
    var e := Exchanged(x, nb, dir);
    ReplacedAt(v, i, e[..nb], j);
    ReplacedAt(Replaced(v, i, e[..nb]), i + k, e[nb..], j);
    if i <= j < i + nb {
      ExchangedPair(v[i..i + nb], v[i + k..i + k + nb], j - i, dir);
    } else if i + k <= j < i + k + nb {
      ExchangedPair(v[i..i + nb], v[i + k..i + k + nb], j - i - k, dir);
    }
  }

  lemma ExchangedPair(p: seq<int>, q: seq<int>, z: nat, dir: bool)
    requires z < |p| == |q|
    ensures Exchanged(p + q, |p|, dir)[..|p|][z] == First(p[z], q[z], dir)
    ensures Exchanged(p + q, |p|, dir)[|p|..][z] == Second(p[z], q[z], dir)
  {
    assert (p + q)[z + |p|] == q[z];
    assert Exchanged(p + q, |p|, dir)[|p|..][z] == Exchanged(p + q, |p|, dir)[z + |p|];
  }

  lemma ChunkExtends(v: seq<int>, b: seq<int>, low: nat, i: nat, k: nat, nb: nat, dir: bool)
    requires low <= i && i - low + nb <= k && i + k + nb <= |v|
    requires RoundUpTo(v, b, low, k, i - low, dir)
    ensures RoundUpTo(ChunkIn(v, i, k, nb, dir), b, low, k, i - low + nb, dir)
  {
    hide ChunkIn;
    forall j | 0 <= j < |b|
      ensures low <= j < i + nb ==> ChunkIn(v, i, k, nb, dir)[j] == First(b[j], b[j + k], dir)
      ensures low + k <= j < i + k + nb ==> ChunkIn(v, i, k, nb, dir)[j] == Second(b[j - k], b[j], dir)
      ensures !(low <= j < i + nb) && !(low + k <= j < i + k + nb) ==> ChunkIn(v, i, k, nb, dir)[j] == b[j]
    {
      ChunkAt(v, i, k, nb, dir, j);
      if low <= j < i + nb && i <= j {
        assert v[j + k] == b[j + k];
      }
      if i + k <= j < i + k + nb {
        assert v[j - k] == b[j - k];
      }
    }
  }

  /** The compare loop of one merge, chunk by chunk. */
  method BufferedRound(buffer: array<int>, arr: StoredArray, low: nat, nb: nat, k: nat, dir: bool)
    requires buffer.Length >= 2 && low + nb <= |arr.values| && 0 < k < nb <= 2 * k
    modifies buffer, arr
    ensures arr.values == RoundIn(old(arr.values), low, nb, k, dir)
  {
    var end := low + nb - k;
    var loc := buffer.Length / 2;
    var i := low;
    while i < end
      invariant low <= i
      invariant RoundUpTo(arr.values, old(arr.values), low, k, if i < end then i - low else nb - k, dir)
    {
      var nbRead := if end - i < loc then end - i else loc;
      ChunkExtends(arr.values, old(arr.values), low, i, k, nbRead, dir);
      RoundChunk(buffer, arr, i, k, nbRead, dir);
      i := i + loc;
    }
    RoundDone(arr.values, old(arr.values), low, nb, k, dir);
  }

  lemma ReplacedFront(b: seq<int>, mid: seq<int>)
    requires |mid| <= |b|
    ensures Replaced(b, 0, mid)[0..|mid|] == mid
  {}

  /** Fetches a slice that fits in the buffer, merges it there and writes it back. */
  method MergeThroughBuffer(buffer: array<int>, arr: StoredArray, low: nat, nb: nat, dir: bool)
    requires nb <= buffer.Length <= MAX_LENGTH && low + nb <= |arr.values|
    modifies buffer, arr
    ensures arr.values == MergedIn(old(arr.values), low, nb, dir)
  {
    hide Merged;
    arr.GetNb(low, buffer, 0, nb);
    ghost var x := buffer[..];
    assert x[0..nb] == arr.values[low..low + nb];
    MergeBlock(buffer, 0, nb, dir);
    ReplacedFront(x, Merged(x[0..nb], dir));
    assert buffer[0..nb] == buffer[..][0..nb];
    arr.SetNb(low, buffer, 0, nb);
  }

  /** A part that fits in the buffer is merged there, a longer one where it is stored. */
  method MergePart(buffer: array<int>, arr: StoredArray, low: nat, nb: nat, dir: bool)
    requires 2 <= buffer.Length <= MAX_LENGTH && low + nb <= |arr.values| <= MAX_LENGTH
    modifies buffer, arr
    ensures arr.values == MergedIn(old(arr.values), low, nb, dir)
    decreases nb, 1
  {
    if nb <= buffer.Length {
      MergeThroughBuffer(buffer, arr, low, nb, dir);
    } else {
      BitonicMerge(buffer, arr, low, nb, dir);
    }
  }

  method BitonicMerge(buffer: array<int>, arr: StoredArray, low: nat, nb: nat, dir: bool)
    requires 2 <= buffer.Length <= MAX_LENGTH && low + nb <= |arr.values| <= MAX_LENGTH
    modifies buffer, arr
    ensures arr.values == MergedIn(old(arr.values), low, nb, dir)
    decreases nb, 0
  {
    hide RoundIn, MergedIn;
    if nb > 1 {
      var k := Flp2(nb - 1);
      ghost var b := arr.values;
      BufferedRound(buffer, arr, low, nb, k, dir);
      ghost var b1 := arr.values;
      MergePart(buffer, arr, low, k, dir);
      ghost var b2 := arr.values;
      MergePart(buffer, arr, low + k, nb - k, dir);
      MergeComposes(b, b1, b2, arr.values, low, nb, k, dir);
    } else {
      AtMostOne(arr.values, low, nb, dir);
    }
  }

  method BitonicSortStored(buffer: array<int>, arr: StoredArray, low: nat, nb: nat, dir: bool)
    requires 2 <= buffer.Length <= MAX_LENGTH && low + nb <= |arr.values| <= MAX_LENGTH
    modifies buffer, arr
    ensures arr.values == SortedIn(old(arr.values), low, nb, dir)
    decreases nb
  {
    hide SortedIn, MergedIn;
    if nb > 1 {
      var k := nb / 2;
      ghost var b := arr.values;
      BitonicSortStored(buffer, arr, low, k, !dir);
      ghost var b1 := arr.values;
      BitonicSortStored(buffer, arr, low + k, nb - k, dir);
      ghost var b2 := arr.values;
      MergePart(buffer, arr, low, nb, dir);
      SortComposes(b, b1, b2, arr.values, low, nb, k, dir);
    } else {
      AtMostOne(arr.values, low, nb, dir);
    }
  }

  const ARRAY_BUFFER_SIZE: nat := 8192

  /** The entry point: the whole stored array, ascending, through a buffer of its own. */
  method SortStoredAscending(arr: StoredArray)
    requires |arr.values| <= MAX_LENGTH
    modifies arr
    ensures Ascending(arr.values) && multiset(arr.values) == multiset(old(arr.values))
  {
    var buffer := new int[ARRAY_BUFFER_SIZE];
    SortedWhole(arr.values, true);
    BitonicSortStored(buffer, arr, 0, |arr.values|, true);
  }
}
