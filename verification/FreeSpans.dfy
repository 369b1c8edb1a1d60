/** The free spans of a block: what the linked list inside its bytes stands for. */
module FreeSpans {

  /** The block header: total size and head, four bytes each. A free node is as long. */
  const HEADER: nat := 8
  const NODE: nat := 8

  datatype Span = Span(off: nat, size: nat) {
    function End(): nat { off + size }
  }

  predicate In(s: Span, b: nat) { s.off <= b < s.End() }

  predicate FreeAt(nodes: seq<Span>, b: nat) {
    exists i :: 0 <= i < |nodes| && In(nodes[i], b)
  }

  ghost predicate LiveAt(live: set<Span>, b: nat) {
    exists s :: s in live && In(s, b)
  }

  predicate SpanOk(s: Span, n: nat) { HEADER <= s.off && s.size >= NODE && s.End() <= n }

  /** Strictly ordered by address, and no two touching. */
  ghost predicate Ordered(nodes: seq<Span>) {
    forall i, j :: 0 <= i < j < |nodes| ==> nodes[i].End() < nodes[j].off
  }

  ghost predicate NodesOk(nodes: seq<Span>, n: nat) {
    Ordered(nodes) && forall i :: 0 <= i < |nodes| ==> SpanOk(nodes[i], n)
  }

  predicate Apart(s: Span, t: Span) { s.End() <= t.off || t.End() <= s.off }

  ghost predicate LiveOk(live: set<Span>, n: nat) {
    (forall s :: s in live ==> SpanOk(s, n)) && forall s, t :: s in live && t in live ==> s == t || Apart(s, t)
  }

  /** Free nodes and live segments tile the block: each byte after the header belongs to one of them. */
  ghost predicate Tiles(nodes: seq<Span>, live: set<Span>, n: nat) {
    forall b :: HEADER <= b < n ==> (FreeAt(nodes, b) <==> !LiveAt(live, b))
  }

  ghost predicate Canonical(nodes: seq<Span>, live: set<Span>, n: nat) {
    NodesOk(nodes, n) && LiveOk(live, n) && Tiles(nodes, live, n)
  }

  // ---------------------------------------------------------------- the list is determined by the live bytes

  lemma NodeBytesFree(nodes: seq<Span>, i: nat, b: nat)
    requires i < |nodes| && In(nodes[i], b)
    ensures FreeAt(nodes, b)
  {}

  /** Two lists over the same free bytes have no node that starts earlier in one of them. */
  lemma NoEarlierNode(a: seq<Span>, c: seq<Span>, i: nat, n: nat)
    requires NodesOk(a, n) && NodesOk(c, n) && i < |a| && i <= |c| && a[..i] == c[..i]
    requires forall b :: HEADER <= b < n ==> FreeAt(a, b) == FreeAt(c, b)
    ensures i < |c| && c[i].off <= a[i].off
  {
    var b := a[i].off;
    NodeBytesFree(a, i, b);
    forall k | 0 <= k < i
      ensures k < |c| && !In(c[k], b)
    {
      assert a[..i][k] == c[..i][k] && a[k].End() < a[i].off;
    }
    assert FreeAt(c, b);
    var j :| 0 <= j < |c| && In(c[j], b);
  }

  lemma EndIsNotFree(c: seq<Span>, i: nat, n: nat)
    requires NodesOk(c, n) && i < |c|
    ensures !FreeAt(c, c[i].End())
  {
    forall j | 0 <= j < |c|
      ensures !In(c[j], c[i].End())
    {
      assert j < i ==> c[j].End() < c[i].off;
      assert j > i ==> c[i].End() < c[j].off;
    }
  }

  lemma NoLongerNode(a: seq<Span>, c: seq<Span>, i: nat, n: nat)
    requires NodesOk(a, n) && NodesOk(c, n) && i < |a| && i < |c| && a[..i] == c[..i] && a[i].off == c[i].off
    requires forall b :: HEADER <= b < n ==> FreeAt(a, b) == FreeAt(c, b)
    ensures a[i].size <= c[i].size
  {
    EndIsNotFree(c, i, n);
    if a[i].size > c[i].size { NodeBytesFree(a, i, c[i].End()); }
  }

  /** The list depends only on which bytes are live. */
  lemma {:induction false} CanonicalUnique(a: seq<Span>, live: set<Span>, c: seq<Span>, live': set<Span>, n: nat)
    requires Canonical(a, live, n) && Canonical(c, live', n)
    requires forall b :: HEADER <= b < n ==> LiveAt(live, b) == LiveAt(live', b)
    ensures a == c
  {
    SamePrefix(a, c, n, |a|);
    if |a| < |c| { NoEarlierNode(c, a, |a|, n); }
    assert a[..|a|] == a && c[..|a|] == c;
  }

  lemma {:induction false} SamePrefix(a: seq<Span>, c: seq<Span>, n: nat, i: nat)
    requires NodesOk(a, n) && NodesOk(c, n) && i <= |a|
    requires forall b :: HEADER <= b < n ==> FreeAt(a, b) == FreeAt(c, b)
    ensures i <= |c| && a[..i] == c[..i]
  {
    if i > 0 {
      SamePrefix(a, c, n, i - 1);
      NoEarlierNode(a, c, i - 1, n);
      NoEarlierNode(c, a, i - 1, n);
      NoLongerNode(a, c, i - 1, n);
      NoLongerNode(c, a, i - 1, n);
      assert a[..i] == a[..i - 1] + [a[i - 1]] && c[..i] == c[..i - 1] + [c[i - 1]];
    }
  }

  // ---------------------------------------------------------------- surgery

  lemma FreeAtConcat(a: seq<Span>, c: seq<Span>, b: nat)
    ensures FreeAt(a + c, b) <==> FreeAt(a, b) || FreeAt(c, b)
  {
    if FreeAt(a, b) {
      var i :| 0 <= i < |a| && In(a[i], b);
      assert In((a + c)[i], b);
    }
    if FreeAt(c, b) {
      var i :| 0 <= i < |c| && In(c[i], b);
      assert In((a + c)[|a| + i], b);
    }
  }

  /** Replacing the nodes from `lo` to `hi`. */
  function Spliced(nodes: seq<Span>, lo: nat, mid: seq<Span>, hi: nat): (r: seq<Span>)
    requires lo <= hi <= |nodes|
    ensures |r| == lo + |mid| + |nodes| - hi
  {
    nodes[..lo] + mid + nodes[hi..]
  }

  lemma SplicedFree(nodes: seq<Span>, lo: nat, mid: seq<Span>, hi: nat, b: nat)
    requires lo <= hi <= |nodes|
    ensures FreeAt(nodes, b) <==> FreeAt(nodes[..lo], b) || FreeAt(nodes[lo..hi], b) || FreeAt(nodes[hi..], b)
    ensures FreeAt(Spliced(nodes, lo, mid, hi), b) <==> FreeAt(nodes[..lo], b) || FreeAt(mid, b) || FreeAt(nodes[hi..], b)
  {
    assert nodes == nodes[..lo] + nodes[lo..hi] + nodes[hi..];
    FreeAtConcat(nodes[..lo] + nodes[lo..hi], nodes[hi..], b);
    FreeAtConcat(nodes[..lo], nodes[lo..hi], b);
    FreeAtConcat(nodes[..lo] + mid, nodes[hi..], b);
    FreeAtConcat(nodes[..lo], mid, b);
  }

  lemma OneNode(s: Span, b: nat)
    ensures FreeAt([s], b) <==> In(s, b)
  {
    assert [s][0] == s;
  }

  lemma SplicedOk(nodes: seq<Span>, lo: nat, mid: seq<Span>, hi: nat, n: nat)
    requires lo <= hi <= |nodes| && NodesOk(nodes, n) && NodesOk(mid, n)
    requires forall i, j :: 0 <= i < lo && 0 <= j < |mid| ==> nodes[i].End() < mid[j].off
    requires forall i, j :: hi <= i < |nodes| && 0 <= j < |mid| ==> mid[j].End() < nodes[i].off
    ensures NodesOk(Spliced(nodes, lo, mid, hi), n)
  {
    var r := Spliced(nodes, lo, mid, hi);
    forall i | 0 <= i < |r|
      ensures r[i] == if i < lo then nodes[i] else if i < lo + |mid| then mid[i - lo] else nodes[i - lo - |mid| + hi]
    {}
  }

  // ---------------------------------------------------------------- allocation

  lemma LiveGrows(live: set<Span>, s: Span, b: nat)
    ensures LiveAt(live + {s}, b) <==> LiveAt(live, b) || In(s, b)
  {
    if LiveAt(live, b) {
      var t :| t in live && In(t, b);
      assert t in live + {s};
    }
    if In(s, b) { assert s in live + {s}; }
  }

  lemma LiveShrinks(live: set<Span>, s: Span, b: nat, n: nat)
    requires LiveOk(live, n) && s in live
    ensures LiveAt(live - {s}, b) <==> LiveAt(live, b) && !In(s, b)
  {
    if LiveAt(live, b) && !In(s, b) {
      var t :| t in live && In(t, b);
      assert t in live - {s};
    }
  }

  /** A span inside a free node is apart from every live segment. */
  lemma FreeIsApart(nodes: seq<Span>, live: set<Span>, n: nat, i: nat, s: Span, t: Span)
    requires Canonical(nodes, live, n) && i < |nodes| && t in live
    requires nodes[i].off <= s.off && s.End() <= nodes[i].End() && s.size > 0
    ensures Apart(s, t)
  {
    if !Apart(s, t) {
      var b := if s.off <= t.off then t.off else s.off;
      assert In(nodes[i], b) && In(t, b);
      assert FreeAt(nodes, b) && LiveAt(live, b);
    }
  }

  lemma LiveOkGrows(nodes: seq<Span>, live: set<Span>, n: nat, i: nat, s: Span)
    requires Canonical(nodes, live, n) && i < |nodes| && SpanOk(s, n)
    requires nodes[i].off <= s.off && s.End() <= nodes[i].End()
    ensures LiveOk(live + {s}, n) && s !in live
  {
    forall t | t in live
      ensures Apart(s, t)
    {
      FreeIsApart(nodes, live, n, i, s, t);
    }
  }

  /** What remains of a node when its first `take` bytes are allocated. */
  function Remainder(s: Span, take: nat): seq<Span>
    requires take <= s.size
  {
    if take == s.size then [] else [Span(s.off + take, s.size - take)]
  }

  /** Allocating the first `take` bytes of a node keeps the list canonical. */
  lemma TakeKeepsCanonical(nodes: seq<Span>, live: set<Span>, n: nat, i: nat, take: nat)
    requires Canonical(nodes, live, n) && i < |nodes| && NODE <= take <= nodes[i].size
    requires take == nodes[i].size || nodes[i].size - take >= NODE
    ensures var s := Span(nodes[i].off, take);
      && s !in live
      && Canonical(Spliced(nodes, i, Remainder(nodes[i], take), i + 1), live + {s}, n)
  {
    var s := Span(nodes[i].off, take);
    var mid := Remainder(nodes[i], take);
    var nodes' := Spliced(nodes, i, mid, i + 1);
    LiveOkGrows(nodes, live, n, i, s);
    SplicedOk(nodes, i, mid, i + 1, n);
    forall b | HEADER <= b < n
      ensures FreeAt(nodes', b) <==> !LiveAt(live + {s}, b)
    {
      TakenByte(nodes, live, n, i, take, b);
    }
  }

  lemma TakenByte(nodes: seq<Span>, live: set<Span>, n: nat, i: nat, take: nat, b: nat)
    requires Canonical(nodes, live, n) && i < |nodes| && take <= nodes[i].size && HEADER <= b < n
    ensures FreeAt(Spliced(nodes, i, Remainder(nodes[i], take), i + 1), b)
      <==> !LiveAt(live + {Span(nodes[i].off, take)}, b)
  {
    var s := Span(nodes[i].off, take);
    var mid := Remainder(nodes[i], take);
    LiveGrows(live, s, b);
    SplicedFree(nodes, i, mid, i + 1, b);
    assert nodes[i..i + 1] == [nodes[i]];
    OneNode(nodes[i], b);
    assert FreeAt(mid, b) <==> In(nodes[i], b) && !In(s, b) by {
      if mid != [] { OneNode(mid[0], b); }
    }
    if In(nodes[i], b) { OtherNodesAway(nodes, i, b, n); }
  }

  lemma OtherNodesAway(nodes: seq<Span>, i: nat, b: nat, n: nat)
    requires NodesOk(nodes, n) && i < |nodes| && In(nodes[i], b)
    ensures !FreeAt(nodes[..i], b) && !FreeAt(nodes[i + 1..], b)
  {
    forall j | 0 <= j < i
      ensures !In(nodes[..i][j], b)
    {
      assert nodes[j].End() < nodes[i].off;
    }
    var after := nodes[i + 1..];
    forall j | 0 <= j < |after|
      ensures !In(after[j], b)
    {
      assert nodes[i].End() < nodes[i + 1 + j].off;
    }
  }

  // ---------------------------------------------------------------- release

  /** `i` nodes lie before the span and the others after it. */
  ghost predicate Gap(nodes: seq<Span>, i: nat, s: Span) {
    && i <= |nodes|
    && (forall j :: 0 <= j < i ==> nodes[j].End() <= s.off)
    && (forall j :: i <= j < |nodes| ==> s.End() <= nodes[j].off)
  }

  predicate TouchesPrev(nodes: seq<Span>, i: nat, s: Span)
    requires i <= |nodes|
  {
    i > 0 && nodes[i - 1].End() == s.off
  }

  predicate TouchesNext(nodes: seq<Span>, i: nat, s: Span)
    requires i <= |nodes|
  {
    i < |nodes| && s.End() == nodes[i].off
  }

  /** The span together with the nodes it touches. */
  function Merged(nodes: seq<Span>, i: nat, s: Span): Span
    requires i <= |nodes|
  {
    var before := if TouchesPrev(nodes, i, s) then nodes[i - 1].size else 0;
    var after := if TouchesNext(nodes, i, s) then nodes[i].size else 0;
    Span(if TouchesPrev(nodes, i, s) then nodes[i - 1].off else s.off, before + s.size + after)
  }

  function Released(nodes: seq<Span>, i: nat, s: Span): seq<Span>
    requires i <= |nodes|
  {
    Spliced(nodes, if TouchesPrev(nodes, i, s) then i - 1 else i, [Merged(nodes, i, s)],
            if TouchesNext(nodes, i, s) then i + 1 else i)
  }

  /** A live segment lies between two nodes. */
  lemma LiveIsApart(nodes: seq<Span>, live: set<Span>, n: nat, i: nat, s: Span)
    requires Canonical(nodes, live, n) && i < |nodes| && s in live
    ensures Apart(nodes[i], s)
  {
    FreeIsApart(nodes, live, n, i, nodes[i], s);
  }

  /** Freeing a live segment, merged with the nodes it touches, keeps the list canonical. */
  lemma ReleaseKeepsCanonical(nodes: seq<Span>, live: set<Span>, n: nat, i: nat, s: Span)
    requires Canonical(nodes, live, n) && s in live && Gap(nodes, i, s)
    ensures Canonical(Released(nodes, i, s), live - {s}, n)
  {
    var lo := if TouchesPrev(nodes, i, s) then i - 1 else i;
    var hi := if TouchesNext(nodes, i, s) then i + 1 else i;
    var mid := [Merged(nodes, i, s)];
    MergedBetween(nodes, n, i, s);
    SplicedOk(nodes, lo, mid, hi, n);
    forall b | HEADER <= b < n
      ensures FreeAt(Released(nodes, i, s), b) <==> !LiveAt(live - {s}, b)
    {
      ReleasedByte(nodes, live, n, i, s, b);
    }
  }

  lemma MergedBetween(nodes: seq<Span>, n: nat, i: nat, s: Span)
    requires NodesOk(nodes, n) && SpanOk(s, n) && Gap(nodes, i, s)
    ensures var m := Merged(nodes, i, s);
      && SpanOk(m, n)
      && (forall j :: 0 <= j < (if TouchesPrev(nodes, i, s) then i - 1 else i) ==> nodes[j].End() < m.off)
      && (forall j :: (if TouchesNext(nodes, i, s) then i + 1 else i) <= j < |nodes| ==> m.End() < nodes[j].off)
  {
    if i > 0 { assert forall j :: 0 <= j < i - 1 ==> nodes[j].End() < nodes[i - 1].off; }
    if i < |nodes| { assert forall j :: i < j < |nodes| ==> nodes[i].End() < nodes[j].off; }
  }

  lemma ReleasedByte(nodes: seq<Span>, live: set<Span>, n: nat, i: nat, s: Span, b: nat)
    requires Canonical(nodes, live, n) && s in live && Gap(nodes, i, s) && HEADER <= b < n
    ensures FreeAt(Released(nodes, i, s), b) <==> !LiveAt(live - {s}, b)
  {
    var lo := if TouchesPrev(nodes, i, s) then i - 1 else i;
    var hi := if TouchesNext(nodes, i, s) then i + 1 else i;
    var m := Merged(nodes, i, s);
    LiveShrinks(live, s, b, n);
    SplicedFree(nodes, lo, [m], hi, b);
    OneNode(m, b);
    assert In(m, b) <==> FreeAt(nodes[lo..hi], b) || In(s, b) by {
      MergedBytes(nodes, i, s, b);
    }
  }

  lemma MergedBytes(nodes: seq<Span>, i: nat, s: Span, b: nat)
    requires i <= |nodes|
    ensures var lo := if TouchesPrev(nodes, i, s) then i - 1 else i;
      var hi := if TouchesNext(nodes, i, s) then i + 1 else i;
      In(Merged(nodes, i, s), b) <==> FreeAt(nodes[lo..hi], b) || In(s, b)
  {
    var lo := if TouchesPrev(nodes, i, s) then i - 1 else i;
    var hi := if TouchesNext(nodes, i, s) then i + 1 else i;
    assert nodes[lo..hi] == nodes[lo..i] + nodes[i..hi];
    FreeAtConcat(nodes[lo..i], nodes[i..hi], b);
    if lo < i {
      assert nodes[lo..i] == [nodes[i - 1]];
      OneNode(nodes[i - 1], b);
    }
    if i < hi {
      assert nodes[i..hi] == [nodes[i]];
      OneNode(nodes[i], b);
    }
  }

  // ---------------------------------------------------------------- the biggest node

  /** The biggest size a node offers, apart from the four bytes that will hold the segment's size. */
  function MaxSize(nodes: seq<Span>): nat {
    if nodes == [] then 0
    else
      var m := MaxSize(nodes[..|nodes| - 1]);
      var last := nodes[|nodes| - 1].size;
      if last >= 4 && last - 4 > m then last - 4 else m
  }

  lemma {:induction false} MaxSizeBounds(nodes: seq<Span>, n: nat)
    requires NodesOk(nodes, n)
    ensures forall i :: 0 <= i < |nodes| ==> nodes[i].size <= MaxSize(nodes) + 4
    ensures nodes != [] ==> exists i :: 0 <= i < |nodes| && nodes[i].size == MaxSize(nodes) + 4
    ensures nodes == [] ==> MaxSize(nodes) == 0
  {
    if nodes != [] {
      var m := nodes[..|nodes| - 1];
      assert NodesOk(m, n);
      MaxSizeBounds(m, n);
      if nodes[|nodes| - 1].size - 4 > MaxSize(m) {
        assert nodes[|nodes| - 1].size == MaxSize(nodes) + 4;
      } else {
        var i :| 0 <= i < |m| && m[i].size == MaxSize(m) + 4;
        assert nodes[i].size == MaxSize(nodes) + 4;
      }
      forall i | 0 <= i < |nodes|
        ensures nodes[i].size <= MaxSize(nodes) + 4
      {
        if i < |m| { assert m[i].size <= MaxSize(m) + 4; }
      }
    }
  }

  // ---------------------------------------------------------------- the empty and the whole list

  /** The list is one node over the whole block exactly when nothing is live. */
  lemma WholeIffNothingLive(nodes: seq<Span>, live: set<Span>, n: nat)
    requires Canonical(nodes, live, n) && n >= HEADER + NODE
    ensures live == {} <==> nodes == [Span(HEADER, n - HEADER)]
  {
    var whole := [Span(HEADER, n - HEADER)];
    if live == {} {
      WholeIsCanonical(n);
      CanonicalUnique(nodes, live, whole, {}, n);
    } else {
      var s :| s in live;
      assert In(s, s.off) && LiveAt(live, s.off);
      if nodes == whole {
        OneNode(whole[0], s.off);
      }
    }
  }

  lemma WholeIsCanonical(n: nat)
    requires n >= HEADER + NODE
    ensures Canonical([Span(HEADER, n - HEADER)], {}, n)
  {
    var whole := [Span(HEADER, n - HEADER)];
    forall b | HEADER <= b < n
      ensures FreeAt(whole, b) <==> !LiveAt({}, b)
    {
      OneNode(whole[0], b);
    }
  }

  /** A live segment leaves less room than an empty block has. */
  lemma LiveTakesRoom(nodes: seq<Span>, live: set<Span>, n: nat)
    requires Canonical(nodes, live, n) && n >= HEADER + NODE
    ensures live == {} ==> MaxSize(nodes) == n - HEADER - 4
    ensures live != {} ==> MaxSize(nodes) < n - HEADER - 4
  {
    WholeIffNothingLive(nodes, live, n);
    MaxSizeBounds(nodes, n);
    if live != {} && nodes != [] {
      var i :| 0 <= i < |nodes| && nodes[i].size == MaxSize(nodes) + 4;
      var s :| s in live;
      LiveIsApart(nodes, live, n, i, s);
    }
  }

  /** Behind a single segment at the start of the block there is one node, if there is anything. */
  lemma RoomBehind(nodes: seq<Span>, s: Span, n: nat)
    requires Canonical(nodes, {s}, n) && s.off == HEADER
    ensures MaxSize(nodes) == if s.End() == n then 0 else n - s.End() - 4
  {
    assert s in {s} && SpanOk(s, n);
    forall i | 0 <= i < |nodes|
      ensures s.End() <= nodes[i].off && nodes[i].End() <= n
    {
      LiveIsApart(nodes, {s}, n, i, s);
    }
    MaxSizeBounds(nodes, n);
    if s.End() < n {
      assert !LiveAt({s}, s.End());
      var i :| 0 <= i < |nodes| && In(nodes[i], s.End());
      EndIsNotFree(nodes, i, n);
      assert nodes[i].End() < n ==> !LiveAt({s}, nodes[i].End());
      assert nodes[i] == Span(s.End(), n - s.End());
    }
  }
}
