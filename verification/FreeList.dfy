/** The free list kept inside a block: creation, allocation by best fit, coalescing release. */
module FreeList {
  import opened Bytes
  import opened FreeSpans
  import opened FreeListRep
  import opened FreeListSteps

  // ---------------------------------------------------------------- creation

  method Create(mem: array<byte>)
    requires HEADER + NODE <= mem.Length < WORD
    modifies mem
    ensures Valid(mem[..], {}) && Nodes(mem[..]) == [Span(HEADER, mem.Length - HEADER)]
  {
    var total := mem.Length;
    for b := 0 to total
    {
      mem[b] := 0;
    }
    ghost var m0 := mem[..];
    WriteU32(mem, 0, total - HEADER);
    WordPut(m0, m0, {}, 0, total - HEADER);
    ghost var m1 := mem[..];
    WriteU32(mem, 4, HEADER);
    WordPut(m0, m1, {0}, 4, HEADER);
    ghost var m2 := mem[..];
    WriteU32(mem, HEADER, total - HEADER);
    WordPut(m0, m2, {0} + {4}, HEADER, total - HEADER);
    ghost var m3 := mem[..];
    WriteU32(mem, HEADER + 4, 0);
    WordPut(m0, m3, {0} + {4} + {HEADER}, HEADER + 4, 0);
    FreshListHolds(mem[..]);
  }

  lemma FreshListHolds(m: seq<byte>)
    requires HEADER + NODE <= |m| < WORD
    requires U32(m, 0) == |m| - HEADER && U32(m, 4) == HEADER && U32(m, HEADER) == |m| - HEADER && U32(m, HEADER + 4) == 0
    ensures Valid(m, {}) && Nodes(m) == [Span(HEADER, |m| - HEADER)]
  {
    var whole := [Span(HEADER, |m| - HEADER)];
    WholeIsCanonical(|m|);
    assert NodeAt(m, whole, 0);
    NodesAreFound(m, whole, {});
  }

  // ---------------------------------------------------------------- best fit

  /** The first of the smallest nodes with at least `size` bytes. */
  ghost predicate BestFit(nodes: seq<Span>, size: nat, i: nat) {
    && i < |nodes| && nodes[i].size >= size
    && forall j :: 0 <= j < |nodes| && nodes[j].size >= size ==>
        nodes[i].size < nodes[j].size || (nodes[i].size == nodes[j].size && i <= j)
  }

  ghost predicate Fits(nodes: seq<Span>, size: nat) {
    exists j :: 0 <= j < |nodes| && nodes[j].size >= size
  }

  /** The first of the smallest fitting nodes among the first `k`. */
  ghost predicate BestSoFar(nodes: seq<Span>, size: nat, k: nat, i: nat)
    requires k <= |nodes|
  {
    && i < k && nodes[i].size >= size
    && forall j :: 0 <= j < k && nodes[j].size >= size ==>
        nodes[i].size < nodes[j].size || (nodes[i].size == nodes[j].size && i <= j)
  }

  method FindBestFit(mem: array<byte>, size: nat, ghost nodes: seq<Span>, ghost live: set<Span>)
    returns (found: bool, offset: nat, prevOffset: nat, ghost i: nat)
    requires Holds(mem[..], nodes, live)
    ensures found <==> Fits(nodes, size)
    ensures found ==>
      && i < |nodes| && BestFit(nodes, size, i) && nodes[i].size >= size && offset == nodes[i].off
      && prevOffset == if i == 0 then 0 else nodes[i - 1].off
  {
    hide Canonical, Tiles;
    var nodeOffset := ReadU32(mem, 4);
    var prev := 0;
    var total := ReadU32(mem, 0);
    var minFound := total + 1;
    found, offset, prevOffset, i := false, 0, 0, 0;
    ghost var k := 0;
    while nodeOffset != 0
      invariant k <= |nodes| && nodeOffset == NextOf(nodes, k) && prev == if k == 0 then 0 else nodes[k - 1].off
      invariant !found ==> forall j :: 0 <= j < k ==> nodes[j].size < size
      invariant found ==>
        && BestSoFar(nodes, size, k, i) && minFound == nodes[i].size
        && offset == nodes[i].off && prevOffset == if i == 0 then 0 else nodes[i - 1].off
      decreases |nodes| - k
    {
      NodeFacts(mem[..], nodes, live, k);
      var node := ReadU32(mem, nodeOffset);
      if node >= size && (minFound > node || !found) {
        offset, prevOffset, minFound, found, i := nodeOffset, prev, node, true, k;
      }
      prev := nodeOffset;
      nodeOffset := ReadU32(mem, nodeOffset + 4);
      k := k + 1;
    }
    AllVisited(mem[..], nodes, live, k);
  }

  lemma AllVisited(m: seq<byte>, nodes: seq<Span>, live: set<Span>, k: nat)
    requires Holds(m, nodes, live) && k <= |nodes| && NextOf(nodes, k) == 0
    ensures k == |nodes|
  {
    if k < |nodes| { NodeFacts(m, nodes, live, k); }
  }

  // ---------------------------------------------------------------- allocation

  /** The bytes taken for `size` bytes, in 32-bit arithmetic: four more for the size, and at least a node. */
  function RealSize(size: nat): (r: nat)
    ensures r >= NODE
  {
    var reqSize := (size + 4) % WORD;
    if reqSize < NODE then NODE else reqSize
  }

  /** The segment holds what was asked for exactly when the addition does not wrap around. */
  lemma RealSizeIsEnough(size: nat)
    requires size < WORD
    ensures RealSize(size) - 4 >= size <==> size + 4 < WORD
  {
    if size + 4 >= WORD { ModUnique(size + 4, WORD, 1, size + 4 - WORD); }
  }

  /** A rest too small for a node is given away with the segment. */
  function Taken(node: Span, size: nat): nat {
    if node.size >= size + NODE + 1 then size else node.size
  }

  method AllocateInner(mem: array<byte>, size: nat, ghost nodes: seq<Span>, ghost live: set<Span>)
    returns (ok: bool, taken: nat, offset: nat, ghost i: nat)
    requires Holds(mem[..], nodes, live) && size >= NODE
    modifies mem
    ensures ok <==> Fits(nodes, size)
    ensures !ok ==> mem[..] == old(mem[..])
    ensures ok ==>
      && i < |nodes| && BestFit(nodes, size, i) && offset == nodes[i].off && taken == Taken(nodes[i], size)
      && size <= taken <= size + NODE && (taken == size || taken == nodes[i].size)
      && AllocWritten(old(mem[..]), mem[..], nodes, i, taken)
  {
    hide Holds, Linked, Canonical, BestFit, Fits, AllocWritten;
    var found, nodeOffset, prevOffset, i' := FindBestFit(mem, size, nodes, live);
    if !found { return false, 0, 0, 0; }
    i := i';
    ghost var m0 := mem[..];
    Parts(m0, nodes, live);
    NodeFacts(m0, nodes, live, i);
    SlotFacts(m0, nodes, live, i);
    offset := nodeOffset;
    var node := ReadU32(mem, nodeOffset);
    var next := ReadU32(mem, nodeOffset + 4);
    var slot := if prevOffset != 0 then prevOffset + 4 else 4;
    if i > 0 { NodeFacts(m0, nodes, live, i - 1); }
    assert slot == LinkSlot(nodes, i);
    var restSize := node - size;
    if restSize > NODE {
      taken := size;
      WriteSplit(mem, nodeOffset + size, restSize, next, slot, nodes, i, taken);
    } else {
      taken := node;
      WriteWhole(mem, next, slot, nodes, i);
    }
    ok := true;
  }

  /** Unlinks a node that is given away whole. */
  method WriteWhole(mem: array<byte>, next: nat, slot: nat, ghost nodes: seq<Span>, ghost i: nat)
    requires i < |nodes| && NODE <= nodes[i].size && nodes[i].End() <= mem.Length
    requires slot == LinkSlot(nodes, i) && slot + 4 <= nodes[i].off
    requires next == NextOf(nodes, i + 1) && next < WORD
    modifies mem
    ensures AllocWritten(old(mem[..]), mem[..], nodes, i, nodes[i].size)
  {
    hide Differ, PutU32, U32;
    ghost var m0 := mem[..];
    NothingChanged(m0);
    WriteU32(mem, slot, next);
    WordPut(m0, m0, {}, slot, next);
    ghost var none: set<nat> := {};
    assert none + {slot} == {slot} + none;
  }

  /** Writes the rest of a split node and links it. */
  method WriteSplit(mem: array<byte>, rest: nat, restSize: nat, next: nat, slot: nat,
                    ghost nodes: seq<Span>, ghost i: nat, ghost taken: nat)
    requires i < |nodes| && NODE <= taken < nodes[i].size && rest == nodes[i].off + taken
    requires restSize == nodes[i].size - taken && restSize >= NODE
    requires HEADER <= nodes[i].off && nodes[i].End() <= mem.Length < WORD
    requires slot == LinkSlot(nodes, i) && slot + 4 <= nodes[i].off
    requires next == NextOf(nodes, i + 1) && next < WORD
    modifies mem
    ensures AllocWritten(old(mem[..]), mem[..], nodes, i, taken)
  {
    hide Differ, PutU32, U32;
    ghost var m0 := mem[..];
    NothingChanged(m0);
    assert WordsApart(rest, rest + 4) && WordsApart(slot, rest) && WordsApart(slot, rest + 4);
    WriteU32(mem, rest, restSize);
    WordPut(m0, m0, {}, rest, restSize);
    ghost var m1 := mem[..];
    WriteU32(mem, rest + 4, next);
    WordPut(m0, m1, {} + {rest}, rest + 4, next);
    ghost var m2 := mem[..];
    WriteU32(mem, slot, rest);
    WordPut(m0, m2, {} + {rest} + {rest + 4}, slot, rest);
    assert {} + {rest} + {rest + 4} + {slot} == {slot} + {rest, rest + 4};
  }

  /** What allocation has written before the segment's own size. */
  ghost predicate AllocWritten(m: seq<byte>, m': seq<byte>, nodes: seq<Span>, i: nat, taken: nat)
    requires i < |nodes|
  {
    var rest := nodes[i].off + taken;
    && |m'| == |m|
    && NODE <= taken <= nodes[i].size
    && LinkSlot(nodes, i) + 4 <= nodes[i].off && nodes[i].End() <= |m|
    && Differ(m, m', {LinkSlot(nodes, i)} + if taken == nodes[i].size then {} else {rest, rest + 4})
    && (if taken == nodes[i].size then U32(m', LinkSlot(nodes, i)) == NextOf(nodes, i + 1)
        else
          && nodes[i].size - taken >= NODE
          && U32(m', LinkSlot(nodes, i)) == rest
          && U32(m', rest) == nodes[i].size - taken && U32(m', rest + 4) == NextOf(nodes, i + 1))
  }

  /** The whole allocation written: the segment's size comes last. */
  lemma SizeWritten(m: seq<byte>, m1: seq<byte>, nodes: seq<Span>, live: set<Span>, i: nat, taken: nat)
    requires Holds(m, nodes, live) && i < |nodes| && AllocWritten(m, m1, nodes, i, taken)
    requires nodes[i].off + 4 <= |m1|
    ensures var m2 := PutU32(m1, nodes[i].off, taken);
      && Holds(m2, Allocated(nodes, i, taken), live + {Span(nodes[i].off, taken)})
      && LiveOk(live, |m|) && SameLive(m, m2, live) && Span(nodes[i].off, taken) !in live
  {
    hide Holds, Canonical, Differ, PutU32, U32, SameLive, LiveOk, Linked;
    var off := nodes[i].off;
    var rest := off + taken;
    Parts(m, nodes, live);
    NodeFacts(m, nodes, live, i);
    var ws := {LinkSlot(nodes, i)} + if taken == nodes[i].size then {} else {rest, rest + 4};
    WordPut(m, m1, ws, off, taken);
    assert ws + {off} == AllocWords(nodes, i, taken);
    assert WordsApart(off, LinkSlot(nodes, i));
    AllocStep(m, PutU32(m1, off, taken), nodes, live, i, taken);
  }

  /** The segment is the start of the best fitting node, and the rest of the list is as before. */
  ghost predicate BestFitTaken(nodes: seq<Span>, nodes': seq<Span>, size: nat, s: Span) {
    exists i: nat :: TakenAt(nodes, nodes', size, s, i)
  }

  ghost predicate TakenAt(nodes: seq<Span>, nodes': seq<Span>, size: nat, s: Span, i: nat) {
    && BestFit(nodes, size, i)
    && s == Span(nodes[i].off, Taken(nodes[i], size))
    && nodes' == Allocated(nodes, i, s.size)
  }

  /** Node `i` is at `off`, and no node with room for `size` bytes is smaller. */
  ghost predicate SmallestAt(nodes: seq<Span>, size: nat, i: nat, off: nat) {
    && i < |nodes| && nodes[i].off == off && nodes[i].size >= size
    && forall j :: 0 <= j < |nodes| && nodes[j].size >= size ==> nodes[i].size <= nodes[j].size
  }

  lemma SmallestFits(nodes: seq<Span>, size: nat, i: nat)
    requires BestFit(nodes, size, i)
    ensures SmallestAt(nodes, size, i, nodes[i].off)
  {}

  lemma RealSizeBounds(size: nat)
    ensures size + 4 < WORD ==> size + 4 <= RealSize(size) <= size + NODE
  {}

  /** Allocates a segment for `size` bytes where it fits best; its address is that of the caller's bytes. */
  method Allocate(mem: array<byte>, size: nat, ghost live: set<Span>) returns (ok: bool, offset: nat, ghost s: Span)
    requires Valid(mem[..], live)
    modifies mem
    ensures ok <==> RealSize(size) <= MaxSize(Nodes(old(mem[..]))) + 4
    ensures !ok ==> mem[..] == old(mem[..])
    ensures ok ==>
      && offset == s.off + 4 && s !in live && Valid(mem[..], live + {s})
      && LiveOk(live, mem.Length) && SameLive(old(mem[..]), mem[..], live)
    ensures ok ==> BestFitTaken(Nodes(old(mem[..])), Nodes(mem[..]), RealSize(size), s)
    ensures ok ==> RealSize(size) <= s.size <= RealSize(size) + NODE
    ensures ok && size + 4 < WORD ==> size <= s.size - 4 <= size + NODE + 4
    ensures ok ==> exists i :: 0 <= i < |Nodes(old(mem[..]))| && SmallestAt(Nodes(old(mem[..])), RealSize(size), i, s.off)
  {
    hide Holds, Linked, Canonical, RealSize, BestFit, Taken, Allocated;
    ghost var m0 := mem[..];
    ghost var nodes := Nodes(m0);
    var reqSize := RealSize(size);
    FitsIff(m0, live, reqSize);
    var found, taken, off, i := AllocateInner(mem, reqSize, nodes, live);
    if !found { return false, 0, Span(0, 0); }
    ghost var m1 := mem[..];
    s := Span(off, taken);
    InBounds(m0, m1, nodes, live, i, taken);
    SizeWritten(m0, m1, nodes, live, i, taken);
    WriteU32(mem, off, taken);
    NodesAreFound(mem[..], Allocated(nodes, i, taken), live + {s});
    assert TakenAt(nodes, Nodes(mem[..]), reqSize, s, i);
    assert SmallestAt(nodes, reqSize, i, s.off) by { SmallestFits(nodes, reqSize, i); }
    RealSizeBounds(size);
    offset := off + 4;
    ok := true;
  }

  lemma InBounds(m: seq<byte>, m1: seq<byte>, nodes: seq<Span>, live: set<Span>, i: nat, taken: nat)
    requires Holds(m, nodes, live) && i < |nodes| && AllocWritten(m, m1, nodes, i, taken)
    ensures nodes[i].off + 4 <= |m1| == |m|
  {}

  /** Some node fits exactly when the biggest one does. */
  lemma FitsIff(m: seq<byte>, live: set<Span>, size: nat)
    requires Valid(m, live) && size >= NODE
    ensures Fits(Nodes(m), size) <==> size <= MaxSize(Nodes(m)) + 4
  {
    MaxSizeBounds(Nodes(m), |m|);
  }

  // ---------------------------------------------------------------- release

  /** What lies before node `k` ends before the segment without touching it. */
  ghost predicate Passed(nodes: seq<Span>, k: nat, s: Span) {
    k <= |nodes| && forall j :: 0 <= j < k ==> nodes[j].End() < s.off
  }

  lemma GapHere(m: seq<byte>, nodes: seq<Span>, live: set<Span>, k: nat, s: Span)
    requires Holds(m, nodes, live) && s in live && Passed(nodes, k, s)
    ensures k < |nodes| && nodes[k].off > s.off ==> Gap(nodes, k, s) && !TouchesPrev(nodes, k, s)
    ensures k == |nodes| ==> Gap(nodes, k, s) && !TouchesPrev(nodes, k, s)
    ensures k < |nodes| && nodes[k].End() == s.off ==> Gap(nodes, k + 1, s) && TouchesPrev(nodes, k + 1, s)
    ensures k < |nodes| && nodes[k].off <= s.off && nodes[k].End() != s.off ==> nodes[k].End() < s.off && Passed(nodes, k + 1, s)
  {
    hide Tiles;
    if k < |nodes| {
      LiveIsApart(nodes, live, |m|, k, s);
      NodeFacts(m, nodes, live, k);
      assert SpanOk(s, |m|);
      if k + 1 < |nodes| && nodes[k].End() == s.off {
        LiveIsApart(nodes, live, |m|, k + 1, s);
      }
    }
  }

  lemma Start(m: seq<byte>, nodes: seq<Span>, live: set<Span>, s: Span)
    requires Holds(m, nodes, live)
    ensures U32(m, 4) == NextOf(nodes, 0) && Passed(nodes, 0, s)
    ensures nodes != [] ==> nodes[0].off >= HEADER
  {
    if nodes != [] { NodeFacts(m, nodes, live, 0); }
  }

  /** Adds the node after the one at `at` to it. */
  method AbsorbNext(mem: array<byte>, at: nat, next: nat, ghost m0: seq<byte>, ghost ws: set<nat>)
    requires at + NODE <= next && next + NODE <= mem.Length < WORD && U32(mem[..], at + 4) == next
    requires U32(mem[..], at) + U32(mem[..], next) < WORD
    requires Differ(m0, mem[..], ws) && at in ws && at + 4 in ws
    modifies mem
    ensures Differ(m0, mem[..], ws)
    ensures U32(mem[..], at) == U32(old(mem[..]), at) + U32(old(mem[..]), next)
    ensures U32(mem[..], at + 4) == U32(old(mem[..]), next + 4)
    ensures forall p: nat :: (p + 4 <= mem.Length && WordsApart(at, p) && WordsApart(at + 4, p)
      ==> U32(mem[..], p) == U32(old(mem[..]), p))
  {
    hide Differ, PutU32, U32;
    ghost var m1 := mem[..];
    var size := ReadU32(mem, at);
    var nextSize := ReadU32(mem, next);
    WriteU32(mem, at, size + nextSize);
    WordPut(m0, m1, ws, at, size + nextSize);
    ghost var m2 := mem[..];
    var afterNext := ReadU32(mem, next + 4);
    assert WordsApart(at, next + 4) && WordsApart(at + 4, at);
    WriteU32(mem, at + 4, afterNext);
    WordPut(m0, m2, ws + {at}, at + 4, afterNext);
    assert ws + {at} == ws && ws + {at + 4} == ws;
  }

  lemma NextWords(m0: seq<byte>, m: seq<byte>, ws: set<nat>, nodes: seq<Span>, live: set<Span>, i: nat)
    requires Holds(m0, nodes, live) && i < |nodes| && Differ(m0, m, ws)
    requires forall w :: w in ws ==> w + 4 <= nodes[i].off
    ensures SpanOk(nodes[i], |m|) && U32(m, nodes[i].off) == nodes[i].size && U32(m, nodes[i].off + 4) == NextOf(nodes, i + 1)
  {
    NodeFacts(m0, nodes, live, i);
    DifferWord(m0, m, ws, nodes[i].off);
    DifferWord(m0, m, ws, nodes[i].off + 4);
  }

  /** The node at `at`, which ends where the freed segment does, takes in node `i` if it touches it. */
  method TakeInNext(mem: array<byte>, at: nat, size: nat, next: nat,
                    ghost m0: seq<byte>, ghost ws: set<nat>, ghost nodes: seq<Span>, ghost live: set<Span>,
                    ghost i: nat, ghost s: Span)
    requires Holds(m0, nodes, live) && i <= |nodes| && next == NextOf(nodes, i)
    requires mem.Length == |m0| < WORD && Differ(m0, mem[..], ws) && at in ws && at + 4 in ws
    requires i < |nodes| ==> forall w :: w in ws ==> w + 4 <= nodes[i].off
    requires HEADER <= at && at + NODE <= at + size == s.End() <= mem.Length && (i < |nodes| ==> s.End() <= nodes[i].off)
    requires U32(mem[..], at) == size && U32(mem[..], at + 4) == next
    modifies mem
    ensures Differ(m0, mem[..], ws)
    ensures U32(mem[..], at) == size + if TouchesNext(nodes, i, s) then nodes[i].size else 0
    ensures U32(mem[..], at + 4) == NextOf(nodes, if TouchesNext(nodes, i, s) then i + 1 else i)
    ensures forall p: nat :: (p + 4 <= mem.Length && WordsApart(at, p) && WordsApart(at + 4, p)
      ==> U32(mem[..], p) == U32(old(mem[..]), p))
  {
    hide Holds, Differ;
    if i < |nodes| { NextWords(m0, mem[..], ws, nodes, live, i); }
    if next != 0 && at + size == next {
      AbsorbNext(mem, at, next, m0, ws);
    }
  }

  /** Writes a node and links it. */
  method LinkNode(mem: array<byte>, slot: nat, next: nat, offset: nat, size: nat)
    requires slot + 4 <= offset && offset + NODE <= mem.Length < WORD && next < WORD && size < WORD
    modifies mem
    ensures Differ(old(mem[..]), mem[..], {slot, offset, offset + 4})
    ensures U32(mem[..], offset) == size && U32(mem[..], offset + 4) == next && U32(mem[..], slot) == offset
  {
    hide Differ, PutU32, U32;
    assert WordsApart(offset, offset + 4) && WordsApart(slot, offset) && WordsApart(slot, offset + 4);
    ghost var m0 := mem[..];
    WriteU32(mem, offset, size);
    NothingChanged(m0);
    WordPut(m0, m0, {}, offset, size);
    ghost var m1 := mem[..];
    WriteU32(mem, offset + 4, next);
    WordPut(m0, m1, {} + {offset}, offset + 4, next);
    ghost var m2 := mem[..];
    WriteU32(mem, slot, offset);
    WordPut(m0, m2, {} + {offset} + {offset + 4}, slot, offset);
    assert {} + {offset} + {offset + 4} + {slot} == {slot, offset, offset + 4};
  }

  lemma NothingChanged(m: seq<byte>)
    ensures Differ(m, m, {})
  {}

  /** Writes the freed segment as a node before node `i`, which it takes in if it touches it. */
  method LinkAndMerge(mem: array<byte>, slot: nat, next: nat, offset: nat, size: nat,
                      ghost nodes: seq<Span>, ghost live: set<Span>, ghost i: nat)
    requires Holds(mem[..], nodes, live) && Span(offset, size) in live
    requires Gap(nodes, i, Span(offset, size)) && slot == LinkSlot(nodes, i) && next == NextOf(nodes, i)
    modifies mem
    ensures i <= |nodes| && slot + 4 <= offset && offset + NODE <= offset + size <= mem.Length
    ensures Differ(old(mem[..]), mem[..], NewNodeWords(nodes, i, Span(offset, size)))
    ensures U32(mem[..], offset) == size + if TouchesNext(nodes, i, Span(offset, size)) then nodes[i].size else 0
    ensures U32(mem[..], offset + 4) == NextOf(nodes, if TouchesNext(nodes, i, Span(offset, size)) then i + 1 else i)
    ensures U32(mem[..], slot) == offset
  {
    hide Holds, Linked, Canonical, Gap, Differ, TouchesNext;
    ghost var s := Span(offset, size);
    ghost var m0 := mem[..];
    Parts(m0, nodes, live);
    GapFacts(m0, nodes, live, i, s);
    LinkNode(mem, slot, next, offset, size);
    ghost var ws := {slot, offset, offset + 4};
    assert ws == NewNodeWords(nodes, i, s);
    TakeInNext(mem, offset, size, next, m0, ws, nodes, live, i, s);
    assert WordsApart(offset, slot) && WordsApart(offset + 4, slot);
  }

  /** The node before the segment cannot touch it: the search would have stopped there. */
  method MergePrevious(mem: array<byte>, prevOffset: nat, offset: nat, ghost m0: seq<byte>, ghost ws: set<nat>,
                       ghost nodes: seq<Span>, ghost live: set<Span>, ghost i: nat)
    requires Holds(m0, nodes, live) && i <= |nodes| && Differ(m0, mem[..], ws)
    requires prevOffset == 0 || (i > 0 && prevOffset == nodes[i - 1].off && nodes[i - 1].End() != offset)
    requires i > 0 ==> forall w :: w in ws ==> WordsApart(w, nodes[i - 1].off)
  {
    hide Holds;
    if prevOffset != 0 {
      NodeFacts(m0, nodes, live, i - 1);
      DifferWord(m0, mem[..], ws, prevOffset);
      var prev := ReadU32(mem, prevOffset);
      if prevOffset + prev == offset {
        assert false;
      }
    }
  }

  /** The segment becomes a node between nodes `i - 1` and `i`, or takes the latter in. */
  method InsertNode(mem: array<byte>, slot: nat, next: nat, prevOffset: nat, offset: nat, size: nat,
                    ghost nodes: seq<Span>, ghost live: set<Span>, ghost i: nat)
    requires Holds(mem[..], nodes, live) && Span(offset, size) in live
    requires Gap(nodes, i, Span(offset, size)) && !TouchesPrev(nodes, i, Span(offset, size))
    requires slot == LinkSlot(nodes, i) && next == NextOf(nodes, i)
    requires prevOffset == 0 || (i > 0 && prevOffset == nodes[i - 1].off)
    modifies mem
    ensures Holds(mem[..], Released(nodes, i, Span(offset, size)), live - {Span(offset, size)})
    ensures LiveOk(live - {Span(offset, size)}, mem.Length)
    ensures SameLive(old(mem[..]), mem[..], live - {Span(offset, size)})
  {
    hide Holds, Linked, Canonical, Gap, LiveOk, SameLive, Released, Differ, Merged, TouchesPrev, TouchesNext;
    ghost var s := Span(offset, size);
    ghost var m0 := mem[..];
    LinkAndMerge(mem, slot, next, offset, size, nodes, live, i);
    GapFacts(m0, nodes, live, i, s);
    NotTouched(nodes, i, s);
    MergedIs(nodes, i, s);
    MergePrevious(mem, prevOffset, offset, m0, NewNodeWords(nodes, i, s), nodes, live, i);
    NewNodeStep(m0, mem[..], nodes, live, i, s);
  }

  lemma NotTouched(nodes: seq<Span>, i: nat, s: Span)
    requires i <= |nodes| && !TouchesPrev(nodes, i, s)
    ensures i > 0 ==> nodes[i - 1].off + nodes[i - 1].size != s.off
  {}

  lemma MergedIs(nodes: seq<Span>, i: nat, s: Span)
    requires i <= |nodes|
    ensures !TouchesPrev(nodes, i, s) ==>
      Merged(nodes, i, s).size == s.size + if TouchesNext(nodes, i, s) then nodes[i].size else 0
    ensures TouchesPrev(nodes, i, s) ==>
      Merged(nodes, i, s).size == nodes[i - 1].size + s.size + if TouchesNext(nodes, i, s) then nodes[i].size else 0
  {}

  method GrowSize(mem: array<byte>, at: nat, size: nat)
    requires at + NODE <= mem.Length && size < WORD
    modifies mem
    ensures Differ(old(mem[..]), mem[..], {at, at + 4})
    ensures U32(mem[..], at) == size && U32(mem[..], at + 4) == U32(old(mem[..]), at + 4)
  {
    hide Differ;
    ghost var m0 := mem[..];
    WriteU32(mem, at, size);
    NothingChanged(m0);
    WordPut(m0, m0, {}, at, size);
    assert WordsApart(at, at + 4);
    MoreWords(m0, mem[..], {} + {at}, {at, at + 4});
  }

  /** The segment just after node `i - 1` is added to it, and node `i` too if the segment touches it. */
  method GrowNode(mem: array<byte>, nodeOffset: nat, nodeSize: nat, next: nat, size: nat,
                  ghost nodes: seq<Span>, ghost live: set<Span>, ghost i: nat, ghost s: Span)
    requires Holds(mem[..], nodes, live) && s in live && s.size == size
    requires Gap(nodes, i, s) && TouchesPrev(nodes, i, s)
    requires Span(nodeOffset, nodeSize) == nodes[i - 1] && next == NextOf(nodes, i)
    modifies mem
    ensures Holds(mem[..], Released(nodes, i, s), live - {s})
    ensures LiveOk(live - {s}, mem.Length)
    ensures SameLive(old(mem[..]), mem[..], live - {s})
  {
    hide Holds, Linked, Canonical, Gap, LiveOk, SameLive, Released, Differ, Merged;
    ghost var m0 := mem[..];
    Parts(m0, nodes, live);
    GapFacts(m0, nodes, live, i, s);
    NodeFacts(m0, nodes, live, i - 1);
    if i < |nodes| { NodeFacts(m0, nodes, live, i); }
    MergedIs(nodes, i, s);
    ghost var ws := GrownNodeWords(nodes, i);
    GrowSize(mem, nodeOffset, nodeSize + size);
    TakeInNext(mem, nodeOffset, nodeSize + size, next, m0, ws, nodes, live, i, s);
    GrownNodeStep(m0, mem[..], nodes, live, i, s);
  }

  lemma MoreWords(m: seq<byte>, m': seq<byte>, ws: set<nat>, ws': set<nat>)
    requires Differ(m, m', ws) && ws <= ws'
    ensures Differ(m, m', ws')
  {
    forall b: nat | b < |m| && m'[b] != m[b]
      ensures InWords(ws', b)
    {
      var w :| w in ws && w <= b < w + 4;
      assert w in ws';
    }
  }

  method FreeInner(mem: array<byte>, offset: nat, size: nat, ghost nodes: seq<Span>, ghost live: set<Span>)
    returns (ok: bool, ghost i: nat)
    requires Holds(mem[..], nodes, live) && Span(offset, size) in live
    modifies mem
    ensures ok && i <= |nodes| && Holds(mem[..], Released(nodes, i, Span(offset, size)), live - {Span(offset, size)})
    ensures LiveOk(live - {Span(offset, size)}, mem.Length)
    ensures SameLive(old(mem[..]), mem[..], live - {Span(offset, size)})
  {
    hide Holds, Linked, Canonical, LiveOk, Gap, Passed, SameLive, Released;
    ghost var s := Span(offset, size);
    ghost var m0 := mem[..];
    Parts(m0, nodes, live);
    Start(m0, nodes, live, s);
    var nodeOffset := ReadU32(mem, 4);
    var prevOffset := 0;
    if nodeOffset == 0 {
      GapHere(m0, nodes, live, 0, s);
      InsertNode(mem, 4, 0, 0, offset, size, nodes, live, 0);
      return true, 0;
    }
    ghost var k := 0;
    while nodeOffset != 0
      invariant mem[..] == m0 && Passed(nodes, k, s) && k < |nodes| && nodeOffset == nodes[k].off >= HEADER
      invariant if k == 0 then prevOffset == 0 else prevOffset == nodes[k - 1].off >= HEADER
      decreases |nodes| - k
    {
      NodeFacts(m0, nodes, live, k);
      GapHere(m0, nodes, live, k, s);
      var node := ReadU32(mem, nodeOffset);
      var next := ReadU32(mem, nodeOffset + 4);
      if nodeOffset + node == offset {
        GrowNode(mem, nodeOffset, node, next, size, nodes, live, k + 1, s);
        return true, k + 1;
      }
      if nodeOffset > offset {
        var slot := if prevOffset != 0 then prevOffset + 4 else 4;
        InsertNode(mem, slot, nodeOffset, prevOffset, offset, size, nodes, live, k);
        return true, k;
      }
      if next == 0 && nodeOffset + node < offset {
        GapHere(m0, nodes, live, k + 1, s);
        InsertNode(mem, nodeOffset + 4, 0, 0, offset, size, nodes, live, k + 1);
        return true, k + 1;
      }
      prevOffset := nodeOffset;
      nodeOffset := next;
      k := k + 1;
    }
    assert false;
  }

  /** Freeing a live segment always succeeds. */
  method Free(mem: array<byte>, offset: nat, ghost live: set<Span>, ghost s: Span) returns (ok: bool)
    requires Valid(mem[..], live) && s in live && offset == s.off + 4
    modifies mem
    ensures ok && Valid(mem[..], live - {s})
    ensures LiveOk(live - {s}, mem.Length) && SameLive(old(mem[..]), mem[..], live - {s})
  {
    hide Linked, Canonical, LiveOk, Gap, SameLive, Released;
    ghost var m0 := mem[..];
    assert HasHeader(m0, s);
    var size := ReadU32(mem, offset - 4);
    ghost var i;
    ok, i := FreeInner(mem, offset - 4, size, Nodes(m0), live);
    assert Span(offset - 4, size) == s;
    NodesAreFound(mem[..], Released(Nodes(m0), i, s), live - {s});
  }

  // ---------------------------------------------------------------- queries

  method IsEmpty(mem: array<byte>, ghost live: set<Span>) returns (empty: bool)
    requires Valid(mem[..], live)
    ensures empty <==> live == {}
  {
    hide Canonical;
    ghost var nodes := Nodes(mem[..]);
    WholeIffNothingLive(nodes, live, mem.Length);
    var head := ReadU32(mem, 4);
    var total := ReadU32(mem, 0);
    if head == HEADER {
      NodeFacts(mem[..], nodes, live, 0);
      var size := ReadU32(mem, head);
      if size == total { OnlyOneNode(mem[..], nodes, live); }
      return size == total;
    }
    return false;
  }

  lemma OnlyOneNode(m: seq<byte>, nodes: seq<Span>, live: set<Span>)
    requires Holds(m, nodes, live) && nodes != [] && nodes[0] == Span(HEADER, |m| - HEADER)
    ensures nodes == [Span(HEADER, |m| - HEADER)]
  {
    if |nodes| > 1 { NodeFacts(m, nodes, live, 0); }
  }

  method MaxFree(mem: array<byte>, ghost live: set<Span>) returns (max: nat)
    requires Valid(mem[..], live)
    ensures max == MaxSize(Nodes(mem[..]))
  {
    hide Canonical;
    ghost var nodes := Nodes(mem[..]);
    var nodeOffset := ReadU32(mem, 4);
    max := 0;
    ghost var k := 0;
    while nodeOffset != 0
      invariant k <= |nodes| && nodeOffset == NextOf(nodes, k) && max == MaxSize(nodes[..k])
      decreases |nodes| - k
    {
      NodeFacts(mem[..], nodes, live, k);
      var node := ReadU32(mem, nodeOffset);
      assert nodes[..k + 1][..k] == nodes[..k];
      if node - 4 > max { max := node - 4; }
      nodeOffset := ReadU32(mem, nodeOffset + 4);
      k := k + 1;
    }
    AllVisited(mem[..], nodes, live, k);
    assert nodes[..k] == nodes;
  }
}
