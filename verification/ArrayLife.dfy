/** Arrays in full blocks while other allocations come and go: when a full block stays the array's own. */
module ArrayLife {
  import opened Bytes
  import opened FreeSpans
  import opened FreeListRep
  import FreeList
  import opened AllocatorState
  import opened AllocatorSteps
  import opened Allocator
  import opened Segments

  /** The segment has its block to itself. */
  ghost predicate Exclusive(m: map<Cell, seq<byte>>, c: Cell) {
    c in m && forall k :: k in m && k.addr == c.addr ==> k == c
  }

  /** It also leaves too little of its block for another one. */
  ghost predicate Owned(s: State, c: Cell)
    requires Sizes(s)
  {
    Exclusive(Memory(s), c) && c.span.off == HEADER && s.blockSize < c.span.End() + NODE + 4
  }

  lemma OnlyLive(s: State, c: Cell)
    requires Sizes(s) && Exclusive(Memory(s), c) && IsAddr(s, c.addr)
    ensures s.lives[c.addr - 1] == {c.span}
  {
    assert InLives(s.lives, c);
    var live := s.lives[c.addr - 1];
    forall t | t in live
      ensures t == c.span
    {
      assert InLives(s.lives, Cell(c.addr, t));
    }
    assert live == {c.span};
  }

  /** The recorded size of a block with a single segment at its start is what lies behind the segment. */
  lemma RecordedBeside(s: State, c: Cell)
    requires AllocatorSteps.Valid(s) && Sizes(s) && Exclusive(Memory(s), c) && c.span.off == HEADER
    ensures IsAddr(s, c.addr) && c.span.End() <= s.blockSize
    ensures s.blocks[c.addr - 1].maxSize == if c.span.End() == s.blockSize then 0 else s.blockSize - c.span.End() - 4
  {
    hide Inv, Memory, Settled, Linked, LiveHeaders;
    ValidParts(s);
    Located(s, c);
    OnlyLive(s, c);
    RoomBehind(Nodes(s.contents[c.addr - 1]), c.span, s.blockSize);
  }

  /** Whatever happened before, some allocation can still land in the block of a single segment exactly
      when the segment leaves a node and four bytes. */
  lemma RoomBesideSegment(s: State, c: Cell)
    requires AllocatorSteps.Valid(s) && Sizes(s) && Exclusive(Memory(s), c) && c.span.off == HEADER
    ensures (exists size: nat :: Roomy(s, c.addr, FreeList.RealSize(size))) <==> s.blockSize >= c.span.End() + NODE + 4
  {
    hide Memory, AllocatorSteps.Valid, Exclusive;
    RecordedBeside(s, c);
    assert s.blockSize >= c.span.End() + NODE + 4 ==> Roomy(s, c.addr, FreeList.RealSize(0));
  }

  lemma FullBlockExclusive(s: State, c: Cell, room: nat)
    requires Sizes(s) && FullBlock(s, c, room)
    ensures Exclusive(Memory(s), c) && c.span.off == HEADER
  {
    forall k | k in Memory(s) && k.addr == c.addr
      ensures k == c
    {
      InMemory(s, k);
    }
  }

  /** A block filled with whole elements is owned if less than a node is left of it. */
  lemma FullBlockOwned(s: State, c: Cell, per: nat, room: nat)
    requires Sizes(s) && FullBlock(s, c, room) && c.Size() >= per && per + room == s.blockSize - ALLOC_HEAD_SIZE - 4
    requires room < NODE
    ensures Owned(s, c)
  {
    hide Memory;
    FullBlockExclusive(s, c, room);
  }

  /** A block just filled has room for some allocation exactly when an element spares a node. */
  lemma FullBlockTakesMoreIff(s: State, c: Cell, room: nat)
    requires Sizes(s) && FullBlock(s, c, room) && room < WORD
    ensures (exists size: nat :: Roomy(s, c.addr, FreeList.RealSize(size))) <==> room >= NODE
  {
    if room >= NODE { assert Roomy(s, c.addr, FreeList.RealSize(0)); }
  }

  // ---------------------------------------------------------------- runs

  /** The full blocks of an array are its own, and its rest is live outside them. */
  ghost predicate ArrayOwned(s: State, full: seq<Cell>, fst: nat, c: Cell)
    requires Sizes(s)
  {
    c in Memory(s) && forall i :: 0 <= i < |full| ==> full[i].addr == fst + i != c.addr && Owned(s, full[i])
  }

  ghost function CellsOf(full: seq<Cell>, c: Cell): set<Cell> { (set k | k in full) + {c} }

  /** What one call may do: add a segment where there is room or in a new block, remove segments that
      are not the array's, or change bytes and what is in memory. */
  ghost predicate Called(s: State, t: State, own: set<Cell>) {
    && AllocatorSteps.Valid(s) && AllocatorSteps.Valid(t) && Sizes(s) && Sizes(t) && t.blockSize == s.blockSize
    && ((exists d, size: nat :: Added(s, t, d, size)) || (exists gone: set<Cell> :: Removed(s, t, gone, own))
        || Memory(t).Keys == Memory(s).Keys)
  }

  ghost predicate Added(s: State, t: State, d: Cell, size: nat)
    requires Sizes(s) && Sizes(t)
  {
    Placed(s, t, d, FreeList.RealSize(size)) && (d.addr > |s.blocks| || Roomy(s, d.addr, FreeList.RealSize(size)))
  }

  ghost predicate Removed(s: State, t: State, gone: set<Cell>, own: set<Cell>)
    requires Sizes(s) && Sizes(t)
  {
    gone !! own && Memory(t) == Memory(s) - gone
  }

  /** No call takes a block from the array: neither an allocation nor the release of something else. */
  lemma CallKeepsBlocks(s: State, t: State, full: seq<Cell>, fst: nat, c: Cell)
    requires Sizes(s) && Sizes(t) && ArrayOwned(s, full, fst, c) && Called(s, t, CellsOf(full, c))
    ensures ArrayOwned(t, full, fst, c)
  {
    hide Memory, AllocatorSteps.Valid, Placed, Roomy;
    if d, size: nat :| Added(s, t, d, size) {
      PlacedFacts(s, t, d, FreeList.RealSize(size));
      forall i | 0 <= i < |full|
        ensures Owned(t, full[i])
      {
        NotOnOwned(s, full[i], d, size);
        OwnedByKeys(s, t, full[i]);
      }
    } else if gone: set<Cell> :| Removed(s, t, gone, CellsOf(full, c)) {
      forall i | 0 <= i < |full|
        ensures Owned(t, full[i])
      {
        assert full[i] in CellsOf(full, c);
        OwnedByKeys(s, t, full[i]);
      }
      assert c in CellsOf(full, c);
    } else {
      assert Memory(t).Keys == Memory(s).Keys;
      forall i | 0 <= i < |full|
        ensures Owned(t, full[i])
      {
        OwnedByKeys(s, t, full[i]);
      }
    }
  }

  lemma NotOnOwned(s: State, c: Cell, d: Cell, size: nat)
    requires AllocatorSteps.Valid(s) && Sizes(s) && Owned(s, c)
    requires d.addr > |s.blocks| || Roomy(s, d.addr, FreeList.RealSize(size))
    ensures d.addr != c.addr
  {
    hide Memory, AllocatorSteps.Valid;
    RoomBesideSegment(s, c);
    InMemory(s, c);
  }

  lemma OwnedByKeys(s: State, t: State, c: Cell)
    requires Sizes(s) && Sizes(t) && t.blockSize == s.blockSize && Owned(s, c) && c in Memory(t)
    requires forall k :: k in Memory(t) && k.addr == c.addr ==> k in Memory(s)
    ensures Owned(t, c)
  {
    hide Memory;
  }

  /** Over any run of such calls the full blocks stay the array's own. */
  lemma {:induction false} RunKeepsBlocks(run: seq<State>, full: seq<Cell>, fst: nat, c: Cell)
    requires run != [] && Sizes(run[0]) && ArrayOwned(run[0], full, fst, c)
    requires forall i :: 0 <= i < |run| - 1 ==> Called(run[i], run[i + 1], CellsOf(full, c))
    ensures Sizes(run[|run| - 1]) && ArrayOwned(run[|run| - 1], full, fst, c)
    decreases |run|
  {
    hide Called;
    if |run| > 1 {
      CalledSizes(run[0], run[1], CellsOf(full, c));
      CallKeepsBlocks(run[0], run[1], full, fst, c);
      forall i | 0 <= i < |run[1..]| - 1
        ensures Called(run[1..][i], run[1..][i + 1], CellsOf(full, c))
      {
        assert Called(run[i + 1], run[i + 2], CellsOf(full, c));
      }
      RunKeepsBlocks(run[1..], full, fst, c);
    }
  }

  lemma CalledSizes(s: State, t: State, own: set<Cell>)
    requires Called(s, t, own)
    ensures Sizes(s) && Sizes(t)
  {}

  // ---------------------------------------------------------------- a program that uses an array and other segments

  /** What a program may do next with the `i`-th segment it holds. */
  datatype Op =
    | Take(size: nat, newBlock: bool)
    | Give(i: nat)
    | Look(i: nat, offset: nat, size: nat)
    | Change(i: nat, data: seq<byte>, offset: nat)
    | Move(i: nat, j: nat, size: nat)
    | Limit(nbBlocks: nat)

  datatype Held = Held(segment: AllocatedSegment, size: nat)

  /** The segments held are live and distinct, and with those of `base` they are all there is. */
  ghost predicate Holding(m: map<Cell, seq<byte>>, held: seq<Held>, cells: seq<Cell>, base: set<Cell>) {
    && |held| == |cells| && m.Keys == base + (set k | k in cells)
    && (forall i :: 0 <= i < |cells| ==>
          held[i].segment == SegmentOf(cells[i]) && held[i].size <= cells[i].Size() && cells[i] !in base)
    && (forall i, j :: 0 <= i < j < |cells| ==> cells[i] != cells[j])
  }

  lemma HeldIsLive(m: map<Cell, seq<byte>>, held: seq<Held>, cells: seq<Cell>, base: set<Cell>, i: nat)
    requires Holding(m, held, cells, base) && i < |held|
    ensures |cells| == |held| && cells[i] in m && held[i].segment == SegmentOf(cells[i]) && held[i].size <= cells[i].Size()
    ensures cells[i] !in base
  {}

  lemma HoldingMore(m: map<Cell, seq<byte>>, held: seq<Held>, cells: seq<Cell>, base: set<Cell>, m': map<Cell, seq<byte>>, h: Held, d: Cell)
    requires Holding(m, held, cells, base) && d !in m && m'.Keys == m.Keys + {d} && h.segment == SegmentOf(d) && h.size <= d.Size()
    ensures Holding(m', held + [h], cells + [d], base)
  {
    var more := cells + [d];
    assert forall i :: 0 <= i < |cells| ==> cells[i] in m;
    assert forall k :: k in more <==> k in cells || k == d;
  }

  /** A list without its `i`-th element. */
  function WithoutAt<T>(s: seq<T>, i: nat): (r: seq<T>)
    requires i < |s|
    ensures |r| == |s| - 1 && forall j :: 0 <= j < |r| ==> r[j] == s[if j < i then j else j + 1]
  {
    s[..i] + s[i + 1..]
  }

  lemma CellsWithoutAt(cells: seq<Cell>, i: nat)
    requires i < |cells| && forall i, j :: 0 <= i < j < |cells| ==> cells[i] != cells[j]
    ensures (set k | k in WithoutAt(cells, i)) == (set k | k in cells) - {cells[i]}
    ensures forall i', j :: 0 <= i' < j < |cells| - 1 ==> WithoutAt(cells, i)[i'] != WithoutAt(cells, i)[j]
  {
    hide WithoutAt;
    var less := WithoutAt(cells, i);
    forall k | k in cells && k != cells[i]
      ensures k in less
    {
      var j :| 0 <= j < |cells| && cells[j] == k;
      assert less[if j < i then j else j - 1] == k;
    }
  }

  lemma HoldingLess(m: map<Cell, seq<byte>>, held: seq<Held>, cells: seq<Cell>, base: set<Cell>, i: nat)
    requires Holding(m, held, cells, base) && i < |held|
    ensures |cells| == |held| && Holding(m - {cells[i]}, WithoutAt(held, i), WithoutAt(cells, i), base)
  {
    hide WithoutAt;
    CellsWithoutAt(cells, i);
    assert (m - {cells[i]}).Keys == base + (set k | k in WithoutAt(cells, i));
  }

  lemma HoldingSame(m: map<Cell, seq<byte>>, held: seq<Held>, cells: seq<Cell>, base: set<Cell>, m': map<Cell, seq<byte>>)
    requires Holding(m, held, cells, base) && m'.Keys == m.Keys
    ensures Holding(m', held, cells, base)
  {}

  /** Nothing of `base` changes. */
  ghost predicate BaseSame(m: map<Cell, seq<byte>>, m': map<Cell, seq<byte>>, base: set<Cell>) {
    forall k :: k in base ==> k in m && k in m' && m'[k] == m[k]
  }

  method ActTake(a: Allocator, size: nat, newBlock: bool, held: seq<Held>, ghost cells: seq<Cell>, ghost base: set<Cell>, ghost own: set<Cell>)
    returns (held': seq<Held>, ghost cells': seq<Cell>)
    requires a.Valid() && Holding(a.Memory(), held, cells, base)
    modifies a`loaded, a`blocks, a`persister, a`lastLRU, a`lives, a.loaded.Values
    ensures a.Valid() && Called(old(a.S()), a.S(), own) && a.Arrays(old(a.loaded))
    ensures Holding(a.Memory(), held', cells', base) && BaseSame(old(a.Memory()), a.Memory(), base)
  {
    hide Inv, Memory, AllocatorSteps.Valid, Placed, OthersKept, FreeList.RealSize, RoomLeft, WantsFreedBlock, Kept, Sizes, Holding, Roomy, Called, BaseSame;
    ghost var s := a.S();
    ghost var m := a.Memory();
    var r;
    ghost var d;
    r, d := a.Allocate(size, newBlock);
    if r.Allocated? {
      CalledAdded(s, a.S(), d, size, own);
      TakenMore(s, a.S(), d, size, held, cells, base);
      held', cells' := held + [Held(r.segment, Usable(size))], cells + [d];
    } else {
      CalledSame(s, a.S(), own);
      HoldingBase(m, held, cells, base);
      BaseKept(m, base);
      held', cells' := held, cells;
    }
  }

  /** What a caller may count on of a segment of `size` bytes, if that is not nearly 2^32. */
  function Usable(size: nat): nat { if size + 4 < WORD then size else 0 }

  lemma TakenMore(s: State, t: State, d: Cell, size: nat, held: seq<Held>, cells: seq<Cell>, base: set<Cell>)
    requires Sizes(s) && Sizes(t) && Placed(s, t, d, FreeList.RealSize(size)) && Holding(Memory(s), held, cells, base)
    ensures BaseSame(Memory(s), Memory(t), base)
    ensures Holding(Memory(t), held + [Held(SegmentOf(d), Usable(size))], cells + [d], base)
  {
    hide Memory, OthersKept, FreeList.RealSize, Holding, Placed, BaseSame;
    PlacedFacts(s, t, d, FreeList.RealSize(size));
    if size + 4 < WORD { FreeList.RealSizeIsEnough(size); }
    OneMore(Memory(s), Memory(t), d, base) by { HoldingBase(Memory(s), held, cells, base); }
    HoldingMore(Memory(s), held, cells, base, Memory(t), Held(SegmentOf(d), Usable(size)), d);
  }

  lemma OneMore(m: map<Cell, seq<byte>>, m': map<Cell, seq<byte>>, d: Cell, base: set<Cell>)
    requires d !in m && d in m' && m' == m[d := m'[d]] && forall k :: k in base ==> k in m
    ensures BaseSame(m, m', base) && m'.Keys == m.Keys + {d}
  {}

  lemma CalledAdded(s: State, t: State, d: Cell, size: nat, own: set<Cell>)
    requires AllocatorSteps.Valid(s) && AllocatorSteps.Valid(t) && Sizes(s) && Sizes(t) && t.blockSize == s.blockSize
    requires Placed(s, t, d, FreeList.RealSize(size)) && (d.addr > |s.blocks| || Roomy(s, d.addr, FreeList.RealSize(size)))
    ensures Called(s, t, own)
  {
    hide Memory, AllocatorSteps.Valid, FreeList.RealSize, Roomy, Placed;
    assert Added(s, t, d, size);
  }

  lemma CalledSame(s: State, t: State, own: set<Cell>)
    requires AllocatorSteps.Valid(s) && AllocatorSteps.Valid(t) && Sizes(s) && Sizes(t) && t.blockSize == s.blockSize
    requires Memory(t).Keys == Memory(s).Keys
    ensures Called(s, t, own)
  {
    hide Memory, AllocatorSteps.Valid;
  }

  lemma BaseKept(m: map<Cell, seq<byte>>, base: set<Cell>)
    requires forall k :: k in base ==> k in m
    ensures BaseSame(m, m, base)
  {}

  lemma HoldingBase(m: map<Cell, seq<byte>>, held: seq<Held>, cells: seq<Cell>, base: set<Cell>)
    requires Holding(m, held, cells, base)
    ensures forall k :: k in base ==> k in m
  {}

  method ActGive(a: Allocator, i: nat, held: seq<Held>, ghost cells: seq<Cell>, ghost base: set<Cell>, ghost own: set<Cell>)
    returns (held': seq<Held>, ghost cells': seq<Cell>)
    requires a.Valid() && Holding(a.Memory(), held, cells, base) && own <= base && i < |held|
    modifies a, a.loaded.Values
    ensures a.Valid() && Called(old(a.S()), a.S(), own) && a.Arrays(old(a.loaded))
    ensures Holding(a.Memory(), held', cells', base) && BaseSame(old(a.Memory()), a.Memory(), base)
  {
    hide Inv, Memory, AllocatorSteps.Valid, Holding, WithoutAt;
    ghost var s := a.S();
    SizesOfValid(s);
    HeldIsLive(a.Memory(), held, cells, base, i);
    HoldingLess(a.Memory(), held, cells, base, i);
    HoldingBase(a.Memory(), held, cells, base);
    a.Free(held[i].segment, cells[i]);
    SizesOfValid(a.S());
    assert Removed(s, a.S(), {cells[i]}, own);
    held', cells' := WithoutAt(held, i), WithoutAt(cells, i);
  }

  lemma SizesOfValid(s: State)
    requires AllocatorSteps.Valid(s)
    ensures Sizes(s)
  {}

  method ActOther(a: Allocator, op: Op, held: seq<Held>, ghost cells: seq<Cell>, ghost base: set<Cell>, ghost own: set<Cell>)
    requires a.Valid() && Holding(a.Memory(), held, cells, base) && !op.Take? && !op.Give?
    modifies a, a.loaded.Values
    ensures a.Valid() && Called(old(a.S()), a.S(), own) && a.Arrays(old(a.loaded))
    ensures Holding(a.Memory(), held, cells, base) && BaseSame(old(a.Memory()), a.Memory(), base)
  {
    hide Inv, Memory, AllocatorSteps.Valid, Holding, Kept, Put, Called, BaseSame, Sizes;
    ghost var s := a.S();
    ghost var m := a.Memory();
    SizesOfValid(s);
    HoldingBase(m, held, cells, base);
    ghost var at := 0;
    if op.Look? && op.i < |held| && op.offset + op.size <= held[op.i].size {
      HeldIsLive(m, held, cells, base, op.i);
      var data := a.Read(held[op.i].segment, op.offset, op.size, cells[op.i]);
      KeptSizes(s, a.S());
    } else if op.Change? && op.i < |held| && op.offset + |op.data| <= held[op.i].size {
      HeldIsLive(m, held, cells, base, op.i);
      at := op.i;
      a.Write(held[op.i].segment, op.data, op.offset, cells[op.i]);
      KeptSizes(s, a.S());
    } else if op.Move? && op.i < |held| && op.j < |held| && op.i != op.j && op.size <= held[op.i].size && op.size <= held[op.j].size
        && a.maxBlocks >= 2 {
      HeldIsLive(m, held, cells, base, op.i);
      HeldIsLive(m, held, cells, base, op.j);
      HeldApart(m, held, cells, base, op.i, op.j);
      at := op.j;
      a.Copy(held[op.i].segment, held[op.j].segment, op.size, cells[op.i], cells[op.j]);
      KeptSizes(s, a.S());
    } else if op.Limit? {
      a.Resize(op.nbBlocks);
    }
    SizesOfValid(a.S());
    Changed(m, a.Memory(), held, cells, base, at);
    CalledSame(s, a.S(), own);
  }

  /** The bytes of one segment held, at most, are different. */
  lemma Changed(m: map<Cell, seq<byte>>, m': map<Cell, seq<byte>>, held: seq<Held>, cells: seq<Cell>, base: set<Cell>, i: nat)
    requires Holding(m, held, cells, base)
    requires m' == m || (i < |cells| && cells[i] in m && cells[i] in m' && m' == m[cells[i] := m'[cells[i]]])
    ensures Holding(m', held, cells, base) && BaseSame(m, m', base) && m'.Keys == m.Keys
  {
    hide Holding;
    HoldingBase(m, held, cells, base);
    if m' != m { HeldIsLive(m, held, cells, base, i) by { assert |held| == |cells| by { SameLength(m, held, cells, base); } } }
    assert m'.Keys == m.Keys;
    HoldingSame(m, held, cells, base, m');
  }

  lemma SameLength(m: map<Cell, seq<byte>>, held: seq<Held>, cells: seq<Cell>, base: set<Cell>)
    requires Holding(m, held, cells, base)
    ensures |held| == |cells|
  {}

  lemma KeptSizes(s: State, t: State)
    requires Kept(s, t)
    ensures t.blockSize == s.blockSize
  {}

  lemma HeldApart(m: map<Cell, seq<byte>>, held: seq<Held>, cells: seq<Cell>, base: set<Cell>, i: nat, j: nat)
    requires Holding(m, held, cells, base) && i < |held| && j < |held| && i != j
    ensures |cells| == |held| && cells[i] != cells[j]
  {}

  method Act(a: Allocator, op: Op, held: seq<Held>, ghost cells: seq<Cell>, ghost base: set<Cell>, ghost own: set<Cell>)
    returns (held': seq<Held>, ghost cells': seq<Cell>)
    requires a.Valid() && Holding(a.Memory(), held, cells, base) && own <= base
    modifies a, a.loaded.Values
    ensures a.Valid() && Called(old(a.S()), a.S(), own) && a.Arrays(old(a.loaded))
    ensures Holding(a.Memory(), held', cells', base) && BaseSame(old(a.Memory()), a.Memory(), base)
  {
    hide Inv, Memory, AllocatorSteps.Valid, Holding, Called, BaseSame, Sizes;
    held', cells' := held, cells;
    if op.Take? {
      held', cells' := ActTake(a, op.size, op.newBlock, held, cells, base, own);
    } else if op.Give? && op.i < |held| {
      held', cells' := ActGive(a, op.i, held, cells, base, own);
    } else if op.Give? {
      ActOther(a, Look(|held|, 0, 0), held, cells, base, own);
    } else {
      ActOther(a, op, held, cells, base, own);
    }
  }

  lemma LaidOutOwned(s: State, t: State, n: nat, elemSize: nat, size: nat,
                     fst: nat, nb: nat, perBlock: nat, full: seq<Cell>, last: Outcome, c: Cell)
    requires LaidOut(s, t, n, elemSize, size, fst, nb, perBlock, full, last, c) && last.Allocated?
    requires (n - ALLOC_HEAD_SIZE - 4) % elemSize < NODE
    ensures Sizes(s) && Sizes(t) && ArrayOwned(t, full, fst, c) && RestOf(n, elemSize, size) <= n - ALLOC_HEAD_SIZE - 4
    ensures last.segment == SegmentOf(c) && |full| == nb && Grew(s, t, full + [c])
  {
    hide Memory, FullBlock, Owned, RestOf, Grew, PerBlock;
    PerBlockIs(n - ALLOC_HEAD_SIZE, elemSize);
    assert full + (if last.Allocated? then [c] else []) == full + [c];
    assert nb > 0 ==> perBlock + (n - ALLOC_HEAD_SIZE - 4) % elemSize == t.blockSize - ALLOC_HEAD_SIZE - 4;
    forall i | 0 <= i < |full|
      ensures full[i].addr == fst + i != c.addr && Owned(t, full[i])
    {
      FullBlockOwned(t, full[i], perBlock, (n - ALLOC_HEAD_SIZE - 4) % elemSize);
    }
  }

  lemma GrewByArray(s: State, t: State, full: seq<Cell>, c: Cell)
    requires Sizes(s) && Sizes(t) && Grew(s, t, full + [c])
    ensures Memory(t).Keys == Memory(s).Keys + CellsOf(full, c) && Memory(s).Keys !! CellsOf(full, c)
    ensures BaseSame(Memory(s), Memory(t), Memory(s).Keys)
  {
    hide Memory;
    assert forall k :: k in full + [c] <==> k in CellsOf(full, c);
    assert Memory(t).Keys == Memory(s).Keys + CellsOf(full, c);
  }

  lemma NothingHeld(m: map<Cell, seq<byte>>, base: set<Cell>)
    requires m.Keys == base
    ensures Holding(m, [], [], base)
  {}

  lemma StillSame(m: map<Cell, seq<byte>>, m': map<Cell, seq<byte>>, m'': map<Cell, seq<byte>>, base: set<Cell>)
    requires BaseSame(m, m', base) && BaseSame(m', m'', base)
    ensures BaseSame(m, m'', base)
  {}

  lemma SomeBlock(full: seq<Cell>, fst: nat, a: nat)
    requires fst <= a < fst + |full| && forall i :: 0 <= i < |full| ==> full[i].addr == fst + i
    ensures exists i :: 0 <= i < |full| && full[i].addr == a
  {
    assert full[a - fst].addr == a;
  }

  /** Giving back blocks that are the array's own takes away its segments and no others. */
  lemma OwnedBlocks(s: State, full: seq<Cell>, fst: nat, c: Cell)
    requires Sizes(s) && ArrayOwned(s, full, fst, c)
    ensures c in Memory(s) && !(fst <= c.addr < fst + |full|)
    ensures forall i :: 0 <= i < |full| ==> full[i] in Memory(s) && full[i].addr == fst + i
    ensures WithoutRange(Memory(s), fst, |full|) - {c} == Memory(s) - CellsOf(full, c)
  {
    hide Memory;
    var m := Memory(s);
    if fst <= c.addr < fst + |full| { SomeBlock(full, fst, c.addr); }
    forall k | k in m
      ensures fst <= k.addr < fst + |full| <==> k in full
    {
      if fst <= k.addr < fst + |full| { assert Exclusive(m, full[k.addr - fst]); }
    }
    FlatEqual(WithoutRange(m, fst, |full|) - {c}, m - CellsOf(full, c));
  }

  lemma Disposed(m0: map<Cell, seq<byte>>, m1: map<Cell, seq<byte>>, m: map<Cell, seq<byte>>,
                 held: seq<Held>, cells: seq<Cell>, own: set<Cell>)
    requires Holding(m, held, cells, m0.Keys + own) && m0.Keys !! own
    requires BaseSame(m0, m1, m0.Keys) && BaseSame(m1, m, m0.Keys + own)
    ensures Holding(m - own, held, cells, m0.Keys) && BaseSame(m0, m - own, m0.Keys)
  {
    assert (m - own).Keys == m0.Keys + (set k | k in cells);
  }

  /** Whatever a program does with other segments in between, an array of full blocks is its own from its
      allocation to its disposal, as long as an element spares less than a node: its bytes stay, and
      disposing of it takes away its segments and no others. */
  method ArrayAmongOthers(a: Allocator, elemSize: nat, size: nat, ops: seq<Op>)
    returns (placed: bool, held: seq<Held>, ghost cells: seq<Cell>)
    requires a.Valid() && ALLOC_HEAD_SIZE + NODE <= a.blockSize < WORD
    requires 0 < elemSize <= a.blockSize - ALLOC_HEAD_SIZE - 4 && size > 0 && size % elemSize == 0
    requires (a.blockSize - ALLOC_HEAD_SIZE - 4) % elemSize < NODE
    modifies a, a.loaded.Values
    ensures a.Valid() && (placed ==> RestOf(old(a.blockSize), elemSize, size) <= old(a.blockSize) - ALLOC_HEAD_SIZE - 4)
    ensures placed ==> Holding(a.Memory(), held, cells, old(a.Memory()).Keys) && BaseSame(old(a.Memory()), a.Memory(), old(a.Memory()).Keys)
  {
    hide Inv, Memory, AllocatorSteps.Valid, Holding, BaseSame, Sizes, LaidOut, ArrayOwned, RestOf, Grew, CellsOf, WithoutRange;
    ghost var s0 := a.S();
    var rest, fst, nb, per;
    ghost var full, last, c;
    rest, fst, nb, per, full, last, c := AllocateSegments(a, elemSize, size);
    held, cells := [], [];
    placed := rest.blockAddr != 0;
    if !placed { return; }
    ghost var t0 := a.S();
    LaidOutOwned(s0, t0, a.blockSize, elemSize, size, fst, nb, per, full, last, c);
    GrewByArray(s0, t0, full, c);
    held, cells := RunOps(a, ops, full, fst, c, Memory(s0).Keys + CellsOf(full, c));
    ghost var m := a.Memory();
    OwnedBlocks(a.S(), full, fst, c);
    Dispose(a, rest, fst, nb, full, c);
    Disposed(Memory(s0), Memory(t0), m, held, cells, CellsOf(full, c));
  }

  /** Anything a program does with other segments. */
  method RunOps(a: Allocator, ops: seq<Op>, ghost full: seq<Cell>, ghost fst: nat, ghost c: Cell, ghost base: set<Cell>)
    returns (held: seq<Held>, ghost cells: seq<Cell>)
    requires a.Valid() && Sizes(a.S()) && ArrayOwned(a.S(), full, fst, c) && a.Memory().Keys == base && CellsOf(full, c) <= base
    modifies a, a.loaded.Values
    ensures a.Valid() && Sizes(a.S()) && ArrayOwned(a.S(), full, fst, c) && a.Arrays(old(a.loaded))
    ensures Holding(a.Memory(), held, cells, base) && BaseSame(old(a.Memory()), a.Memory(), base)
  {
    hide Inv, Memory, AllocatorSteps.Valid, Holding, Called, BaseSame, Sizes, ArrayOwned, CellsOf;
    ghost var m := a.Memory();
    held, cells := [], [];
    NothingHeld(m, base);
    BaseKept(m, base);
    for i := 0 to |ops|
      invariant a.Valid() && Sizes(a.S()) && a.Arrays(old(a.loaded)) && ArrayOwned(a.S(), full, fst, c)
      invariant Holding(a.Memory(), held, cells, base) && BaseSame(m, a.Memory(), base)
    {
      ghost var s := a.S();
      held, cells := Act(a, ops[i], held, cells, base, CellsOf(full, c));
      CalledSizes(s, a.S(), CellsOf(full, c));
      CallKeepsBlocks(s, a.S(), full, fst, c);
      StillSame(m, Memory(s), a.Memory(), base);
    }
  }
}
