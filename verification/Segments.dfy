/** Big allocations: full blocks one after the other, and a rest. */
module Segments {
  import opened Bytes
  import opened FreeSpans
  import FreeList
  import opened AllocatorState
  import opened AllocatorSteps
  import opened Allocator

  /** The bytes of a block that whole elements can fill. */
  function PerBlock(max: nat, elemSize: nat): (t: nat)
    requires 0 < elemSize <= max - 4
    ensures 0 < t <= max - 4
  {
    var allocable := max - 4;
    SomeElement(allocable, elemSize);
    allocable - allocable % elemSize
  }

  lemma SomeElement(n: nat, e: nat)
    requires 0 < e <= n
    ensures n % e < e && n - n % e >= 1 && (n - n % e) % e == 0
  {
    var q := n / e;
    assert n - n % e == e * q;
    assert q >= 1;
    MultipleOf(q, e);
  }

  lemma MultipleOf(q: nat, e: nat)
    requires e > 0
    ensures (e * q) % e == 0
  {
    ModUnique(e * q, e, q, 0);
  }

  lemma LessOneBlock(size: nat, t: nat, e: nat)
    requires e > 0 && t <= size && size % e == 0 && t % e == 0
    ensures (size - t) % e == 0
  {
    var a, b := size / e, t / e;
    assert size == e * a && t == e * b;
    assert size - t == e * (a - b);
    ModUnique(size - t, e, a - b, 0);
  }

  /** What is left of a full block is less than an element. */
  lemma FullBlockRoom(n: nat, elemSize: nat)
    requires n >= ALLOC_HEAD_SIZE + NODE && n < WORD && 0 < elemSize <= n - ALLOC_HEAD_SIZE - 4
    ensures var max := n - ALLOC_HEAD_SIZE;
      && FreeList.RealSize(PerBlock(max, elemSize)) <= max
      && RoomLeft(n, FreeList.RealSize(PerBlock(max, elemSize))) <= (max - 4) % elemSize < elemSize
      && ((max - 4) % elemSize >= NODE ==> RoomLeft(n, FreeList.RealSize(PerBlock(max, elemSize))) == (max - 4) % elemSize)
      && PerBlock(max, elemSize) % elemSize == 0
  {
    hide PerBlock, FreeList.RealSize, RoomLeft;
    SomeElement(n - ALLOC_HEAD_SIZE - 4, elemSize);
    MoreThanRoom(n - ALLOC_HEAD_SIZE - 4, elemSize);
    PerBlockIs(n - ALLOC_HEAD_SIZE, elemSize);
    RoomBesides(n, PerBlock(n - ALLOC_HEAD_SIZE, elemSize), (n - ALLOC_HEAD_SIZE - 4) % elemSize);
  }

  lemma RoomBesides(n: nat, per: nat, room: nat)
    requires per + room == n - ALLOC_HEAD_SIZE - 4 && n < WORD && per > room && n >= ALLOC_HEAD_SIZE + NODE
    ensures FreeList.RealSize(per) <= n - ALLOC_HEAD_SIZE && RoomLeft(n, FreeList.RealSize(per)) <= room
    ensures room >= NODE ==> RoomLeft(n, FreeList.RealSize(per)) == room
  {}

  /** A block's worth is more than what is left over. */
  lemma MoreThanRoom(n: nat, e: nat)
    requires 0 < e <= n
    ensures n - n % e > n % e
  {
    SomeElement(n, e);
    var q := n / e;
    assert n - n % e == e * q;
    assert q >= 1 ==> e * q >= e;
  }

  /** What is left of `size` bytes once blocks of `n` bytes were filled as long as a block's worth was left. */
  function RestOf(n: nat, elemSize: nat, size: nat): nat
    requires 0 < elemSize <= n - ALLOC_HEAD_SIZE - 4
  {
    var max := n - ALLOC_HEAD_SIZE;
    var per := PerBlock(max, elemSize);
    if size < max then size else max - per + (size - (max - per)) % per
  }

  /** The rest and the number of blocks are determined by the sizes. */
  lemma RestIs(n: nat, elemSize: nat, size: nat, nb: nat, left: nat)
    requires 0 < elemSize <= n - ALLOC_HEAD_SIZE - 4 && left < n - ALLOC_HEAD_SIZE
    requires nb * PerBlock(n - ALLOC_HEAD_SIZE, elemSize) + left == size
    requires nb > 0 ==> left >= n - ALLOC_HEAD_SIZE - PerBlock(n - ALLOC_HEAD_SIZE, elemSize)
    ensures left == RestOf(n, elemSize, size)
  {
    hide PerBlock;
    var per := PerBlock(n - ALLOC_HEAD_SIZE, elemSize);
    if nb > 0 {
      assert nb * per >= per;
      ModUnique(size - (n - ALLOC_HEAD_SIZE - per), per, nb, left - (n - ALLOC_HEAD_SIZE - per));
    }
  }

  /** A full block with its only segment, at the start of its bytes. */
  ghost predicate FullBlock(s: State, c: Cell, room: nat)
    requires Sizes(s)
  {
    && IsAddr(s, c.addr) && c in Memory(s)
    && s.lives[c.addr - 1] == {c.span} && SegmentOf(c).offset == ALLOC_HEAD_SIZE
    && s.blocks[c.addr - 1].maxSize <= room && (room >= NODE ==> s.blocks[c.addr - 1].maxSize == room)
  }

  /** Consecutive full blocks that end with the last block of all. */
  ghost predicate FullBlocks(s: State, full: seq<Cell>, fst: nat, per: nat, room: nat)
    requires Sizes(s)
  {
    forall i :: 0 <= i < |full| ==> full[i].addr == fst + i && full[i].Size() >= per && FullBlock(s, full[i], room)
  }

  /** Everything stored is as it was, and only `added` is new. */
  ghost predicate Grew(s: State, t: State, added: seq<Cell>)
    requires Sizes(s) && Sizes(t)
  {
    && (forall k :: k in Memory(s) ==> k in Memory(t) && Memory(t)[k] == Memory(s)[k])
    && (forall k :: k in Memory(t) ==> k in Memory(s) || k in added)
    && (forall k :: k in added ==> k in Memory(t) && k !in Memory(s))
  }

  lemma FullBlockKept(s: State, t: State, c: Cell, room: nat, d: Cell, need: nat)
    requires Sizes(s) && Sizes(t) && FullBlock(s, c, room) && Placed(s, t, d, need) && d.addr != c.addr
    ensures FullBlock(t, c, room)
  {
    hide Memory;
  }

  lemma FullBlocksKept(s: State, t: State, full: seq<Cell>, fst: nat, per: nat, room: nat, d: Cell, need: nat)
    requires Sizes(s) && Sizes(t) && FullBlocks(s, full, fst, per, room) && Placed(s, t, d, need)
    requires forall i :: 0 <= i < |full| ==> d.addr != full[i].addr
    ensures FullBlocks(t, full, fst, per, room)
  {
    hide FullBlock, Placed;
    forall i | 0 <= i < |full|
      ensures FullBlock(t, full[i], room)
    {
      FullBlockKept(s, t, full[i], room, d, need);
    }
  }

  lemma GrewByOne(s: State, t: State, u: State, added: seq<Cell>, d: Cell, need: nat)
    requires Sizes(s) && Sizes(t) && Sizes(u) && Grew(s, t, added) && Placed(t, u, d, need)
    ensures Grew(s, u, added + [d])
  {
    hide Memory, OthersKept;
  }

  lemma BlocksAreCells(s: State, full: seq<Cell>, fst: nat, per: nat, room: nat)
    requires Sizes(s) && FullBlocks(s, full, fst, per, room)
    ensures forall i :: 0 <= i < |full| ==> 1 <= full[i].addr <= |s.blocks|
  {
    forall i | 0 <= i < |full|
      ensures IsAddr(s, full[i].addr)
    {
      assert FullBlock(s, full[i], room);
    }
  }

  lemma MakeFullBlock(s: State, c: Cell, room: nat)
    requires Sizes(s) && IsAddr(s, c.addr) && c in Memory(s) && s.lives[c.addr - 1] == {c.span}
    requires c.span.off == HEADER && s.blocks[c.addr - 1].maxSize <= room
    requires room >= NODE ==> s.blocks[c.addr - 1].maxSize == room
    ensures FullBlock(s, c, room)
  {}

  /** Segment `d` has filled a new block of `n` bytes behind all others. */
  ghost predicate NewFull(s: State, t: State, d: Cell, n: nat, elemSize: nat) {
    && Sizes(s) && Sizes(t) && 0 < elemSize <= n - ALLOC_HEAD_SIZE - 4 && d.addr == |s.blocks| + 1 == |t.blocks|
    && var per := PerBlock(n - ALLOC_HEAD_SIZE, elemSize);
      Placed(s, t, d, FreeList.RealSize(per)) && FullBlock(t, d, (n - ALLOC_HEAD_SIZE - 4) % elemSize) && d.Size() >= per
  }

  /** A segment that takes all the whole elements of a new block leaves a full block. */
  lemma NewBlockIsFull(s: State, t: State, d: Cell, n: nat, elemSize: nat)
    requires Sizes(s) && Sizes(t) && ALLOC_HEAD_SIZE + NODE <= n < WORD && 0 < elemSize <= n - ALLOC_HEAD_SIZE - 4
    requires var need := FreeList.RealSize(PerBlock(n - ALLOC_HEAD_SIZE, elemSize));
      && Placed(s, t, d, need) && d.addr == |s.blocks| + 1 == |t.blocks| && t.lives[d.addr - 1] == {d.span}
      && d.span.off == HEADER && t.blocks[d.addr - 1].maxSize == RoomLeft(n, need)
    ensures NewFull(s, t, d, n, elemSize)
  {
    hide Memory, Placed, OthersKept, FullBlock, PerBlock, FreeList.RealSize, RoomLeft;
    var per := PerBlock(n - ALLOC_HEAD_SIZE, elemSize);
    FullBlockRoom(n, elemSize);
    PlacedFacts(s, t, d, FreeList.RealSize(per));
    FreeList.RealSizeIsEnough(per);
    InMemory(t, d);
    MakeFullBlock(t, d, (n - ALLOC_HEAD_SIZE - 4) % elemSize);
  }

  /** Fills one new block. */
  method FillBlock(a: Allocator, elemSize: nat) returns (seg: AllocatedSegment, ghost d: Cell)
    requires a.Valid() && ALLOC_HEAD_SIZE + NODE <= a.blockSize < WORD && 0 < elemSize <= a.blockSize - ALLOC_HEAD_SIZE - 4
    modifies a`loaded, a`blocks, a`persister, a`lastLRU, a`lives, a.loaded.Values
    ensures a.Valid() && a.Arrays(old(a.loaded)) && a.blockSize == old(a.blockSize) && a.maxBlocks == old(a.maxBlocks) && seg == SegmentOf(d)
    ensures NewFull(old(a.S()), a.S(), d, a.blockSize, elemSize)
  {
    hide Inv, Memory, AllocatorSteps.Valid, Placed, OthersKept, PerBlock, FreeList.RealSize, RoomLeft, WantsFreedBlock, Kept, Sizes, NewFull;
    FullBlockRoom(a.blockSize, elemSize);
    PerBlockIs(a.blockSize - ALLOC_HEAD_SIZE, elemSize);
    var allocable := a.blockSize - ALLOC_HEAD_SIZE - 4;
    var toAlloc := allocable - allocable % elemSize;
    ghost var s := a.S();
    var r;
    r, d := a.Allocate(toAlloc, true);
    NewBlockIsFull(s, a.S(), d, a.blockSize, elemSize);
    seg := r.segment;
  }

  /** Fills one more block. */
  method FillNext(a: Allocator, elemSize: nat, fst: nat, isFirst: bool,
                  ghost s0: State, ghost full: seq<Cell>, ghost per: nat, ghost room: nat)
    returns (fstBlock: nat, perBlock: nat, ghost d: Cell)
    requires a.Valid() && ALLOC_HEAD_SIZE + NODE <= a.blockSize < WORD && 0 < elemSize <= a.blockSize - ALLOC_HEAD_SIZE - 4
    requires room == (a.blockSize - ALLOC_HEAD_SIZE - 4) % elemSize && per == PerBlock(a.blockSize - ALLOC_HEAD_SIZE, elemSize)
    requires Filling(s0, a.S(), full, fst, per, room) && (isFirst <==> full == []) && (isFirst ==> fst == 0)
    modifies a`loaded, a`blocks, a`persister, a`lastLRU, a`lives, a.loaded.Values
    ensures a.Valid() && a.Arrays(old(a.loaded)) && a.blockSize == old(a.blockSize) && a.maxBlocks == old(a.maxBlocks)
    ensures perBlock == per && Filling(s0, a.S(), full + [d], fstBlock, per, room)
  {
    hide Inv, Memory, AllocatorSteps.Valid, PerBlock, Filling, NewFull;
    PerBlockIs(a.blockSize - ALLOC_HEAD_SIZE, elemSize);
    ghost var s := a.S();
    var allocable := a.blockSize - ALLOC_HEAD_SIZE - 4;
    perBlock := allocable - allocable % elemSize;
    var seg;
    seg, d := FillBlock(a, elemSize);
    fstBlock := if isFirst then seg.blockAddr else fst;
    FillingMore(s0, s, a.S(), full, fstBlock, a.blockSize, elemSize, d);
  }

  /** Fills as many blocks as `size` bytes need, but for a rest smaller than a block. */
  method FillBlocks(a: Allocator, elemSize: nat, size: nat)
    returns (left: nat, fstBlock: nat, nbBlocks: nat, perBlock: nat, ghost full: seq<Cell>)
    requires a.Valid() && ALLOC_HEAD_SIZE + NODE <= a.blockSize < WORD
    requires 0 < elemSize <= a.blockSize - ALLOC_HEAD_SIZE - 4 && size > 0 && size % elemSize == 0
    modifies a`loaded, a`blocks, a`persister, a`lastLRU, a`lives, a.loaded.Values
    ensures a.Valid() && a.Arrays(old(a.loaded)) && a.blockSize == old(a.blockSize) && a.maxBlocks == old(a.maxBlocks)
    ensures Filled(old(a.S()), a.S(), full, fstBlock, nbBlocks, perBlock, a.blockSize, elemSize, size, left)
  {
    hide Inv, Memory, AllocatorSteps.Valid, Placed, FullBlock, FullBlocks, Grew, PerBlock, FreeList.RealSize, Sizes, Filling, Split, Filled;
    ghost var s0 := a.S();
    ghost var n := a.blockSize;
    ghost var room := (n - ALLOC_HEAD_SIZE - 4) % elemSize;
    ghost var per := PerBlock(n - ALLOC_HEAD_SIZE, elemSize);
    Nothing(s0, per, room);
    FullBlockRoom(n, elemSize);
    left, nbBlocks, fstBlock, perBlock, full := size, 0, 0, 0, [];
    SplitMeans(size, 0, per, size, elemSize);
    while left >= a.blockSize - ALLOC_HEAD_SIZE
      invariant a.Valid() && a.Arrays(old(a.loaded)) && a.blockSize == n && a.maxBlocks == old(a.maxBlocks)
      invariant |full| == nbBlocks && Split(size, nbBlocks, per, left, elemSize) && left > 0
      invariant if nbBlocks == 0 then perBlock == 0 && fstBlock == 0 else perBlock == per && left >= n - ALLOC_HEAD_SIZE - per
      invariant Filling(s0, a.S(), full, fstBlock, per, room)
      decreases left
    {
      assert full == [] <==> nbBlocks == 0;
      ghost var d;
      fstBlock, perBlock, d := FillNext(a, elemSize, fstBlock, nbBlocks == 0, s0, full, per, room);
      SplitMore(size, nbBlocks, per, left, elemSize);
      full := full + [d];
      nbBlocks := nbBlocks + 1;
      left := left - perBlock;
    }
    AllFilled(s0, a.S(), full, fstBlock, nbBlocks, perBlock, n, elemSize, size, left);
  }

  /** The full blocks and what is left, when less than a block is left. */
  ghost predicate Filled(s: State, t: State, full: seq<Cell>, fst: nat, nb: nat, perBlock: nat,
                         n: nat, elemSize: nat, size: nat, left: nat) {
    && Sizes(s) && Sizes(t) && 0 < elemSize <= n - ALLOC_HEAD_SIZE - 4
    && |full| == nb && nb * PerBlock(n - ALLOC_HEAD_SIZE, elemSize) + left == size
    && 0 < left < n - ALLOC_HEAD_SIZE && left % elemSize == 0 && left == RestOf(n, elemSize, size)
    && (nb > 0 ==> perBlock == PerBlock(n - ALLOC_HEAD_SIZE, elemSize))
    && FullBlocks(t, full, fst, perBlock, (n - ALLOC_HEAD_SIZE - 4) % elemSize)
    && Grew(s, t, full)
  }

  lemma AllFilled(s: State, t: State, full: seq<Cell>, fst: nat, nb: nat, perBlock: nat,
                  n: nat, elemSize: nat, size: nat, left: nat)
    requires 0 < elemSize <= n - ALLOC_HEAD_SIZE - 4 && 0 < left < n - ALLOC_HEAD_SIZE && |full| == nb
    requires var per := PerBlock(n - ALLOC_HEAD_SIZE, elemSize);
      && Filling(s, t, full, fst, per, (n - ALLOC_HEAD_SIZE - 4) % elemSize)
      && Split(size, nb, per, left, elemSize) && (nb > 0 ==> perBlock == per && left >= n - ALLOC_HEAD_SIZE - per)
    ensures Filled(s, t, full, fst, nb, perBlock, n, elemSize, size, left)
  {
    hide FullBlock, Grew, PerBlock, Sizes, RestOf;
    var per := PerBlock(n - ALLOC_HEAD_SIZE, elemSize);
    RestIs(n, elemSize, size, nb, left) by { SplitMeans(size, nb, per, left, elemSize); }
    FillingDone(s, t, full, fst, per, (n - ALLOC_HEAD_SIZE - 4) % elemSize);
    SplitMeans(size, nb, per, left, elemSize);
    assert nb == 0 ==> full == [];
  }

  /** `nb` full blocks and what is left make up the size. */
  ghost predicate Split(size: nat, nb: nat, per: nat, left: nat, elemSize: nat)
    requires elemSize > 0
  {
    nb * per + left == size && left % elemSize == 0
  }

  lemma SplitMeans(size: nat, nb: nat, per: nat, left: nat, elemSize: nat)
    requires elemSize > 0
    ensures Split(size, nb, per, left, elemSize) <==> nb * per + left == size && left % elemSize == 0
  {}

  lemma SplitMore(size: nat, nb: nat, per: nat, left: nat, elemSize: nat)
    requires elemSize > 0 && Split(size, nb, per, left, elemSize) && per <= left && per % elemSize == 0
    ensures Split(size, nb + 1, per, left - per, elemSize)
  {
    LessOneBlock(left, per, elemSize);
    assert (nb + 1) * per == nb * per + per;
  }

  /** The full blocks so far. */
  ghost predicate Filling(s: State, t: State, full: seq<Cell>, fst: nat, per: nat, room: nat) {
    && Sizes(s) && Sizes(t) && FullBlocks(t, full, fst, per, room) && Grew(s, t, full)
    && (full != [] ==> fst + |full| == |t.blocks| + 1)
  }

  lemma FillingMore(s: State, t: State, u: State, full: seq<Cell>, fst: nat, n: nat, elemSize: nat, d: Cell)
    requires NewFull(t, u, d, n, elemSize) && (full == [] ==> fst == d.addr)
    requires var per, room := PerBlock(n - ALLOC_HEAD_SIZE, elemSize), (n - ALLOC_HEAD_SIZE - 4) % elemSize;
      Filling(s, t, full, if full == [] then 0 else fst, per, room) || Filling(s, t, full, fst, per, room)
    ensures Filling(s, u, full + [d], fst, PerBlock(n - ALLOC_HEAD_SIZE, elemSize), (n - ALLOC_HEAD_SIZE - 4) % elemSize)
  {
    hide FullBlock, Grew, Placed, Memory, PerBlock, FreeList.RealSize;
    var per, room := PerBlock(n - ALLOC_HEAD_SIZE, elemSize), (n - ALLOC_HEAD_SIZE - 4) % elemSize;
    var need := FreeList.RealSize(per);
    BlocksAreCells(t, full, fst, per, room);
    FullBlocksKept(t, u, full, fst, per, room, d, need);
    GrewByOne(s, t, u, full, d, need);
    OneFullMore(u, full, fst, per, room, d);
  }

  lemma FillingDone(s: State, t: State, full: seq<Cell>, fst: nat, per: nat, room: nat)
    requires Filling(s, t, full, fst, per, room)
    ensures Sizes(s) && Sizes(t) && FullBlocks(t, full, fst, per, room) && Grew(s, t, full)
    ensures full == [] ==> FullBlocks(t, full, fst, 0, room)
  {}

  lemma OneFullMore(s: State, full: seq<Cell>, fst: nat, per: nat, room: nat, d: Cell)
    requires Sizes(s) && FullBlocks(s, full, fst, per, room) && FullBlock(s, d, room) && d.Size() >= per
    requires d.addr == fst + |full|
    ensures FullBlocks(s, full + [d], fst, per, room)
  {
    hide FullBlock;
  }

  lemma Nothing(s: State, per: nat, room: nat)
    requires AllocatorSteps.Valid(s)
    ensures Filling(s, s, [], 0, per, room)
  {
    hide Memory;
  }

  lemma PerBlockIs(max: nat, elemSize: nat)
    requires 0 < elemSize <= max - 4
    ensures PerBlock(max, elemSize) == max - 4 - (max - 4) % elemSize
  {}

  /** What becomes of the rest: it is refused exactly when it is bigger than any segment can be, and it
      never lands in one of the full blocks. */
  ghost predicate RestPlaced(s: State, t: State, full: seq<Cell>, fst: nat, per: nat, room: nat,
                             left: nat, last: Outcome, c: Cell) {
    && Sizes(s) && Sizes(t) && AllocatorSteps.Valid(t) && t.blockSize == s.blockSize
    && FullBlocks(t, full, fst, per, room)
    && (last.Refused? <==> left > s.blockSize - ALLOC_HEAD_SIZE - 4)
    && (last.Allocated? ==>
          && last.segment == SegmentOf(c) && c in Memory(t) && left <= c.Size() <= left + NODE + 4
          && forall i :: 0 <= i < |full| ==> c.addr != full[i].addr)
    && Grew(s, t, if last.Allocated? then [c] else [])
  }

  lemma RestSize(left: nat, n: nat, elemSize: nat)
    requires ALLOC_HEAD_SIZE + NODE <= n < WORD && 0 < left < n - ALLOC_HEAD_SIZE && elemSize > 0 && left % elemSize == 0
    ensures FreeList.RealSize(left) > MaxAllocable(n) <==> left > n - ALLOC_HEAD_SIZE - 4
    ensures FreeList.RealSize(left) >= left + 4 && left >= elemSize
  {
    var q := left / elemSize;
    assert left == elemSize * q;
    assert q >= 1;
  }

  method AllocateRest(a: Allocator, left: nat, ghost elemSize: nat, ghost full: seq<Cell>, ghost fst: nat, ghost per: nat)
    returns (last: Outcome, ghost c: Cell)
    requires a.Valid() && Sizes(a.S()) && ALLOC_HEAD_SIZE + NODE <= a.blockSize < WORD
    requires 0 < elemSize <= a.blockSize - ALLOC_HEAD_SIZE - 4 && 0 < left < a.blockSize - ALLOC_HEAD_SIZE && left % elemSize == 0
    requires FullBlocks(a.S(), full, fst, per, (a.blockSize - ALLOC_HEAD_SIZE - 4) % elemSize)
    modifies a`loaded, a`blocks, a`persister, a`lastLRU, a`lives, a.loaded.Values
    ensures RestPlaced(old(a.S()), a.S(), full, fst, per, (a.blockSize - ALLOC_HEAD_SIZE - 4) % elemSize, left, last, c)
    ensures a.Arrays(old(a.loaded)) && a.blockSize == old(a.blockSize) && a.maxBlocks == old(a.maxBlocks)
  {
    hide Inv, Memory, AllocatorSteps.Valid, Placed, OthersKept, FullBlock, FullBlocks, Grew, PerBlock, FreeList.RealSize, RoomLeft, WantsFreedBlock;
    ghost var s := a.S();
    ghost var room := (a.blockSize - ALLOC_HEAD_SIZE - 4) % elemSize;
    RestSize(left, a.blockSize, elemSize);
    last, c := a.Allocate(left, false);
    if last.Allocated? {
      NotInFull(s, full, fst, per, room, c, FreeList.RealSize(left));
      FullBlocksKept(s, a.S(), full, fst, per, room, c, FreeList.RealSize(left));
      PlacedFacts(s, a.S(), c, FreeList.RealSize(left));
      FreeList.RealSizeBounds(left);
      GrewNone(s, s);
      GrewByOne(s, s, a.S(), [], c, FreeList.RealSize(left));
      assert [] + [c] == [c];
    } else {
      GrewNone(s, a.S());
      FullBlocksSame(s, a.S(), full, fst, per, room);
    }
  }

  lemma GrewNone(s: State, t: State)
    requires Sizes(s) && Sizes(t) && Memory(t) == Memory(s)
    ensures Grew(s, t, [])
  {
    hide Memory;
  }

  lemma FullBlocksSame(s: State, t: State, full: seq<Cell>, fst: nat, per: nat, room: nat)
    requires Sizes(s) && Sizes(t) && FullBlocks(s, full, fst, per, room) && Kept(s, t) && Memory(t) == Memory(s)
    ensures FullBlocks(t, full, fst, per, room)
  {
    hide Memory;
    forall i | 0 <= i < |full|
      ensures FullBlock(t, full[i], room)
    {
      assert FullBlock(s, full[i], room);
    }
  }

  lemma NotInFull(s: State, full: seq<Cell>, fst: nat, per: nat, room: nat, c: Cell, need: nat)
    requires Sizes(s) && FullBlocks(s, full, fst, per, room) && need > room
    requires c.addr > |s.blocks| || Roomy(s, c.addr, need)
    ensures forall i :: 0 <= i < |full| ==> c.addr != full[i].addr
  {
    hide Memory;
    forall i | 0 <= i < |full|
      ensures c.addr != full[i].addr
    {
      assert FullBlock(s, full[i], room);
    }
  }

  lemma GrewTwice(s: State, t: State, u: State, x: seq<Cell>, y: seq<Cell>)
    requires Sizes(s) && Sizes(t) && Sizes(u) && Grew(s, t, x) && Grew(t, u, y)
    ensures Grew(s, u, x + y)
  {
    hide Memory;
  }

  /** An array of `size` bytes is laid out: `nb` full blocks one after the other, each with its segment at
      the same offset, and a rest outside them, which is refused exactly when it is bigger than any segment. */
  ghost predicate LaidOut(s: State, t: State, n: nat, elemSize: nat, size: nat,
                          fst: nat, nb: nat, perBlock: nat, full: seq<Cell>, last: Outcome, c: Cell) {
    && Sizes(s) && Sizes(t) && 0 < elemSize <= n - ALLOC_HEAD_SIZE - 4 && n == t.blockSize
    && var per, left := PerBlock(n - ALLOC_HEAD_SIZE, elemSize), RestOf(n, elemSize, size);
      && |full| == nb && nb * per + left == size && 0 < left < n - ALLOC_HEAD_SIZE
      && (nb > 0 ==> perBlock == per)
      && FullBlocks(t, full, fst, perBlock, (n - ALLOC_HEAD_SIZE - 4) % elemSize)
      && (last.Refused? <==> left > n - ALLOC_HEAD_SIZE - 4)
      && (last.Allocated? ==>
            && last.segment == SegmentOf(c) && c in Memory(t) && left <= c.Size() <= left + NODE + 4
            && forall i :: 0 <= i < |full| ==> c.addr != full[i].addr)
      && Grew(s, t, full + if last.Allocated? then [c] else [])
  }

  lemma AllLaidOut(s: State, filled: State, t: State, n: nat, elemSize: nat, size: nat, left: nat,
                   fst: nat, nb: nat, perBlock: nat, full: seq<Cell>, last: Outcome, c: Cell)
    requires Filled(s, filled, full, fst, nb, perBlock, n, elemSize, size, left) && n == filled.blockSize
    requires RestPlaced(filled, t, full, fst, perBlock, (n - ALLOC_HEAD_SIZE - 4) % elemSize, left, last, c)
    ensures LaidOut(s, t, n, elemSize, size, fst, nb, perBlock, full, last, c) && AllocatorSteps.Valid(t)
  {
    hide Memory, AllocatorSteps.Valid, FullBlocks, Grew, PerBlock, RestOf;
    GrewTwice(s, filled, t, full, if last.Allocated? then [c] else []);
  }

  /** Allocates `size` bytes of elements: as many full blocks with consecutive addresses as needed, then
      the rest wherever there is room. */
  method AllocateSegments(a: Allocator, elemSize: nat, size: nat)
    returns (rest: AllocatedSegment, fstBlock: nat, nbBlocks: nat, perBlock: nat,
             ghost full: seq<Cell>, ghost last: Outcome, ghost c: Cell)
    requires a.Valid() && ALLOC_HEAD_SIZE + NODE <= a.blockSize < WORD
    requires 0 < elemSize <= a.blockSize - ALLOC_HEAD_SIZE - 4 && size > 0 && size % elemSize == 0
    modifies a`loaded, a`blocks, a`persister, a`lastLRU, a`lives, a.loaded.Values
    ensures a.Valid() && a.Arrays(old(a.loaded)) && a.blockSize == old(a.blockSize) && a.maxBlocks == old(a.maxBlocks)
    ensures LaidOut(old(a.S()), a.S(), a.blockSize, elemSize, size, fstBlock, nbBlocks, perBlock, full, last, c)
    ensures rest == if last.Allocated? then last.segment else AllocatedSegment(0, 0)
  {
    hide Inv, Memory, AllocatorSteps.Valid, FullBlocks, Grew, PerBlock, Sizes, RestOf, Filled, RestPlaced, LaidOut;
    ghost var s0 := a.S();
    var remaining;
    remaining, fstBlock, nbBlocks, perBlock, full := FillBlocks(a, elemSize, size);
    ghost var left := remaining;
    ghost var filled := a.S();
    FilledMeans(s0, filled, full, fstBlock, nbBlocks, perBlock, a.blockSize, elemSize, size, left);
    rest := AllocatedSegment(0, 0);
    last, c := Refused, Cell(0, Span(0, 0));
    while remaining > 0
      invariant remaining == 0 || remaining == left
      invariant a.Arrays(old(a.loaded)) && a.blockSize == old(a.blockSize) && a.maxBlocks == old(a.maxBlocks)
      invariant remaining == left ==> a.S() == filled && a.Valid() && rest == AllocatedSegment(0, 0)
      invariant remaining == 0 ==>
        && RestPlaced(filled, a.S(), full, fstBlock, perBlock, (a.blockSize - ALLOC_HEAD_SIZE - 4) % elemSize, left, last, c)
        && rest == if last.Allocated? then last.segment else AllocatedSegment(0, 0)
      decreases remaining
    {
      var toAlloc := remaining - remaining % elemSize;
      var r;
      r, c := AllocateRest(a, remaining, elemSize, full, fstBlock, perBlock);
      last := r;
      if r.Allocated? { rest := r.segment; }
      remaining := remaining - toAlloc;
    }
    AllLaidOut(s0, filled, a.S(), a.blockSize, elemSize, size, left, fstBlock, nbBlocks, perBlock, full, last, c);
  }

  lemma FilledMeans(s: State, t: State, full: seq<Cell>, fst: nat, nb: nat, perBlock: nat,
                    n: nat, elemSize: nat, size: nat, left: nat)
    requires Filled(s, t, full, fst, nb, perBlock, n, elemSize, size, left)
    ensures Sizes(t) && 0 < left < n - ALLOC_HEAD_SIZE && left % elemSize == 0
    ensures FullBlocks(t, full, fst, perBlock, (n - ALLOC_HEAD_SIZE - 4) % elemSize)
  {
    hide FullBlocks, Grew, PerBlock, RestOf;
  }

  // ---------------------------------------------------------------- giving back

  /** The flat memory without the segments of `nb` consecutive blocks. */
  ghost function WithoutRange(m: map<Cell, seq<byte>>, fst: nat, nb: nat): map<Cell, seq<byte>> {
    map k | k in m && !(fst <= k.addr < fst + nb) :: m[k]
  }

  lemma WithoutMore(m: map<Cell, seq<byte>>, fst: nat, nb: nat)
    ensures Without(WithoutRange(m, fst, nb), fst + nb) == WithoutRange(m, fst, nb + 1)
  {
    FlatEqual(Without(WithoutRange(m, fst, nb), fst + nb), WithoutRange(m, fst, nb + 1));
  }

  lemma WithoutNone(m: map<Cell, seq<byte>>, fst: nat)
    ensures WithoutRange(m, fst, 0) == m
  {
    FlatEqual(WithoutRange(m, fst, 0), m);
  }

  lemma GoneMore(m: map<Cell, seq<byte>>, gone: set<Cell>, c: Cell)
    ensures m - (gone + {c}) == (m - gone) - {c}
  {}

  /** Gives back the full blocks of an array, with whatever they hold. */
  method FreeBlocks(a: Allocator, fstBlock: nat, nbBlocks: nat, ghost full: seq<Cell>)
    requires a.Valid() && |full| == nbBlocks && forall i :: 0 <= i < nbBlocks ==> full[i] in a.Memory() && full[i].addr == fstBlock + i
    modifies a, a.loaded.Values
    ensures a.Valid() && a.Memory() == WithoutRange(old(a.Memory()), fstBlock, nbBlocks) && a.Arrays(old(a.loaded))
  {
    hide Inv, Memory, AllocatorSteps.Valid, Sizes, Without, WithoutRange;
    ghost var m := a.Memory();
    WithoutNone(m, fstBlock);
    for i := 0 to nbBlocks
      invariant a.Valid() && a.Memory() == WithoutRange(m, fstBlock, i) && a.Arrays(old(a.loaded))
    {
      StillThere(m, fstBlock, i, full[i]);
      FreeFull(a, fstBlock + i, full[i]);
      WithoutMore(m, fstBlock, i);
    }
  }

  lemma StillThere(m: map<Cell, seq<byte>>, fst: nat, nb: nat, c: Cell)
    requires c in m && c.addr == fst + nb
    ensures c in WithoutRange(m, fst, nb)
  {}

  /** Frees a block that holds some segment. */
  method FreeFull(a: Allocator, addr: nat, ghost c: Cell)
    requires a.Valid() && c in a.Memory() && addr == c.addr
    modifies a`loaded, a`blocks, a`persister, a`lives
    ensures a.Valid() && a.Memory() == Without(old(a.Memory()), addr) && a.loaded == old(a.loaded) - {addr}
  {
    hide Inv, Memory, AllocatorSteps.Valid, Sizes, Without;
    ValidParts(a.S());
    InMemory(a.S(), c);
    a.FreeFast(addr);
  }

  /** Gives back an array: its full blocks whole, and then its rest. */
  method Dispose(a: Allocator, rest: AllocatedSegment, fstBlock: nat, nbBlocks: nat, ghost full: seq<Cell>, ghost c: Cell)
    requires a.Valid() && c in a.Memory() && rest == SegmentOf(c) && !(fstBlock <= c.addr < fstBlock + nbBlocks)
    requires |full| == nbBlocks && forall i :: 0 <= i < nbBlocks ==> full[i] in a.Memory() && full[i].addr == fstBlock + i
    modifies a, a.loaded.Values
    ensures a.Valid() && a.Memory() == WithoutRange(old(a.Memory()), fstBlock, nbBlocks) - {c}
  {
    hide Inv, Memory, AllocatorSteps.Valid, Sizes, Without;
    FreeBlocks(a, fstBlock, nbBlocks, full);
    a.Free(rest, c);
  }

  /** Frees several segments: first those whose blocks are in memory at that moment. */
  method FreeAll(a: Allocator, segments: seq<AllocatedSegment>, ghost cells: seq<Cell>)
    requires a.Valid() && |cells| == |segments|
    requires forall i :: 0 <= i < |cells| ==> cells[i] in a.Memory() && segments[i] == SegmentOf(cells[i])
    requires forall i, j :: 0 <= i < j < |cells| ==> cells[i] != cells[j]
    modifies a, a.loaded.Values
    ensures a.Valid() && a.Memory() == old(a.Memory()) - (set k | k in cells)
  {
    hide Inv, Memory, AllocatorSteps.Valid;
    ghost var m := a.Memory();
    var later: seq<AllocatedSegment> := [];
    ghost var laterCells: seq<Cell> := [];
    ghost var gone: set<Cell> := {};
    for i := 0 to |segments|
      invariant a.Valid() && a.Memory() == m - gone && a.Arrays(old(a.loaded))
      invariant |laterCells| == |later| && forall j :: 0 <= j < |later| ==> later[j] == SegmentOf(laterCells[j])
      invariant forall j, k :: 0 <= j < k < |laterCells| ==> laterCells[j] != laterCells[k]
      invariant forall k :: k in gone || k in laterCells <==> k in cells[..i]
      invariant forall k :: k in laterCells ==> k !in gone
    {
      assert cells[..i + 1] == cells[..i] + [cells[i]];
      assert cells[i] !in cells[..i];
      if segments[i].blockAddr in a.loaded {
        GoneMore(m, gone, cells[i]);
        a.Free(segments[i], cells[i]);
        gone := gone + {cells[i]};
      } else {
        later := later + [segments[i]];
        laterCells := laterCells + [cells[i]];
      }
    }
    assert cells[..|segments|] == cells;
    for i := 0 to |later|
      invariant a.Valid() && a.Memory() == m - gone && a.Arrays(old(a.loaded))
      invariant forall k :: k in gone || k in laterCells[i..] <==> k in cells
      invariant forall k :: k in laterCells[i..] ==> k !in gone
    {
      assert laterCells[i..] == [laterCells[i]] + laterCells[i + 1..];
      GoneMore(m, gone, laterCells[i]);
      a.Free(later[i], laterCells[i]);
      gone := gone + {laterCells[i]};
    }
    assert gone == (set k | k in cells);
  }
}
