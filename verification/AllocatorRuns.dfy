/** Runs in which the allocator does what its callers may not expect, for blocks of every size. */
module AllocatorRuns {
  import opened Bytes
  import opened FreeSpans
  import FreeList
  import opened AllocatorState
  import opened AllocatorSteps
  import opened Allocator
  import opened Segments
  import opened ArrayLife

  lemma OnlyLoaded<T>(m: map<nat, T>, a: nat)
    requires a in m && |m| <= 1
    ensures forall b :: b in m ==> b == a
  {
    forall b | b in m
      ensures b == a
    {
      if b != a { TwoLoaded(m, a, b); }
    }
  }

  /** Where an element spares a node in each block, a later segment can land in a full block of an array,
      and is lost when the array gives its blocks back. */
  method StrangerIsLost(n: nat, elemSize: nat, size: nat)
    returns (a: Allocator, ghost full: seq<Cell>, ghost before: map<Cell, seq<byte>>, ghost lost: Cell)
    requires ALLOC_HEAD_SIZE + NODE <= n < WORD && 0 < elemSize <= n - ALLOC_HEAD_SIZE - 4
    requires size % elemSize == 0 && size >= n - ALLOC_HEAD_SIZE && (n - ALLOC_HEAD_SIZE - 4) % elemSize >= NODE
    ensures fresh(a) && a.Valid() && full != [] && full[0] in before && lost in before && lost !in full
    ensures lost.addr == full[0].addr && lost !in a.Memory()
  {
    hide Inv, AllocatorSteps.Memory, AllocatorSteps.Valid, FullBlock, Sizes, LaidOut, WithoutRange;
    ghost var room := (n - ALLOC_HEAD_SIZE - 4) % elemSize;
    a := new Allocator(1, n);
    ghost var s0 := a.S();
    var rest, fst, nb, per;
    ghost var last, c;
    rest, fst, nb, per, full, last, c := AllocateSegments(a, elemSize, size);
    FirstBlock(s0, a.S(), n, elemSize, size, fst, nb, per, full, last, c);
    lost := LandBeside(a, AllocatedSegment(fst, ALLOC_HEAD_SIZE), (n - ALLOC_HEAD_SIZE - 4) % elemSize, full[0]);
    before := a.Memory();
    FreeBlocks(a, fst, nb, full);
    RangeIsGone(before, fst, nb);
  }

  /** With one block in memory, and that a full one, a request for the room left in it is served there. */
  method LandBeside(a: Allocator, segment: AllocatedSegment, room: nat, ghost c: Cell) returns (ghost d: Cell)
    requires a.Valid() && a.maxBlocks == 1 && Sizes(a.S()) && FullBlock(a.S(), c, room) && segment == SegmentOf(c) && c.Size() >= 0
    requires NODE <= room < WORD && room <= a.blockSize - ALLOC_HEAD_SIZE
    modifies a`loaded, a`blocks, a`persister, a`lastLRU, a`lives, a.loaded.Values
    ensures a.Valid() && a.Arrays(old(a.loaded)) && d.addr == c.addr
    ensures d !in old(a.Memory()) && a.Memory().Keys == old(a.Memory()).Keys + {d}
  {
    hide Inv, AllocatorSteps.Memory, AllocatorSteps.Valid, Placed, WantsFreedBlock, Kept, Sizes, Roomy, FreeList.RealSize;
    ghost var s := a.S();
    var data := a.Read(segment, 0, 0, c);
    ghost var t := a.S();
    ValidSizes(t);
    StillFull(s, t, c, room);
    OnlyLoaded(a.loaded, c.addr) by { BroughtSizes(s, t); }
    LoadedIsRoomy(t, c, room);
    RealSizeIs(room - 4);
    var r;
    r, d := a.Allocate(room - 4, false);
    PlacedFacts(t, a.S(), d, room);
  }

  lemma FirstBlock(s: State, t: State, n: nat, elemSize: nat, size: nat,
                   fst: nat, nb: nat, perBlock: nat, full: seq<Cell>, last: Outcome, c: Cell)
    requires LaidOut(s, t, n, elemSize, size, fst, nb, perBlock, full, last, c) && size >= n - ALLOC_HEAD_SIZE
    ensures Sizes(t) && 0 < nb == |full| && FullBlock(t, full[0], (n - ALLOC_HEAD_SIZE - 4) % elemSize)
    ensures SegmentOf(full[0]) == AllocatedSegment(fst, ALLOC_HEAD_SIZE) && full[0].Size() >= 0
    ensures forall i :: 0 <= i < |full| ==> full[i] in Memory(t) && full[i].addr == fst + i
  {
    hide Memory, RestOf, PerBlock, Grew;
  }

  lemma StillFull(s: State, t: State, c: Cell, room: nat)
    requires Sizes(s) && FullBlock(s, c, room) && Kept(s, t) && AllocatorSteps.Valid(t) && Sizes(t) && Memory(t) == Memory(s)
    ensures FullBlock(t, c, room)
  {
    hide Memory;
  }

  lemma LoadedIsRoomy(s: State, c: Cell, room: nat)
    requires Sizes(s) && FullBlock(s, c, room) && c.addr in s.loaded && room >= NODE
    ensures Roomy(s, c.addr, room) && !WantsFreedBlock(s, room)
  {
    hide Memory;
  }

  lemma RealSizeIs(size: nat)
    requires 4 <= size + 4 < WORD && size >= 4
    ensures FreeList.RealSize(size) == size + 4
  {}

  lemma ValidSizes(s: State)
    requires AllocatorSteps.Valid(s)
    ensures Sizes(s) && |s.loaded| <= s.maxBlocks
  {}

  lemma RangeIsGone(m: map<Cell, seq<byte>>, fst: nat, nb: nat)
    ensures forall k :: k in WithoutRange(m, fst, nb) ==> !(fst <= k.addr < fst + nb)
  {}

  /** A freed block that is not the last one stays listed with room for anything: an allocation that no
      loaded block can serve then asks for bytes that are gone. */
  method AllocationThrows(nbBlocks: nat, n: nat, size: nat) returns (r: Outcome)
    requires nbBlocks >= 1 && ALLOC_HEAD_SIZE + NODE <= n < WORD && FreeList.RealSize(size) <= n - ALLOC_HEAD_SIZE
    ensures r.Thrown?
  {
    hide Inv, AllocatorSteps.Memory, AllocatorSteps.Valid, WantsFreedBlock, Sizes, FreeList.RealSize;
    var a := new Allocator(nbBlocks, n);
    ghost var c;
    var r1, c1 := TakeWhole(a);
    var r2, c2 := TakeWhole(a);
    a.Free(r1, c1);
    ValidSizes(a.S());
    assert a.Memory().Keys == {c2};
    OnlySecondLeft(a.S(), c1.addr, c2, FreeList.RealSize(size));
    r, c := a.Allocate(size, false);
  }

  /** A segment that takes a new block whole. */
  method TakeWhole(a: Allocator) returns (segment: AllocatedSegment, ghost c: Cell)
    requires a.Valid() && ALLOC_HEAD_SIZE + NODE <= a.blockSize < WORD
    modifies a`loaded, a`blocks, a`persister, a`lastLRU, a`lives, a.loaded.Values
    ensures a.Valid() && a.Arrays(old(a.loaded)) && a.blockSize == old(a.blockSize)
    ensures segment == SegmentOf(c) && c.addr == |old(a.blocks)| + 1 == |a.blocks| && c.span.off == HEADER
    ensures c.span.size >= a.blockSize - ALLOC_HEAD_SIZE && c !in old(a.Memory()) && a.Memory().Keys == old(a.Memory()).Keys + {c}
  {
    hide Inv, AllocatorSteps.Memory, AllocatorSteps.Valid, Placed, WantsFreedBlock, Kept, Sizes, FreeList.RealSize, RoomLeft;
    ghost var s := a.S();
    var most := a.blockSize - ALLOC_HEAD_SIZE - 4;
    RealSizeIs(most);
    var r;
    r, c := a.Allocate(most, true);
    PlacedFacts(s, a.S(), c, a.blockSize - ALLOC_HEAD_SIZE);
    segment := r.segment;
  }

  lemma OnlySecondLeft(s: State, a: nat, c: Cell, need: nat)
    requires AllocatorSteps.Valid(s) && Sizes(s) && Memory(s).Keys == {c} && a == 1 && c.addr == 2
    requires c.span.off == HEADER && c.span.size >= s.blockSize - ALLOC_HEAD_SIZE && NODE <= need <= s.blockSize - ALLOC_HEAD_SIZE
    ensures WantsFreedBlock(s, need)
  {
    hide Inv, Memory, Settled;
    ValidParts(s);
    InMemory(s, c);
    NothingLive(s, c, 1);
    MaximalMeansFreed(s, 1);
    RecordedBeside(s, c);
    LoadedAreAddrs(s);
    forall b | b in s.loaded
      ensures !Roomy(s, b, need)
    {
      if b != c.addr { NothingLive(s, c, b); }
    }
    assert FirstRoomy(s, 1, need);
  }

  lemma LivesAreCells(s: State, a: nat)
    requires Sizes(s) && IsAddr(s, a)
    ensures s.lives[a - 1] != {} ==> exists k :: k in Memory(s) && k.addr == a
  {
    var live := s.lives[a - 1];
    if t :| t in live { assert InLives(s.lives, Cell(a, t)); }
  }

  lemma NothingLive(s: State, c: Cell, a: nat)
    requires Sizes(s) && Memory(s).Keys == {c} && IsAddr(s, a) && a != c.addr
    ensures s.lives[a - 1] == {}
  {
    hide Memory;
    LivesAreCells(s, a);
    assert forall k :: k in Memory(s) ==> k == c;
  }

  /** A rest between the biggest segment and a block is refused. */
  method RestIsRefused(nbBlocks: nat, n: nat) returns (rest: AllocatedSegment, ghost last: Outcome)
    requires nbBlocks >= 1 && ALLOC_HEAD_SIZE + NODE <= n < WORD
    ensures last.Refused? && rest == AllocatedSegment(0, 0)
  {
    hide Inv, AllocatorSteps.Memory, AllocatorSteps.Valid;
    var a := new Allocator(nbBlocks, n);
    var fst, nb, per;
    ghost var full, c;
    rest, fst, nb, per, full, last, c := AllocateSegments(a, 1, n - ALLOC_HEAD_SIZE - 1);
  }
}
