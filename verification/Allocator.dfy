/** The paged allocator: blocks with a free list each, a bounded number of them in memory. */
module Allocator {
  import opened Bytes
  import opened FreeSpans
  import opened FreeListRep
  import FreeList
  import opened AllocatorState
  import opened AllocatorSteps

  /** A segment as callers know it. */
  datatype AllocatedSegment = AllocatedSegment(blockAddr: nat, offset: nat)

  function SegmentOf(c: Cell): AllocatedSegment { AllocatedSegment(c.addr, c.span.off + 4) }

  /** A segment, or no room, or an exception because a freed block was to be read back. */
  datatype Outcome = Allocated(segment: AllocatedSegment) | Refused | Thrown

  class Allocator {
    var maxBlocks: nat
    var blockSize: nat
    var loaded: map<nat, array<byte>>
    var blocks: seq<BlockInfo>
    var persister: map<nat, seq<byte>>
    var lastLRU: nat
    ghost var lives: seq<set<Span>>

    /** The bytes of a block wherever they are; a freed block has none. */
    ghost function Content(a: nat): seq<byte>
      reads this`loaded, this`persister, loaded.Values
    {
      if a in loaded then loaded[a][..] else if a in persister then persister[a] else []
    }

    ghost function Contents(k: nat): (c: seq<seq<byte>>)
      reads this`loaded, this`persister, loaded.Values
      ensures |c| == k && forall i :: 0 <= i < k ==> c[i] == Content(i + 1)
    {
      if k == 0 then [] else Contents(k - 1) + [Content(k)]
    }

    ghost function S(): State
      reads this, loaded.Values
    {
      State(maxBlocks, blockSize, loaded, blocks, persister, lastLRU, lives, Contents(|blocks|))
    }

    ghost predicate Valid()
      reads this, loaded.Values
      ensures Valid() ==> |lives| == |blocks|
    {
      AllocatorSteps.Valid(S())
    }

    /** What the callers see: the bytes of every live segment. */
    ghost function Memory(): map<Cell, seq<byte>>
      reads this, loaded.Values
      requires |lives| == |blocks|
    {
      AllocatorSteps.Memory(S())
    }

    constructor (nbBlocks: nat, blockSize: nat)
      requires nbBlocks >= 1 && HEADER + NODE <= blockSize < WORD
      ensures Valid() && Memory() == map[] && maxBlocks == nbBlocks && this.blockSize == blockSize && loaded == map[] && blocks == []
    {
      maxBlocks, this.blockSize := nbBlocks, blockSize;
      loaded, blocks, persister, lastLRU := map[], [], map[], 1;
      lives := [];
    }

    // ---------------------------------------------------------------- eviction

    /** The address of the loaded block used longest ago. */
    method Oldest() returns (addr: nat)
      requires Inv(S(), 0) && loaded != map[]
      ensures addr in loaded && IsAddr(S(), addr) && OlderThanLoaded(S(), addr)
    {
      ghost var s := S();
      LoadedAreAddrs(s);
      hide Inv;
      var unseen := loaded.Keys;
      addr :| addr in unseen;
      var min := blocks[addr - 1].lru;
      while unseen != {}
        invariant unseen <= loaded.Keys && addr in loaded && min == blocks[addr - 1].lru
        invariant forall b :: b in loaded && b !in unseen && b != addr ==> blocks[addr - 1].lru < blocks[b - 1].lru
        decreases |unseen|
      {
        var it :| it in unseen;
        AgesDiffer(s, it, addr);
        if blocks[it - 1].lru < min {
          addr := it;
          min := blocks[it - 1].lru;
        }
        unseen := unseen - {it};
      }
    }

    method EvictOne() returns (ghost addr: nat)
      requires Inv(S(), 0) && loaded != map[]
      requires forall a: nat :: a in loaded && IsAddr(S(), a) ==> lives[a - 1] != {}
      modifies this`loaded, this`blocks, this`persister
      ensures addr in old(loaded) && IsAddr(old(S()), addr) && OlderThanLoaded(old(S()), addr)
      ensures S() == Evicted(old(S()), addr) && Inv(S(), 0)
    {
      hide Inv, OlderThanLoaded, BlockOk, Contents, Settled, LoadedBusy;
      ghost var s := S();
      var it := Oldest();
      addr := it;
      EvictedInv(s, addr, 0);
      AddrIsLoaded(s, addr);
      var mem := loaded[it];
      persister := persister[it := mem[..]];
      loaded := loaded - {it};
      blocks := blocks[it - 1 := blocks[it - 1].(mem := null)];
      assert forall a: nat :: Content(a) == old(Content(a));
      assert Contents(|blocks|) == s.contents;
    }

    /** Saves and forgets the `nb` loaded blocks used longest ago. */
    method EvictSome(nb: nat)
      requires Inv(S(), 0) && LoadedBusy(S()) && nb <= |loaded|
      modifies this`loaded, this`blocks, this`persister
      ensures Inv(S(), 0) && Trimmed(old(S()), S(), nb)
    {
      hide Inv, OlderThanLoaded, Trimmed, Contents, Content, LoadedBusy;
      NotTrimmed(S());
      for i := 0 to nb
        invariant Inv(S(), 0) && Trimmed(old(S()), S(), i)
      {
        ghost var s := S();
        TrimmedFacts(old(S()), s, i);
        var addr := EvictOne();
        TrimmedMore(old(S()), s, i, addr);
      }
    }

    // ---------------------------------------------------------------- loading

    /** `out`, which holds the bytes read back, becomes the block's memory. */
    method Attach(addr: nat, out: array<byte>)
      requires Inv(S(), 0) && addr in persister && IsAddr(S(), addr) && |loaded| < maxBlocks
      requires out.Length == blockSize && out !in loaded.Values && out[..] == persister[addr]
      modifies this`loaded, this`blocks, this`persister
      ensures S() == Fetched(old(S()), addr, out) && Inv(S(), 0)
    {
      hide Inv, BlockOk, Contents, Settled, LoadedBusy, OlderThanLoaded;
      ghost var s := S();
      BusyIsSomewhere(s, addr);
      FetchedInv(s, addr, out, 0);
      MoveIn(addr, out);
      assert Contents(|blocks|) == s.contents;
    }

    method MoveIn(addr: nat, out: array<byte>)
      requires addr in persister && addr !in loaded && 1 <= addr <= |blocks| && out[..] == persister[addr]
      modifies this`loaded, this`blocks, this`persister
      ensures loaded == old(loaded)[addr := out] && persister == old(persister) - {addr}
      ensures blocks == old(blocks)[addr - 1 := old(blocks)[addr - 1].(mem := out)]
      ensures forall a: nat :: Content(a) == old(Content(a))
    {
      loaded := loaded[addr := out];
      blocks := blocks[addr - 1 := blocks[addr - 1].(mem := out)];
      persister := persister - {addr};
    }

    /** Reads a block back from the persister, making room first. A block that was freed is not there. */
    method Fetch(addr: nat) returns (ok: bool, ghost t: State, ghost nb: nat)
      requires Inv(S(), 0) && LoadedBusy(S()) && IsAddr(S(), addr) && addr !in loaded
      modifies this`loaded, this`blocks, this`persister
      ensures Inv(S(), 0) && Inv(t, 0) && Trimmed(old(S()), t, nb) && nb <= 1 && (nb == 1 ==> |old(loaded)| == maxBlocks)
      ensures ok <==> old(addr in persister)
      ensures if ok then addr in loaded && fresh(loaded[addr]) && IsAddr(t, addr) && addr in t.persister && S() == Fetched(t, addr, loaded[addr])
        else S() == t
    {
      hide Inv, OlderThanLoaded, BlockOk, Trimmed, Contents, LoadedBusy;
      ghost var s := S();
      SizesOf(s);
      NotTrimmed(s);
      nb := 0;
      if |loaded| == maxBlocks {
        EvictSome(1);
        nb := 1;
      }
      t := S();
      TrimmedFacts(s, t, nb);
      if addr !in persister { return false, t, nb; }
      var out := new byte[blockSize];
      StoredLength(t, addr);
      assert Content(addr) == t.contents[addr - 1];
      ghost var m := out[..];
      CopyInto(out, 0, persister[addr]);
      PutAll(m, persister[addr]);
      assert S() == t;
      Attach(addr, out);
      ok := true;
    }

    /** Brings a block into memory, if it is anywhere. Reading a block that was freed throws. */
    method Load(addr: nat) returns (ok: bool, mem: array?<byte>)
      requires Inv(S(), 0) && LoadedBusy(S()) && IsAddr(S(), addr)
      modifies this`loaded, this`blocks, this`persister, this`lastLRU
      ensures Inv(S(), 0) && Sizes(S()) && Sizes(old(S())) && Brought(old(S()), S(), addr)
      ensures ok <==> old(addr in loaded || addr in persister)
      ensures if ok then addr in loaded && mem == loaded[addr] && mem != null && mem.Length == blockSize else addr !in loaded
      ensures addr in loaded && addr !in old(loaded) ==> fresh(loaded[addr])
    {
      hide Inv, OlderThanLoaded, BlockOk, Trimmed, Brought, LoadedBusy, Contents, Content;
      ghost var s := S();
      SizesOf(s);
      BusyIsSomewhere(s, addr);
      if blocks[addr - 1].mem == null {
        ghost var t;
        ghost var nb;
        ok, t, nb := Fetch(addr);
        if !ok {
          TrimmedAndAged(s, t, nb, addr);
          TrimmedFacts(s, t, nb);
          lastLRU := lastLRU + 1;
          SizesOf(S());
          return false, null;
        }
        TrimmedFacts(s, t, nb);
        FetchedAndTouched(s, t, nb, addr, loaded[addr]);
        mem := loaded[addr];
        AddrIsLoaded(S(), addr);
      } else {
        mem := blocks[addr - 1].mem;
        AddrIsLoaded(s, addr);
        OnlyTouched(s, addr);
      }
      Touch(addr);
      SizesOf(S());
      ok := true;
    }

    /** Gives a block a new age. */
    method Touch(addr: nat)
      requires IsAddr(S(), addr)
      modifies this`blocks, this`lastLRU
      ensures S() == Touched(old(S()), addr)
    {
      hide Contents, Content;
      var lru := lastLRU;
      lastLRU := lastLRU + 1;
      blocks := blocks[addr - 1 := blocks[addr - 1].(lru := lru)];
    }

    /** The memories in use were in use before, or are new. */
    twostate predicate Arrays(was: map<nat, array<byte>>)
      reads this
    {
      forall a :: a in loaded ==> (a in was && loaded[a] == was[a]) || fresh(loaded[a])
    }

    // ---------------------------------------------------------------- reading and writing

    /** Brings the block of a live segment into memory, which never fails. */
    method BringIn(addr: nat, ghost c: Cell) returns (mem: array<byte>)
      requires Valid() && c in Memory() && addr == c.addr
      modifies this`loaded, this`blocks, this`persister, this`lastLRU
      ensures Valid() && Memory() == old(Memory()) && Kept(old(S()), S()) && Arrays(old(loaded))
      ensures Sizes(old(S())) && Sizes(S()) && Brought(old(S()), S(), addr)
      ensures addr in loaded && loaded[addr] == mem && mem.Length == blockSize && SpanOk(c.span, blockSize)
    {
      hide Inv, BlockOk, Contents, Content, Brought, Settled, LoadedBusy, FreeListRep.Valid, AllocatorSteps.Memory, AllocatorSteps.Valid, Payload, Kept;
      ghost var s := S();
      ValidParts(s);
      Located(s, c);
      var ok, m := Load(addr);
      mem := m;
      BroughtValid(s, S(), addr);
      BroughtKeeps(s, S(), addr);
    }

    /** The bytes of a live segment, wherever its block was. */
    method Read(alloc: AllocatedSegment, offset: nat, size: nat, ghost c: Cell) returns (data: seq<byte>)
      requires Valid() && c in Memory() && alloc == SegmentOf(c) && offset + size <= c.Size()
      modifies this`loaded, this`blocks, this`persister, this`lastLRU
      ensures Valid() && Memory() == old(Memory()) && Kept(old(S()), S()) && Arrays(old(loaded))
      ensures offset + size <= |Memory()[c]| && data == Memory()[c][offset..offset + size] && alloc.blockAddr in loaded
    {
      hide Inv, Contents, Content, Brought, AllocatorSteps.Memory, AllocatorSteps.Valid, Payload, Kept, Sizes, FreeListRep.Valid;
      var mem := BringIn(alloc.blockAddr, c);
      data := ReadLoaded(mem, alloc.offset + offset, size, offset, c);
    }

    method ReadLoaded(mem: array<byte>, at: nat, size: nat, ghost offset: nat, ghost c: Cell) returns (data: seq<byte>)
      requires Valid() && c in Memory() && at == c.span.off + 4 + offset && offset + size <= c.Size()
      requires c.addr in loaded && mem == loaded[c.addr]
      ensures offset + size <= |Memory()[c]| && data == Memory()[c][offset..offset + size]
    {
      hide Inv, Contents, Content, AllocatorSteps.Memory, AllocatorSteps.Valid, Payload, Sizes, FreeListRep.Valid;
      ghost var t := S();
      ValidParts(t);
      Located(t, c);
      AddrIsLoaded(t, c.addr);
      ContentLoaded(c.addr);
      PayloadSlice(t.contents[c.addr - 1], c.span, offset, size);
      data := CopyOut(mem, at, size);
    }

    lemma ContentsAre(c: seq<seq<byte>>)
      requires |c| == |blocks| && forall i :: 0 <= i < |c| ==> c[i] == Content(i + 1)
      ensures Contents(|blocks|) == c
    {
      hide Contents, Content;
    }

    lemma ContentLoaded(a: nat)
      requires a in loaded && IsAddr(S(), a)
      ensures S().contents[a - 1] == loaded[a][..]
    {}

    /** Writing changes the segment written to, and no other. */
    method Write(alloc: AllocatedSegment, data: seq<byte>, offset: nat, ghost c: Cell)
      requires Valid() && c in Memory() && alloc == SegmentOf(c) && offset + |data| <= c.Size()
      modifies this`loaded, this`blocks, this`persister, this`lastLRU, loaded.Values
      ensures Valid() && Kept(old(S()), S()) && Arrays(old(loaded))
      ensures offset + |data| <= |old(Memory())[c]| && Memory() == old(Memory())[c := Put(old(Memory())[c], offset, data)]
    {
      hide Inv, Contents, Content, Brought, AllocatorSteps.Memory, AllocatorSteps.Valid, Payload, Kept, Sizes, FreeListRep.Valid;
      ghost var s := S();
      var mem := BringIn(alloc.blockAddr, c);
      ghost var t := S();
      WriteLoaded(mem, alloc.offset + offset, data, offset, c);
      KeptSame(s, t, S());
    }

    method WriteLoaded(mem: array<byte>, at: nat, data: seq<byte>, ghost offset: nat, ghost c: Cell)
      requires Valid() && c in Memory() && at == c.span.off + 4 + offset && offset + |data| <= c.Size()
      requires c.addr in loaded && mem == loaded[c.addr]
      modifies mem
      ensures Valid() && at + |data| <= mem.Length && Sizes(old(S())) && IsAddr(old(S()), c.addr)
      ensures offset + |data| <= |old(Memory())[c]| && Memory() == old(Memory())[c := Put(old(Memory())[c], offset, data)]
    {
      hide Inv, BlockOk, Contents, Content, Settled, LoadedBusy, FreeListRep.Valid, AllocatorSteps.Memory, AllocatorSteps.Valid, Payload;
      ghost var t := S();
      ValidParts(t);
      Located(t, c);
      AddrIsLoaded(t, c.addr);
      WrittenInv(t, c, offset, data);
      WriteBytes(c.addr, mem, at, data);
      SettledSame(t, S());
    }

    method WriteBytes(ghost addr: nat, mem: array<byte>, at: nat, data: seq<byte>)
      requires Inv(S(), 0) && addr in loaded && mem == loaded[addr] && IsAddr(S(), addr) && at + |data| <= mem.Length
      modifies mem
      ensures |old(S()).contents| == |blocks| && |old(S()).contents[addr - 1]| == mem.Length
      ensures S() == old(S()).(contents := old(S()).contents[addr - 1 := Put(old(S()).contents[addr - 1], at, data)])
    {
      hide Inv, Contents;
      OwnMemories(S());
      CopyInto(mem, at, data);
      assert forall a: nat :: a != addr ==> Content(a) == old(Content(a));
    }

    /** Brings in two blocks. The first one is still in memory afterwards exactly when there is room for both. */
    method LoadBoth(left: nat, right: nat, ghost l: Cell, ghost r: Cell) returns (lMem: array<byte>, rMem: array<byte>)
      requires Valid() && l in Memory() && r in Memory() && left == l.addr && right == r.addr
      modifies this`loaded, this`blocks, this`persister, this`lastLRU
      ensures Valid() && Memory() == old(Memory()) && Kept(old(S()), S()) && Arrays(old(loaded))
      ensures right in loaded && loaded[right] == rMem
      ensures left in loaded && loaded[left] == lMem <==> left == right || maxBlocks >= 2
    {
      hide Inv, Contents, Content, Brought, AllocatorSteps.Memory, AllocatorSteps.Valid, Payload, Kept, FreeListRep.Valid, Youngest;
      ghost var s := S();
      lMem := BringIn(left, l);
      ghost var t := S();
      ValidParts(t);
      BroughtYoungest(s, t, left);
      LoadedAreAddrs(t);
      rMem := BringIn(right, r);
      ghost var u := S();
      BroughtKeeps(t, u, right);
      SourceStays(t, u, left, right);
      KeptTwice(s, t, u);
    }

    /** Copying reads one segment and changes another one only. */
    method Copy(left: AllocatedSegment, right: AllocatedSegment, size: nat, ghost l: Cell, ghost r: Cell)
      requires Valid() && l in Memory() && r in Memory() && l != r && left == SegmentOf(l) && right == SegmentOf(r)
      requires size <= l.Size() && size <= r.Size()
      requires left.blockAddr == right.blockAddr || maxBlocks >= 2
      modifies this`loaded, this`blocks, this`persister, this`lastLRU, loaded.Values
      ensures Valid() && Kept(old(S()), S()) && Arrays(old(loaded))
      ensures size <= |old(Memory())[l]| && size <= |old(Memory())[r]|
      ensures Memory() == old(Memory())[r := Put(old(Memory())[r], 0, old(Memory())[l][..size])]
    {
      hide Inv, BlockOk, Contents, Content, Settled, LoadedBusy, FreeListRep.Valid, AllocatorSteps.Memory, AllocatorSteps.Valid, Payload, Kept, Sizes;
      ghost var s := S();
      var lMem, rMem := LoadBoth(left.blockAddr, right.blockAddr, l, r);
      ghost var t := S();
      var data := ReadLoaded(lMem, left.offset, size, 0, l);
      WriteLoaded(rMem, right.offset, data, 0, r);
      KeptSame(s, t, S());
    }

    // ---------------------------------------------------------------- freeing

    method MoveOut(addr: nat)
      requires 1 <= addr <= |blocks| == |lives|
      modifies this`loaded, this`blocks, this`persister, this`lives
      ensures loaded == old(loaded) - {addr} && persister == old(persister) - {addr} && lives == old(lives)[addr - 1 := {}]
      ensures blocks == old(blocks)[addr - 1 := old(blocks)[addr - 1].(mem := null)]
      ensures forall a: nat :: Content(a) == if a == addr then [] else old(Content(a))
    {
      blocks := blocks[addr - 1 := blocks[addr - 1].(mem := null)];
      persister := persister - {addr};
      loaded := loaded - {addr};
      lives := lives[addr - 1 := {}];
    }

    /** Forgets what a block held. */
    method Drop(addr: nat)
      requires Sizes(S()) && IsAddr(S(), addr) && blocks[addr - 1].maxSize == MaxAllocable(blockSize)
      modifies this`loaded, this`blocks, this`persister, this`lives
      ensures S() == Dropped(old(S()), addr)
    {
      hide Contents;
      ghost var s := S();
      MoveOut(addr);
      assert Contents(|blocks|) == s.contents[addr - 1 := []];
    }

    method Pop()
      requires Sizes(S()) && blocks != []
      modifies this`blocks, this`lives
      ensures S() == Popped(old(S()))
    {
      ghost var s := S();
      hide Contents;
      blocks := blocks[..|blocks| - 1];
      lives := lives[..|lives| - 1];
      assert Contents(|blocks|) == Popped(s).contents;
    }

    /** A block that holds nothing leaves memory and persister, and the blocks at the end that were
        freed are forgotten. */
    method FreeBlock(addr: nat)
      requires Inv(S(), addr) && Sizes(S()) && IsAddr(S(), addr) && blocks[addr - 1].maxSize == MaxAllocable(blockSize)
      requires forall a: nat :: a in loaded && IsAddr(S(), a) && a != addr ==> lives[a - 1] != {}
      modifies this`loaded, this`blocks, this`persister, this`lives
      ensures Valid() && Memory() == Without(old(Memory()), addr)
      ensures Sizes(S()) && maxBlocks == old(maxBlocks) && blockSize == old(blockSize) && loaded == old(loaded) - {addr}
    {
      hide Inv, BlockOk, Contents, Content, FreeListRep.Valid, AllocatorSteps.Memory, Payload, LoadedBusy;
      ghost var s := S();
      Drop(addr);
      DroppedInv(s, addr);
      DroppedBusy(s, addr);
      SizesOf(S());
      while |blocks| != 0
        invariant Inv(S(), 0) && Sizes(S()) && LoadedBusy(S()) && AllocatorSteps.Memory(S()) == Without(AllocatorSteps.Memory(s), addr)
        invariant maxBlocks == old(maxBlocks) && blockSize == old(blockSize) && loaded == old(loaded) - {addr}
        decreases |blocks|
      {
        var bl := blocks[|blocks| - 1];
        LastBlock(S());
        if bl.maxSize == blockSize - ALLOC_HEAD_SIZE {
          if bl.mem != null {
            assert false;
          }
          PoppedInv(S());
          PoppedBusy(S());
          Pop();
          SizesOf(S());
        } else {
          break;
        }
      }
      SettledWhen(S());
    }

    /** Frees a live segment: the others keep their bytes. */
    method Free(alloc: AllocatedSegment, ghost c: Cell)
      requires Valid() && c in Memory() && alloc == SegmentOf(c)
      modifies this, loaded.Values
      ensures Valid() && Memory() == old(Memory()) - {c}
      ensures maxBlocks == old(maxBlocks) && blockSize == old(blockSize) && Arrays(old(loaded))
    {
      hide Inv, Contents, Content, Brought, AllocatorSteps.Memory, AllocatorSteps.Valid, Payload, Kept, FreeListRep.Valid, Sizes;
      var mem := BringIn(alloc.blockAddr, c);
      BroughtSizes(old(S()), S());
      var empty := Release(alloc.blockAddr, mem, alloc.offset, c);
      if empty {
        WithoutNothing(S(), alloc.blockAddr);
        FreeBlock(alloc.blockAddr);
      }
    }

    /** Frees a segment inside its block. */
    method ReleaseBytes(addr: nat, mem: array<byte>, offset: nat, ghost c: Cell) returns (max: nat, empty: bool)
      requires Inv(S(), 0) && Sizes(S()) && c in Memory() && addr == c.addr && offset == c.span.off + 4
      requires addr in loaded && mem == loaded[addr] && IsAddr(S(), addr)
      modifies mem
      ensures mem.Length == blockSize && Sizes(old(S())) && S() == old(S()).(contents := old(S()).contents[addr - 1 := mem[..]])
      ensures FreeListRep.Valid(mem[..], lives[addr - 1] - {c.span}) && LiveOk(lives[addr - 1] - {c.span}, blockSize)
      ensures |old(S()).contents[addr - 1]| == blockSize && SameLive(old(S()).contents[addr - 1], mem[..], lives[addr - 1] - {c.span})
      ensures max == MaxSize(Nodes(mem[..])) && (empty <==> lives[addr - 1] - {c.span} == {})
    {
      hide Inv, Contents, Content, FreeListRep.Valid, AllocatorSteps.Memory, Payload, LiveOk, SameLive;
      ghost var t := S();
      Located(t, c);
      AddrIsLoaded(t, addr);
      ContentLoaded(addr);
      ghost var live := lives[addr - 1];
      FreeBytes(addr, mem, offset, live, c.span);
      max := FreeList.MaxFree(mem, live - {c.span});
      empty := FreeList.IsEmpty(mem, live - {c.span});
    }

    method FreeBytes(ghost addr: nat, mem: array<byte>, offset: nat, ghost live: set<Span>, ghost sp: Span)
      requires Inv(S(), 0) && addr in loaded && mem == loaded[addr] && IsAddr(S(), addr)
      requires FreeListRep.Valid(mem[..], live) && sp in live && offset == sp.off + 4
      modifies mem
      ensures |old(S()).contents| == |blocks| && S() == old(S()).(contents := old(S()).contents[addr - 1 := mem[..]])
      ensures FreeListRep.Valid(mem[..], live - {sp})
      ensures LiveOk(live - {sp}, mem.Length) && SameLive(old(mem[..]), mem[..], live - {sp})
    {
      hide Inv, Contents, FreeListRep.Valid, LiveOk, SameLive;
      ghost var t := S();
      OwnMemories(t);
      var freed := FreeList.Free(mem, offset, live, sp);
      assert forall a: nat :: a != addr ==> Content(a) == old(Content(a));
      ContentsAre(t.contents[addr - 1 := mem[..]]);
    }

    method Release(addr: nat, mem: array<byte>, offset: nat, ghost c: Cell) returns (empty: bool)
      requires Valid() && c in Memory() && addr == c.addr && offset == c.span.off + 4
      requires addr in loaded && mem == loaded[addr]
      modifies this`blocks, this`lives, mem
      ensures maxBlocks == old(maxBlocks) && blockSize == old(blockSize) && loaded == old(loaded)
      ensures Sizes(S()) && IsAddr(S(), addr) && Memory() == old(Memory()) - {c}
      ensures if empty then
          && Inv(S(), addr) && lives[addr - 1] == {} && blocks[addr - 1].maxSize == MaxAllocable(blockSize)
          && forall a: nat :: a in loaded && IsAddr(S(), a) && a != addr ==> lives[a - 1] != {}
        else Valid()
    {
      hide Inv, Contents, Content, FreeListRep.Valid, AllocatorSteps.Memory, AllocatorSteps.Valid, Payload, LiveOk, SameLive;
      ghost var t := S();
      ValidParts(t);
      Located(t, c);
      var max;
      max, empty := ReleaseBytes(addr, mem, offset, c);
      ReleasedInv(t, c, mem[..]);
      blocks := blocks[addr - 1 := blocks[addr - 1].(maxSize := max)];
      lives := lives[addr - 1 := lives[addr - 1] - {c.span}];
      assert S() == Updated(t, addr, mem[..], t.lives[addr - 1] - {c.span}, max);
      SizesOf(S());
      if empty { Exempt(S(), addr); }
    }

    /** Frees a block with all that is in it, without looking at its bytes. */
    method FreeFast(blockAddr: nat)
      requires Valid() && IsAddr(S(), blockAddr)
      modifies this`loaded, this`blocks, this`persister, this`lives
      ensures Valid() && Memory() == Without(old(Memory()), blockAddr)
      ensures maxBlocks == old(maxBlocks) && blockSize == old(blockSize) && loaded == old(loaded) - {blockAddr}
    {
      hide Inv, BlockOk, Contents, Content, Settled, FreeListRep.Valid, AllocatorSteps.Memory, AllocatorSteps.Valid, Payload;
      ghost var s := S();
      ValidParts(s);
      MarkedInv(s, blockAddr);
      blocks := blocks[blockAddr - 1 := blocks[blockAddr - 1].(maxSize := blockSize - ALLOC_HEAD_SIZE)];
      FreeBlock(blockAddr);
    }

    // ---------------------------------------------------------------- allocation

    /** Allocates inside a block. */
    method AllocateBytes(addr: nat, mem: array<byte>, size: nat) returns (ok: bool, offset: nat, ghost sp: Span)
      requires Inv(S(), 0) && Sizes(S()) && IsAddr(S(), addr) && addr in loaded && mem == loaded[addr]
      modifies mem
      ensures mem.Length == blockSize && Sizes(old(S()))
      ensures ok <==> FreeList.RealSize(size) <= old(blocks[addr - 1]).maxSize + 4
      ensures !ok ==> S() == old(S())
      ensures ok ==>
        && S() == old(S()).(contents := old(S()).contents[addr - 1 := mem[..]])
        && offset == sp.off + 4 && sp !in lives[addr - 1] && |old(S()).contents[addr - 1]| == blockSize
        && FreeListRep.Valid(mem[..], lives[addr - 1] + {sp}) && LiveOk(lives[addr - 1], blockSize)
        && SameLive(old(S()).contents[addr - 1], mem[..], lives[addr - 1])
        && FreeList.BestFitTaken(Nodes(old(S()).contents[addr - 1]), Nodes(mem[..]), FreeList.RealSize(size), sp)
    {
      hide Inv, Contents, FreeListRep.Valid, AllocatorSteps.Memory, Payload, LiveOk, SameLive, FreeList.RealSize, FreeList.BestFitTaken;
      ghost var t := S();
      AddrIsLoaded(t, addr);
      BlockIsSound(t, addr);
      OwnMemories(t);
      ContentLoaded(addr);
      ok, offset, sp := FreeList.Allocate(mem, size, lives[addr - 1]);
      assert forall a: nat :: a != addr ==> Content(a) == old(Content(a));
      ContentsAre(t.contents[addr - 1 := mem[..]]);
    }

    /** Records what room a block has left. */
    method RecordRoom(addr: nat, mem: array<byte>, ghost live: set<Span>)
      requires Sizes(S()) && IsAddr(S(), addr) && addr in loaded && mem == loaded[addr] && FreeListRep.Valid(mem[..], live)
      modifies this`blocks, this`lives
      ensures S() == Updated(old(S()), addr, mem[..], live, MaxSize(Nodes(mem[..])))
      ensures lives == old(lives)[addr - 1 := live] && |blocks| == |old(blocks)|
    {
      hide Contents, FreeListRep.Valid;
      ghost var t := S();
      ContentLoaded(addr);
      var max := FreeList.MaxFree(mem, live);
      blocks := blocks[addr - 1 := blocks[addr - 1].(maxSize := max)];
      lives := lives[addr - 1 := live];
      assert t.contents[addr - 1 := mem[..]] == t.contents;
    }

    /** Allocates in a loaded block and records what room is left. */
    method AllocateIn(addr: nat, size: nat) returns (ok: bool, offset: nat, ghost c: Cell)
      requires Inv(S(), 0) && Sizes(S()) && IsAddr(S(), addr) && addr in loaded
      modifies this`blocks, this`lives, loaded[addr]
      ensures loaded == old(loaded) && Inv(S(), 0) && Sizes(S())
      ensures ok <==> FreeList.RealSize(size) <= old(blocks[addr - 1]).maxSize + 4
      ensures !ok ==> S() == old(S())
      ensures ok ==>
        && |blocks| == |old(blocks)| && OthersKept(old(S()), S(), addr)
        && lives[addr - 1] == old(lives)[addr - 1] + {c.span} && c.addr == addr && offset == c.span.off + 4
        && c !in old(Memory()) && c in Memory() && Memory() == old(Memory())[c := Memory()[c]]
        && FreeList.RealSize(size) <= c.span.size <= FreeList.RealSize(size) + NODE && blocks[addr - 1].lru == old(blocks)[addr - 1].lru
      ensures ok && old(lives)[addr - 1] == {} ==>
        c.span.off == HEADER && blocks[addr - 1].maxSize == RoomLeft(blockSize, FreeList.RealSize(size))
    {
      hide Inv, Contents, Content, FreeListRep.Valid, AllocatorSteps.Memory, Payload, LiveOk, SameLive, FreeList.RealSize, FreeList.BestFitTaken, OthersKept;
      ghost var t := S();
      var mem := loaded[addr];
      ghost var sp;
      ok, offset, sp := AllocateBytes(addr, mem, size);
      c := Cell(addr, sp);
      if ok {
        GrownInv(t, addr, mem[..], sp);
        UpdatedKeeps(t, addr, mem[..], lives[addr - 1] + {sp}, MaxSize(Nodes(mem[..])));
        TakenIsEnough(Nodes(t.contents[addr - 1]), Nodes(mem[..]), FreeList.RealSize(size), sp);
        if t.lives[addr - 1] == {} {
          EmptyBlock(t, addr);
          WholeTaken(blockSize, Nodes(mem[..]), FreeList.RealSize(size), sp);
        }
        RecordRoom(addr, mem, lives[addr - 1] + {sp});
        UpdatedTwice(t, addr, mem[..], lives[addr - 1], MaxSize(Nodes(mem[..])));
        SizesOf(S());
      }
    }

    /** Evicts a block if there is no room for one more. */
    method MakeRoom()
      requires Valid()
      modifies this`loaded, this`blocks, this`persister
      ensures Inv(S(), 0) && Sizes(S()) && LoadedBusy(S()) && |loaded| < maxBlocks
      ensures Sizes(old(S())) && Memory() == old(Memory()) && lives == old(lives) && lastLRU == old(lastLRU)
      ensures |blocks| == |old(blocks)| && (forall a: nat :: OthersKept(old(S()), S(), a))
      ensures forall a :: a in loaded ==> a in old(loaded) && loaded[a] == old(loaded)[a]
      ensures |loaded| == (if |old(loaded)| < maxBlocks then |old(loaded)| else maxBlocks - 1) && OldestOut(old(S()), loaded.Keys)
    {
      hide Inv, Contents, Content, AllocatorSteps.Memory, Trimmed, AllocatorSteps.Valid, OthersKept, OldestOut;
      ghost var s := S();
      ValidParts(s);
      ghost var nb := 0;
      NotTrimmed(s);
      if |loaded| == maxBlocks {
        EvictSome(1);
        nb := 1;
      }
      TrimmedFacts(s, S(), nb);
      TrimmedKeeps(s, S(), nb);
    }

    /** Opens a new block at the end, making room for it in memory first. */
    method AllocateNewBlock() returns (addr: nat)
      requires Valid()
      modifies this`loaded, this`blocks, this`persister, this`lastLRU, this`lives
      ensures Inv(S(), 0) && Sizes(S()) && addr == |old(blocks)| + 1 == |blocks| && IsAddr(S(), addr) && addr in loaded
      ensures Sizes(old(S())) && Memory() == old(Memory()) && OthersKept(old(S()), S(), addr)
      ensures lives[addr - 1] == {} && blocks[addr - 1].maxSize == MaxAllocable(blockSize)
      ensures forall a: nat :: a in loaded && IsAddr(S(), a) && a != addr ==> lives[a - 1] != {}
      ensures Arrays(old(loaded)) && fresh(loaded[addr])
      ensures |loaded| == (if |old(loaded)| < maxBlocks then |old(loaded)| + 1 else maxBlocks)
      ensures OldestOut(old(S()), loaded.Keys - {addr})
    {
      hide Inv, Contents, Content, FreeListRep.Valid, AllocatorSteps.Memory, AllocatorSteps.Valid, OthersKept, LoadedBusy, OldestOut;
      ghost var s := S();
      MakeRoom();
      ghost var t := S();
      addr := |blocks| + 1;
      assert OthersKept(s, t, addr);
      var mem := new byte[blockSize];
      FreeList.Create(mem);
      assert S() == t;
      OpenedInv(t, mem, mem[..]);
      OpenedLoaded(t, mem, mem[..]);
      OpenedKeeps(s, t, mem, mem[..]);
      Open(addr, mem);
      SizesOf(S());
    }

    method Open(addr: nat, mem: array<byte>)
      requires Inv(S(), 0) && Sizes(S()) && addr == |blocks| + 1 && mem !in loaded.Values && |mem[..]| == blockSize
      modifies this`loaded, this`blocks, this`lastLRU, this`lives
      ensures S() == Opened(old(S()), mem, mem[..])
    {
      hide Contents;
      ghost var t := S();
      AddrsOnly(t);
      blocks := blocks + [BlockInfo(mem, lastLRU, blockSize - ALLOC_HEAD_SIZE)];
      lastLRU := lastLRU + 1;
      loaded := loaded[addr := mem];
      lives := lives + [{}];
      assert forall a: nat :: a != addr ==> Content(a) == old(Content(a));
      assert Contents(|blocks|) == t.contents + [mem[..]];
    }

    /** Allocates in a block that is in memory and has room. */
    method PlaceIn(addr: nat, size: nat) returns (offset: nat, ghost c: Cell)
      requires Inv(S(), 0) && Sizes(S()) && IsAddr(S(), addr) && addr in loaded && BusyBut(S(), addr)
      requires FreeList.RealSize(size) <= blocks[addr - 1].maxSize
      requires addr < |blocks| ==> lives[|blocks| - 1] != {}
      modifies this`blocks, this`lives, loaded[addr]
      ensures Valid() && Sizes(S()) && Sizes(old(S())) && loaded == old(loaded) && |blocks| == |old(blocks)|
      ensures Placed(old(S()), S(), c, FreeList.RealSize(size)) && c.addr == addr && offset == c.span.off + 4
      ensures lives[addr - 1] == old(lives)[addr - 1] + {c.span}
      ensures old(lives)[addr - 1] == {} ==>
        c.span.off == HEADER && blocks[addr - 1].maxSize == RoomLeft(blockSize, FreeList.RealSize(size))
    {
      hide Inv, Contents, Content, AllocatorSteps.Memory, AllocatorSteps.Valid, FreeList.RealSize, OthersKept, BusyBut, Placed;
      ghost var s := S();
      var ok;
      ok, offset, c := AllocateIn(addr, size);
      MakePlaced(s, S(), c, FreeList.RealSize(size));
      PlacedValid(s, S(), c, FreeList.RealSize(size));
    }

    /** Allocates in a block that is in memory and has room, and gives the block a new age. */
    method PlaceAndTouch(addr: nat, size: nat) returns (offset: nat, ghost c: Cell)
      requires Inv(S(), 0) && Sizes(S()) && IsAddr(S(), addr) && addr in loaded && BusyBut(S(), addr)
      requires FreeList.RealSize(size) <= blocks[addr - 1].maxSize
      requires addr < |blocks| ==> lives[|blocks| - 1] != {}
      modifies this`blocks, this`lives, this`lastLRU, loaded[addr]
      ensures Valid() && Sizes(S()) && Sizes(old(S())) && loaded == old(loaded) && |blocks| == |old(blocks)|
      ensures Placed(old(S()), S(), c, FreeList.RealSize(size)) && c.addr == addr && offset == c.span.off + 4
      ensures lives[addr - 1] == old(lives)[addr - 1] + {c.span}
      ensures old(lives)[addr - 1] == {} ==>
        c.span.off == HEADER && blocks[addr - 1].maxSize == RoomLeft(blockSize, FreeList.RealSize(size))
    {
      hide Inv, Contents, Content, AllocatorSteps.Memory, AllocatorSteps.Valid, FreeList.RealSize, OthersKept, BusyBut, Placed;
      ghost var s := S();
      offset, c := PlaceIn(addr, size);
      TouchedPlaced(s, S(), c, FreeList.RealSize(size));
      Touch(addr);
    }

    /** Tries the blocks in memory, in no particular order. */
    method TryLoaded(size: nat) returns (ok: bool, offset: nat, addr: nat, ghost c: Cell)
      requires Valid()
      modifies this`blocks, this`lives, this`lastLRU, loaded.Values
      ensures Valid() && Sizes(S()) && Sizes(old(S())) && loaded == old(loaded) && |blocks| == |old(blocks)|
      ensures !ok ==> S() == old(S()) && forall a :: a in loaded ==> !Roomy(S(), a, FreeList.RealSize(size))
      ensures ok ==>
        && Placed(old(S()), S(), c, FreeList.RealSize(size)) && c.addr == addr && offset == c.span.off + 4
        && addr in loaded && Roomy(old(S()), addr, FreeList.RealSize(size))
    {
      hide Inv, Contents, Content, AllocatorSteps.Memory, AllocatorSteps.Valid, FreeList.RealSize, Placed;
      ghost var s := S();
      ValidParts(s);
      LoadedAreAddrs(s);
      var unseen := loaded.Keys;
      ok, offset, addr, c := false, 0, 0, Cell(0, Span(0, 0));
      while unseen != {}
        invariant S() == s && unseen <= loaded.Keys && !ok
        invariant forall a :: a in loaded && a !in unseen ==> !Roomy(s, a, FreeList.RealSize(size))
        decreases |unseen|
      {
        addr :| addr in unseen;
        if blocks[addr - 1].maxSize >= FreeList.RealSize(size) {
          offset, c := PlaceAndTouch(addr, size);
          ok := true;
          return;
        }
        unseen := unseen - {addr};
      }
    }

    /** Tries the blocks that are not in memory, by address. The first one with room may have been freed. */
    method TryStored(size: nat) returns (r: Outcome, ghost c: Cell)
      requires Valid() && forall a :: a in loaded ==> !Roomy(S(), a, FreeList.RealSize(size))
      modifies this`loaded, this`blocks, this`persister, this`lastLRU, this`lives
      ensures Valid() && Sizes(S()) && Sizes(old(S())) && |blocks| == |old(blocks)| && Arrays(old(loaded))
      ensures r.Refused? <==> forall a: nat :: !Roomy(old(S()), a, FreeList.RealSize(size))
      ensures r.Refused? ==> S() == old(S())
      ensures r.Thrown? <==> WantsFreedBlock(old(S()), FreeList.RealSize(size))
      ensures r.Thrown? ==> Memory() == old(Memory()) && Kept(old(S()), S()) && maxBlocks == old(maxBlocks) && blockSize == old(blockSize)
      ensures r.Allocated? ==>
        && Placed(old(S()), S(), c, FreeList.RealSize(size)) && r.segment == SegmentOf(c)
        && FirstRoomy(old(S()), c.addr, FreeList.RealSize(size))
    {
      hide Inv, Contents, Content, AllocatorSteps.Memory, AllocatorSteps.Valid, FreeList.RealSize, Placed, WantsFreedBlock;
      ghost var s := S();
      ValidParts(s);
      c := Cell(0, Span(0, 0));
      for addr := 1 to |blocks| + 1
        invariant S() == s && forall b: nat :: b < addr ==> !Roomy(s, b, FreeList.RealSize(size))
      {
        if blocks[addr - 1].maxSize >= FreeList.RealSize(size) {
          r, c := PlaceStored(addr, size);
          return;
        }
      }
      NobodyRoomy(s, FreeList.RealSize(size));
      r := Refused;
    }

    method PlaceStored(addr: nat, size: nat) returns (r: Outcome, ghost c: Cell)
      requires Valid() && FirstRoomy(S(), addr, FreeList.RealSize(size)) && addr !in loaded
      requires forall a :: a in loaded ==> !Roomy(S(), a, FreeList.RealSize(size))
      modifies this`loaded, this`blocks, this`persister, this`lastLRU, this`lives
      ensures Valid() && Sizes(S()) && Sizes(old(S())) && |blocks| == |old(blocks)| && Arrays(old(loaded)) && !r.Refused?
      ensures r.Thrown? <==> WantsFreedBlock(old(S()), FreeList.RealSize(size))
      ensures r.Thrown? ==> Memory() == old(Memory()) && Kept(old(S()), S()) && maxBlocks == old(maxBlocks) && blockSize == old(blockSize)
      ensures r.Allocated? ==>
        && Placed(old(S()), S(), c, FreeList.RealSize(size)) && r.segment == SegmentOf(c) && c.addr == addr
    {
      hide Inv, Contents, Content, AllocatorSteps.Memory, AllocatorSteps.Valid, FreeList.RealSize, Placed, WantsFreedBlock, FirstRoomy, Brought, Kept, BusyBut, OlderThanLoaded, Settled, LoadedBusy;
      ghost var s := S();
      ValidParts(s);
      FirstIsRoomy(s, addr, FreeList.RealSize(size));
      FreedOrFiled(s, addr, FreeList.RealSize(size));
      var ok, mem := Load(addr);
      ghost var t := S();
      BroughtValid(s, t, addr);
      BroughtKeeps(s, t, addr);
      ValidParts(t);
      RoomKept(s, t, addr);
      if !ok {
        c := Cell(0, Span(0, 0));
        return Thrown, c;
      }
      var offset;
      offset, c := PlaceIn(addr, size);
      BroughtThenPlaced(s, t, S(), c, FreeList.RealSize(size));
      r := Allocated(AllocatedSegment(addr, offset));
    }

    /** Allocates in a new block, which never fails. */
    method PlaceInNewBlock(size: nat) returns (addr: nat, offset: nat, ghost c: Cell)
      requires Valid() && FreeList.RealSize(size) <= MaxAllocable(blockSize)
      modifies this`loaded, this`blocks, this`persister, this`lastLRU, this`lives
      ensures Valid() && Sizes(S()) && Sizes(old(S())) && Arrays(old(loaded))
      ensures Placed(old(S()), S(), c, FreeList.RealSize(size)) && c.addr == addr && offset == c.span.off + 4
      ensures addr == |old(blocks)| + 1 == |blocks| && lives[addr - 1] == {c.span}
      ensures c.span.off == HEADER && blocks[addr - 1].maxSize == RoomLeft(blockSize, FreeList.RealSize(size))
    {
      hide Inv, Contents, Content, AllocatorSteps.Memory, AllocatorSteps.Valid, FreeList.RealSize, OthersKept, BusyBut, Placed;
      ghost var s := S();
      addr := AllocateNewBlock();
      ghost var t := S();
      BusyOthers(t, addr);
      offset, c := PlaceAndTouch(addr, size);
      OpenedThenPlaced(s, t, S(), c, FreeList.RealSize(size));
    }

    /** Allocates a segment: in a loaded block with room if there is one, else in the first stored
        block with room, else, or if asked for, in a new block. */
    method Allocate(size: nat, newBlock: bool) returns (r: Outcome, ghost c: Cell)
      requires Valid()
      modifies this`loaded, this`blocks, this`persister, this`lastLRU, this`lives, loaded.Values
      ensures Valid() && Sizes(S()) && Sizes(old(S())) && Arrays(old(loaded))
      ensures maxBlocks == old(maxBlocks) && blockSize == old(blockSize)
      ensures r.Refused? <==> FreeList.RealSize(size) > MaxAllocable(blockSize)
      ensures r.Thrown? <==>
        FreeList.RealSize(size) <= MaxAllocable(blockSize) && !newBlock && WantsFreedBlock(old(S()), FreeList.RealSize(size))
      ensures !r.Allocated? ==> Memory() == old(Memory()) && Kept(old(S()), S())
      ensures r.Allocated? ==> Placed(old(S()), S(), c, FreeList.RealSize(size)) && r.segment == SegmentOf(c)
      ensures r.Allocated? && c.addr <= |old(blocks)| ==>
        && !newBlock && Roomy(old(S()), c.addr, FreeList.RealSize(size))
        && (c.addr in old(loaded) || forall a :: a in old(loaded) ==> !Roomy(old(S()), a, FreeList.RealSize(size)))
      ensures r.Allocated? && c.addr > |old(blocks)| ==>
        && c.addr == |old(blocks)| + 1 == |blocks| && lives[c.addr - 1] == {c.span}
        && (newBlock || forall a: nat :: !Roomy(old(S()), a, FreeList.RealSize(size)))
        && c.span.off == HEADER && blocks[c.addr - 1].maxSize == RoomLeft(blockSize, FreeList.RealSize(size))
    {
      hide Inv, Contents, Content, AllocatorSteps.Memory, AllocatorSteps.Valid, FreeList.RealSize, OthersKept, Placed, WantsFreedBlock, Kept, RoomLeft, Sizes;
      ghost var s := S();
      ValidParts(s);
      KeptAsIs(s);
      c := Cell(0, Span(0, 0));
      if FreeList.RealSize(size) > blockSize - ALLOC_HEAD_SIZE { return Refused, c; }
      var addr, offset;
      if !newBlock {
        var ok;
        ok, offset, addr, c := TryLoaded(size);
        if ok {
          LoadedHasRoom(s, addr, FreeList.RealSize(size));
          PlacedFacts(s, S(), c, FreeList.RealSize(size));
          return Allocated(AllocatedSegment(addr, offset)), c;
        }
        r, c := TryStored(size);
        if r.Allocated? {
          FirstIsRoomy(s, c.addr, FreeList.RealSize(size));
          PlacedFacts(s, S(), c, FreeList.RealSize(size));
        }
        if !r.Refused? { return; }
      }
      addr, offset, c := PlaceInNewBlock(size);
      PlacedFacts(s, S(), c, FreeList.RealSize(size));
      r := Allocated(AllocatedSegment(addr, offset));
    }

    // ---------------------------------------------------------------- settings

    /** Changes how many blocks may be in memory, at least two. Nothing stored changes, and only as many
        blocks leave memory as are too many, those used longest ago. */
    method Resize(nbBlocks: nat)
      requires Valid()
      modifies this`maxBlocks, this`loaded, this`blocks, this`persister
      ensures Valid() && Memory() == old(Memory())
      ensures maxBlocks == (if nbBlocks < 2 then 2 else nbBlocks) && blockSize == old(blockSize)
      ensures forall a :: a in loaded ==> a in old(loaded) && loaded[a] == old(loaded)[a]
      ensures |loaded| == (if |old(loaded)| <= maxBlocks then |old(loaded)| else maxBlocks) && OldestOut(old(S()), loaded.Keys)
    {
      hide Inv, Contents, Content, AllocatorSteps.Memory, AllocatorSteps.Valid, Trimmed;
      ghost var s := S();
      ValidParts(s);
      NotTrimmed(s);
      var max := if nbBlocks < 2 then 2 else nbBlocks;
      ghost var nb := 0;
      if |loaded| > max {
        nb := |loaded| - max;
        EvictSome(|loaded| - max);
      }
      ghost var t := S();
      TrimmedFacts(s, t, nb);
      TrimmedKeeps(s, t, nb);
      TrimmedValid(s, t, nb);
      ResizedInv(t, max);
      maxBlocks := max;
      assert S() == Resized(t, max);
    }

    method IsLoaded(blockAddr: nat) returns (yes: bool)
      requires Valid() && IsAddr(S(), blockAddr)
      ensures yes <==> blockAddr in loaded
    {
      BusyIsSomewhere(S(), blockAddr);
      yes := blocks[blockAddr - 1].mem != null;
    }
  }

  /** The capacities and the recorded sizes are as before. */
  ghost predicate Kept(s: State, t: State) {
    && t.maxBlocks == s.maxBlocks && t.blockSize == s.blockSize && t.lives == s.lives && |t.blocks| == |s.blocks|
    && forall i :: 0 <= i < |s.blocks| ==> t.blocks[i].maxSize == s.blocks[i].maxSize
  }

  lemma KeptSame(s: State, t: State, u: State)
    requires Kept(s, t) && u.blocks == t.blocks && u.lives == t.lives && u.maxBlocks == t.maxBlocks && u.blockSize == t.blockSize
    ensures Kept(s, u)
  {}

  lemma BroughtSizes(s: State, t: State)
    requires Kept(s, t)
    ensures t.maxBlocks == s.maxBlocks && t.blockSize == s.blockSize
  {}

  lemma KeptAsIs(s: State)
    ensures Kept(s, s)
  {}

  lemma KeptTwice(s: State, t: State, u: State)
    requires Kept(s, t) && Kept(t, u)
    ensures Kept(s, u)
  {}

  /** The room left in a block that was empty. */
  function RoomLeft(n: nat, need: nat): nat {
    if n >= HEADER + need + NODE + 1 then n - HEADER - need - 4 else 0
  }

  lemma ValidParts(s: State)
    requires AllocatorSteps.Valid(s)
    ensures Inv(s, 0) && Settled(s) && Sizes(s) && LoadedBusy(s) && forall x: nat :: BusyBut(s, x)
    ensures s.blocks != [] ==> s.lives[|s.blocks| - 1] != {}
  {}

  lemma RoomKept(s: State, t: State, a: nat)
    requires Sizes(s) && Sizes(t) && Brought(s, t, a) && IsAddr(s, a)
    ensures SameStore(s, t) && IsAddr(t, a) && t.blocks[a - 1].maxSize == s.blocks[a - 1].maxSize
  {}

  lemma BroughtKeeps(s: State, t: State, a: nat)
    requires Sizes(s) && Sizes(t) && Brought(s, t, a)
    ensures Kept(s, t)
    ensures forall b :: b in t.loaded && b != a ==> b in s.loaded && t.loaded[b] == s.loaded[b]
    ensures a in s.loaded ==> a in t.loaded && t.loaded[a] == s.loaded[a]
  {}

  lemma SettledSame(s: State, t: State)
    requires AllocatorSteps.Valid(s) && Inv(t, 0) && t.lives == s.lives && t.loaded == s.loaded && t.blocks == s.blocks
    ensures AllocatorSteps.Valid(t)
  {}

  method CopyOut(mem: array<byte>, at: nat, n: nat) returns (data: seq<byte>)
    requires at + n <= mem.Length
    ensures data == mem[..][at..at + n]
  {
    data := [];
    for i := 0 to n
      invariant data == mem[..][at..at + i]
    {
      data := data + [mem[at + i]];
    }
  }

  method CopyInto(mem: array<byte>, at: nat, data: seq<byte>)
    requires at + |data| <= mem.Length
    modifies mem
    ensures mem[..] == Put(old(mem[..]), at, data)
  {
    ghost var m := mem[..];
    for i := 0 to |data|
      invariant forall k :: 0 <= k < mem.Length ==> mem[k] == if at <= k < at + i then data[k - at] else m[k]
    {
      mem[at + i] := data[i];
    }
  }

  lemma PutAll(m: seq<byte>, data: seq<byte>)
    requires |m| == |data|
    ensures Put(m, 0, data) == data
  {}
}
