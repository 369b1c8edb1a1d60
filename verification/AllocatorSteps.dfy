/** The allocator's state as a value, its invariant, and what each step makes of it. */
module AllocatorSteps {
  import opened Bytes
  import opened FreeSpans
  import opened FreeListRep
  import opened FreeList
  import opened AllocatorState

  /** The fields of the allocator, the live segments of each block, and the bytes of each block
      wherever they are. */
  datatype State = State(
    maxBlocks: nat,
    blockSize: nat,
    loaded: map<nat, array<byte>>,
    blocks: seq<BlockInfo>,
    persister: map<nat, seq<byte>>,
    lastLRU: nat,
    lives: seq<set<Span>>,
    contents: seq<seq<byte>>)

  predicate IsAddr(s: State, a: int) { 1 <= a <= |s.blocks| }

  ghost predicate Sizes(s: State) {
    && HEADER + NODE <= s.blockSize < WORD && 1 <= s.maxBlocks && |s.loaded| <= s.maxBlocks
    && |s.lives| == |s.blocks| == |s.contents|
  }

  /** `a` is loaded exactly when its block has a memory, and then it is the same one. */
  ghost predicate LoadedAt(s: State, a: nat) {
    && (a in s.loaded <==> IsAddr(s, a) && s.blocks[a - 1].mem != null)
    && (a in s.loaded ==> s.loaded[a] == s.blocks[a - 1].mem && s.loaded[a].Length == s.blockSize)
  }

  /** No two blocks share a memory. */
  ghost predicate OwnMemory(s: State, a: nat, b: nat) {
    a in s.loaded && b in s.loaded && a != b ==> s.loaded[a] != s.loaded[b]
  }

  /** The persister holds a block exactly when it has live segments and is not loaded. */
  ghost predicate FiledAt(s: State, a: nat)
    requires |s.lives| == |s.blocks|
  {
    a in s.persister <==> IsAddr(s, a) && s.blocks[a - 1].mem == null && s.lives[a - 1] != {}
  }

  /** Every use gave its block an age of its own. */
  ghost predicate AgeAt(s: State, a: nat, b: nat) {
    && (IsAddr(s, a) ==> s.blocks[a - 1].lru < s.lastLRU)
    && (IsAddr(s, a) && IsAddr(s, b) && a != b ==> s.blocks[a - 1].lru != s.blocks[b - 1].lru)
  }

  ghost predicate SoundAt(s: State, a: nat)
    requires |s.lives| == |s.blocks| == |s.contents|
  {
    IsAddr(s, a) ==> BlockOk(s.blockSize, s.blocks[a - 1], s.contents[a - 1], s.lives[a - 1])
  }

  /** What the invariant says of blocks `a` and `b`; of block `x` it does not say what it holds. */
  ghost predicate At(s: State, x: nat, a: nat, b: nat)
    requires Sizes(s)
  {
    && LoadedAt(s, a) && OwnMemory(s, a, b) && AgeAt(s, a, b) && AgeAt(s, b, a)
    && (if a == x then a in s.persister ==> IsAddr(s, a) else FiledAt(s, a) && SoundAt(s, a))
  }

  ghost predicate Inv(s: State, x: nat) {
    Sizes(s) && forall a: nat, b: nat :: At(s, x, a, b)
  }

  /** Between two operations no loaded block is empty, and neither is the last block. */
  ghost predicate Settled(s: State)
    requires |s.lives| == |s.blocks|
  {
    && (forall a: nat :: a in s.loaded && IsAddr(s, a) ==> s.lives[a - 1] != {})
    && (s.blocks != [] ==> s.lives[|s.lives| - 1] != {})
  }

  ghost predicate Valid(s: State) { Inv(s, 0) && Settled(s) }

  ghost function Memory(s: State): map<Cell, seq<byte>>
    requires |s.lives| == |s.contents|
  {
    Flat(s.contents, s.lives)
  }

  /** Block `a` was used before every loaded block. */
  ghost predicate OlderThanLoaded(s: State, a: nat) {
    IsAddr(s, a) && forall b :: b in s.loaded && b != a ==> IsAddr(s, b) && s.blocks[a - 1].lru < s.blocks[b - 1].lru
  }

  lemma RemoveOne<T>(m: map<nat, T>, k: nat)
    ensures |m - {k}| == |m| - if k in m then 1 else 0
  {
    assert (m - {k}).Keys == m.Keys - {k};
  }

  lemma AddOne<T>(m: map<nat, T>, k: nat, v: T)
    requires k !in m
    ensures |m[k := v]| == |m| + 1
  {
    assert m[k := v].Keys == m.Keys + {k};
  }

  // ---------------------------------------------------------------- eviction

  ghost function Evicted(s: State, a: nat): State
    requires IsAddr(s, a) && |s.contents| == |s.blocks|
  {
    s.(loaded := s.loaded - {a},
       blocks := s.blocks[a - 1 := s.blocks[a - 1].(mem := null)],
       persister := s.persister[a := s.contents[a - 1]])
  }

  lemma EvictedAt(s: State, a: nat, x: nat, b: nat, c: nat)
    requires Inv(s, x) && a in s.loaded && IsAddr(s, a) && s.lives[a - 1] != {}
    requires Sizes(Evicted(s, a))
    ensures At(Evicted(s, a), x, b, c)
  {
    hide BlockOk, FreeListRep.Valid;
    assert At(s, x, b, c);
    assert At(s, x, a, a);
    if a != x { BlockEvicted(s.blockSize, s.blocks[a - 1], s.contents[a - 1], s.lives[a - 1]); }
    hide Inv;
  }

  lemma EvictedInv(s: State, a: nat, x: nat)
    requires Inv(s, x) && a in s.loaded && IsAddr(s, a) && s.lives[a - 1] != {}
    ensures Inv(Evicted(s, a), x)
  {
    hide At, BlockOk, FreeListRep.Valid;
    RemoveOne(s.loaded, a);
    forall b: nat, c: nat
      ensures At(Evicted(s, a), x, b, c)
    {
      EvictedAt(s, a, x, b, c);
    }
  }

  lemma BlockEvicted(n: nat, b: BlockInfo, m: seq<byte>, live: set<Span>)
    requires BlockOk(n, b, m, live) && live != {}
    ensures BlockOk(n, b.(mem := null), m, live)
  {}

  // ---------------------------------------------------------------- loading

  /** Using a block gives it a new age. */
  ghost function Touched(s: State, a: nat): State
    requires IsAddr(s, a)
  {
    s.(blocks := s.blocks[a - 1 := s.blocks[a - 1].(lru := s.lastLRU)], lastLRU := s.lastLRU + 1)
  }

  lemma TouchedAt(s: State, a: nat, x: nat, b: nat, c: nat)
    requires Inv(s, x) && IsAddr(s, a)
    requires Sizes(Touched(s, a))
    ensures At(Touched(s, a), x, b, c)
  {
    hide BlockOk, FreeListRep.Valid;
    assert At(s, x, b, c);
    assert At(s, x, a, a);
    SameBlock(s.blockSize, s.blocks[a - 1], s.blocks[a - 1].(lru := s.lastLRU), s.contents[a - 1], s.lives[a - 1]);
    hide Inv;
  }

  lemma TouchedInv(s: State, a: nat, x: nat)
    requires Inv(s, x) && IsAddr(s, a)
    ensures Inv(Touched(s, a), x)
    ensures forall b: nat :: IsAddr(s, b) && b != a ==> s.blocks[b - 1].lru < s.lastLRU
  {
    hide At, BlockOk, FreeListRep.Valid;
    forall b: nat, c: nat
      ensures At(Touched(s, a), x, b, c)
    {
      TouchedAt(s, a, x, b, c);
    }
    forall b: nat | IsAddr(s, b) && b != a
      ensures s.blocks[b - 1].lru < s.lastLRU
    {
      OlderThanNow(s, x, b);
    }
  }

  lemma OlderThanNow(s: State, x: nat, a: nat)
    requires Inv(s, x) && IsAddr(s, a)
    ensures s.blocks[a - 1].lru < s.lastLRU
  {
    assert At(s, x, a, a);
  }

  lemma SameBlock(n: nat, b: BlockInfo, b': BlockInfo, m: seq<byte>, live: set<Span>)
    requires b'.maxSize == b.maxSize && (b'.mem == null <==> b.mem == null)
    ensures BlockOk(n, b', m, live) <==> BlockOk(n, b, m, live)
  {}

  /** Reading a block back from the persister, which forgets it. */
  ghost function Fetched(s: State, a: nat, out: array<byte>): State
    requires IsAddr(s, a)
  {
    s.(loaded := s.loaded[a := out],
       blocks := s.blocks[a - 1 := s.blocks[a - 1].(mem := out)],
       persister := s.persister - {a})
  }

  lemma FetchedAt(s: State, a: nat, out: array<byte>, x: nat, b: nat, c: nat)
    requires Inv(s, x) && a != x && a in s.persister && IsAddr(s, a) && |s.loaded| < s.maxBlocks
    requires out.Length == s.blockSize && forall b :: b in s.loaded ==> s.loaded[b] != out
    requires Sizes(Fetched(s, a, out))
    ensures At(Fetched(s, a, out), x, b, c)
  {
    hide BlockOk, FreeListRep.Valid;
    assert At(s, x, b, c) && At(s, x, a, a);
    hide Inv;
    if b == a { FetchedHere(s, a, out, x, c); } else { FetchedThere(s, a, out, x, b, c); }
  }

  lemma FetchedHere(s: State, a: nat, out: array<byte>, x: nat, c: nat)
    requires Sizes(s) && At(s, x, a, c) && a != x && a in s.persister && IsAddr(s, a) && Sizes(Fetched(s, a, out))
    requires out.Length == s.blockSize && forall b :: b in s.loaded ==> s.loaded[b] != out
    ensures At(Fetched(s, a, out), x, a, c)
  {
    hide BlockOk, FreeListRep.Valid;
    BlockFetched(s.blockSize, s.blocks[a - 1], out, s.contents[a - 1], s.lives[a - 1]);
  }

  lemma FetchedThere(s: State, a: nat, out: array<byte>, x: nat, b: nat, c: nat)
    requires Sizes(s) && At(s, x, b, c) && At(s, x, a, a) && a != x && b != a && IsAddr(s, a) && Sizes(Fetched(s, a, out))
    requires forall b :: b in s.loaded ==> s.loaded[b] != out
    ensures At(Fetched(s, a, out), x, b, c)
  {
    hide BlockOk, FreeListRep.Valid;
  }

  lemma FetchedInv(s: State, a: nat, out: array<byte>, x: nat)
    requires Inv(s, x) && a != x && a in s.persister && IsAddr(s, a) && |s.loaded| < s.maxBlocks
    requires out.Length == s.blockSize && forall b :: b in s.loaded ==> s.loaded[b] != out
    ensures Inv(Fetched(s, a, out), x)
  {
    hide At, BlockOk, FreeListRep.Valid;
    NotBoth(s, a, x);
    AddOne(s.loaded, a, out);
    forall b: nat, c: nat
      ensures At(Fetched(s, a, out), x, b, c)
    {
      FetchedAt(s, a, out, x, b, c);
    }
  }

  lemma NotBoth(s: State, a: nat, x: nat)
    requires Inv(s, x) && a != x && a in s.persister
    ensures a !in s.loaded
  {
    assert At(s, x, a, a);
  }

  lemma BlockFetched(n: nat, b: BlockInfo, out: array<byte>, m: seq<byte>, live: set<Span>)
    requires BlockOk(n, b, m, live) && live != {}
    ensures BlockOk(n, b.(mem := out), m, live)
  {}

  // ---------------------------------------------------------------- new blocks

  ghost function Opened(s: State, out: array<byte>, m: seq<byte>): State {
    var a := |s.blocks| + 1;
    s.(loaded := s.loaded[a := out],
       blocks := s.blocks + [BlockInfo(out, s.lastLRU, if s.blockSize >= ALLOC_HEAD_SIZE then s.blockSize - ALLOC_HEAD_SIZE else 0)],
       lastLRU := s.lastLRU + 1,
       lives := s.lives + [{}],
       contents := s.contents + [m])
  }

  lemma OpenedAt(s: State, out: array<byte>, m: seq<byte>, b: nat, c: nat)
    requires Inv(s, 0) && |s.loaded| < s.maxBlocks
    requires out.Length == s.blockSize == |m| && forall b :: b in s.loaded ==> s.loaded[b] != out
    requires FreeListRep.Valid(m, {})
    requires Sizes(Opened(s, out, m))
    ensures At(Opened(s, out, m), 0, b, c)
  {
    hide BlockOk, FreeListRep.Valid;
    assert At(s, 0, b, c);
    var a := |s.blocks| + 1;
    assert At(s, 0, a, a);
    FreshBlock(s.blockSize, Opened(s, out, m).blocks[a - 1], m);
    hide Inv;
  }

  lemma OpenedInv(s: State, out: array<byte>, m: seq<byte>)
    requires Inv(s, 0) && |s.loaded| < s.maxBlocks
    requires out.Length == s.blockSize == |m| && forall b :: b in s.loaded ==> s.loaded[b] != out
    requires FreeListRep.Valid(m, {})
    ensures Inv(Opened(s, out, m), 0) && Memory(Opened(s, out, m)) == Memory(s)
  {
    hide At, BlockOk, FreeListRep.Valid;
    NotYet(s);
    AddOne(s.loaded, |s.blocks| + 1, out);
    FlatNewBlock(s.contents, s.lives, m);
    forall b: nat, c: nat
      ensures At(Opened(s, out, m), 0, b, c)
    {
      OpenedAt(s, out, m, b, c);
    }
  }

  lemma OpenedLoaded(s: State, out: array<byte>, m: seq<byte>)
    requires Inv(s, 0)
    ensures var t := Opened(s, out, m);
      |t.loaded| == |s.loaded| + 1 && t.loaded.Keys - {|s.blocks| + 1} == s.loaded.Keys
  {
    hide Inv;
    NotYet(s);
    AddOne(s.loaded, |s.blocks| + 1, out);
  }

  lemma NotYet(s: State)
    requires Inv(s, 0)
    ensures |s.blocks| + 1 !in s.loaded
  {
    assert At(s, 0, |s.blocks| + 1, 0);
  }

  lemma FreshBlock(n: nat, b: BlockInfo, m: seq<byte>)
    requires HEADER + NODE <= n && |m| == n && FreeListRep.Valid(m, {}) && b.mem != null && b.maxSize == MaxAllocable(n)
    ensures BlockOk(n, b, m, {})
  {
    LiveTakesRoom(Nodes(m), {}, n);
  }

  // ---------------------------------------------------------------- a change in a loaded block

  ghost function Updated(s: State, a: nat, m: seq<byte>, live: set<Span>, maxSize: nat): State
    requires IsAddr(s, a) && |s.contents| == |s.blocks| == |s.lives|
  {
    s.(blocks := s.blocks[a - 1 := s.blocks[a - 1].(maxSize := maxSize)],
       lives := s.lives[a - 1 := live],
       contents := s.contents[a - 1 := m])
  }

  lemma UpdatedAt(s: State, a: nat, m: seq<byte>, live: set<Span>, maxSize: nat, b: nat, c: nat)
    requires Inv(s, 0) && a in s.loaded && IsAddr(s, a)
    requires |m| == s.blockSize && FreeListRep.Valid(m, live) && maxSize == MaxSize(Nodes(m))
    requires Sizes(Updated(s, a, m, live, maxSize))
    ensures At(Updated(s, a, m, live, maxSize), 0, b, c)
  {
    hide BlockOk, FreeListRep.Valid;
    assert At(s, 0, b, c);
    assert At(s, 0, a, a);
    BlockUpdated(s.blockSize, Updated(s, a, m, live, maxSize).blocks[a - 1], m, live);
    hide Inv;
  }

  lemma UpdatedInv(s: State, a: nat, m: seq<byte>, live: set<Span>, maxSize: nat)
    requires Inv(s, 0) && a in s.loaded && IsAddr(s, a)
    requires |m| == s.blockSize && FreeListRep.Valid(m, live) && maxSize == MaxSize(Nodes(m))
    ensures Inv(Updated(s, a, m, live, maxSize), 0)
  {
    hide At, BlockOk, FreeListRep.Valid;
    forall b: nat, c: nat
      ensures At(Updated(s, a, m, live, maxSize), 0, b, c)
    {
      UpdatedAt(s, a, m, live, maxSize, b, c);
    }
  }

  lemma BlockUpdated(n: nat, b: BlockInfo, m: seq<byte>, live: set<Span>)
    requires b.mem != null && |m| == n && FreeListRep.Valid(m, live) && b.maxSize == MaxSize(Nodes(m))
    ensures BlockOk(n, b, m, live)
  {}

  // ---------------------------------------------------------------- freed blocks

  /** The block holds nothing any more: it is out of memory and out of the persister. */
  ghost function Dropped(s: State, a: nat): State
    requires IsAddr(s, a) && |s.contents| == |s.blocks| == |s.lives| && s.blockSize >= ALLOC_HEAD_SIZE
  {
    s.(loaded := s.loaded - {a},
       blocks := s.blocks[a - 1 := s.blocks[a - 1].(mem := null, maxSize := s.blockSize - ALLOC_HEAD_SIZE)],
       persister := s.persister - {a},
       lives := s.lives[a - 1 := {}],
       contents := s.contents[a - 1 := []])
  }

  lemma DroppedAt(s: State, a: nat, b: nat, c: nat)
    requires Inv(s, a) && IsAddr(s, a)
    requires Sizes(Dropped(s, a))
    ensures At(Dropped(s, a), 0, b, c)
  {
    hide BlockOk, FreeListRep.Valid;
    assert At(s, a, b, c) && At(s, a, a, a) && At(s, a, 0, 0);
    hide Inv;
    if b == a { DroppedHere(s, a, c); } else { DroppedThere(s, a, b, c); }
  }

  lemma DroppedHere(s: State, a: nat, c: nat)
    requires Sizes(s) && IsAddr(s, a) && At(s, a, a, c) && Sizes(Dropped(s, a))
    ensures At(Dropped(s, a), 0, a, c)
  {
    hide BlockOk, FreeListRep.Valid;
    BlockDropped(s.blockSize, Dropped(s, a).blocks[a - 1]);
  }

  lemma DroppedThere(s: State, a: nat, b: nat, c: nat)
    requires Sizes(s) && IsAddr(s, a) && At(s, a, b, c) && At(s, a, a, a) && At(s, a, 0, 0) && Sizes(Dropped(s, a)) && b != a
    ensures At(Dropped(s, a), 0, b, c)
  {
    hide BlockOk, FreeListRep.Valid;
  }

  lemma DroppedInv(s: State, a: nat)
    requires Inv(s, a) && IsAddr(s, a)
    ensures Inv(Dropped(s, a), 0) && Memory(Dropped(s, a)) == Without(Memory(s), a)
  {
    hide At, BlockOk, FreeListRep.Valid;
    RemoveOne(s.loaded, a);
    FlatClearedBlock(s.contents, s.lives, a - 1, []);
    forall b: nat, c: nat
      ensures At(Dropped(s, a), 0, b, c)
    {
      DroppedAt(s, a, b, c);
    }
  }

  lemma BlockDropped(n: nat, b: BlockInfo)
    requires b.mem == null && b.maxSize == MaxAllocable(n)
    ensures BlockOk(n, b, [], {})
  {}

  /** The last block, which was freed, is forgotten altogether. */
  ghost function Popped(s: State): State
    requires s.blocks != [] && |s.contents| == |s.blocks| == |s.lives|
  {
    var n := |s.blocks| - 1;
    s.(blocks := s.blocks[..n], lives := s.lives[..n], contents := s.contents[..n])
  }

  lemma PoppedAt(s: State, b: nat, c: nat)
    requires Inv(s, 0) && s.blocks != []
    requires s.lives[|s.lives| - 1] == {} && s.blocks[|s.blocks| - 1].mem == null
    requires Sizes(Popped(s))
    ensures At(Popped(s), 0, b, c)
  {
    hide BlockOk, FreeListRep.Valid;
    assert At(s, 0, b, c);
    assert At(s, 0, |s.blocks|, |s.blocks|) && At(s, 0, 0, 0);
    hide Inv;
  }

  lemma PoppedInv(s: State)
    requires Inv(s, 0) && s.blocks != []
    requires s.lives[|s.lives| - 1] == {} && s.blocks[|s.blocks| - 1].mem == null
    ensures Inv(Popped(s), 0) && Memory(Popped(s)) == Memory(s)
  {
    hide At, BlockOk, FreeListRep.Valid;
    FlatLastBlock(s.contents, s.lives);
    forall b: nat, c: nat
      ensures At(Popped(s), 0, b, c)
    {
      PoppedAt(s, b, c);
    }
  }

  /** Only a freed block is recorded with the maximal size, and it is not in memory. */
  lemma MaximalMeansFreed(s: State, a: nat)
    requires Inv(s, 0) && IsAddr(s, a)
    ensures s.blocks[a - 1].maxSize == MaxAllocable(s.blockSize) <==> s.lives[a - 1] == {}
    ensures s.blocks[a - 1].maxSize <= MaxAllocable(s.blockSize)
  {
    assert At(s, 0, a, a);
    MaximalIffNothingLive(s.blockSize, s.blocks[a - 1], s.contents[a - 1], s.lives[a - 1]);
  }

  // ---------------------------------------------------------------- what moving blocks keeps

  /** What is stored is the same; blocks may have moved in or out of memory, and aged. */
  ghost predicate SameStore(s: State, t: State) {
    && t.contents == s.contents && t.lives == s.lives && t.maxBlocks == s.maxBlocks && t.blockSize == s.blockSize
    && s.lastLRU <= t.lastLRU && |t.blocks| == |s.blocks|
    && forall i :: 0 <= i < |s.blocks| ==> t.blocks[i].maxSize == s.blocks[i].maxSize
  }

  /** No loaded block is empty. */
  ghost predicate LoadedBusy(s: State)
    requires |s.lives| == |s.blocks|
  {
    forall a: nat :: a in s.loaded && IsAddr(s, a) ==> s.lives[a - 1] != {}
  }

  /** Blocks that stay in memory stay where they are, and those that leave it are the oldest. */
  ghost predicate OldestLeft(s: State, t: State) {
    forall a: nat :: a in s.loaded ==> (a in t.loaded && t.loaded[a] == s.loaded[a]) || OlderThanLoaded(s, a)
  }

  lemma LoadedAreAddrs(s: State)
    requires Inv(s, 0)
    ensures forall a :: a in s.loaded ==> IsAddr(s, a)
  {
    forall a | a in s.loaded
      ensures IsAddr(s, a)
    {
      assert At(s, 0, a, 0);
    }
  }

  lemma AgesDiffer(s: State, a: nat, b: nat)
    requires Inv(s, 0) && IsAddr(s, a) && IsAddr(s, b)
    ensures a != b ==> s.blocks[a - 1].lru != s.blocks[b - 1].lru
  {
    assert At(s, 0, a, b);
  }

  lemma AddrIsLoaded(s: State, a: nat)
    requires Inv(s, 0) && (a in s.loaded || (IsAddr(s, a) && s.blocks[a - 1].mem != null))
    ensures a in s.loaded && IsAddr(s, a) && s.loaded[a] == s.blocks[a - 1].mem && s.loaded[a].Length == s.blockSize
  {
    assert At(s, 0, a, 0);
  }

  lemma OwnMemories(s: State)
    requires Inv(s, 0)
    ensures forall a, b :: a in s.loaded && b in s.loaded && a != b ==> s.loaded[a] != s.loaded[b]
  {
    forall a, b | a in s.loaded && b in s.loaded && a != b
      ensures s.loaded[a] != s.loaded[b]
    {
      assert At(s, 0, a, b);
    }
  }

  /** A block with live segments is in memory or in the persister. */
  lemma BusyIsSomewhere(s: State, a: nat)
    requires Inv(s, 0) && IsAddr(s, a)
    ensures a !in s.loaded ==> (a in s.persister <==> s.lives[a - 1] != {})
    ensures a in s.loaded ==> a !in s.persister
    ensures a in s.loaded <==> s.blocks[a - 1].mem != null
  {
    assert At(s, 0, a, 0);
  }

  lemma SizesOf(s: State)
    requires Inv(s, 0)
    ensures Sizes(s)
  {}

  lemma BlockIsSound(s: State, a: nat)
    requires Inv(s, 0) && IsAddr(s, a)
    ensures Sizes(s) && BlockOk(s.blockSize, s.blocks[a - 1], s.contents[a - 1], s.lives[a - 1])
  {
    assert At(s, 0, a, 0);
  }

  lemma StoredLength(s: State, a: nat)
    requires Inv(s, 0) && a in s.persister && IsAddr(s, a)
    ensures |s.contents| == |s.blocks| && |s.contents[a - 1]| == s.blockSize
  {
    assert At(s, 0, a, 0);
  }

  /** Only time passes. */
  ghost function Aged(s: State): State { s.(lastLRU := s.lastLRU + 1) }

  lemma AgedAt(s: State, b: nat, c: nat)
    requires Inv(s, 0)
    requires Sizes(Aged(s))
    ensures At(Aged(s), 0, b, c)
  {
    hide BlockOk, FreeListRep.Valid;
    assert At(s, 0, b, c);
    hide Inv;
  }

  lemma AgedInv(s: State)
    requires Inv(s, 0)
    ensures Inv(Aged(s), 0)
  {
    hide At, BlockOk, FreeListRep.Valid;
    forall b: nat, c: nat
      ensures At(Aged(s), 0, b, c)
    {
      AgedAt(s, b, c);
    }
  }

  // ---------------------------------------------------------------- several steps

  /** `nb` blocks were evicted, the oldest first. */
  ghost predicate Trimmed(s: State, t: State, nb: nat) {
    && Sizes(s) && Sizes(t) && LoadedBusy(t) && SameStore(s, t) && t.lastLRU == s.lastLRU
    && (forall i :: 0 <= i < |s.blocks| ==> t.blocks[i].lru == s.blocks[i].lru)
    && |t.loaded| + nb == |s.loaded|
    && (forall a :: a in t.loaded ==> a in s.loaded && t.loaded[a] == s.loaded[a])
    && (nb == 0 ==> t == s)
    && (nb == 1 ==> OldestLeft(s, t))
    && (forall a: nat :: a !in s.loaded ==> (a in t.persister <==> a in s.persister))
    && OldestOut(s, t.loaded.Keys)
  }

  /** Each block that left memory was used before every block that stayed. */
  ghost predicate OldestOut(s: State, kept: set<nat>) {
    forall a: nat, b: nat :: a in s.loaded && a !in kept && b in kept && IsAddr(s, a) && IsAddr(s, b) ==>
      s.blocks[a - 1].lru < s.blocks[b - 1].lru
  }

  lemma TrimmedFacts(s: State, t: State, nb: nat)
    requires Trimmed(s, t, nb)
    ensures Sizes(s) && Sizes(t) && LoadedBusy(t) && |t.loaded| + nb == |s.loaded| && t.lastLRU == s.lastLRU
    ensures |t.blocks| == |s.blocks| && t.maxBlocks == s.maxBlocks && t.blockSize == s.blockSize
    ensures forall a :: a in t.loaded ==> a in s.loaded
    ensures forall a: nat :: a !in s.loaded ==> (a in t.persister <==> a in s.persister)
  {}

  lemma NotTrimmed(s: State)
    requires Inv(s, 0) && LoadedBusy(s)
    ensures Trimmed(s, s, 0)
  {}

  lemma TrimmedMore(s: State, t: State, nb: nat, a: nat)
    requires Trimmed(s, t, nb) && Inv(t, 0) && a in t.loaded && IsAddr(t, a) && OlderThanLoaded(t, a)
    ensures Trimmed(s, Evicted(t, a), nb + 1)
  {
    hide Inv, OldestOut, OldestLeft, SameStore, LoadedBusy, OlderThanLoaded;
    RemoveOne(t.loaded, a);
    var u := Evicted(t, a);
    EvictedStore(s, t, a);
    OneLeft(t, a);
    OldestStillOut(s, t, a);
    assert Sizes(u);
  }

  lemma EvictedStore(s: State, t: State, a: nat)
    requires Sizes(s) && Sizes(t) && IsAddr(t, a) && SameStore(s, t) && LoadedBusy(t)
    ensures SameStore(s, Evicted(t, a)) && LoadedBusy(Evicted(t, a))
  {}

  lemma OneLeft(t: State, a: nat)
    requires IsAddr(t, a) && |t.contents| == |t.blocks| && OlderThanLoaded(t, a)
    ensures OldestLeft(t, Evicted(t, a))
  {
    forall b: nat | b in t.loaded
      ensures (b in Evicted(t, a).loaded && Evicted(t, a).loaded[b] == t.loaded[b]) || OlderThanLoaded(t, b)
    {}
  }

  lemma OldestStillOut(s: State, t: State, a: nat)
    requires Sizes(s) && Sizes(t) && IsAddr(t, a) && OldestOut(s, t.loaded.Keys) && OlderThanLoaded(t, a)
    requires |t.blocks| == |s.blocks| && forall i :: 0 <= i < |s.blocks| ==> t.blocks[i].lru == s.blocks[i].lru
    requires forall b :: b in t.loaded ==> b in s.loaded
    ensures OldestOut(s, Evicted(t, a).loaded.Keys)
  {}

  /** Block `a` was brought into memory, if it was anywhere, and is now the youngest. */
  ghost predicate Brought(s: State, t: State, a: nat)
    requires Sizes(s) && Sizes(t)
  {
    && LoadedBusy(t) && SameStore(s, t) && OldestLeft(s, t)
    && (forall b :: b in t.loaded && b != a ==> b in s.loaded && t.loaded[b] == s.loaded[b])
    && (a in s.loaded ==> a in t.loaded && t.loaded[a] == s.loaded[a])
    && (a in t.loaded ==> Youngest(t, a))
    && (|s.loaded| < s.maxBlocks ==> forall b :: b in s.loaded ==> b in t.loaded)
  }

  ghost predicate Youngest(t: State, a: nat) {
    IsAddr(t, a) && forall b: nat :: IsAddr(t, b) && b != a ==> t.blocks[b - 1].lru < t.blocks[a - 1].lru
  }

  lemma OnlyTouched(s: State, a: nat)
    requires Inv(s, 0) && LoadedBusy(s) && IsAddr(s, a)
    ensures Inv(Touched(s, a), 0) && Brought(s, Touched(s, a), a)
  {
    TouchedInv(s, a, 0);
    NowYoungest(s, a);
  }

  lemma NowYoungest(s: State, a: nat)
    requires Inv(s, 0) && IsAddr(s, a)
    ensures Youngest(Touched(s, a), a)
  {
    var t := Touched(s, a);
    TouchedInv(s, a, 0);
    forall b: nat | IsAddr(t, b) && b != a
      ensures t.blocks[b - 1].lru < t.blocks[a - 1].lru
    {
      assert IsAddr(s, b);
    }
  }

  lemma TrimmedAndAged(s: State, t: State, nb: nat, a: nat)
    requires Trimmed(s, t, nb) && nb <= 1 && Inv(t, 0) && a !in s.loaded && (nb == 1 ==> |s.loaded| == s.maxBlocks)
    ensures Inv(Aged(t), 0) && Brought(s, Aged(t), a)
  {
    AgedInv(t);
  }

  lemma FetchedStore(s: State, t: State, nb: nat, a: nat, out: array<byte>)
    requires Trimmed(s, t, nb) && IsAddr(t, a) && t.lives[a - 1] != {}
    ensures SameStore(s, Touched(Fetched(t, a, out), a)) && LoadedBusy(Touched(Fetched(t, a, out), a))
  {
    hide OldestLeft;
  }

  lemma FetchedLeft(s: State, t: State, nb: nat, a: nat, out: array<byte>)
    requires Trimmed(s, t, nb) && nb <= 1 && IsAddr(t, a) && a !in s.loaded
    ensures OldestLeft(s, Touched(Fetched(t, a, out), a))
  {
    hide OlderThanLoaded, SameStore, LoadedBusy;
    var v := Touched(Fetched(t, a, out), a);
    forall b: nat | b in s.loaded
      ensures (b in v.loaded && v.loaded[b] == s.loaded[b]) || OlderThanLoaded(s, b)
    {
      if nb == 1 { assert OldestLeft(s, t); }
    }
  }

  lemma FetchedAndTouched(s: State, t: State, nb: nat, a: nat, out: array<byte>)
    requires Trimmed(s, t, nb) && nb <= 1 && Inv(t, 0) && a !in s.loaded && IsAddr(t, a) && a in t.persister
    requires nb == 1 ==> |s.loaded| == s.maxBlocks
    requires Inv(Fetched(t, a, out), 0)
    ensures Inv(Touched(Fetched(t, a, out), a), 0)
    ensures Brought(s, Touched(Fetched(t, a, out), a), a)
  {
    hide Inv, BlockOk, Youngest, OlderThanLoaded;
    var u := Fetched(t, a, out);
    var v := Touched(u, a);
    TouchedInv(u, a, 0);
    NowYoungest(u, a);
    BusyIsSomewhere(t, a);
    SizesOf(v);
    FetchedStore(s, t, nb, a, out);
    FetchedLeft(s, t, nb, a, out);
  }

  /** Bringing a block into memory changes nothing that is stored. */
  lemma BroughtValid(s: State, t: State, a: nat)
    requires Valid(s) && Inv(t, 0) && Sizes(s) && Sizes(t) && Brought(s, t, a)
    ensures Valid(t) && Memory(t) == Memory(s)
  {}

  /** A segment's block is somewhere and holds it. */
  lemma Located(s: State, c: Cell)
    requires Inv(s, 0) && c in Memory(s)
    ensures Sizes(s) && IsAddr(s, c.addr) && c.span in s.lives[c.addr - 1]
    ensures c.addr in s.loaded || c.addr in s.persister
    ensures |s.contents[c.addr - 1]| == s.blockSize && SpanOk(c.span, s.blockSize)
    ensures FreeListRep.Valid(s.contents[c.addr - 1], s.lives[c.addr - 1])
    ensures s.blocks[c.addr - 1].maxSize == MaxSize(Nodes(s.contents[c.addr - 1]))
    ensures Memory(s)[c] == Payload(s.contents[c.addr - 1], c.span)
  {
    hide Inv, Flat, FreeListRep.Valid;
    SizesOf(s);
    assert InLives(s.lives, c);
    BusyIsSomewhere(s, c.addr);
    BlockIsSound(s, c.addr);
    SpanFits(s.blockSize, s.blocks[c.addr - 1], s.contents[c.addr - 1], s.lives[c.addr - 1], c.span);
  }

  lemma BroughtYoungest(s: State, t: State, a: nat)
    requires Sizes(s) && Sizes(t) && Brought(s, t, a) && a in t.loaded
    ensures Youngest(t, a)
  {}

  /** The block just used stays when another one is brought in, if there is room for two. */
  lemma SourceStays(s: State, t: State, l: nat, r: nat)
    requires Sizes(s) && Sizes(t) && Brought(s, t, r) && l in s.loaded && Youngest(s, l) && r in t.loaded
    requires forall a :: a in s.loaded ==> IsAddr(s, a)
    ensures l in t.loaded <==> l == r || s.maxBlocks >= 2
    ensures l in t.loaded ==> t.loaded[l] == s.loaded[l]
  {
    if l != r {
      if s.maxBlocks == 1 {
        assert {r} <= t.loaded.Keys;
        if l in t.loaded { TwoLoaded(t.loaded, l, r); }
      } else if |s.loaded| >= s.maxBlocks {
        Another(s.loaded, l);
        var b :| b in s.loaded && b != l;
        assert IsAddr(s, b);
        assert !OlderThanLoaded(s, l);
      }
    }
  }

  /** A part of a segment is a part of its block. */
  lemma PayloadSlice(m: seq<byte>, s: Span, o: nat, n: nat)
    requires SpanOk(s, |m|) && o + n <= s.size - 4
    ensures o + n <= |Payload(m, s)| && Payload(m, s)[o..o + n] == m[s.off + 4 + o..s.off + 4 + o + n]
  {
    var p := Payload(m, s);
    assert |p| == s.size - 4;
    var q, r := p[o..o + n], m[s.off + 4 + o..s.off + 4 + o + n];
    forall k | 0 <= k < n
      ensures q[k] == r[k]
    {
      assert p[o + k] == m[s.off + 4 + (o + k)];
    }
    assert q == r;
  }

  lemma TwoLoaded<T>(m: map<nat, T>, a: nat, b: nat)
    requires a in m && b in m && a != b
    ensures |m| >= 2
  {
    RemoveOne(m, a);
    RemoveOne(m - {a}, b);
  }

  lemma Another<T>(m: map<nat, T>, a: nat)
    requires a in m && |m| >= 2
    ensures exists b :: b in m && b != a
  {
    RemoveOne(m, a);
    var b :| b in m - {a};
  }

  // ---------------------------------------------------------------- writing

  ghost function Written(s: State, c: Cell, o: nat, data: seq<byte>): State
    requires Sizes(s) && c in Memory(s) && IsAddr(s, c.addr)
    requires c.span.off + 4 + o + |data| <= |s.contents[c.addr - 1]|
  {
    s.(contents := s.contents[c.addr - 1 := Put(s.contents[c.addr - 1], c.span.off + 4 + o, data)])
  }

  lemma WrittenInv(s: State, c: Cell, o: nat, data: seq<byte>)
    requires Inv(s, 0) && Sizes(s) && c in Memory(s) && IsAddr(s, c.addr) && c.addr in s.loaded
    requires o + |data| <= c.Size() && c.span.off + 4 + o + |data| <= |s.contents[c.addr - 1]|
    ensures var t := Written(s, c, o, data);
      && Inv(t, 0) && o + |data| <= |Memory(s)[c]|
      && Memory(t) == Memory(s)[c := Put(Memory(s)[c], o, data)]
  {
    hide Inv, BlockOk, FreeListRep.Valid, Flat, Put, Payload;
    var a := c.addr;
    Located(s, c);
    var live := s.lives[a - 1];
    var m := s.contents[a - 1];
    var m' := Put(m, c.span.off + 4 + o, data);
    PayloadSlice(m, c.span, o, |data|);
    WriteInside(m, live, c.span, o, data);
    UpdatedInv(s, a, m', live, s.blocks[a - 1].maxSize);
    assert s.blocks[a - 1 := s.blocks[a - 1]] == s.blocks;
    assert s.lives[a - 1 := live] == s.lives;
    assert Updated(s, a, m', live, s.blocks[a - 1].maxSize) == Written(s, c, o, data);
    FlatWritten(s.contents, s.lives, a - 1, m', c.span);
  }

  // ---------------------------------------------------------------- freeing

  lemma SettledWhen(s: State)
    requires Inv(s, 0) && Sizes(s) && LoadedBusy(s) && (s.blocks != [] ==> s.lives[|s.blocks| - 1] != {})
    ensures Valid(s)
  {}

  /** Once freed, a segment is no longer in memory; the others are as before. */
  lemma ReleasedInv(s: State, c: Cell, m: seq<byte>)
    requires Valid(s) && Sizes(s) && c in Memory(s) && IsAddr(s, c.addr) && c.addr in s.loaded
    requires |m| == s.blockSize == |s.contents[c.addr - 1]| && FreeListRep.Valid(m, s.lives[c.addr - 1] - {c.span})
    requires LiveOk(s.lives[c.addr - 1] - {c.span}, |m|) && SameLive(s.contents[c.addr - 1], m, s.lives[c.addr - 1] - {c.span})
    ensures var t := Updated(s, c.addr, m, s.lives[c.addr - 1] - {c.span}, MaxSize(Nodes(m)));
      && Inv(t, 0) && Memory(t) == Memory(s) - {c}
      && (t.lives[c.addr - 1] != {} ==> Valid(t))
      && (t.lives[c.addr - 1] == {} ==> t.blocks[c.addr - 1].maxSize == MaxAllocable(s.blockSize))
      && (forall a: nat :: a in t.loaded && IsAddr(t, a) && a != c.addr ==> t.lives[a - 1] != {})
  {
    hide BlockOk, FreeListRep.Valid, Flat, LiveOk, SameLive, Inv, Memory, Payload;
    var a := c.addr;
    ValidMeans(s);
    Located(s, c);
    var live := s.lives[a - 1] - {c.span};
    var t := Updated(s, a, m, live, MaxSize(Nodes(m)));
    UpdatedInv(s, a, m, live, MaxSize(Nodes(m)));
    ReleasedMemory(s, c, m);
    MaximalMeansFreed(t, a);
    forall b: nat | b in t.loaded && IsAddr(t, b) && b != a
      ensures t.lives[b - 1] != {}
    {
      assert IsAddr(s, b);
    }
    if live != {} { SettledWhen(t); }
  }

  lemma ReleasedMemory(s: State, c: Cell, m: seq<byte>)
    requires Sizes(s) && c in Memory(s) && IsAddr(s, c.addr) && |m| == |s.contents[c.addr - 1]|
    requires LiveOk(s.lives[c.addr - 1] - {c.span}, |m|) && SameLive(s.contents[c.addr - 1], m, s.lives[c.addr - 1] - {c.span})
    ensures Memory(Updated(s, c.addr, m, s.lives[c.addr - 1] - {c.span}, MaxSize(Nodes(m)))) == Memory(s) - {c}
  {
    hide LiveOk, SameLive, Flat, Payload;
    FlatShrinks(s.contents, s.lives, c.addr - 1, m, c.span);
  }

  lemma ValidMeans(s: State)
    requires Valid(s)
    ensures Inv(s, 0) && Sizes(s) && LoadedBusy(s) && (s.blocks != [] ==> s.lives[|s.blocks| - 1] != {})
  {}

  lemma WithoutNothing(s: State, a: nat)
    requires Sizes(s) && IsAddr(s, a) && s.lives[a - 1] == {}
    ensures Without(Memory(s), a) == Memory(s)
  {
    hide Flat;
    FlatEqual(Without(Memory(s), a), Memory(s));
  }

  /** The invariant minus what it says of one block. */
  lemma Exempt(s: State, a: nat)
    requires Inv(s, 0) && IsAddr(s, a)
    ensures Inv(s, a)
  {
    hide BlockOk;
    forall b: nat, c: nat
      ensures At(s, a, b, c)
    {
      assert At(s, 0, b, c);
    }
  }

  lemma DroppedBusy(s: State, a: nat)
    requires Sizes(s) && IsAddr(s, a) && forall b: nat :: b in s.loaded && IsAddr(s, b) && b != a ==> s.lives[b - 1] != {}
    ensures LoadedBusy(Dropped(s, a))
  {}

  lemma PoppedBusy(s: State)
    requires Sizes(s) && LoadedBusy(s) && s.blocks != []
    ensures LoadedBusy(Popped(s))
  {}

  /** The last block is recorded with the maximal size exactly when it was freed, and then it has no memory. */
  lemma LastBlock(s: State)
    requires Inv(s, 0) && LoadedBusy(s) && s.blocks != []
    ensures Sizes(s)
    ensures var n := |s.blocks|;
      && (s.blocks[n - 1].maxSize == MaxAllocable(s.blockSize) <==> s.lives[n - 1] == {})
      && (s.lives[n - 1] == {} ==> s.blocks[n - 1].mem == null)
  {
    MaximalMeansFreed(s, |s.blocks|);
    BusyIsSomewhere(s, |s.blocks|);
  }

  /** A block marked as freed before it is. */
  ghost function Marked(s: State, a: nat): State
    requires IsAddr(s, a) && Sizes(s)
  {
    s.(blocks := s.blocks[a - 1 := s.blocks[a - 1].(maxSize := s.blockSize - ALLOC_HEAD_SIZE)])
  }

  lemma MarkedInv(s: State, a: nat)
    requires Valid(s) && Sizes(s) && IsAddr(s, a)
    ensures Inv(Marked(s, a), a) && Sizes(Marked(s, a)) && Memory(Marked(s, a)) == Memory(s) && LoadedBusy(Marked(s, a))
  {
    hide BlockOk;
    var t := Marked(s, a);
    forall b: nat, c: nat
      ensures At(t, a, b, c)
    {
      assert At(s, 0, b, c);
    }
  }

  // ---------------------------------------------------------------- allocating

  /** A new segment adds its bytes and touches no other. */
  lemma GrownInv(s: State, a: nat, m: seq<byte>, sp: Span)
    requires Inv(s, 0) && Sizes(s) && IsAddr(s, a) && a in s.loaded
    requires |m| == s.blockSize == |s.contents[a - 1]| && sp !in s.lives[a - 1]
    requires FreeListRep.Valid(m, s.lives[a - 1] + {sp})
    requires LiveOk(s.lives[a - 1], |m|) && SameLive(s.contents[a - 1], m, s.lives[a - 1])
    ensures var t := Updated(s, a, m, s.lives[a - 1] + {sp}, MaxSize(Nodes(m)));
      && Inv(t, 0) && Cell(a, sp) !in Memory(s) && Memory(t) == Memory(s)[Cell(a, sp) := Payload(m, sp)]
  {
    hide BlockOk, FreeListRep.Valid, Flat, LiveOk, SameLive, At;
    UpdatedInv(s, a, m, s.lives[a - 1] + {sp}, MaxSize(Nodes(m)));
    FlatGrows(s.contents, s.lives, a - 1, m, sp);
  }

  /** The block is recorded with room for `need` bytes. */
  predicate Roomy(s: State, a: nat, need: nat) {
    IsAddr(s, a) && s.blocks[a - 1].maxSize >= need
  }

  /** The first block by address that is. */
  ghost predicate FirstRoomy(s: State, a: nat, need: nat) {
    Roomy(s, a, need) && forall b: nat :: b < a ==> !Roomy(s, b, need)
  }

  /** Allocation would have to read a block back that was freed: no block in memory has room, and the
      first one that has is gone. */
  ghost predicate WantsFreedBlock(s: State, need: nat)
    requires Sizes(s)
  {
    && (forall a :: a in s.loaded ==> !Roomy(s, a, need))
    && exists a: nat :: FirstRoomy(s, a, need) && s.lives[a - 1] == {}
  }

  /** Blocks other than `a` are recorded as before. */
  ghost predicate OthersKept(s: State, t: State, a: nat) {
    && t.maxBlocks == s.maxBlocks && t.blockSize == s.blockSize
    && |s.lives| == |s.blocks| && |t.lives| == |t.blocks| && |s.blocks| <= |t.blocks|
    && forall b: nat :: IsAddr(s, b) && b != a ==>
        t.blocks[b - 1].maxSize == s.blocks[b - 1].maxSize && t.lives[b - 1] == s.lives[b - 1]
  }

  /** What an empty block becomes when `need` bytes are taken from it. */
  lemma WholeTaken(n: nat, nodes': seq<Span>, need: nat, s: Span)
    requires HEADER + NODE <= n && BestFitTaken([Span(HEADER, n - HEADER)], nodes', need, s)
    ensures s.off == HEADER
    ensures MaxSize(nodes') == if n - HEADER >= need + NODE + 1 then n - HEADER - need - 4 else 0
  {
    var whole := [Span(HEADER, n - HEADER)];
    var i: nat :| TakenAt(whole, nodes', need, s, i);
    assert i == 0;
    if n - HEADER >= need + NODE + 1 {
      assert nodes' == [Span(HEADER + need, n - HEADER - need)];
      assert nodes'[..0] == [];
      assert MaxSize([]) == 0;
    } else {
      assert nodes' == [];
    }
  }

  /** The segment is as big as was asked for, and no bigger than what is left would be no node. */
  lemma TakenIsEnough(nodes: seq<Span>, nodes': seq<Span>, need: nat, s: Span)
    requires BestFitTaken(nodes, nodes', need, s)
    ensures need <= s.size <= need + NODE
  {
    var i: nat :| TakenAt(nodes, nodes', need, s, i);
  }

  lemma EmptyBlock(s: State, a: nat)
    requires Inv(s, 0) && Sizes(s) && IsAddr(s, a) && a in s.loaded && s.lives[a - 1] == {}
    ensures Nodes(s.contents[a - 1]) == [Span(HEADER, s.blockSize - HEADER)]
  {
    BlockIsSound(s, a);
    BusyIsSomewhere(s, a);
    WholeIffNothingLive(Nodes(s.contents[a - 1]), {}, s.blockSize);
  }

  lemma TrimmedKeeps(s: State, t: State, nb: nat)
    requires Trimmed(s, t, nb)
    ensures |t.loaded| + nb == |s.loaded| && OldestOut(s, t.loaded.Keys) && (nb == 0 ==> t == s) && (nb == 1 ==> OldestLeft(s, t))
    ensures Sizes(s) && Sizes(t) && Memory(t) == Memory(s) && t.lives == s.lives
    ensures forall a: nat :: OthersKept(s, t, a)
    ensures forall a :: a in t.loaded ==> a in s.loaded && t.loaded[a] == s.loaded[a]
  {
    hide Flat;
  }

  lemma AddrsOnly(s: State)
    requires Inv(s, 0)
    ensures |s.blocks| + 1 !in s.loaded && |s.blocks| + 1 !in s.persister
    ensures forall a :: a in s.loaded ==> IsAddr(s, a)
  {
    assert At(s, 0, |s.blocks| + 1, 0);
    LoadedAreAddrs(s);
  }

  lemma OpenedKeeps(s: State, t: State, out: array<byte>, m: seq<byte>)
    requires Inv(t, 0) && Sizes(t) && LoadedBusy(t) && |t.blocks| == |s.blocks| && OthersKept(s, t, |s.blocks| + 1)
    ensures var u := Opened(t, out, m);
      && OthersKept(s, u, |s.blocks| + 1) && u.lives[|s.blocks|] == {} && u.blocks[|s.blocks|].maxSize == MaxAllocable(u.blockSize)
      && (forall a: nat :: a in u.loaded && IsAddr(u, a) && a != |s.blocks| + 1 ==> u.lives[a - 1] != {})
  {}

  /** Cell `c` was added, with at least `need` bytes, and no other block than its own is recorded differently. */
  ghost predicate Placed(s: State, t: State, c: Cell, need: nat)
    requires Sizes(s) && Sizes(t)
  {
    && c !in Memory(s) && c in Memory(t) && Memory(t) == Memory(s)[c := Memory(t)[c]]
    && need <= c.span.size <= need + NODE && OthersKept(s, t, c.addr)
  }

  lemma MakePlaced(s: State, t: State, c: Cell, need: nat)
    requires Sizes(s) && Sizes(t) && c !in Memory(s) && c in Memory(t) && Memory(t) == Memory(s)[c := Memory(t)[c]]
    requires need <= c.span.size <= need + NODE && OthersKept(s, t, c.addr)
    ensures Placed(s, t, c, need)
  {}

  lemma PlacedValid(s: State, t: State, c: Cell, need: nat)
    requires Sizes(s) && Sizes(t) && Inv(t, 0) && Placed(s, t, c, need)
    requires |t.blocks| == |s.blocks|
    requires c.addr < |s.blocks| ==> s.lives[|s.blocks| - 1] != {}
    requires BusyBut(s, c.addr) && forall a :: a in t.loaded ==> a in s.loaded
    ensures Valid(t)
  {
    hide Inv, Memory, Placed, OthersKept;
    PlacedFacts(s, t, c, need);
    InMemory(t, c);
    OthersSame(s, t, c.addr);
    assert c.addr < |s.blocks| ==> IsAddr(s, |s.blocks|);
    forall a: nat | a in t.loaded && IsAddr(t, a)
      ensures t.lives[a - 1] != {}
    {
      assert IsAddr(s, a);
    }
  }

  lemma InMemory(s: State, c: Cell)
    requires Sizes(s) && c in Memory(s)
    ensures IsAddr(s, c.addr) && c.span in s.lives[c.addr - 1]
  {
    assert InLives(s.lives, c);
  }

  lemma OthersSame(s: State, t: State, a: nat)
    requires OthersKept(s, t, a)
    ensures forall b: nat :: IsAddr(s, b) && b != a ==> t.lives[b - 1] == s.lives[b - 1] && t.blocks[b - 1].maxSize == s.blocks[b - 1].maxSize
  {}

  /** No loaded block but possibly `x` is empty. */
  ghost predicate BusyBut(s: State, x: nat)
    requires Sizes(s)
  {
    forall a: nat :: a in s.loaded && IsAddr(s, a) && a != x ==> s.lives[a - 1] != {}
  }

  lemma TouchedPlaced(s: State, t: State, c: Cell, need: nat)
    requires Sizes(s) && Sizes(t) && Valid(t) && Placed(s, t, c, need) && IsAddr(t, c.addr)
    ensures var u := Touched(t, c.addr); Valid(u) && Sizes(u) && Placed(s, u, c, need)
  {
    hide Inv, Flat, Placed, OthersKept, Memory, Settled;
    var u := Touched(t, c.addr);
    TouchedInv(t, c.addr, 0);
    SizesOf(u);
    TouchedSettled(t, c.addr);
    PlacedFacts(s, t, c, need);
    OthersTouched(s, t, c.addr);
    MakePlaced(s, u, c, need);
  }

  lemma TouchedSettled(t: State, a: nat)
    requires Sizes(t) && IsAddr(t, a) && Settled(t)
    ensures Settled(Touched(t, a)) && Memory(Touched(t, a)) == Memory(t)
  {
    hide Flat;
  }

  lemma OthersTouched(s: State, t: State, a: nat)
    requires OthersKept(s, t, a) && IsAddr(t, a)
    ensures OthersKept(s, Touched(t, a), a)
  {}

  /** Two steps, the second of which places the cell. */
  lemma BroughtThenPlaced(s: State, t: State, u: State, c: Cell, need: nat)
    requires Sizes(s) && Sizes(t) && Sizes(u) && SameStore(s, t) && Placed(t, u, c, need)
    ensures Placed(s, u, c, need)
  {
    hide Flat;
    forall b: nat | IsAddr(s, b) && b != c.addr
      ensures u.blocks[b - 1].maxSize == s.blocks[b - 1].maxSize && u.lives[b - 1] == s.lives[b - 1]
    {
      assert IsAddr(t, b);
    }
  }

  lemma FirstIsRoomy(s: State, a: nat, need: nat)
    requires FirstRoomy(s, a, need)
    ensures Roomy(s, a, need)
  {}

  /** The first block with room was freed exactly when the persister does not have it. */
  lemma FreedOrFiled(s: State, a: nat, need: nat)
    requires Inv(s, 0) && Sizes(s) && FirstRoomy(s, a, need) && a !in s.loaded
    requires forall b :: b in s.loaded ==> !Roomy(s, b, need)
    ensures a in s.persister <==> !WantsFreedBlock(s, need)
  {
    BusyIsSomewhere(s, a);
    if WantsFreedBlock(s, need) {
      var b: nat :| FirstRoomy(s, b, need) && s.lives[b - 1] == {};
      assert b == a by {
        assert b < a ==> !Roomy(s, b, need);
        assert a < b ==> !Roomy(s, a, need);
      }
    }
  }

  lemma NobodyRoomy(s: State, need: nat)
    requires Sizes(s) && forall b: nat :: b < |s.blocks| + 1 ==> !Roomy(s, b, need)
    ensures (forall b: nat :: !Roomy(s, b, need)) && !WantsFreedBlock(s, need)
  {
    forall b: nat
      ensures !Roomy(s, b, need)
    {
      if b >= |s.blocks| + 1 { assert !IsAddr(s, b); }
    }
  }

  lemma BusyOthers(s: State, x: nat)
    requires Sizes(s) && forall a: nat :: a in s.loaded && IsAddr(s, a) && a != x ==> s.lives[a - 1] != {}
    ensures BusyBut(s, x)
  {}

  lemma OpenedThenPlaced(s: State, t: State, u: State, c: Cell, need: nat)
    requires Sizes(s) && Sizes(t) && Sizes(u) && Memory(t) == Memory(s) && OthersKept(s, t, c.addr) && Placed(t, u, c, need)
    ensures Placed(s, u, c, need)
  {
    hide Memory;
    forall b: nat | IsAddr(s, b) && b != c.addr
      ensures u.blocks[b - 1].maxSize == s.blocks[b - 1].maxSize && u.lives[b - 1] == s.lives[b - 1]
    {
      assert IsAddr(t, b);
    }
  }

  lemma LoadedHasRoom(s: State, a: nat, need: nat)
    requires Sizes(s) && a in s.loaded && Roomy(s, a, need)
    ensures !WantsFreedBlock(s, need) && a <= |s.blocks|
  {}

  lemma PlacedFacts(s: State, t: State, c: Cell, need: nat)
    requires Sizes(s) && Sizes(t) && Placed(s, t, c, need)
    ensures t.maxBlocks == s.maxBlocks && t.blockSize == s.blockSize && |s.blocks| <= |t.blocks|
    ensures c !in Memory(s) && c in Memory(t) && Memory(t) == Memory(s)[c := Memory(t)[c]] && need <= c.span.size <= need + NODE
    ensures OthersKept(s, t, c.addr)
  {}

  // ---------------------------------------------------------------- resizing

  ghost function Resized(s: State, n: nat): State { s.(maxBlocks := n) }

  lemma ResizedInv(s: State, n: nat)
    requires Valid(s) && Sizes(s) && 1 <= n && |s.loaded| <= n
    ensures Valid(Resized(s, n)) && Memory(Resized(s, n)) == Memory(s)
  {
    hide BlockOk;
    var t := Resized(s, n);
    forall b: nat, c: nat
      ensures At(t, 0, b, c)
    {
      assert At(s, 0, b, c);
    }
  }

  lemma TrimmedValid(s: State, t: State, nb: nat)
    requires Valid(s) && Inv(t, 0) && Trimmed(s, t, nb)
    ensures Valid(t)
  {}

  lemma UpdatedKeeps(s: State, a: nat, m: seq<byte>, live: set<Span>, maxSize: nat)
    requires Sizes(s) && IsAddr(s, a)
    ensures var t := Updated(s, a, m, live, maxSize);
      OthersKept(s, t, a) && |t.blocks| == |s.blocks| && t.blocks[a - 1].lru == s.blocks[a - 1].lru
  {}

  lemma UpdatedTwice(s: State, a: nat, m: seq<byte>, live: set<Span>, maxSize: nat)
    requires Sizes(s) && IsAddr(s, a)
    ensures Updated(s.(contents := s.contents[a - 1 := m]), a, m, live, maxSize) == Updated(s, a, m, live, maxSize)
  {
    assert s.contents[a - 1 := m][a - 1 := m] == s.contents[a - 1 := m];
  }
}
