/** What the paged allocator stores, seen as one flat memory of live segments. */
module AllocatorState {
  import opened Bytes
  import opened FreeSpans
  import opened FreeListRep
  import opened FreeList

  /** A live segment of some block. The caller's bytes start four bytes into the span. */
  datatype Cell = Cell(addr: nat, span: Span) {
    function Size(): int { span.size - 4 }
  }

  datatype BlockInfo = BlockInfo(mem: array?<byte>, lru: nat, maxSize: nat)

  /** Bytes a block spends on its header and on one segment's size. */
  const ALLOC_HEAD_SIZE: nat := HEADER + 4

  /** The biggest real size a block can serve, by the source's reckoning. */
  function MaxAllocable(n: nat): int { n - ALLOC_HEAD_SIZE }

  ghost predicate InLives(lives: seq<set<Span>>, c: Cell) {
    1 <= c.addr <= |lives| && c.span in lives[c.addr - 1]
  }

  ghost function Cells(lives: seq<set<Span>>): (cs: set<Cell>)
    ensures forall c :: c in cs <==> InLives(lives, c)
  {
    set i, s | 0 <= i < |lives| && s in lives[i] :: Cell(i + 1, s)
  }

  /** The caller's bytes of a segment. */
  function Payload(m: seq<byte>, s: Span): seq<byte> {
    if s.size >= 4 && s.End() <= |m| then m[s.off + 4..s.End()] else []
  }

  ghost function Flat(contents: seq<seq<byte>>, lives: seq<set<Span>>): (f: map<Cell, seq<byte>>)
    requires |contents| == |lives|
    ensures forall c :: c in f <==> InLives(lives, c)
    ensures forall c :: c in f ==> InLives(lives, c) && f[c] == Payload(contents[c.addr - 1], c.span)
  {
    map c | c in Cells(lives) :: Payload(contents[c.addr - 1], c.span)
  }

  lemma FlatEqual(f: map<Cell, seq<byte>>, g: map<Cell, seq<byte>>)
    requires forall c :: c in f <==> c in g
    requires forall c :: c in f ==> f[c] == g[c]
    ensures f == g
  {}

  /** A block that is neither in memory nor holds anything was freed, and its bytes are gone. Any
      other block holds a free list, and its recorded maximal size is the list's. */
  ghost predicate BlockOk(n: nat, b: BlockInfo, m: seq<byte>, live: set<Span>) {
    if b.mem == null && live == {} then b.maxSize == MaxAllocable(n)
    else |m| == n && Valid(m, live) && b.maxSize == MaxSize(Nodes(m))
  }

  /** Only a block without live segments is recorded with the maximal size. */
  lemma MaximalIffNothingLive(n: nat, b: BlockInfo, m: seq<byte>, live: set<Span>)
    requires BlockOk(n, b, m, live) && HEADER + NODE <= n
    ensures b.maxSize == MaxAllocable(n) <==> live == {}
    ensures b.maxSize <= MaxAllocable(n)
  {
    if !(b.mem == null && live == {}) { LiveTakesRoom(Nodes(m), live, n); }
  }

  lemma SpanFits(n: nat, b: BlockInfo, m: seq<byte>, live: set<Span>, s: Span)
    requires BlockOk(n, b, m, live) && s in live
    ensures SpanOk(s, |m|) && |m| == n
  {}

  // ---------------------------------------------------------------- a change in one block

  /** A segment was added to a block and the others are untouched. */
  lemma FlatGrows(contents: seq<seq<byte>>, lives: seq<set<Span>>, i: nat, m: seq<byte>, s: Span)
    requires |contents| == |lives| && i < |lives| && |m| == |contents[i]|
    requires s !in lives[i] && LiveOk(lives[i], |m|) && SameLive(contents[i], m, lives[i])
    ensures var c := Cell(i + 1, s);
      && c !in Flat(contents, lives)
      && Flat(contents[i := m], lives[i := lives[i] + {s}]) == Flat(contents, lives)[c := Payload(m, s)]
  {
    hide Flat, Payload, LiveOk, SameLive;
    var c := Cell(i + 1, s);
    var f, g := Flat(contents, lives), Flat(contents[i := m], lives[i := lives[i] + {s}]);
    forall k | k in f
      ensures k in g && f[k] == g[k]
    {
      if k.addr == i + 1 { PayloadKept(contents[i], m, lives[i], k.span); }
    }
    assert forall k :: k in g ==> k in f || k == c;
    FlatEqual(g, f[c := Payload(m, s)]);
  }

  lemma PayloadKept(m: seq<byte>, m': seq<byte>, live: set<Span>, s: Span)
    requires |m| == |m'| && LiveOk(live, |m|) && SameLive(m, m', live) && s in live
    ensures Payload(m', s) == Payload(m, s)
  {
    assert SpanOk(s, |m|);
    forall b: nat | s.off <= b < s.End()
      ensures m'[b] == m[b]
    {
      assert In(s, b);
    }
  }

  /** A segment was freed and the others are untouched. */
  lemma FlatShrinks(contents: seq<seq<byte>>, lives: seq<set<Span>>, i: nat, m: seq<byte>, s: Span)
    requires |contents| == |lives| && i < |lives| && |m| == |contents[i]|
    requires s in lives[i] && LiveOk(lives[i] - {s}, |m|) && SameLive(contents[i], m, lives[i] - {s})
    ensures Flat(contents[i := m], lives[i := lives[i] - {s}]) == Flat(contents, lives) - {Cell(i + 1, s)}
  {
    hide Flat, Payload, LiveOk, SameLive;
    var c := Cell(i + 1, s);
    var f, g := Flat(contents, lives), Flat(contents[i := m], lives[i := lives[i] - {s}]);
    forall k | k in g
      ensures k in f && f[k] == g[k] && k != c
    {
      if k.addr == i + 1 { PayloadKept(contents[i], m, lives[i] - {s}, k.span); }
    }
    assert forall k :: k in f && k != c ==> k in g;
    FlatEqual(g, f - {c});
  }

  /** Writing inside one segment changes that segment only, and keeps the free list. */
  lemma WriteInside(m: seq<byte>, live: set<Span>, s: Span, o: nat, data: seq<byte>)
    requires Valid(m, live) && s in live && o + |data| <= s.size - 4
    ensures SpanOk(s, |m|)
    ensures var m' := Put(m, s.off + 4 + o, data);
      && Valid(m', live) && Nodes(m') == Nodes(m)
      && Payload(m', s) == Put(Payload(m, s), o, data)
      && forall t :: t in live && t != s ==> Payload(m', t) == Payload(m, t)
  {
    var nodes := Nodes(m);
    assert SpanOk(s, |m|);
    var m' := Put(m, s.off + 4 + o, data);
    SameOutside(m, s, o, data);
    ListKept(m, m', nodes, live, s);
    NodesAreFound(m', nodes, live);
    forall t | t in live && t != s
      ensures Payload(m', t) == Payload(m, t)
    {
      assert SpanOk(t, |m|) && Apart(s, t);
      assert m'[t.off + 4..t.End()] == m[t.off + 4..t.End()];
    }
    PayloadPut(m, s, o, data);
  }

  lemma PayloadPut(m: seq<byte>, s: Span, o: nat, data: seq<byte>)
    requires SpanOk(s, |m|) && o + |data| <= s.size - 4
    ensures Payload(Put(m, s.off + 4 + o, data), s) == Put(Payload(m, s), o, data)
  {
    var p, q := Payload(m, s), Payload(Put(m, s.off + 4 + o, data), s);
    forall k | 0 <= k < |p|
      ensures q[k] == Put(p, o, data)[k]
    {
      assert p[k] == m[s.off + 4 + k];
    }
  }

  /** Outside the bytes the caller may use nothing differs. */
  ghost predicate OnlyPayload(m: seq<byte>, m': seq<byte>, s: Span) {
    |m| == |m'| && forall b: nat :: b < |m| && (b < s.off + 4 || s.End() <= b) ==> m'[b] == m[b]
  }

  lemma SameOutside(m: seq<byte>, s: Span, o: nat, data: seq<byte>)
    requires SpanOk(s, |m|) && o + |data| <= s.size - 4
    ensures OnlyPayload(m, Put(m, s.off + 4 + o, data), s)
  {}

  lemma WordOutside(m: seq<byte>, m': seq<byte>, s: Span, o: nat)
    requires OnlyPayload(m, m', s) && o + 4 <= |m| && (o + 4 <= s.off + 4 || s.End() <= o)
    ensures U32(m', o) == U32(m, o)
  {
    SameWord(m', m, o);
  }

  lemma ListKept(m: seq<byte>, m': seq<byte>, nodes: seq<Span>, live: set<Span>, s: Span)
    requires Holds(m, nodes, live) && s in live && OnlyPayload(m, m', s)
    ensures Holds(m', nodes, live)
  {
    assert SpanOk(s, |m|);
    forall i | 0 <= i < |nodes|
      ensures NodeAt(m', nodes, i)
    {
      assert NodeAt(m, nodes, i) && SpanOk(nodes[i], |m|);
      LiveIsApart(nodes, live, |m|, i, s);
      WordOutside(m, m', s, nodes[i].off);
      WordOutside(m, m', s, nodes[i].off + 4);
    }
    forall t | t in live
      ensures HasHeader(m', t)
    {
      assert HasHeader(m, t) && SpanOk(t, |m|) && (t == s || Apart(s, t));
      WordOutside(m, m', s, t.off);
    }
    WordOutside(m, m', s, 0);
    WordOutside(m, m', s, 4);
  }

  lemma FlatWritten(contents: seq<seq<byte>>, lives: seq<set<Span>>, i: nat, m: seq<byte>, s: Span)
    requires |contents| == |lives| && i < |lives| && s in lives[i]
    requires forall t :: t in lives[i] && t != s ==> Payload(m, t) == Payload(contents[i], t)
    ensures Flat(contents[i := m], lives) == Flat(contents, lives)[Cell(i + 1, s) := Payload(m, s)]
  {
    hide Flat, Payload;
    FlatEqual(Flat(contents[i := m], lives), Flat(contents, lives)[Cell(i + 1, s) := Payload(m, s)]);
  }

  /** Blocks without live segments add nothing. */
  lemma FlatNewBlock(contents: seq<seq<byte>>, lives: seq<set<Span>>, m: seq<byte>)
    requires |contents| == |lives|
    ensures Flat(contents + [m], lives + [{}]) == Flat(contents, lives)
  {
    hide Flat, Payload;
    FlatEqual(Flat(contents + [m], lives + [{}]), Flat(contents, lives));
  }

  lemma FlatLastBlock(contents: seq<seq<byte>>, lives: seq<set<Span>>)
    requires |contents| == |lives| > 0 && lives[|lives| - 1] == {}
    ensures Flat(contents[..|contents| - 1], lives[..|lives| - 1]) == Flat(contents, lives)
  {
    hide Flat, Payload;
    FlatEqual(Flat(contents[..|contents| - 1], lives[..|lives| - 1]), Flat(contents, lives));
  }

  /** The flat memory without the segments of one block. */
  ghost function Without(f: map<Cell, seq<byte>>, addr: nat): map<Cell, seq<byte>> {
    map c | c in f && c.addr != addr :: f[c]
  }

  lemma FlatClearedBlock(contents: seq<seq<byte>>, lives: seq<set<Span>>, i: nat, m: seq<byte>)
    requires |contents| == |lives| && i < |lives|
    ensures Flat(contents[i := m], lives[i := {}]) == Without(Flat(contents, lives), i + 1)
  {
    hide Flat, Payload;
    FlatEqual(Flat(contents[i := m], lives[i := {}]), Without(Flat(contents, lives), i + 1));
  }
}
