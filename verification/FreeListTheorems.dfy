/** The free list is canonical: only the live bytes matter, not how they came to be live. */
module FreeListTheorems {
  import opened Bytes
  import opened FreeSpans
  import opened FreeListRep
  import opened FreeList

  /** Two blocks of the same size with the same live bytes have the same free list. */
  lemma ListDependsOnLiveBytesOnly(m: seq<byte>, live: set<Span>, m': seq<byte>, live': set<Span>)
    requires Valid(m, live) && Valid(m', live') && |m| == |m'|
    requires forall b :: HEADER <= b < |m| ==> LiveAt(live, b) == LiveAt(live', b)
    ensures Nodes(m) == Nodes(m')
  {
    CanonicalUnique(Nodes(m), live, Nodes(m'), live', |m|);
  }

  /** Freeing what was just allocated restores the free list. */
  method AllocateAndFree(mem: array<byte>, size: nat, ghost live: set<Span>) returns (ok: bool)
    requires Valid(mem[..], live)
    modifies mem
    ensures Valid(mem[..], live) && Nodes(mem[..]) == old(Nodes(mem[..]))
    ensures ok <==> RealSize(size) <= MaxSize(old(Nodes(mem[..]))) + 4
  {
    hide RealSize, Holds, BestFitTaken;
    ghost var m0 := mem[..];
    var offset;
    ghost var s;
    ok, offset, s := Allocate(mem, size, live);
    if ok {
      var freed := Free(mem, offset, live + {s}, s);
      assert live + {s} - {s} == live;
      ListDependsOnLiveBytesOnly(m0, live, mem[..], live);
    }
  }

  /** Freeing every live segment, in any order, leaves one node over the whole block. */
  method FreeEverything(mem: array<byte>, segments: seq<Span>)
    requires Valid(mem[..], set s | s in segments)
    requires forall i, j :: 0 <= i < j < |segments| ==> segments[i] != segments[j]
    modifies mem
    ensures Valid(mem[..], {}) && Nodes(mem[..]) == [Span(HEADER, mem.Length - HEADER)]
  {
    hide Holds;
    ghost var live := set s | s in segments;
    for i := 0 to |segments|
      invariant Valid(mem[..], live)
      invariant forall s :: s in live <==> s in segments[i..]
    {
      ghost var s := segments[i];
      assert segments[i..] == [s] + segments[i + 1..];
      var ok := Free(mem, segments[i].off + 4, live, s);
      live := live - {s};
    }
    assert live == {};
    NothingLive(mem[..]);
  }

  lemma NothingLive(m: seq<byte>)
    requires Valid(m, {})
    ensures Nodes(m) == [Span(HEADER, |m| - HEADER)]
  {
    WholeIffNothingLive(Nodes(m), {}, |m|);
  }

  /** Asking for nearly 2^32 bytes wraps around: the segment has room for four bytes. */
  lemma HugeRequestWraps(size: nat)
    requires WORD - 4 <= size < WORD
    ensures RealSize(size) == NODE
  {
    ModUnique(size + 4, WORD, 1, size + 4 - WORD);
  }
}
