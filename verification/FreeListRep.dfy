/** How the free list of a block is written inside the block's own bytes. */
module FreeListRep {
  import opened Bytes
  import opened FreeSpans

  /** The address of the `i`-th node, or 0 past the last one. */
  function NextOf(nodes: seq<Span>, i: nat): nat {
    if i < |nodes| then nodes[i].off else 0
  }

  /** Where the address of the `i`-th node is stored: in the block header or in the node before it. */
  function LinkSlot(nodes: seq<Span>, i: nat): nat
    requires i <= |nodes|
  {
    if i == 0 then 4 else nodes[i - 1].off + 4
  }

  ghost predicate NodeAt(m: seq<byte>, nodes: seq<Span>, i: nat)
    requires i < |nodes|
  {
    && nodes[i].off + NODE <= |m|
    && U32(m, nodes[i].off) == nodes[i].size
    && U32(m, nodes[i].off + 4) == NextOf(nodes, i + 1)
  }

  ghost predicate Linked(m: seq<byte>, nodes: seq<Span>)
    requires HEADER <= |m|
  {
    U32(m, 4) == NextOf(nodes, 0) && forall i :: 0 <= i < |nodes| ==> NodeAt(m, nodes, i)
  }

  /** A live segment starts with its size; the caller's bytes come after it. */
  ghost predicate HasHeader(m: seq<byte>, s: Span) {
    s.off + 4 <= |m| && U32(m, s.off) == s.size
  }

  ghost predicate LiveHeaders(m: seq<byte>, live: set<Span>) {
    forall s :: s in live ==> HasHeader(m, s)
  }

  ghost predicate Holds(m: seq<byte>, nodes: seq<Span>, live: set<Span>) {
    && HEADER + NODE <= |m| < WORD
    && U32(m, 0) == |m| - HEADER
    && Canonical(nodes, live, |m|)
    && Linked(m, nodes)
    && LiveHeaders(m, live)
  }

  // ---------------------------------------------------------------- the list found by following the links

  function Walk(m: seq<byte>, o: nat, fuel: nat): seq<Span>
    decreases fuel
  {
    if fuel == 0 || o == 0 || o + NODE > |m| then []
    else [Span(o, U32(m, o))] + Walk(m, U32(m, o + 4), fuel - 1)
  }

  function Nodes(m: seq<byte>): seq<Span> {
    if |m| < HEADER then [] else Walk(m, U32(m, 4), |m|)
  }

  /** The block holds a free list in which exactly the segments of `live` are allocated. */
  ghost predicate Valid(m: seq<byte>, live: set<Span>) {
    Holds(m, Nodes(m), live)
  }

  lemma {:induction false} NodesAreFew(nodes: seq<Span>, n: nat, i: nat)
    requires NodesOk(nodes, n) && i < |nodes|
    ensures nodes[i].off >= HEADER + i
  {
    if i > 0 {
      NodesAreFew(nodes, n, i - 1);
      assert nodes[i - 1].End() < nodes[i].off;
    }
  }

  lemma {:induction false} WalkFrom(m: seq<byte>, nodes: seq<Span>, i: nat, fuel: nat)
    requires HEADER <= |m| && Linked(m, nodes) && NodesOk(nodes, |m|) && i <= |nodes| <= i + fuel
    ensures Walk(m, NextOf(nodes, i), fuel) == nodes[i..]
    decreases fuel
  {
    if i < |nodes| {
      assert NodeAt(m, nodes, i) && SpanOk(nodes[i], |m|);
      WalkFrom(m, nodes, i + 1, fuel - 1);
      assert nodes[i..] == [nodes[i]] + nodes[i + 1..];
    }
  }

  lemma NodesAreFound(m: seq<byte>, nodes: seq<Span>, live: set<Span>)
    requires Holds(m, nodes, live)
    ensures Nodes(m) == nodes && Valid(m, live)
  {
    if nodes != [] { NodesAreFew(nodes, |m|, |nodes| - 1); }
    WalkFrom(m, nodes, 0, |m|);
    assert nodes[0..] == nodes;
  }

  // ---------------------------------------------------------------- writing a few words

  predicate WordsApart(o: nat, p: nat) { o + 4 <= p || p + 4 <= o }

  /** The two memories differ in the words at `ws` at most. */
  ghost predicate Differ(m: seq<byte>, m': seq<byte>, ws: set<nat>) {
    && |m| == |m'|
    && forall b :: 0 <= b < |m| && m'[b] != m[b] ==> InWords(ws, b)
  }

  ghost predicate InWords(ws: set<nat>, b: int) {
    exists w :: w in ws && w <= b < w + 4
  }

  lemma DifferWord(m: seq<byte>, m': seq<byte>, ws: set<nat>, o: nat)
    requires Differ(m, m', ws) && o + 4 <= |m| && forall w :: w in ws ==> WordsApart(w, o)
    ensures U32(m', o) == U32(m, o)
  {
    forall b | o <= b < o + 4
      ensures m'[b] == m[b]
    {
      forall w | w in ws
        ensures !(w <= b < w + 4)
      {
        assert WordsApart(w, o);
      }
    }
    SameWord(m', m, o);
  }

  lemma WordPut(m0: seq<byte>, m: seq<byte>, ws: set<nat>, o: nat, v: nat)
    requires Differ(m0, m, ws) && o + 4 <= |m| && v < WORD
    ensures var m' := PutU32(m, o, v);
      && Differ(m0, m', ws + {o})
      && U32(m', o) == v
      && forall p: nat :: p + 4 <= |m| && WordsApart(o, p) ==> U32(m', p) == U32(m, p)
  {
    var m' := PutU32(m, o, v);
    PutHere(m, o, v);
    forall p: nat | p + 4 <= |m| && WordsApart(o, p)
      ensures U32(m', p) == U32(m, p)
    {
      PutElsewhere(m, o, v, p);
    }
    forall b | 0 <= b < |m| && m'[b] != m0[b]
      ensures InWords(ws + {o}, b)
    {
      if o <= b < o + 4 {
        assert o in ws + {o};
      } else {
        PutByte(m, o, v, b);
        var w :| w in ws && w <= b < w + 4;
        assert w in ws + {o};
      }
    }
  }

  /** Words outside a live segment. */
  ghost predicate WordsOff(live: set<Span>, ws: set<nat>) {
    forall w, t :: w in ws && t in live ==> w + 4 <= t.off || t.End() <= w
  }

  lemma LiveUntouched(m: seq<byte>, m': seq<byte>, ws: set<nat>, live: set<Span>)
    requires Differ(m, m', ws) && WordsOff(live, ws) && LiveOk(live, |m|) && LiveHeaders(m, live)
    ensures LiveHeaders(m', live) && SameLive(m, m', live)
  {
    forall t | t in live
      ensures HasHeader(m', t)
    {
      assert HasHeader(m, t) && SpanOk(t, |m|);
      DifferWord(m, m', ws, t.off);
    }
    forall t, b: nat | t in live && In(t, b)
      ensures m'[b] == m[b]
    {
      assert SpanOk(t, |m|);
    }
  }

  /** Every byte of the live segments is the same. */
  ghost predicate SameLive(m: seq<byte>, m': seq<byte>, live: set<Span>)
    requires |m| == |m'| && LiveOk(live, |m|)
  {
    forall t, b: nat :: t in live && In(t, b) ==> m'[b] == m[b]
  }

  /** The words of the free nodes, and of the block header, are outside the live segments. */
  lemma NodeWordsOff(nodes: seq<Span>, live: set<Span>, n: nat, ws: set<nat>)
    requires Canonical(nodes, live, n)
    requires forall w :: w in ws ==> w + 4 <= HEADER || exists i :: 0 <= i < |nodes| && nodes[i].off <= w && w + 4 <= nodes[i].End()
    ensures WordsOff(live, ws)
  {
    forall w, t | w in ws && t in live
      ensures w + 4 <= t.off || t.End() <= w
    {
      assert SpanOk(t, n);
      if w + 4 > HEADER {
        var i :| 0 <= i < |nodes| && nodes[i].off <= w && w + 4 <= nodes[i].End();
        LiveIsApart(nodes, live, n, i, t);
      }
    }
  }
}
