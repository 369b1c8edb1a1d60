/** Each change the free list makes to its block keeps the list and the live segments as they should be. */
module FreeListSteps {
  import opened Bytes
  import opened FreeSpans
  import opened FreeListRep

  lemma NodeFacts(m: seq<byte>, nodes: seq<Span>, live: set<Span>, i: nat)
    requires Holds(m, nodes, live) && i < |nodes|
    ensures SpanOk(nodes[i], |m|) && NodeAt(m, nodes, i)
    ensures i + 1 < |nodes| ==> SpanOk(nodes[i + 1], |m|) && nodes[i].End() < nodes[i + 1].off
    ensures i > 0 ==> SpanOk(nodes[i - 1], |m|) && nodes[i - 1].End() < nodes[i].off
  {}

  lemma SlotFacts(m: seq<byte>, nodes: seq<Span>, live: set<Span>, i: nat)
    requires Holds(m, nodes, live) && i <= |nodes|
    ensures LinkSlot(nodes, i) + 4 <= |m| && U32(m, LinkSlot(nodes, i)) == NextOf(nodes, i)
    ensures i > 0 ==> SpanOk(nodes[i - 1], |m|)
  {
    if i > 0 { NodeFacts(m, nodes, live, i - 1); }
  }

  /** A node away from the words that changed is as it was. */
  lemma NodeKept(m: seq<byte>, m': seq<byte>, ws: set<nat>, nodes: seq<Span>, nodes': seq<Span>, i: nat, j: nat)
    requires Differ(m, m', ws) && i < |nodes| && NodeAt(m, nodes, i)
    requires j < |nodes'| && nodes'[j] == nodes[i] && NextOf(nodes', j + 1) == NextOf(nodes, i + 1)
    requires forall w :: w in ws ==> WordsApart(w, nodes[i].off) && WordsApart(w, nodes[i].off + 4)
    ensures NodeAt(m', nodes', j)
  {
    DifferWord(m, m', ws, nodes[i].off);
    DifferWord(m, m', ws, nodes[i].off + 4);
  }

  /** The node before the changed ones gets a new link. */
  lemma NodeRelinked(m: seq<byte>, m': seq<byte>, ws: set<nat>, nodes: seq<Span>, nodes': seq<Span>, i: nat)
    requires Differ(m, m', ws) && i < |nodes| && NodeAt(m, nodes, i)
    requires i < |nodes'| && nodes'[i] == nodes[i] && U32(m', nodes[i].off + 4) == NextOf(nodes', i + 1)
    requires forall w :: w in ws ==> WordsApart(w, nodes[i].off)
    ensures NodeAt(m', nodes', i)
  {
    DifferWord(m, m', ws, nodes[i].off);
  }

  /** Of the words written at most the node's link, at `slot`, is in the node. */
  ghost predicate NodeSpared(node: Span, ws: set<nat>, slot: nat) {
    forall w :: w in ws ==> WordsApart(w, node.off) && (WordsApart(w, node.off + 4) || w == node.off + 4 == slot)
  }

  lemma Splices(nodes: seq<Span>, lo: nat, mid: seq<Span>, hi: nat)
    requires lo <= hi <= |nodes| && |mid| <= 1
    ensures var r := Spliced(nodes, lo, mid, hi);
      && (forall j :: 0 <= j < lo ==> r[j] == nodes[j])
      && (forall j :: 0 <= j < |mid| ==> r[lo + j] == mid[j])
      && (forall j :: lo + |mid| <= j < |r| ==> r[j] == nodes[j - lo - |mid| + hi])
  {}

  /** A splice in which the link slot, and the new node if there is one, were rewritten. */
  lemma SplicedLinked(m: seq<byte>, m': seq<byte>, ws: set<nat>, nodes: seq<Span>, live: set<Span>,
                      lo: nat, mid: seq<Span>, hi: nat)
    requires Holds(m, nodes, live) && lo <= hi <= |nodes| && |mid| <= 1
    requires |m'| == |m|
    requires Differ(m, m', ws)
    requires forall i :: 0 <= i < |nodes| && (i < lo || hi <= i) ==> NodeSpared(nodes[i], ws, LinkSlot(nodes, lo))
    requires LinkSlot(nodes, lo) + 4 <= |m| && U32(m', LinkSlot(nodes, lo)) == NextOf(Spliced(nodes, lo, mid, hi), lo)
    requires lo > 0 ==> forall w :: w in ws ==> WordsApart(w, 4)
    requires mid != [] ==> mid[0].off + NODE <= |m| && U32(m', mid[0].off) == mid[0].size && U32(m', mid[0].off + 4) == NextOf(nodes, hi)
    ensures Linked(m', Spliced(nodes, lo, mid, hi))
  {
    hide Holds, Spliced, Differ, U32;
    var r := Spliced(nodes, lo, mid, hi);
    Splices(nodes, lo, mid, hi);
    if lo > 0 {
      HeadKept(m, m', ws, nodes, live);
      assert r[0] == nodes[0];
    }
    forall j | 0 <= j < |r|
      ensures NodeAt(m', r, j)
    {
      if lo <= j < lo + |mid| {
        assert r[j] == mid[0];
        assert NextOf(r, j + 1) == NextOf(nodes, hi);
      } else {
        var i := if j < lo then j else j - lo - |mid| + hi;
        NodeFacts(m, nodes, live, i);
        assert NodeSpared(nodes[i], ws, LinkSlot(nodes, lo));
        if i + 1 == lo {
          NodeRelinked(m, m', ws, nodes, r, i);
        } else {
          OtherSlot(m, nodes, live, lo, i);
          NodeKept(m, m', ws, nodes, r, i, j);
        }
      }
    }
  }

  lemma OtherSlot(m: seq<byte>, nodes: seq<Span>, live: set<Span>, lo: nat, i: nat)
    requires Holds(m, nodes, live) && lo <= |nodes| && i < |nodes| && i + 1 != lo
    ensures nodes[i].off + 4 != LinkSlot(nodes, lo)
  {
    assert SpanOk(nodes[i], |m|);
    if lo > 0 {
      assert i < lo - 1 ==> nodes[i].End() < nodes[lo - 1].off;
      assert i > lo - 1 ==> nodes[lo - 1].End() < nodes[i].off;
    }
  }

  lemma HeadKept(m: seq<byte>, m': seq<byte>, ws: set<nat>, nodes: seq<Span>, live: set<Span>)
    requires Holds(m, nodes, live) && Differ(m, m', ws) && forall w :: w in ws ==> WordsApart(w, 4)
    ensures U32(m', 4) == NextOf(nodes, 0)
  {
    DifferWord(m, m', ws, 4);
  }

  /** The total size is never written. */
  lemma TotalKept(m: seq<byte>, m': seq<byte>, ws: set<nat>, nodes: seq<Span>, live: set<Span>)
    requires Holds(m, nodes, live) && Differ(m, m', ws) && forall w :: w in ws ==> w >= 4
    ensures U32(m', 0) == |m'| - HEADER && HEADER + NODE <= |m'| < WORD
  {
    DifferWord(m, m', ws, 0);
  }

  // ---------------------------------------------------------------- allocation

  /** The words written when the first `take` bytes of node `i` are allocated. */
  function AllocWords(nodes: seq<Span>, i: nat, take: nat): set<nat>
    requires i < |nodes| && take <= nodes[i].size
  {
    var off := nodes[i].off;
    {LinkSlot(nodes, i), off} + if take == nodes[i].size then {} else {off + take, off + take + 4}
  }

  function Allocated(nodes: seq<Span>, i: nat, take: nat): seq<Span>
    requires i < |nodes| && take <= nodes[i].size
  {
    Spliced(nodes, i, Remainder(nodes[i], take), i + 1)
  }

  predicate TakeOk(node: Span, take: nat) {
    NODE <= take <= node.size && (take == node.size || node.size - take >= NODE)
  }

  lemma AllocSpares(m: seq<byte>, nodes: seq<Span>, live: set<Span>, i: nat, take: nat, j: nat)
    requires Holds(m, nodes, live) && i < |nodes| && j < |nodes| && i != j && TakeOk(nodes[i], take)
    ensures NodeSpared(nodes[j], AllocWords(nodes, i, take), LinkSlot(nodes, i))
  {
    assert SpanOk(nodes[i], |m|) && SpanOk(nodes[j], |m|);
    assert i < j ==> nodes[i].End() < nodes[j].off;
    assert j < i ==> nodes[j].End() < nodes[i].off;
    if i > 0 {
      assert SpanOk(nodes[i - 1], |m|);
      assert j < i - 1 ==> nodes[j].End() < nodes[i - 1].off;
      assert j > i - 1 ==> nodes[i - 1].End() < nodes[j].off;
    }
  }

  lemma AllocWordsOff(m: seq<byte>, nodes: seq<Span>, live: set<Span>, i: nat, take: nat)
    requires Holds(m, nodes, live) && i < |nodes| && TakeOk(nodes[i], take)
    ensures WordsOff(live, AllocWords(nodes, i, take))
  {
    assert SpanOk(nodes[i], |m|);
    if i > 0 { assert SpanOk(nodes[i - 1], |m|); }
    NodeWordsOff(nodes, live, |m|, AllocWords(nodes, i, take));
  }

  /** Allocation keeps the list and the live segments, the new one included. */
  lemma AllocStep(m: seq<byte>, m': seq<byte>, nodes: seq<Span>, live: set<Span>, i: nat, take: nat)
    requires Holds(m, nodes, live) && i < |nodes| && TakeOk(nodes[i], take)
    requires |m'| == |m|
    requires Differ(m, m', AllocWords(nodes, i, take))
    requires nodes[i].off + 4 <= |m| && U32(m', nodes[i].off) == take
    requires LinkSlot(nodes, i) + 4 <= |m| && U32(m', LinkSlot(nodes, i)) == NextOf(Allocated(nodes, i, take), i)
    requires take < nodes[i].size ==>
      var rest := nodes[i].off + take;
      rest + NODE <= |m| && U32(m', rest) == nodes[i].size - take && U32(m', rest + 4) == NextOf(nodes, i + 1)
    ensures Holds(m', Allocated(nodes, i, take), live + {Span(nodes[i].off, take)})
    ensures Span(nodes[i].off, take) !in live && SameLive(m, m', live)
  {
    hide Holds, Canonical, LiveOk, Linked, Differ, WordsOff, NodeAt;
    var ws := AllocWords(nodes, i, take);
    var s := Span(nodes[i].off, take);
    Parts(m, nodes, live);
    TakeKeepsCanonical(nodes, live, |m|, i, take);
    AllocWordsOff(m, nodes, live, i, take);
    LiveUntouched(m, m', ws, live);
    SlotFacts(m, nodes, live, i);
    NodeFacts(m, nodes, live, i);
    forall j | 0 <= j < |nodes| && (j < i || i + 1 <= j)
      ensures NodeSpared(nodes[j], ws, LinkSlot(nodes, i))
    {
      AllocSpares(m, nodes, live, i, take, j);
    }
    SplicedLinked(m, m', ws, nodes, live, i, Remainder(nodes[i], take), i + 1);
    TotalKept(m, m', ws, nodes, live);
    assert HasHeader(m', s);
    AllTogether(m', Allocated(nodes, i, take), live + {s});
  }

  lemma Parts(m: seq<byte>, nodes: seq<Span>, live: set<Span>)
    requires Holds(m, nodes, live)
    ensures HEADER + NODE <= |m| < WORD && Canonical(nodes, live, |m|) && LiveOk(live, |m|) && LiveHeaders(m, live)
  {}

  lemma LessLive(m: seq<byte>, live: set<Span>, s: Span)
    requires LiveOk(live, |m|) && LiveHeaders(m, live)
    ensures LiveOk(live - {s}, |m|) && LiveHeaders(m, live - {s})
  {}

  lemma AllTogether(m: seq<byte>, nodes: seq<Span>, live: set<Span>)
    requires HEADER + NODE <= |m| < WORD && U32(m, 0) == |m| - HEADER
    requires Canonical(nodes, live, |m|)
    requires Linked(m, nodes)
    requires LiveHeaders(m, live)
    ensures Holds(m, nodes, live)
  {}

  // ---------------------------------------------------------------- release

  /** The words written when a segment that does not touch the node before it is freed. */
  function NewNodeWords(nodes: seq<Span>, i: nat, s: Span): set<nat>
    requires i <= |nodes|
  {
    {LinkSlot(nodes, i), s.off, s.off + 4}
  }

  lemma GapFacts(m: seq<byte>, nodes: seq<Span>, live: set<Span>, i: nat, s: Span)
    requires Holds(m, nodes, live) && s in live && Gap(nodes, i, s)
    ensures i <= |nodes| && SpanOk(s, |m|)
    ensures i > 0 ==> SpanOk(nodes[i - 1], |m|) && nodes[i - 1].End() <= s.off
    ensures i < |nodes| ==> SpanOk(nodes[i], |m|) && s.End() <= nodes[i].off
  {}

  lemma NewNodeSpares(m: seq<byte>, nodes: seq<Span>, live: set<Span>, i: nat, s: Span, j: nat)
    requires Holds(m, nodes, live) && s in live && Gap(nodes, i, s) && j < |nodes|
    ensures NodeSpared(nodes[j], NewNodeWords(nodes, i, s), LinkSlot(nodes, i))
  {
    assert SpanOk(s, |m|) && SpanOk(nodes[j], |m|);
    if i > 0 {
      assert SpanOk(nodes[i - 1], |m|);
      assert j < i - 1 ==> nodes[j].End() < nodes[i - 1].off;
      assert j > i - 1 ==> nodes[i - 1].End() < nodes[j].off;
    }
  }

  lemma NewNodeWordsOff(m: seq<byte>, nodes: seq<Span>, live: set<Span>, i: nat, s: Span)
    requires Holds(m, nodes, live) && s in live && Gap(nodes, i, s)
    ensures WordsOff(live - {s}, NewNodeWords(nodes, i, s))
  {
    assert SpanOk(s, |m|);
    forall w, t | w in NewNodeWords(nodes, i, s) && t in live - {s}
      ensures w + 4 <= t.off || t.End() <= w
    {
      assert SpanOk(t, |m|) && Apart(s, t);
      if i > 0 {
        assert SpanOk(nodes[i - 1], |m|);
        LiveIsApart(nodes, live, |m|, i - 1, t);
      }
    }
  }

  /** Freeing a segment that does not touch the node before it makes a node of it. */
  lemma NewNodeStep(m: seq<byte>, m': seq<byte>, nodes: seq<Span>, live: set<Span>, i: nat, s: Span)
    requires Holds(m, nodes, live) && s in live && Gap(nodes, i, s) && !TouchesPrev(nodes, i, s)
    requires |m'| == |m|
    requires Differ(m, m', NewNodeWords(nodes, i, s))
    requires s.off + NODE <= |m| && U32(m', s.off) == Merged(nodes, i, s).size
    requires U32(m', s.off + 4) == NextOf(nodes, if TouchesNext(nodes, i, s) then i + 1 else i)
    requires LinkSlot(nodes, i) + 4 <= |m| && U32(m', LinkSlot(nodes, i)) == s.off
    ensures Holds(m', Released(nodes, i, s), live - {s}) && LiveOk(live - {s}, |m|) && SameLive(m, m', live - {s})
  {
    hide Holds, Canonical, Gap, LiveOk, LiveHeaders, Linked, Differ, WordsOff, NodeAt;
    GapFacts(m, nodes, live, i, s);
    var ws := NewNodeWords(nodes, i, s);
    Parts(m, nodes, live);
    LessLive(m, live, s);
    ReleaseKeepsCanonical(nodes, live, |m|, i, s);
    NewNodeWordsOff(m, nodes, live, i, s);
    LiveUntouched(m, m', ws, live - {s});
    GapFacts(m, nodes, live, i, s);
    forall j | 0 <= j < |nodes|
      ensures NodeSpared(nodes[j], ws, LinkSlot(nodes, i))
    {
      NewNodeSpares(m, nodes, live, i, s, j);
    }
    SplicedLinked(m, m', ws, nodes, live, i, [Merged(nodes, i, s)], if TouchesNext(nodes, i, s) then i + 1 else i);
    TotalKept(m, m', ws, nodes, live);
    AllTogether(m', Released(nodes, i, s), live - {s});
  }

  /** The words written when a freed segment is added to the node before it. */
  function GrownNodeWords(nodes: seq<Span>, i: nat): set<nat>
    requires 0 < i <= |nodes|
  {
    {nodes[i - 1].off, nodes[i - 1].off + 4}
  }

  lemma GrownNodeWordsOff(m: seq<byte>, nodes: seq<Span>, live: set<Span>, i: nat)
    requires Holds(m, nodes, live) && 0 < i <= |nodes|
    ensures WordsOff(live, GrownNodeWords(nodes, i))
  {
    assert SpanOk(nodes[i - 1], |m|);
    NodeWordsOff(nodes, live, |m|, GrownNodeWords(nodes, i));
  }

  lemma FewerOff(live: set<Span>, s: Span, ws: set<nat>)
    requires WordsOff(live, ws)
    ensures WordsOff(live - {s}, ws)
  {}

  lemma GrownNodeSpares(m: seq<byte>, nodes: seq<Span>, live: set<Span>, i: nat, j: nat)
    requires Holds(m, nodes, live) && 0 < i <= |nodes| && j < |nodes| && j != i - 1
    ensures NodeSpared(nodes[j], GrownNodeWords(nodes, i), LinkSlot(nodes, i - 1))
  {
    assert SpanOk(nodes[j], |m|) && SpanOk(nodes[i - 1], |m|);
    assert j < i - 1 ==> nodes[j].End() < nodes[i - 1].off;
    assert j > i - 1 ==> nodes[i - 1].End() < nodes[j].off;
  }

  /** Freeing a segment that touches the node before it makes that node longer. */
  lemma GrownNodeStep(m: seq<byte>, m': seq<byte>, nodes: seq<Span>, live: set<Span>, i: nat, s: Span)
    requires Holds(m, nodes, live) && s in live && Gap(nodes, i, s) && TouchesPrev(nodes, i, s)
    requires |m'| == |m|
    requires Differ(m, m', GrownNodeWords(nodes, i))
    requires nodes[i - 1].off + NODE <= |m| && U32(m', nodes[i - 1].off) == Merged(nodes, i, s).size
    requires U32(m', nodes[i - 1].off + 4) == NextOf(nodes, if TouchesNext(nodes, i, s) then i + 1 else i)
    ensures Holds(m', Released(nodes, i, s), live - {s}) && LiveOk(live - {s}, |m|) && SameLive(m, m', live - {s})
  {
    hide Holds, Canonical, Gap, LiveOk, LiveHeaders, Linked, Differ, WordsOff, NodeAt;
    GapFacts(m, nodes, live, i, s);
    var ws := GrownNodeWords(nodes, i);
    Parts(m, nodes, live);
    LessLive(m, live, s);
    ReleaseKeepsCanonical(nodes, live, |m|, i, s);
    GrownNodeWordsOff(m, nodes, live, i);
    FewerOff(live, s, ws);
    LiveUntouched(m, m', ws, live - {s});
    SlotFacts(m, nodes, live, i - 1);
    GapFacts(m, nodes, live, i, s);
    NodeFacts(m, nodes, live, i - 1);
    forall j | 0 <= j < |nodes| && (j < i - 1 || i <= j)
      ensures NodeSpared(nodes[j], ws, LinkSlot(nodes, i - 1))
    {
      GrownNodeSpares(m, nodes, live, i, j);
    }
    DifferWord(m, m', ws, LinkSlot(nodes, i - 1));
    SplicedLinked(m, m', ws, nodes, live, i - 1, [Merged(nodes, i, s)], if TouchesNext(nodes, i, s) then i + 1 else i);
    TotalKept(m, m', ws, nodes, live);
    AllTogether(m', Released(nodes, i, s), live - {s});
  }
}
