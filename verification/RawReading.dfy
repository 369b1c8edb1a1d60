/** What the binary reader makes of encoded trees, whole or cut short. */
module RawReading {
  import opened Bytes
  import opened ConfigTree
  import opened Options
  import opened RawCodec

  /** What the reader does on an encoded tree: it takes so many bytes, or refuses a size. */
  datatype Step = Bytes(n: nat) | Refusal

  ghost function Steps(n: Node): seq<Step>
    decreases n, 1
  {
    match n
    case Int(i) => [Bytes(1), Bytes(8)]
    case Float(f) => [Bytes(1), Bytes(8)]
    case Bool(b) => [Bytes(1)]
    case Str(s) => [Bytes(1), Bytes(4)] + if |s| > MAX_STRING then [Refusal] else [Bytes(|s|)]
    case Array(items) => [Bytes(1), Bytes(4)] + if |items| > MAX_ITEMS then [Refusal] else ItemSteps(items)
    case Dict(es) => [Bytes(1), Bytes(4)] + if |es| > MAX_ITEMS then [Refusal] else EntrySteps(es)
  }

  ghost function ItemSteps(items: seq<Node>): seq<Step>
    decreases items, 0
  {
    if items == [] then [] else Steps(items[0]) + ItemSteps(items[1..])
  }

  ghost function EntrySteps(es: seq<Entry>): seq<Step>
    decreases es, 0
  {
    if es == [] then [] else [Bytes(4), Bytes(|es[0].key|)] + (Steps(es[0].value) + EntrySteps(es[1..]))
  }

  /** How the steps end on `size` bytes, when the reader believes in `len`. */
  function Checked(steps: seq<Step>, size: nat, len: nat): Option<Failure> {
    if steps == [] then None
    else if steps[0].Refusal? then Some(Rejected)
    else if len < steps[0].n then Some(Corrupted)
    else if size < steps[0].n then Some(Overrun)
    else Checked(steps[1..], size - steps[0].n, len + steps[0].n)
  }

  function Total(steps: seq<Step>): nat {
    if steps == [] then 0 else (if steps[0].Bytes? then steps[0].n else 0) + Total(steps[1..])
  }

  lemma {:induction false} CheckedAppend(a: seq<Step>, b: seq<Step>, size: nat, len: nat)
    ensures Checked(a, size, len) == None ==> Total(a) <= size && Checked(a + b, size, len) == Checked(b, size - Total(a), len + Total(a))
    ensures Checked(a, size, len) != None ==> Checked(a + b, size, len) == Checked(a, size, len)
    decreases |a|
  {
    if a == [] {
      assert a + b == b;
    } else {
      assert (a + b)[1..] == a[1..] + b;
      if a[0].Bytes? && a[0].n <= size && a[0].n <= len { CheckedAppend(a[1..], b, size - a[0].n, len + a[0].n); }
    }
  }

  /** `b` starts with `x`, or is cut off inside it. */
  ghost predicate Agree(b: seq<byte>, x: seq<byte>) {
    forall i :: 0 <= i < |b| && i < |x| ==> b[i] == x[i]
  }

  /** One step over the bytes `x`. */
  lemma TakeStep(b: seq<byte>, x: seq<byte>, y: seq<byte>, len: nat)
    requires Agree(b, x + y) && len + |x| < WORD
    ensures Take(b, len, |x|) ==
      if len < |x| then Failed(Corrupted) else if |b| < |x| then Failed(Overrun) else Got(x, b[|x|..], len + |x|)
    ensures |x| <= |b| ==> Agree(b[|x|..], y)
  {
    SmallMod(len + |x|, WORD);
    if |x| <= |b| {
      forall i | 0 <= i < |x|
        ensures b[i] == x[i]
      {
        assert b[i] == (x + y)[i];
      }
      forall i | 0 <= i < |b[|x|..]| && i < |y|
        ensures b[|x|..][i] == y[i]
      {
        assert b[|x| + i] == (x + y)[|x| + i];
      }
      assert b[..|x|] == x;
    }
  }

  lemma TakeU32Step(b: seq<byte>, v: nat, y: seq<byte>, len: nat)
    requires v < WORD && Agree(b, Le(v, 4) + y) && len + 4 < WORD
    ensures TakeU32(b, len) ==
      if len < 4 then Failed(Corrupted) else if |b| < 4 then Failed(Overrun) else Got(v, b[4..], len + 4)
    ensures 4 <= |b| ==> Agree(b[4..], y)
  {
    hide Agree;
    TakeStep(b, Le(v, 4), y, len);
    U32Back(v);
  }

  /** What the reader makes of the steps of a value of `size` bytes. */
  ghost predicate Reads<V>(r: Read<V>, end: Option<Failure>, v: V, size: nat, b: seq<byte>, len: nat) {
    match end
    case Some(f) => r == Failed(f)
    case None => size <= |b| && r == Got(v, b[size..], len + size)
  }

  /** The reader's steps on an encoded tree, or on what is left of one, are those of the tree. */
  lemma {:induction false} EncodedSteps(n: Node, b: seq<byte>, len: nat)
    requires Fits(n) && Agree(b, Encoded(n)) && len + |Encoded(n)| < WORD
    ensures Reads(Parse(b, len), Checked(Steps(n), |b|, len), Settled(n), |Encoded(n)|, b, len)
    decreases n, 2
  {
    hide Take, TakeU32, Le, Fits, FromI64, ToI64, Agree, Encoded, Steps, Parse;
    if n.Int? || n.Float? || n.Bool? {
      LeafSteps(n, b, len);
    } else if n.Str? {
      StringSteps(n.s, b, len);
    } else if n.Array? {
      ArraySteps(n.items, b, len);
    } else {
      DictSteps(n.entries, b, len);
    }
  }

  lemma LeafSteps(n: Node, b: seq<byte>, len: nat)
    requires n.Int? || n.Float? || n.Bool?
    requires Fits(n) && Agree(b, Encoded(n)) && len + |Encoded(n)| < WORD
    ensures Reads(Parse(b, len), Checked(Steps(n), |b|, len), Settled(n), |Encoded(n)|, b, len)
  {
    hide Take, Le, FromI64, ToI64, Agree;
    var x := Encoded(n);
    var body := x[1..];
    assert x == [x[0]] + body;
    TakeStep(b, [x[0]], body, len);
    assert Steps(n)[1..] == if n.Bool? then [] else [Bytes(8)];
    if 1 <= |b| && 1 <= len && !n.Bool? {
      assert body + [] == body;
      assert |b| >= 9 ==> b[1..][8..] == b[9..];
      assert [Bytes(8)][1..] == [];
      TakeStep(b[1..], body, [], len + 1);
      if n.Int? {
        assert body == ToI64(n.i) && |body| == 8;
        I64Back(n.i);
        assert len + 1 >= 8 && |b| >= 9 ==> Parse(b, len) == Got(n, b[9..], len + 9);
      } else {
        assert body == DoubleBytes(n.f);
        DoubleBack(n.f);
        assert len + 1 >= 8 && |b| >= 9 ==> Parse(b, len) == Got(n, b[9..], len + 9);
      }
      assert Checked([Bytes(8)], |b| - 1, len + 1) == if len + 1 < 8 then Some(Corrupted) else if |b| < 9 then Some(Overrun) else None;
      assert len + 1 < 8 || |b| < 9 ==> Parse(b, len) == Failed(if len + 1 < 8 then Corrupted else Overrun);
    }
  }

  lemma StringSteps(s: string, b: seq<byte>, len: nat)
    requires Fits(Str(s)) && Agree(b, Encoded(Str(s))) && len + |Encoded(Str(s))| < WORD
    ensures Reads(Parse(b, len), Checked(Steps(Str(s)), |b|, len), Str(s), |Encoded(Str(s))|, b, len)
  {
    hide Take, Le, TakeU32, Agree, ToBytes, FromBytes;
    var body := ToBytes(s);
    var last := if |s| > MAX_STRING then [Refusal] else [Bytes(|s|)];
    assert Encoded(Str(s)) == [STRING] + (Le(|s|, 4) + body);
    HeadSteps(STRING, |s|, body, last, b, len);
    if 5 <= |b| && 3 <= len {
      assert body + [] == body;
      TakeStep(b[5..], body, [], len + 5);
      BytesBack(s);
      assert last[1..] == [];
      assert |s| <= |b| - 5 ==> b[5..][|s|..] == b[5 + |s|..];
    }
  }

  /** The tag and the size at the head of a string or a collection, and the steps after them. */
  lemma HeadSteps(tag: byte, n: nat, body: seq<byte>, more: seq<Step>, b: seq<byte>, len: nat)
    requires n < WORD && Agree(b, [tag] + (Le(n, 4) + body)) && len + 5 < WORD
    ensures Take(b, len, 1) == if len < 1 then Failed(Corrupted) else if |b| < 1 then Failed(Overrun) else Got([tag], b[1..], len + 1)
    ensures 1 <= |b| && 1 <= len ==>
      TakeU32(b[1..], len + 1) == (if len + 1 < 4 then Failed(Corrupted) else if |b| < 5 then Failed(Overrun) else Got(n, b[5..], len + 5))
    ensures 5 <= |b| ==> Agree(b[5..], body)
    ensures Checked([Bytes(1), Bytes(4)] + more, |b|, len) ==
      if len < 1 then Some(Corrupted) else if |b| < 1 then Some(Overrun)
      else if len + 1 < 4 then Some(Corrupted) else if |b| < 5 then Some(Overrun) else Checked(more, |b| - 5, len + 5)
  {
    hide Take, TakeU32, Le, Agree;
    TakeStep(b, [tag], Le(n, 4) + body, len);
    if 1 <= |b| {
      TakeU32Step(b[1..], n, body, len + 1);
      assert 5 <= |b| ==> b[1..][4..] == b[5..];
    }
    var steps := [Bytes(1), Bytes(4)] + more;
    assert steps[1..] == [Bytes(4)] + more && steps[1..][1..] == more;
  }

  lemma {:induction false} ArraySteps(items: seq<Node>, b: seq<byte>, len: nat)
    requires Fits(Array(items)) && Agree(b, Encoded(Array(items))) && len + |Encoded(Array(items))| < WORD
    ensures Reads(Parse(b, len), Checked(Steps(Array(items)), |b|, len), Settled(Array(items)), |Encoded(Array(items))|, b, len)
    decreases items, 1
  {
    hide Take, Le, TakeU32, EncodedItems, ParseItems, ParseDict, ParseString, Encoded, Fits, Agree, ItemSteps;
    ArrayFacts(items);
    var body := EncodedItems(items);
    assert Encoded(Array(items)) == [ARRAY] + (Le(|items|, 4) + body);
    HeadSteps(ARRAY, |items|, body, if |items| > MAX_ITEMS then [Refusal] else ItemSteps(items), b, len);
    if 5 <= |b| {
      ItemsSteps(items, b[5..], len + 5, []);
      assert [] + SettledItems(items) == SettledItems(items);
      assert |body| <= |b| - 5 ==> b[5..][|body|..] == b[5 + |body|..];
    }
  }

  lemma {:induction false} ItemsSteps(items: seq<Node>, b: seq<byte>, len: nat, acc: seq<Node>)
    requires forall i :: 0 <= i < |items| ==> Fits(items[i])
    requires Agree(b, EncodedItems(items)) && len + |EncodedItems(items)| < WORD
    ensures Reads(ParseItems(b, len, |items|, acc), Checked(ItemSteps(items), |b|, len), Array(acc + SettledItems(items)), |EncodedItems(items)|, b, len)
    decreases items, 0
  {
    hide Parse, Encoded, Fits, Steps, Agree, Checked, EncodedItems, ItemSteps;
    if items == [] {
      NoItems(acc, b, len);
    } else {
      var first, more := Encoded(items[0]), EncodedItems(items[1..]);
      FirstItem(items);
      ValueSteps(items[0], more, ItemSteps(items[1..]), b, len);
      if Checked(Steps(items[0]), |b|, len) == None {
        ItemsSteps(items[1..], b[|first|..], len + |first|, acc + [Settled(items[0])]);
        assert acc + [Settled(items[0])] + SettledItems(items[1..]) == acc + SettledItems(items);
        assert |first + more| <= |b| ==> b[|first|..][|more|..] == b[|first + more|..];
      }
    }
  }

  lemma NoItems(acc: seq<Node>, b: seq<byte>, len: nat)
    ensures Reads(ParseItems(b, len, 0, acc), Checked(ItemSteps([]), |b|, len), Array(acc + SettledItems([])), |EncodedItems([])|, b, len)
  {
    assert acc + [] == acc && b[0..] == b;
  }

  lemma FirstItem(items: seq<Node>)
    requires items != [] && forall i :: 0 <= i < |items| ==> Fits(items[i])
    ensures EncodedItems(items) == Encoded(items[0]) + EncodedItems(items[1..])
    ensures ItemSteps(items) == Steps(items[0]) + ItemSteps(items[1..])
  {
    hide Encoded, Steps, Fits;
  }

  lemma CutAgree(b: seq<byte>, x: seq<byte>, y: seq<byte>)
    requires Agree(b, x + y)
    ensures Agree(b, x) && (|x| <= |b| ==> Agree(b[|x|..], y))
  {
    forall i | 0 <= i < |b| && i < |x|
      ensures b[i] == x[i]
    {
      assert b[i] == (x + y)[i];
    }
    if |x| <= |b| {
      forall i | 0 <= i < |b[|x|..]| && i < |y|
        ensures b[|x|..][i] == y[i]
      {
        assert b[|x| + i] == (x + y)[|x| + i];
      }
    }
  }

  lemma {:induction false} DictSteps(es: seq<Entry>, b: seq<byte>, len: nat)
    requires Fits(Dict(es)) && Agree(b, Encoded(Dict(es))) && len + |Encoded(Dict(es))| < WORD
    ensures Reads(Parse(b, len), Checked(Steps(Dict(es)), |b|, len), Settled(Dict(es)), |Encoded(Dict(es))|, b, len)
    decreases es, 1
  {
    hide Take, Le, TakeU32, EncodedEntries, ParseEntries, ParseArray, ParseString, Encoded, Fits, Agree, EntrySteps, Sorted;
    DictFacts(es);
    var body := EncodedEntries(es);
    assert Encoded(Dict(es)) == [DICT] + (Le(|es|, 4) + body);
    HeadSteps(DICT, |es|, body, if |es| > MAX_ITEMS then [Refusal] else EntrySteps(es), b, len);
    if 5 <= |b| {
      EntriesSteps([], es, b[5..], len + 5);
      assert |body| <= |b| - 5 ==> b[5..][|body|..] == b[5 + |body|..];
    }
  }

  /** The key of an entry, and the steps after it. */
  lemma KeySteps(key: string, y: seq<byte>, more: seq<Step>, b: seq<byte>, len: nat)
    requires ByteChars(key) && |key| < WORD && Agree(b, Le(|key|, 4) + (ToBytes(key) + y)) && len + 4 + |key| < WORD
    ensures var n := 4 + |key|;
      match Checked([Bytes(4), Bytes(|key|)], |b|, len)
      case Some(f) => TakeString(b, len) == Failed(f) && Checked([Bytes(4), Bytes(|key|)] + more, |b|, len) == Some(f)
      case None =>
        && n <= |b| && TakeString(b, len) == Got(key, b[n..], len + n) && Agree(b[n..], y)
        && Checked([Bytes(4), Bytes(|key|)] + more, |b|, len) == Checked(more, |b| - n, len + n)
  {
    hide Take, TakeU32, Le, ToBytes, FromBytes, ByteChars, Agree;
    var steps := [Bytes(4), Bytes(|key|)];
    CheckedAppend(steps, more, |b|, len);
    assert steps[1..] == [Bytes(|key|)] && steps[1..][1..] == [];
    assert Total(steps[1..][1..]) == 0;
    assert Checked(steps, |b|, len) ==
      if len < 4 then Some(Corrupted) else if |b| < 4 then Some(Overrun) else Checked([Bytes(|key|)], |b| - 4, len + 4);
    assert [Bytes(|key|)][1..] == [];
    TakeU32Step(b, |key|, ToBytes(key) + y, len);
    if 4 <= |b| && 4 <= len {
      TakeStep(b[4..], ToBytes(key), y, len + 4);
      BytesBack(key);
      if |key| <= |b| - 4 && |key| <= len + 4 {
        assert b[4..][|key|..] == b[4 + |key|..];
        assert Checked([Bytes(|key|)], |b| - 4, len + 4) == None;
        StringAfterLength(b, len, |key|, b[4..], ToBytes(key), b[4 + |key|..]);
      } else {
        StringCutShort(b, len, |key|, b[4..]);
      }
    }
  }

  lemma StringCutShort(b: seq<byte>, len: nat, n: nat, rest: seq<byte>)
    requires TakeU32(b, len) == Got(n, rest, len + 4) && Take(rest, len + 4, n).Failed?
    ensures TakeString(b, len) == Failed(Take(rest, len + 4, n).failure)
  {
    hide Take, TakeU32;
  }

  lemma {:induction false} EntriesSteps(acc: seq<Entry>, es: seq<Entry>, b: seq<byte>, len: nat)
    requires EntriesFit(es)
    requires Agree(b, EncodedEntries(es)) && len + |EncodedEntries(es)| < WORD
    ensures Reads(ParseEntries(b, len, |es|, acc), Checked(EntrySteps(es), |b|, len), Dict(SettledEntries(acc, es)), |EncodedEntries(es)|, b, len)
    decreases es, 0
  {
    hide Parse, Encoded, Fits, Steps, TakeString, Sorted, Le, ToBytes, ByteChars, Agree, Checked, EncodedEntries, EncodedEntry, EntrySteps, Insert;
    if es == [] {
      NoEntries(acc, b, len);
    } else {
      var e := es[0];
      var n, v, more := 4 + |e.key|, Encoded(e.value), EncodedEntries(es[1..]);
      FirstEncoded(es);
      KeySteps(e.key, v + more, Steps(e.value) + EntrySteps(es[1..]), b, len);
      if Checked([Bytes(4), Bytes(|e.key|)], |b|, len) == None {
        var b' := b[n..];
        ValueSteps(e.value, more, EntrySteps(es[1..]), b', len + n);
        if Checked(Steps(e.value), |b'|, len + n) == None {
          EntriesSteps(Insert(acc, e.key, Settled(e.value)), es[1..], b'[|v|..], len + n + |v|);
          assert n + |v| + |more| <= |b| ==> b'[|v|..][|more|..] == b[n + |v| + |more|..];
        }
      }
    }
  }

  lemma NoEntries(acc: seq<Entry>, b: seq<byte>, len: nat)
    ensures Reads(ParseEntries(b, len, 0, acc), Checked(EntrySteps([]), |b|, len), Dict(SettledEntries(acc, [])), |EncodedEntries([])|, b, len)
  {
    assert acc + [] == acc && b[0..] == b;
  }

  lemma FirstEncoded(es: seq<Entry>)
    requires EntriesFit(es)
    requires es != []
    ensures EncodedEntries(es)
      == Le(|es[0].key|, 4) + (ToBytes(es[0].key) + (Encoded(es[0].value) + EncodedEntries(es[1..])))
    ensures EntrySteps(es) == [Bytes(4), Bytes(|es[0].key|)] + (Steps(es[0].value) + EntrySteps(es[1..]))
  {
    hide Le, ToBytes, Encoded, Steps, Fits, ByteChars;
    var more := EncodedEntries(es[1..]);
    assert EncodedEntries(es) == EncodedEntry(es[0]) + more;
    Nested(Le(|es[0].key|, 4), ToBytes(es[0].key), Encoded(es[0].value), more);
  }

  lemma Nested(a: seq<byte>, b: seq<byte>, c: seq<byte>, d: seq<byte>)
    ensures a + b + c + d == a + (b + (c + d))
  {}

  /** A value with more bytes after it, and the steps after its own. */
  lemma {:induction false} ValueSteps(n: Node, y: seq<byte>, more: seq<Step>, b: seq<byte>, len: nat)
    requires Fits(n) && Agree(b, Encoded(n) + y) && len + |Encoded(n)| < WORD
    ensures Reads(Parse(b, len), Checked(Steps(n), |b|, len), Settled(n), |Encoded(n)|, b, len)
    ensures match Checked(Steps(n), |b|, len)
      case Some(f) => Checked(Steps(n) + more, |b|, len) == Some(f)
      case None =>
        && |Encoded(n)| <= |b| && Agree(b[|Encoded(n)|..], y)
        && Checked(Steps(n) + more, |b|, len) == Checked(more, |b| - |Encoded(n)|, len + |Encoded(n)|)
    decreases n, 3
  {
    hide Parse, Encoded, Fits, Steps, Agree;
    CutAgree(b, Encoded(n), y);
    EncodedSteps(n, b, len);
    CheckedAppend(Steps(n), more, |b|, len);
    if Checked(Steps(n), |b|, len) == None { StepsTotal(n, |b|, len); }
  }

  // ---------------------------------------------------------------- which trees are refused

  lemma {:induction false} TotalAppend(a: seq<Step>, b: seq<Step>)
    ensures Total(a + b) == Total(a) + Total(b)
  {
    if a == [] { assert a + b == b; } else {
      assert (a + b)[1..] == a[1..] + b;
      TotalAppend(a[1..], b);
    }
  }

  /** The steps of a tree take its bytes one after the other, and refuse it exactly when it is over the limits. */
  lemma {:induction false} StepsAreBytes(n: Node)
    requires Fits(n)
    ensures Limited(n) <==> Refusal !in Steps(n)
    ensures Total(Steps(n)) <= |Encoded(n)|
    ensures Limited(n) ==> Total(Steps(n)) == |Encoded(n)|
    decreases n, 1
  {
    hide Le, ToBytes, ToI64, DoubleBytes, EncodedItems, EncodedEntries, ItemSteps, EntrySteps;
    match n
    case Int(i) => HeadTotal([Bytes(1)], [Bytes(8)]);
    case Float(f) => HeadTotal([Bytes(1)], [Bytes(8)]);
    case Bool(b) => HeadTotal([Bytes(1)], []);
    case Str(s) => HeadTotal([Bytes(1), Bytes(4)], if |s| > MAX_STRING then [Refusal] else [Bytes(|s|)]);
    case Array(items) =>
      ArrayFacts(items);
      ItemsAreBytes(items);
      HeadTotal([Bytes(1), Bytes(4)], if |items| > MAX_ITEMS then [Refusal] else ItemSteps(items));
    case Dict(es) =>
      DictFacts(es);
      EntriesAreBytes(es);
      HeadTotal([Bytes(1), Bytes(4)], if |es| > MAX_ITEMS then [Refusal] else EntrySteps(es));
  }

  lemma HeadTotal(head: seq<Step>, more: seq<Step>)
    requires 1 <= |head| <= 2 && forall s :: s in head ==> s.Bytes?
    ensures Total(head + more) == head[0].n + (if |head| == 2 then head[1].n else 0) + Total(more)
    ensures Refusal in head + more <==> Refusal in more
    ensures |more| == 1 ==> Total(more) == if more[0].Bytes? then more[0].n else 0
    ensures more == [] ==> Total(more) == 0
    ensures head + [] == head
  {
    TotalAppend(head, more);
    assert |head| == 2 ==> head[1..][1..] == [];
    assert |more| == 1 ==> more[1..] == [];
    assert |head| == 1 ==> head[1..] == [];
  }

  lemma {:induction false} ItemsAreBytes(items: seq<Node>)
    requires forall i :: 0 <= i < |items| ==> Fits(items[i])
    ensures (forall i :: 0 <= i < |items| ==> Limited(items[i])) <==> Refusal !in ItemSteps(items)
    ensures Total(ItemSteps(items)) <= |EncodedItems(items)|
    ensures (forall i :: 0 <= i < |items| ==> Limited(items[i])) ==> Total(ItemSteps(items)) == |EncodedItems(items)|
    decreases items, 0
  {
    hide Fits, Encoded, Steps, Limited;
    if items != [] {
      StepsAreBytes(items[0]);
      ItemsAreBytes(items[1..]);
      TotalAppend(Steps(items[0]), ItemSteps(items[1..]));
      assert (forall i :: 0 <= i < |items| ==> Limited(items[i]))
        <==> Limited(items[0]) && forall i :: 0 <= i < |items[1..]| ==> Limited(items[1..][i]);
    }
  }

  lemma {:induction false} EntriesAreBytes(es: seq<Entry>)
    requires EntriesFit(es)
    ensures (forall i :: 0 <= i < |es| ==> Limited(es[i].value)) <==> Refusal !in EntrySteps(es)
    ensures Total(EntrySteps(es)) <= |EncodedEntries(es)|
    ensures (forall i :: 0 <= i < |es| ==> Limited(es[i].value)) ==> Total(EntrySteps(es)) == |EncodedEntries(es)|
    decreases es, 0
  {
    hide Fits, Encoded, Steps, Limited, Le, ToBytes;
    if es != [] {
      StepsAreBytes(es[0].value);
      EntriesAreBytes(es[1..]);
      TotalAppend(Steps(es[0].value), EntrySteps(es[1..]));
      HeadTotal([Bytes(4), Bytes(|es[0].key|)], Steps(es[0].value) + EntrySteps(es[1..]));
      assert (forall i :: 0 <= i < |es| ==> Limited(es[i].value))
        <==> Limited(es[0].value) && forall i :: 0 <= i < |es[1..]| ==> Limited(es[1..][i].value);
    }
  }

  lemma {:induction false} CheckedNone(steps: seq<Step>, size: nat, len: nat)
    requires Checked(steps, size, len) == None
    ensures Refusal !in steps
    decreases |steps|
  {
    if steps != [] { CheckedNone(steps[1..], size - steps[0].n, len + steps[0].n); }
  }

  lemma StepsTotal(n: Node, size: nat, len: nat)
    requires Fits(n) && Checked(Steps(n), size, len) == None
    ensures Total(Steps(n)) == |Encoded(n)|
  {
    CheckedNone(Steps(n), size, len);
    StepsAreBytes(n);
  }

  lemma {:induction false} EnoughBytes(steps: seq<Step>, size: nat, len: nat)
    requires Total(steps) <= size && Total(steps) <= len
    ensures Checked(steps, size, len) == if Refusal in steps then Some(Rejected) else None
    decreases |steps|
  {
    if steps != [] && steps[0].Bytes? { EnoughBytes(steps[1..], size - steps[0].n, len + steps[0].n); }
  }

  // ---------------------------------------------------------------- the theorems

  /** Reading an encoded tree, followed by anything, gives the tree, the bytes after it, and the length
      grown by what was read; or a rejection, exactly when the tree is over the limits. */
  lemma EncodedIsRead(n: Node, tail: seq<byte>, len: nat)
    requires Fits(n) && |Encoded(n)| <= len && len + |Encoded(n)| < WORD
    ensures Parse(Encoded(n) + tail, len) == if Limited(n) then Got(Settled(n), tail, len + |Encoded(n)|) else Failed(Rejected)
  {
    hide Parse, Encoded, Fits, Limited, Steps;
    var b := Encoded(n) + tail;
    EncodedSteps(n, b, len);
    StepsAreBytes(n);
    EnoughBytes(Steps(n), |b|, len);
    assert b[|Encoded(n)|..] == tail;
  }

  /** A tree that is cut short anywhere is never read as a tree; what its steps run into says how it fails. */
  lemma TruncatedTreeFails(n: Node, k: nat)
    requires Fits(n) && k < |Encoded(n)| && k + |Encoded(n)| < WORD
    ensures var end := Checked(Steps(n), k, k);
      end.Some? && Parse(Encoded(n)[..k], k) == Failed(end.value)
  {
    hide Parse, Encoded, Fits, Steps;
    EncodedSteps(n, Encoded(n)[..k], k);
  }

  /** The step over the cut decides: it is noticed exactly when it wants more bytes than twice those
      before it and those it still has, because the length has grown where it should have shrunk. */
  lemma {:induction false} CutInStep(before: seq<Step>, m: nat, after: seq<Step>, k: nat)
    requires Refusal !in before && Total(before) <= k < Total(before) + m
    ensures Checked(before + [Bytes(m)] + after, k, k) == Some(if m > k + Total(before) then Corrupted else Overrun)
  {
    var rest := [Bytes(m)] + after;
    assert before + [Bytes(m)] + after == before + rest;
    EnoughBytes(before, k, k);
    CheckedAppend(before, rest, k, k);
  }

  /** An encoded integer cut to six bytes or fewer is noticed; of one cut to seven or eight, the missing
      bytes are taken from beyond. */
  lemma TruncatedInt(i: int, k: nat)
    requires IsInt64(i) && k < 9
    ensures Parse(Encoded(Int(i))[..k], k) == Failed(if k >= 7 then Overrun else Corrupted)
  {
    hide Parse;
    TruncatedTreeFails(Int(i), k);
    if k == 0 { CutInStep([], 1, [Bytes(8)], k); } else { CutInStep([Bytes(1)], 8, [], k); }
    assert [] + [Bytes(1)] + [Bytes(8)] == [Bytes(1), Bytes(8)] == [Bytes(1)] + [Bytes(8)] + [];
    assert Total([Bytes(1)][1..]) == 0;
  }
}
