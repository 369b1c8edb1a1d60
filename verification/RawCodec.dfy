/** The binary encoding of configuration trees: what is written, and what the reader makes of bytes. */
module RawCodec {
  import opened Bytes
  import opened ConfigTree
  import opened Options

  const DICT: byte := 1
  const ARRAY: byte := 2
  const INT: byte := 3
  const STRING: byte := 4
  const FLOAT: byte := 5
  const BOOL_T: byte := 6
  const BOOL_F: byte := 7

  /** Most items of a collection, and longest string value, the reader accepts. */
  const MAX_ITEMS: nat := 2048
  const MAX_STRING: nat := 1024 * 1024

  /** The two exceptions of the reader, and a read past the bytes there are. */
  datatype Failure = Corrupted | Rejected | Overrun

  /** A value, the bytes after it, and the length the reader believes in; or a failure. */
  datatype Read<+V> = Got(value: V, rest: seq<byte>, len: nat) | Failed(failure: Failure)

  // ---------------------------------------------------------------- strings and numbers

  predicate ByteChars(s: string) { forall i :: 0 <= i < |s| ==> s[i] as int < 256 }

  function ToBytes(s: string): (b: seq<byte>)
    requires ByteChars(s)
    ensures |b| == |s|
  {
    seq(|s|, i requires 0 <= i < |s| => s[i] as int)
  }

  function FromBytes(b: seq<byte>): (s: string)
    ensures |s| == |b|
  {
    seq(|b|, i requires 0 <= i < |b| => b[i] as char)
  }

  lemma BytesBack(s: string)
    requires ByteChars(s)
    ensures FromBytes(ToBytes(s)) == s
  {}

  const LONG: int := 0x1_0000_0000_0000_0000

  predicate IsInt64(i: int) { -LONG / 2 <= i < LONG / 2 }

  function ToI64(i: int): (b: seq<byte>)
    requires IsInt64(i)
    ensures |b| == 8
  {
    Le(if i < 0 then i + LONG else i, 8)
  }

  function FromI64(b: seq<byte>): int {
    var v: int := FromLe(b);
    if v >= LONG / 2 then v - LONG else v
  }

  lemma Pow256Of8()
    ensures Pow256(8) == LONG
  {
    Pow256Of4();
    assert Pow256(8) == 256 * 256 * 256 * 256 * Pow256(4) by {
      assert Pow256(8) == 256 * Pow256(7);
      assert Pow256(7) == 256 * Pow256(6);
      assert Pow256(6) == 256 * Pow256(5);
      assert Pow256(5) == 256 * Pow256(4);
    }
  }

  lemma I64Back(i: int)
    requires IsInt64(i)
    ensures FromI64(ToI64(i)) == i
  {
    var v: nat := if i < 0 then i + LONG else i;
    LeRead(v, 8);
    Pow256Of8();
    SmallMod(v, LONG);
  }

  lemma SmallMod(v: nat, m: nat)
    requires v < m
    ensures v % m == v
  {}

  lemma U32Back(v: nat)
    requires v < WORD
    ensures FromLe(Le(v, 4)) == v
  {
    LeRead(v, 4);
    Pow256Of4();
    SmallMod(v, WORD);
  }

  // ---------------------------------------------------------------- writing

  /** The trees whose parts fit their fields, whatever the order of the entries in their dicts. */
  ghost predicate Fits(n: Node)
    decreases n
  {
    match n
    case Int(i) => IsInt64(i)
    case Float(f) => true
    case Bool(b) => true
    case Str(s) => ByteChars(s) && |s| < WORD
    case Array(items) => |items| < WORD && forall i :: 0 <= i < |items| ==> Fits(items[i])
    case Dict(es) => |es| < WORD && EntriesFit(es)
  }

  ghost predicate EntriesFit(es: seq<Entry>)
    decreases es
  {
    forall i :: 0 <= i < |es| ==> ByteChars(es[i].key) && |es[i].key| < WORD && Fits(es[i].value)
  }

  /** The trees that can be sent: they fit, and their dicts are in the order of a map. */
  ghost predicate Encodable(n: Node): (e: bool)
    ensures e ==> Fits(n)
    decreases n
  {
    && Fits(n)
    && match n
       case Array(items) => forall i :: 0 <= i < |items| ==> Encodable(items[i])
       case Dict(es) => Sorted(es) && forall i :: 0 <= i < |es| ==> Encodable(es[i].value)
       case _ => true
  }

  /** The tree a reader builds, which stores the entries of a dict one after the other. */
  function Settled(n: Node): Node
    decreases n, 1
  {
    match n
    case Array(items) => Array(SettledItems(items))
    case Dict(es) => Dict(SettledEntries([], es))
    case _ => n
  }

  function SettledItems(items: seq<Node>): (r: seq<Node>)
    ensures |r| == |items|
    decreases items, 0
  {
    if items == [] then [] else [Settled(items[0])] + SettledItems(items[1..])
  }

  function SettledEntries(acc: seq<Entry>, es: seq<Entry>): seq<Entry>
    decreases es, 0
  {
    if es == [] then acc else SettledEntries(Insert(acc, es[0].key, Settled(es[0].value)), es[1..])
  }

  /** A tree that can be sent is built as it is. */
  lemma {:induction false} SettledIsSame(n: Node)
    requires Encodable(n)
    ensures Settled(n) == n
    decreases n, 1
  {
    hide Fits;
    if n.Array? {
      SameItems(n.items);
    } else if n.Dict? {
      assert [] + n.entries == n.entries;
      SameEntries([], n.entries);
    }
  }

  lemma {:induction false} SameItems(items: seq<Node>)
    requires forall i :: 0 <= i < |items| ==> Encodable(items[i])
    ensures SettledItems(items) == items
    decreases items, 0
  {
    hide Encodable, Settled;
    if items != [] {
      SettledIsSame(items[0]);
      SameItems(items[1..]);
    }
  }

  lemma {:induction false} SameEntries(acc: seq<Entry>, es: seq<Entry>)
    requires Sorted(acc + es) && forall i :: 0 <= i < |es| ==> Encodable(es[i].value)
    ensures SettledEntries(acc, es) == acc + es
    decreases es, 0
  {
    hide Encodable, Settled, Sorted, Insert;
    if es == [] {
      assert acc + es == acc;
    } else {
      SettledIsSame(es[0].value);
      StoredLast(acc, es);
      SameEntries(acc + [es[0]], es[1..]);
    }
  }

  ghost function Encoded(n: Node): (b: seq<byte>)
    requires Fits(n)
    ensures |b| >= 1
    decreases n, 1
  {
    match n
    case Int(i) => [INT] + ToI64(i)
    case Float(f) => [FLOAT] + DoubleBytes(f)
    case Bool(b) => [if b then BOOL_T else BOOL_F]
    case Str(s) => [STRING] + Le(|s|, 4) + ToBytes(s)
    case Array(items) => [ARRAY] + Le(|items|, 4) + EncodedItems(items)
    case Dict(es) => [DICT] + Le(|es|, 4) + EncodedEntries(es)
  }

  function DoubleBytes(f: Double): (b: seq<byte>)
    ensures |b| == 8
  {
    seq(8, i requires 0 <= i < 8 => f[i])
  }

  ghost function EncodedItems(items: seq<Node>): seq<byte>
    requires forall i :: 0 <= i < |items| ==> Fits(items[i])
    decreases items, 0
  {
    if items == [] then [] else Encoded(items[0]) + EncodedItems(items[1..])
  }

  ghost function EncodedEntries(es: seq<Entry>): seq<byte>
    requires EntriesFit(es)
    decreases es, 0
  {
    if es == [] then [] else EncodedEntry(es[0]) + EncodedEntries(es[1..])
  }

  ghost function EncodedEntry(e: Entry): seq<byte>
    requires ByteChars(e.key) && |e.key| < WORD && Fits(e.value)
    decreases e, 2
  {
    Le(|e.key|, 4) + ToBytes(e.key) + Encoded(e.value)
  }

  // ---------------------------------------------------------------- reading

  /** Takes `n` bytes. The reader checks them against a length that it lets grow with every read. */
  function Take(b: seq<byte>, len: nat, n: nat): (r: Read<seq<byte>>)
    ensures r.Got? ==> |r.value| == n && |r.rest| == |b| - n
  {
    if len < n then Failed(Corrupted)
    else if |b| < n then Failed(Overrun)
    else Got(b[..n], b[n..], (len + n) % WORD)
  }

  function TakeU32(b: seq<byte>, len: nat): (r: Read<nat>)
    ensures r.Got? ==> |r.rest| == |b| - 4
  {
    match Take(b, len, 4)
    case Failed(f) => Failed(f)
    case Got(v, rest, l) => Got(FromLe(v), rest, l)
  }

  /** A length in four bytes and as many characters. */
  function TakeString(b: seq<byte>, len: nat): (r: Read<string>)
    ensures r.Got? ==> |r.rest| <= |b|
  {
    match TakeU32(b, len)
    case Failed(f) => Failed(f)
    case Got(n, rest, l) =>
      match Take(rest, l, n)
      case Failed(f) => Failed(f)
      case Got(v, rest', l') => Got(FromBytes(v), rest', l')
  }

  function Parse(b: seq<byte>, len: nat): (r: Read<Node>)
    ensures r.Got? ==> |r.rest| < |b|
    decreases |b|, 2
  {
    match Take(b, len, 1)
    case Failed(f) => Failed(f)
    case Got(id, rest, l) =>
      if id[0] == DICT then ParseDict(rest, l)
      else if id[0] == ARRAY then ParseArray(rest, l)
      else if id[0] == INT then
        match Take(rest, l, 8) { case Failed(f) => Failed(f) case Got(v, r, l') => Got(Int(FromI64(v)), r, l') }
      else if id[0] == STRING then ParseString(rest, l)
      else if id[0] == FLOAT then
        match Take(rest, l, 8) { case Failed(f) => Failed(f) case Got(v, r, l') => Got(Float(DoubleOf(v)), r, l') }
      else if id[0] == BOOL_T then Got(Bool(true), rest, l)
      else if id[0] == BOOL_F then Got(Bool(false), rest, l)
      else Failed(Rejected)
  }

  function DoubleOf(v: seq<byte>): Double
    requires |v| == 8
  {
    seq(8, i requires 0 <= i < 8 => v[i])
  }

  function ParseString(b: seq<byte>, len: nat): (r: Read<Node>)
    ensures r.Got? ==> |r.rest| <= |b|
  {
    match TakeU32(b, len)
    case Failed(f) => Failed(f)
    case Got(n, rest, l) =>
      if n > MAX_STRING then Failed(Rejected)
      else if n == 0 then Got(Str(""), rest, l)
      else match Take(rest, l, n) { case Failed(f) => Failed(f) case Got(v, r, l') => Got(Str(FromBytes(v)), r, l') }
  }

  function ParseArray(b: seq<byte>, len: nat): (r: Read<Node>)
    ensures r.Got? ==> |r.rest| <= |b|
    decreases |b|, 1
  {
    match TakeU32(b, len)
    case Failed(f) => Failed(f)
    case Got(n, rest, l) => if n > MAX_ITEMS then Failed(Rejected) else ParseItems(rest, l, n, [])
  }

  function ParseItems(b: seq<byte>, len: nat, n: nat, acc: seq<Node>): (r: Read<Node>)
    ensures r.Got? ==> |r.rest| <= |b|
    decreases |b|, 3, n
  {
    if n == 0 then Got(Array(acc), b, len)
    else
      match Parse(b, len)
      case Failed(f) => Failed(f)
      case Got(v, rest, l) => ParseItems(rest, l, n - 1, acc + [v])
  }

  function ParseDict(b: seq<byte>, len: nat): (r: Read<Node>)
    ensures r.Got? ==> |r.rest| <= |b|
    decreases |b|, 1
  {
    match TakeU32(b, len)
    case Failed(f) => Failed(f)
    case Got(n, rest, l) => if n > MAX_ITEMS then Failed(Rejected) else ParseEntries(rest, l, n, [])
  }

  function ParseEntries(b: seq<byte>, len: nat, n: nat, acc: seq<Entry>): (r: Read<Node>)
    ensures r.Got? ==> |r.rest| <= |b|
    decreases |b|, 3, n
  {
    if n == 0 then Got(Dict(acc), b, len)
    else
      match TakeString(b, len)
      case Failed(f) => Failed(f)
      case Got(key, rest, l) =>
        match Parse(rest, l)
        case Failed(f) => Failed(f)
        case Got(v, rest', l') => ParseEntries(rest', l', n - 1, Insert(acc, key, v))
  }

  // ---------------------------------------------------------------- the round trip

  /** No collection and no string value is longer than the reader accepts. */
  ghost predicate Limited(n: Node)
    decreases n
  {
    match n
    case Int(i) => true
    case Float(f) => true
    case Bool(b) => true
    case Str(s) => |s| <= MAX_STRING
    case Array(items) => |items| <= MAX_ITEMS && forall i :: 0 <= i < |items| ==> Limited(items[i])
    case Dict(es) => |es| <= MAX_ITEMS && forall i :: 0 <= i < |es| ==> Limited(es[i].value)
  }

  lemma StringAfterLength(b: seq<byte>, len: nat, n: nat, rest: seq<byte>, v: seq<byte>, tail: seq<byte>)
    requires TakeU32(b, len) == Got(n, rest, len + 4) && Take(rest, len + 4, n) == Got(v, tail, len + 4 + n)
    ensures TakeString(b, len) == Got(FromBytes(v), tail, len + 4 + n)
  {
    hide Take, TakeU32, FromBytes;
  }

  lemma DoubleBack(f: Double)
    ensures DoubleOf(DoubleBytes(f)) == f
  {
    assert forall i :: 0 <= i < 8 ==> DoubleOf(DoubleBytes(f))[i] == f[i];
  }

  lemma ArrayFacts(items: seq<Node>)
    requires Fits(Array(items))
    ensures |items| < WORD && forall i :: 0 <= i < |items| ==> Fits(items[i])
    ensures Encoded(Array(items)) == [ARRAY] + Le(|items|, 4) + EncodedItems(items)
    ensures Limited(Array(items)) <==> |items| <= MAX_ITEMS && forall i :: 0 <= i < |items| ==> Limited(items[i])
  {
    hide Le, EncodedItems;
  }

  lemma DictFacts(es: seq<Entry>)
    requires Fits(Dict(es))
    ensures |es| < WORD && EntriesFit(es)
    ensures Encoded(Dict(es)) == [DICT] + Le(|es|, 4) + EncodedEntries(es)
    ensures Limited(Dict(es)) <==> |es| <= MAX_ITEMS && forall i :: 0 <= i < |es| ==> Limited(es[i].value)
  {
    hide Le, EncodedEntries;
  }

  lemma StoredLast(acc: seq<Entry>, es: seq<Entry>)
    requires es != [] && Sorted(acc + es)
    ensures Insert(acc, es[0].key, es[0].value) == acc + [es[0]] && acc + [es[0]] + es[1..] == acc + es
    ensures Sorted(acc + [es[0]] + es[1..])
  {
    var all := acc + es;
    assert all[|acc|] == es[0];
    forall i | 0 <= i < |acc|
      ensures Less(acc[i].key, es[0].key)
    {
      assert all[i] == acc[i];
    }
    InsertLast(acc, es[0].key, es[0].value);
    assert acc + [es[0]] + es[1..] == acc + es;
  }
}
