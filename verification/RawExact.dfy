/** The bytes the binary reader takes for a tree are those that encode one, and no others. */
module RawExact {
  import opened Bytes
  import opened ConfigTree
  import opened Options
  import opened RawCodec
  import opened RawReading

  // ---------------------------------------------------------------- numbers and strings as they were written

  lemma {:induction false} LeOfFromLe(b: seq<byte>)
    ensures Le(FromLe(b), |b|) == b
  {
    if b != [] {
      LeOfFromLe(b[1..]);
      assert FromLe(b) % 256 == b[0] && FromLe(b) / 256 == FromLe(b[1..]);
    }
  }

  lemma WordRead(b: seq<byte>)
    requires |b| == 4
    ensures FromLe(b) < WORD && Le(FromLe(b), 4) == b
  {
    hide Le, FromLe;
    LeOfFromLe(b);
    FromLeBound(b);
    Pow256Of4();
  }

  lemma LongRead(b: seq<byte>)
    requires |b| == 8
    ensures IsInt64(FromI64(b)) && ToI64(FromI64(b)) == b
  {
    hide Le, FromLe;
    LeOfFromLe(b);
    FromLeBound(b);
    Pow256Of8();
  }

  lemma CharsRead(b: seq<byte>)
    ensures ByteChars(FromBytes(b)) && ToBytes(FromBytes(b)) == b
  {}

  /** Taking bytes without a wrap of the length. */
  lemma TakeGot(b: seq<byte>, len: nat, n: nat)
    requires Take(b, len, n).Got? && len + |b| < WORD
    ensures var r := Take(b, len, n);
      n <= |b| && b == r.value + r.rest && |r.value| == n && r.len == len + n && r.len + |r.rest| == len + |b|
  {
    SmallMod(len + n, WORD);
  }

  lemma TakeU32Got(b: seq<byte>, len: nat)
    requires TakeU32(b, len).Got? && len + |b| < WORD
    ensures var r := TakeU32(b, len);
      r.value < WORD && b == Le(r.value, 4) + r.rest && r.len == len + 4 && r.len + |r.rest| == len + |b|
  {
    hide Take, Le, FromLe;
    TakeGot(b, len, 4);
    WordRead(Take(b, len, 4).value);
  }

  // ---------------------------------------------------------------- what was read was encoded

  /** The tree `n` was encoded at the start of `b`, and `r` is what it is read as. */
  ghost predicate Decodes(n: Node, b: seq<byte>, len: nat, r: Read<Node>) {
    && Fits(n) && Limited(n) && r.Got? && r.value == Settled(n)
    && b == Encoded(n) + r.rest && r.len == len + |Encoded(n)|
  }

  lemma {:induction false} ReadIsEncoded(b: seq<byte>, len: nat) returns (n: Node)
    requires Parse(b, len).Got? && len + |b| < WORD
    ensures Decodes(n, b, len, Parse(b, len))
    decreases |b|, 2
  {
    hide Take, TakeU32, Le, FromLe, FromI64, ToI64, ParseArray, ParseDict, ParseString;
    TakeGot(b, len, 1);
    var id := Take(b, len, 1);
    assert id.value == [id.value[0]];
    if id.value[0] == DICT {
      n := DictEncoded(id.rest, id.len);
      assert b == [DICT] + (Encoded(n)[1..] + Parse(b, len).rest);
      assert Encoded(n) == [DICT] + Encoded(n)[1..];
    } else if id.value[0] == ARRAY {
      n := ArrayEncoded(id.rest, id.len);
      assert b == [ARRAY] + (Encoded(n)[1..] + Parse(b, len).rest);
      assert Encoded(n) == [ARRAY] + Encoded(n)[1..];
    } else if id.value[0] == STRING {
      n := StringEncoded(id.rest, id.len);
      assert b == [STRING] + (Encoded(n)[1..] + Parse(b, len).rest);
      assert Encoded(n) == [STRING] + Encoded(n)[1..];
    } else {
      n := LeafEncoded(b, len);
    }
  }

  lemma LeafEncoded(b: seq<byte>, len: nat) returns (n: Node)
    requires Parse(b, len).Got? && len + |b| < WORD && |b| > 0 && b[0] !in [DICT, ARRAY, STRING]
    ensures Decodes(n, b, len, Parse(b, len))
  {
    hide Take, Le, FromLe, FromI64, ToI64;
    TakeGot(b, len, 1);
    var id := Take(b, len, 1);
    assert id.value == [b[0]];
    if b[0] == INT || b[0] == FLOAT {
      TakeGot(id.rest, id.len, 8);
      var v := Take(id.rest, id.len, 8);
      LongRead(v.value);
      n := if b[0] == INT then Int(FromI64(v.value)) else Float(DoubleOf(v.value));
      assert DoubleBytes(DoubleOf(v.value)) == v.value;
      assert b == [b[0]] + v.value + v.rest;
    } else {
      n := Bool(b[0] == BOOL_T);
      assert b == [b[0]] + id.rest;
    }
  }

  /** After the tag: the rest of a value with the tag `tag`. */
  ghost predicate DecodesTail(n: Node, tag: byte, b: seq<byte>, len: nat, r: Read<Node>) {
    && Fits(n) && Limited(n) && r.Got? && r.value == Settled(n) && Encoded(n)[0] == tag
    && b == Encoded(n)[1..] + r.rest && r.len == len + |Encoded(n)| - 1
  }

  lemma StringEncoded(b: seq<byte>, len: nat) returns (n: Node)
    requires ParseString(b, len).Got? && len + |b| < WORD
    ensures DecodesTail(n, STRING, b, len, ParseString(b, len))
  {
    hide Take, TakeU32, Le, FromBytes, ToBytes;
    TakeU32Got(b, len);
    var size := TakeU32(b, len);
    if size.value == 0 {
      n := Str("");
      assert ToBytes("") == [];
      assert Encoded(n)[1..] == Le(0, 4) + [];
    } else {
      TakeGot(size.rest, size.len, size.value);
      var v := Take(size.rest, size.len, size.value);
      CharsRead(v.value);
      n := Str(FromBytes(v.value));
      assert Encoded(n)[1..] == Le(size.value, 4) + v.value;
      assert b == Le(size.value, 4) + v.value + v.rest;
    }
  }

  lemma {:induction false} ArrayEncoded(b: seq<byte>, len: nat) returns (n: Node)
    requires ParseArray(b, len).Got? && len + |b| < WORD
    ensures DecodesTail(n, ARRAY, b, len, ParseArray(b, len))
    decreases |b|, 1
  {
    hide Take, TakeU32, Le, ParseItems, EncodedItems, SettledItems, Encoded, Fits, Limited, Settled;
    TakeU32Got(b, len);
    var size := TakeU32(b, len);
    var items := ItemsEncoded(size.rest, size.len, size.value, []);
    n := Array(items);
    assert [] + SettledItems(items) == SettledItems(items);
    ArrayBytes(items);
    var tail := ParseArray(b, len).rest;
    assert Le(size.value, 4) + (EncodedItems(items) + tail) == Le(size.value, 4) + EncodedItems(items) + tail;
  }

  lemma ArrayBytes(items: seq<Node>)
    requires |items| <= MAX_ITEMS && forall i :: 0 <= i < |items| ==> Fits(items[i]) && Limited(items[i])
    ensures Fits(Array(items)) && Limited(Array(items)) && Settled(Array(items)) == Array(SettledItems(items))
    ensures var x := Encoded(Array(items)); x[0] == ARRAY && x[1..] == Le(|items|, 4) + EncodedItems(items)
  {
    hide Le, EncodedItems, SettledItems;
    assert Fits(Array(items));
    ArrayFacts(items);
    hide Fits, Limited, Encoded, Settled;
    TagAndRest(ARRAY, Le(|items|, 4), EncodedItems(items));
  }

  lemma TagAndRest(tag: byte, a: seq<byte>, b: seq<byte>)
    ensures var x := [tag] + a + b; x[0] == tag && x[1..] == a + b
  {}

  lemma {:induction false} ItemsEncoded(b: seq<byte>, len: nat, k: nat, acc: seq<Node>) returns (items: seq<Node>)
    requires ParseItems(b, len, k, acc).Got? && len + |b| < WORD
    ensures |items| == k && forall i :: 0 <= i < k ==> Fits(items[i]) && Limited(items[i])
    ensures var r := ParseItems(b, len, k, acc);
      && r.value == Array(acc + SettledItems(items))
      && b == EncodedItems(items) + r.rest && r.len == len + |EncodedItems(items)|
    decreases |b|, 3, k
  {
    hide Parse, Encoded, Fits, Limited, Settled;
    if k == 0 {
      items := [];
      assert acc + [] == acc;
    } else {
      var n := ReadIsEncoded(b, len);
      var p := Parse(b, len);
      var more := ItemsEncoded(p.rest, p.len, k - 1, acc + [p.value]);
      items := [n] + more;
      assert items[1..] == more;
      assert acc + [p.value] + SettledItems(more) == acc + SettledItems(items);
      assert EncodedItems(items) == Encoded(n) + EncodedItems(more);
    }
  }

  lemma {:induction false} DictEncoded(b: seq<byte>, len: nat) returns (n: Node)
    requires ParseDict(b, len).Got? && len + |b| < WORD
    ensures DecodesTail(n, DICT, b, len, ParseDict(b, len))
    decreases |b|, 1
  {
    hide Take, TakeU32, Le, ParseEntries, EncodedEntries, SettledEntries;
    TakeU32Got(b, len);
    var size := TakeU32(b, len);
    var es := EntriesEncoded(size.rest, size.len, size.value, []);
    n := Dict(es);
    assert Encoded(n)[1..] == Le(size.value, 4) + EncodedEntries(es);
  }

  lemma {:induction false} EntriesEncoded(b: seq<byte>, len: nat, k: nat, acc: seq<Entry>) returns (es: seq<Entry>)
    requires ParseEntries(b, len, k, acc).Got? && len + |b| < WORD
    ensures |es| == k && EntriesFit(es) && forall i :: 0 <= i < k ==> Limited(es[i].value)
    ensures var r := ParseEntries(b, len, k, acc);
      && r.value == Dict(SettledEntries(acc, es))
      && b == EncodedEntries(es) + r.rest && r.len == len + |EncodedEntries(es)|
    decreases |b|, 3, k
  {
    hide Parse, TakeString, Encoded, Fits, Limited, Settled, Insert, Le, ToBytes, ByteChars;
    if k == 0 {
      es := [];
    } else {
      KeyRead(b, len);
      var key := TakeString(b, len);
      var n := ReadIsEncoded(key.rest, key.len);
      var p := Parse(key.rest, key.len);
      var more := EntriesEncoded(p.rest, p.len, k - 1, Insert(acc, key.value, p.value));
      es := [Entry(key.value, n)] + more;
      assert es[1..] == more;
      FirstEncoded(es);
      var a, c, d := Le(|key.value|, 4), ToBytes(key.value), Encoded(n);
      assert b == a + c + key.rest && key.rest == d + p.rest && p.rest == EncodedEntries(more) + ParseEntries(b, len, k, acc).rest;
      assert b == (a + (c + (d + EncodedEntries(more)))) + ParseEntries(b, len, k, acc).rest;
    }
  }

  lemma KeyRead(b: seq<byte>, len: nat)
    requires TakeString(b, len).Got? && len + |b| < WORD
    ensures var r := TakeString(b, len);
      && ByteChars(r.value) && |r.value| < WORD && b == Le(|r.value|, 4) + ToBytes(r.value) + r.rest
      && r.len == len + 4 + |r.value| && r.len + |r.rest| == len + |b|
  {
    hide Take, TakeU32, Le, FromBytes, ToBytes, ByteChars;
    TakeU32Got(b, len);
    var size := TakeU32(b, len);
    TakeGot(size.rest, size.len, size.value);
    CharsRead(Take(size.rest, size.len, size.value).value);
  }

  // ---------------------------------------------------------------- the theorem

  /** Some tree within the limits is encoded in front of `r.rest`, and is read as `r.value`. */
  ghost predicate IsDecoding(b: seq<byte>, r: Read<Node>) {
    exists n :: Decodes(n, b, |b|, r)
  }

  /** A message body is read as a tree exactly if it starts with an encoding of one, of which a dict may
      list its entries in any order and more than once. */
  lemma ReadExactlyEncodings(b: seq<byte>, r: Read<Node>)
    requires 2 * |b| < WORD && r.Got?
    ensures Parse(b, |b|) == r <==> IsDecoding(b, r)
  {
    hide Parse, Encoded, Fits, Limited, Settled;
    if Parse(b, |b|) == r {
      var n := ReadIsEncoded(b, |b|);
    }
    forall n | Decodes(n, b, |b|, r)
      ensures Parse(b, |b|) == r
    {
      EncodedIsRead(n, r.rest, |b|);
    }
  }
}
