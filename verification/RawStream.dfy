/** The binary reader, which moves through its bytes, and the writer, which appends to a buffer. */
module RawStream {
  import opened Bytes
  import opened ConfigTree
  import opened RawCodec

  /** A value, or what the reader throws or runs into. */
  datatype Outcome<+V> = Done(value: V) | Stopped(failure: Failure)

  class Reader {
    const data: seq<byte>
    var pos: nat
    var len: nat

    /** The length does not shrink as the reader moves on: it grows. */
    ghost predicate Valid()
      reads this
    {
      pos <= |data| && (2 * |data| < WORD ==> len == |data| + pos)
    }

    ghost function Rest(): seq<byte>
      reads this
      requires Valid()
    {
      data[pos..]
    }

    constructor (data: seq<byte>)
      ensures Valid() && Rest() == data && len == |data| % WORD
    {
      this.data := data;
      pos, len := 0, |data| % WORD;
    }

    /** Checks the length, lets it grow, and moves on. Because it grows, the check only stops a read that
        wants more than the bytes ahead and twice those behind; a shorter one runs over the end. */
    method ReadBytes(n: nat) returns (r: Outcome<seq<byte>>)
      requires Valid()
      modifies this
      ensures Valid()
      ensures 2 * |data| < WORD ==> (r == Stopped(Corrupted) <==> n > |data| + old(pos))
      ensures 2 * |data| < WORD ==> (r == Stopped(Overrun) <==> |data| - old(pos) < n <= |data| + old(pos))
      ensures match Take(old(Rest()), old(len), n)
        case Got(v, rest, l) => r == Done(v) && Rest() == rest && len == l
        case Failed(f) => r == Stopped(f)
    {
      if len >= n {
        if pos + n > |data| { return Stopped(Overrun); }
        if 2 * |data| < WORD { SmallMod(len + n, WORD); }
        len := (len + n) % WORD;
        assert data[pos..pos + n] == old(Rest())[..n] && data[pos + n..] == old(Rest())[n..];
        r := Done(data[pos..pos + n]);
        pos := pos + n;
      } else {
        return Stopped(Corrupted);
      }
    }

    method ReadU32() returns (r: Outcome<nat>)
      requires Valid()
      modifies this
      ensures Valid()
      ensures match TakeU32(old(Rest()), old(len))
        case Got(v, rest, l) => r == Done(v) && Rest() == rest && len == l
        case Failed(f) => r == Stopped(f)
    {
      var b := ReadBytes(4);
      if b.Stopped? { return Stopped(b.failure); }
      return Done(FromLe(b.value));
    }

    method ReadText() returns (r: Outcome<string>)
      requires Valid()
      modifies this
      ensures Valid()
      ensures match TakeString(old(Rest()), old(len))
        case Got(v, rest, l) => r == Done(v) && Rest() == rest && len == l
        case Failed(f) => r == Stopped(f)
    {
      var n := ReadU32();
      if n.Stopped? { return Stopped(n.failure); }
      var b := ReadBytes(n.value);
      if b.Stopped? { return Stopped(b.failure); }
      return Done(FromBytes(b.value));
    }

    method Parse() returns (r: Outcome<Node>)
      requires Valid()
      modifies this
      ensures Valid()
      ensures match RawCodec.Parse(old(Rest()), old(len))
        case Got(v, rest, l) => r == Done(v) && Rest() == rest && len == l
        case Failed(f) => r == Stopped(f)
      decreases |Rest()|, 2
    {
      hide Take, FromI64, DoubleOf, RawCodec.ParseDict, RawCodec.ParseArray, RawCodec.ParseString;
      var id := ReadBytes(1);
      if id.Stopped? { return Stopped(id.failure); }
      if id.value[0] == DICT {
        r := ParseDict();
      } else if id.value[0] == ARRAY {
        r := ParseArray();
      } else if id.value[0] == INT {
        var v := ReadBytes(8);
        if v.Stopped? { return Stopped(v.failure); }
        r := Done(Int(FromI64(v.value)));
      } else if id.value[0] == STRING {
        r := ParseString();
      } else if id.value[0] == FLOAT {
        var v := ReadBytes(8);
        if v.Stopped? { return Stopped(v.failure); }
        r := Done(Float(DoubleOf(v.value)));
      } else if id.value[0] == BOOL_T {
        r := Done(Bool(true));
      } else if id.value[0] == BOOL_F {
        r := Done(Bool(false));
      } else {
        r := Stopped(Rejected);
      }
    }

    method ParseString() returns (r: Outcome<Node>)
      requires Valid()
      modifies this
      ensures Valid()
      ensures match RawCodec.ParseString(old(Rest()), old(len))
        case Got(v, rest, l) => r == Done(v) && Rest() == rest && len == l
        case Failed(f) => r == Stopped(f)
    {
      hide Take, TakeU32;
      var n := ReadU32();
      if n.Stopped? { return Stopped(n.failure); }
      if n.value > MAX_STRING { return Stopped(Rejected); }
      if n.value == 0 { return Done(Str("")); }
      var b := ReadBytes(n.value);
      if b.Stopped? { return Stopped(b.failure); }
      return Done(Str(FromBytes(b.value)));
    }

    method ParseArray() returns (r: Outcome<Node>)
      requires Valid()
      modifies this
      ensures Valid()
      ensures match RawCodec.ParseArray(old(Rest()), old(len))
        case Got(v, rest, l) => r == Done(v) && Rest() == rest && len == l
        case Failed(f) => r == Stopped(f)
      decreases |Rest()|, 1
    {
      hide TakeU32, RawCodec.Parse;
      var nb := ReadU32();
      if nb.Stopped? { return Stopped(nb.failure); }
      if nb.value > MAX_ITEMS { return Stopped(Rejected); }
      var items: seq<Node> := [];
      for i := 0 to nb.value
        invariant Valid() && |Rest()| < |old(Rest())|
        invariant ParseItems(Rest(), len, nb.value - i, items) == RawCodec.ParseArray(old(Rest()), old(len))
      {
        var value := Parse();
        if value.Stopped? { return value; }
        items := items + [value.value];
      }
      return Done(Array(items));
    }

    method ParseDict() returns (r: Outcome<Node>)
      requires Valid()
      modifies this
      ensures Valid()
      ensures match RawCodec.ParseDict(old(Rest()), old(len))
        case Got(v, rest, l) => r == Done(v) && Rest() == rest && len == l
        case Failed(f) => r == Stopped(f)
      decreases |Rest()|, 1
    {
      hide TakeU32, TakeString, RawCodec.Parse, Insert;
      var nb := ReadU32();
      if nb.Stopped? { return Stopped(nb.failure); }
      if nb.value > MAX_ITEMS { return Stopped(Rejected); }
      var dict: seq<Entry> := [];
      for i := 0 to nb.value
        invariant Valid() && |Rest()| < |old(Rest())|
        invariant ParseEntries(Rest(), len, nb.value - i, dict) == RawCodec.ParseDict(old(Rest()), old(len))
      {
        var key := ReadText();
        if key.Stopped? { return Stopped(key.failure); }
        var value := Parse();
        if value.Stopped? { return value; }
        dict := Insert(dict, key.value, value.value);
      }
      return Done(Dict(dict));
    }
  }

  class Writer {
    var bytes: seq<byte>

    constructor ()
      ensures bytes == []
    {
      bytes := [];
    }

    method Put(b: seq<byte>)
      modifies this
      ensures bytes == old(bytes) + b
    {
      bytes := bytes + b;
    }

    method Dump(n: Node)
      requires Fits(n)
      modifies this
      ensures bytes == old(bytes) + Encoded(n)
      decreases n, 1
    {
      hide Le, ToI64, DoubleBytes, EncodedItems, EncodedEntries, Sorted, ToBytes;
      match n {
        case Dict(es) => DumpDict(es);
        case Array(items) => DumpArray(items);
        case Int(i) =>
          Put([INT]);
          Put(ToI64(i));
          Joined(old(bytes), [INT], ToI64(i), []);
        case Float(f) =>
          Put([FLOAT]);
          Put(DoubleBytes(f));
          Joined(old(bytes), [FLOAT], DoubleBytes(f), []);
        case Str(s) =>
          Put([STRING]);
          Put(Le(|s|, 4));
          Put(ToBytes(s));
          Joined(old(bytes), [STRING], Le(|s|, 4), ToBytes(s));
        case Bool(b) => if b { Put([BOOL_T]); } else { Put([BOOL_F]); }
      }
    }

    method DumpArray(items: seq<Node>)
      requires Fits(Array(items))
      modifies this
      ensures bytes == old(bytes) + Encoded(Array(items))
      decreases items, 0
    {
      hide Le, EncodedItems, Encoded, Fits;
      ArrayFacts(items);
      Put([ARRAY]);
      Put(Le(|items|, 4));
      ghost var base := bytes;
      ghost var done: seq<byte> := [];
      assert items[0..] == items && base + done == base && done + EncodedItems(items) == EncodedItems(items);
      for i := 0 to |items|
        invariant bytes == base + done && done + EncodedItems(items[i..]) == EncodedItems(items)
      {
        Dump(items[i]);
        ItemsStep(items, i);
        Moved(done, Encoded(items[i]), EncodedItems(items[i + 1..]), base);
        done := done + Encoded(items[i]);
      }
      NoItems(items[|items|..]);
      assert done + [] == done;
      Joined(old(bytes), [ARRAY], Le(|items|, 4), EncodedItems(items));
    }

    method DumpDict(es: seq<Entry>)
      requires Fits(Dict(es))
      modifies this
      ensures bytes == old(bytes) + Encoded(Dict(es))
      decreases es, 0
    {
      hide Le, EncodedEntries, EncodedEntry, Encoded, Fits, Sorted;
      DictFacts(es);
      Put([DICT]);
      Put(Le(|es|, 4));
      ghost var base := bytes;
      ghost var done: seq<byte> := [];
      assert es[0..] == es && base + done == base && done + EncodedEntries(es) == EncodedEntries(es);
      for i := 0 to |es|
        invariant bytes == base + done && done + EncodedEntries(es[i..]) == EncodedEntries(es)
      {
        DumpEntry(es[i]);
        EntriesStep(es, i);
        Moved(done, EncodedEntry(es[i]), EncodedEntries(es[i + 1..]), base);
        done := done + EncodedEntry(es[i]);
      }
      NoEntries(es[|es|..]);
      assert done + [] == done;
      Joined(old(bytes), [DICT], Le(|es|, 4), EncodedEntries(es));
    }

    method DumpEntry(e: Entry)
      requires ByteChars(e.key) && |e.key| < WORD && Fits(e.value)
      modifies this
      ensures bytes == old(bytes) + EncodedEntry(e)
      decreases e, 2
    {
      hide Le, ToBytes, Encoded, Fits;
      Put(Le(|e.key|, 4));
      Put(ToBytes(e.key));
      Dump(e.value);
      Joined(old(bytes), Le(|e.key|, 4), ToBytes(e.key), Encoded(e.value));
    }
  }

  lemma Joined(a: seq<byte>, b: seq<byte>, c: seq<byte>, d: seq<byte>)
    ensures a + b + c + d == a + (b + c + d)
    ensures a + b + c == a + (b + c)
  {}

  lemma Moved(done: seq<byte>, step: seq<byte>, left: seq<byte>, base: seq<byte>)
    ensures (done + step) + left == done + (step + left)
    ensures (base + done) + step == base + (done + step)
  {}

  lemma ItemsStep(items: seq<Node>, i: nat)
    requires i < |items| && forall j :: 0 <= j < |items| ==> Fits(items[j])
    ensures EncodedItems(items[i..]) == Encoded(items[i]) + EncodedItems(items[i + 1..])
  {
    assert items[i..][1..] == items[i + 1..];
  }

  lemma NoItems(items: seq<Node>)
    requires items == []
    ensures EncodedItems(items) == []
  {}

  lemma EntriesStep(es: seq<Entry>, i: nat)
    requires i < |es| && EntriesFit(es)
    ensures EncodedEntries(es[i..]) == EncodedEntry(es[i]) + EncodedEntries(es[i + 1..])
  {
    assert es[i..][1..] == es[i + 1..];
  }

  lemma NoEntries(es: seq<Entry>)
    requires es == []
    ensures EncodedEntries(es) == []
  {}
}
