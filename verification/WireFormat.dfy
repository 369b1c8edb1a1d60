/** The bytes on the wire, written out: other implementations of the protocol must agree on them. */
module WireFormat {
  import opened Bytes
  import opened ConfigTree
  import opened Options
  import opened RawCodec
  import opened ActorMessages
  import opened Tickets

  /** Numbers go out with the lowest byte first. */
  lemma {:induction false} LowestFirst(v: nat, n: nat, k: nat)
    requires k < n
    ensures Le(v, n)[k] == v / Pow256(k) % 256
  {
    if k > 0 {
      LowestFirst(v / 256, n - 1, k - 1);
      DivDiv(v, 256, Pow256(k - 1));
    }
  }

  lemma DivDiv(v: nat, a: nat, b: nat)
    requires a > 0 && b > 0
    ensures a * b > 0 && v / a / b == v / (a * b)
  {
    var w := v / a;
    var q, r, s := w / b, w % b, v % a;
    DivMod(v, a);
    DivMod(w, b);
    Nested(a, b, q, r, s);
    DivModUnique(v, a * b, q, r * a + s);
  }

  lemma Nested(a: nat, b: nat, q: nat, r: nat, s: nat)
    requires r < b && s < a
    ensures (q * b + r) * a + s == q * (a * b) + (r * a + s) && r * a + s < a * b
  {
    assert (q * b + r) * a == q * (a * b) + r * a;
    assert a * b == (r + 1) * a + (b - r - 1) * a;
    assert (b - r - 1) * a >= 0;
  }

  /** The first byte says what kind of value follows. */
  lemma TagsAre(n: Node)
    requires Fits(n)
    ensures Encoded(n)[0] == match n
      case Dict(_) => 1
      case Array(_) => 2
      case Int(_) => 3
      case Str(_) => 4
      case Float(_) => 5
      case Bool(b) => if b then 6 else 7
  {}

  lemma {:induction false} AllOnes(k: nat)
    ensures Le(Pow256(k) - 1, k) == seq(k, _ => 255)
  {
    if k > 0 {
      var p := Pow256(k - 1);
      assert (256 * p - 1) / 256 == p - 1 && (256 * p - 1) % 256 == 255;
      AllOnes(k - 1);
    }
  }

  lemma {:induction false} Zeros(k: nat)
    ensures Le(0, k) == seq(k, _ => 0)
  {
    if k > 0 { Zeros(k - 1); }
  }

  /** A number below 256 is its own lowest byte. */
  lemma LowByte(v: nat, k: nat)
    requires v < 256 && k > 0
    ensures Le(v, k) == [v] + seq(k - 1, _ => 0)
  {
    hide Le;
    LeStep(v, k);
    Zeros(k - 1);
  }

  lemma SmallNumbers()
    ensures Le(1, 4) == [1, 0, 0, 0] && Le(2, 4) == [2, 0, 0, 0] && Le(5, 4) == [5, 0, 0, 0]
    ensures ToI64(258) == [2, 1, 0, 0, 0, 0, 0, 0]
  {
    hide Le;
    LowByte(1, 4);
    LowByte(2, 4);
    LowByte(5, 4);
    LeStep(258, 8);
    LowByte(1, 7);
  }

  lemma MinusTwo()
    ensures ToI64(-2) == [254, 255, 255, 255, 255, 255, 255, 255]
  {
    hide Pow256, Le;
    Pow256Of8();
    PowStep(7);
    AllOnes(7);
    LeStep(LONG - 2, 8);
  }

  lemma LeStep(v: nat, k: nat)
    requires k > 0
    ensures Le(v, k) == [v % 256] + Le(v / 256, k - 1)
  {}

  lemma PowStep(k: nat)
    ensures Pow256(k + 1) == 256 * Pow256(k)
  {}

  const SAMPLE_ITEMS := [Int(258), Str("hi"), Bool(true), Bool(false), Int(-2)]

  lemma ItemsStep(items: seq<Node>)
    requires items != [] && forall i :: 0 <= i < |items| ==> Fits(items[i])
    ensures EncodedItems(items) == Encoded(items[0]) + EncodedItems(items[1..])
  {}

  lemma SampleItems()
    ensures forall i :: 0 <= i < 5 ==> Fits(SAMPLE_ITEMS[i])
    ensures EncodedItems(SAMPLE_ITEMS) ==
      [3, 2, 1, 0, 0, 0, 0, 0, 0] + ([4, 2, 0, 0, 0, 104, 105] + ([6] + ([7] + [3, 254, 255, 255, 255, 255, 255, 255, 255])))
  {
    hide Le, ToI64, EncodedItems;
    var xs := SAMPLE_ITEMS;
    SampleValues();
    assert xs[1..] == [Str("hi"), Bool(true), Bool(false), Int(-2)];
    assert xs[1..][1..] == [Bool(true), Bool(false), Int(-2)];
    assert xs[1..][1..][1..] == [Bool(false), Int(-2)];
    assert xs[1..][1..][1..][1..] == [Int(-2)];
    ItemsStep(xs);
    ItemsStep(xs[1..]);
    ItemsStep(xs[1..][1..]);
    ItemsStep(xs[1..][1..][1..]);
    ItemsStep(xs[1..][1..][1..][1..]);
    assert xs[1..][1..][1..][1..][1..] == [];
    NoItems();
  }

  lemma SampleValues()
    ensures Fits(Int(258)) && Encoded(Int(258)) == [3, 2, 1, 0, 0, 0, 0, 0, 0]
    ensures Fits(Str("hi")) && Encoded(Str("hi")) == [4, 2, 0, 0, 0, 104, 105]
    ensures Fits(Int(-2)) && Encoded(Int(-2)) == [3, 254, 255, 255, 255, 255, 255, 255, 255]
  {
    hide Le, ToI64;
    SmallNumbers();
    MinusTwo();
    assert ToBytes("hi") == [104, 105];
  }

  lemma NoItems()
    ensures EncodedItems([]) == []
  {}

  lemma SampleArray()
    ensures Fits(Array(SAMPLE_ITEMS)) && Encoded(Array(SAMPLE_ITEMS)) == [2, 5, 0, 0, 0] + EncodedItems(SAMPLE_ITEMS)
  {
    hide EncodedItems, Le;
    SmallNumbers();
    SampleItems();
  }

  lemma OneEntry(key: string, n: Node)
    requires ByteChars(key) && |key| < WORD && Fits(n)
    ensures Fits(Dict([Entry(key, n)]))
    ensures Encoded(Dict([Entry(key, n)])) == [1] + Le(1, 4) + (Le(|key|, 4) + ToBytes(key) + Encoded(n))
  {
    hide Le;
    var es := [Entry(key, n)];
    assert es[1..] == [];
    assert EncodedEntries(es) == EncodedEntry(es[0]);
  }

  /** A tree with a value of each kind but a double, byte for byte. */
  lemma SampleTree()
    ensures var n := Dict([Entry("k", Array(SAMPLE_ITEMS))]);
      && Fits(n)
      && Encoded(n) == [1, 1, 0, 0, 0] + ([1, 0, 0, 0, 107] + ([2, 5, 0, 0, 0] + EncodedItems(SAMPLE_ITEMS)))
  {
    hide EncodedItems, Le, ToI64, Fits, Encoded;
    SmallNumbers();
    SampleItems();
    SampleArray();
    OneEntry("k", Array(SAMPLE_ITEMS));
    assert ToBytes("k") == [107];
  }

  /** A message byte for byte: its kind, its id in eight bytes, the port and the length of the name in four,
      the name, and a flag before the content. */
  lemma SampleMessage(kind: byte, ip: nat)
    ensures var m := Message(kind, 258, ip, 5, "hi", Some(Bool(true)));
      && Sendable(m) && Sendable(m.(content := None))
      && Serialized(m) == [kind] + ([2, 1, 0, 0, 0, 0, 0, 0] + ([5, 0, 0, 0] + ([2, 0, 0, 0] + ([104, 105] + [1, 6]))))
      && Serialized(m.(content := None)) == [kind] + ([2, 1, 0, 0, 0, 0, 0, 0] + ([5, 0, 0, 0] + ([2, 0, 0, 0] + ([104, 105] + [0]))))
  {
    hide Le;
    assert Le(258, 8) == ToI64(258) by { assert IsInt64(258); }
    SmallNumbers();
    assert ToBytes("hi") == [104, 105];
    assert SerializedContent(Some(Bool(true))) == [1, 6];
  }
}
