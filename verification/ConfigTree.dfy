/** Configuration trees: what both codecs print and parse. */
module ConfigTree {

  /** A double as its eight bytes; what its value is does not matter here. */
  type Double = bytes: seq<nat> | |bytes| == 8 && forall i :: 0 <= i < 8 ==> bytes[i] < 256 witness [0, 0, 0, 0, 0, 0, 0, 0]

  /** A dict lists its entries by increasing key, as the source's ordered map and set do. */
  datatype Node =
    | Int(i: int)
    | Float(f: Double)
    | Bool(b: bool)
    | Str(s: string)
    | Array(items: seq<Node>)
    | Dict(entries: seq<Entry>)

  datatype Entry = Entry(key: string, value: Node)

  // ---------------------------------------------------------------- keys

  predicate Less(a: string, b: string) {
    if b == "" then false
    else if a == "" then true
    else a[0] < b[0] || (a[0] == b[0] && Less(a[1..], b[1..]))
  }

  lemma {:induction false} LessTransitive(a: string, b: string, c: string)
    requires Less(a, b) && Less(b, c)
    ensures Less(a, c)
  {
    if a != "" && a[0] == b[0] == c[0] { LessTransitive(a[1..], b[1..], c[1..]); }
  }

  lemma {:induction false} LessIrreflexive(a: string)
    ensures !Less(a, a)
  {
    if a != "" { LessIrreflexive(a[1..]); }
  }

  lemma {:induction false} LessTotal(a: string, b: string)
    ensures a == b || Less(a, b) || Less(b, a)
  {
    if a != "" && b != "" && a[0] == b[0] {
      LessTotal(a[1..], b[1..]);
      assert a == [a[0]] + a[1..] && b == [b[0]] + b[1..];
    }
  }

  ghost predicate Sorted(es: seq<Entry>) {
    forall i, j :: 0 <= i < j < |es| ==> Less(es[i].key, es[j].key)
  }

  /** Every dict in the tree is sorted: no key occurs twice. */
  ghost predicate Ordered(n: Node) {
    match n
    case Dict(es) => Sorted(es) && forall i :: 0 <= i < |es| ==> Ordered(es[i].value)
    case Array(items) => forall i :: 0 <= i < |items| ==> Ordered(items[i])
    case _ => true
  }

  // ---------------------------------------------------------------- dicts

  /** Adds an entry, or overrides the one with the same key. */
  function Insert(es: seq<Entry>, key: string, value: Node): (r: seq<Entry>)
    ensures r != []
  {
    if es == [] then [Entry(key, value)]
    else if es[0].key == key then [Entry(key, value)] + es[1..]
    else if Less(key, es[0].key) then [Entry(key, value)] + es
    else [es[0]] + Insert(es[1..], key, value)
  }

  function Find(es: seq<Entry>, key: string): (i: nat)
    ensures i <= |es| && (i < |es| ==> es[i].key == key)
    ensures i == |es| ==> forall j :: 0 <= j < |es| ==> es[j].key != key
  {
    if es == [] then 0
    else if es[0].key == key then 0
    else 1 + Find(es[1..], key)
  }

  /** The entries of the dict stored under `key`, or none if there is no dict there. */
  function InnerDict(es: seq<Entry>, key: string): seq<Entry> {
    var i := Find(es, key);
    if i < |es| && es[i].value.Dict? then es[i].value.entries else []
  }

  /** A larger key goes to the end. */
  lemma {:induction false} InsertLast(es: seq<Entry>, key: string, value: Node)
    requires forall i :: 0 <= i < |es| ==> Less(es[i].key, key)
    ensures Insert(es, key, value) == es + [Entry(key, value)]
  {
    if es != [] {
      LessIrreflexive(key);
      LessNotBoth(es[0].key, key);
      InsertLast(es[1..], key, value);
    }
  }

  lemma LessNotBoth(a: string, b: string)
    requires Less(a, b)
    ensures a != b && !Less(b, a)
  {
    LessIrreflexive(a);
    if Less(b, a) { LessTransitive(a, b, a); }
  }

  /** A key between two runs goes between them. */
  lemma {:induction false} InsertBetween(before: seq<Entry>, key: string, value: Node, after: seq<Entry>)
    requires forall i :: 0 <= i < |before| ==> Less(before[i].key, key)
    requires after != [] ==> Less(key, after[0].key)
    ensures Insert(before + after, key, value) == before + [Entry(key, value)] + after
  {
    if before == [] {
      assert before + after == after;
      if after != [] { LessNotBoth(key, after[0].key); }
    } else {
      LessNotBoth(before[0].key, key);
      assert (before + after)[1..] == before[1..] + after;
      InsertBetween(before[1..], key, value, after);
    }
  }

  /** The last insertion under a key wins. */
  lemma {:induction false} InsertTwice(es: seq<Entry>, key: string, v: Node, w: Node)
    ensures Insert(Insert(es, key, v), key, w) == Insert(es, key, w)
  {
    if es == [] {
    } else if es[0].key == key {
    } else if Less(key, es[0].key) {
      assert ([Entry(key, v)] + es)[1..] == es;
    } else {
      InsertTwice(es[1..], key, v, w);
      assert ([es[0]] + Insert(es[1..], key, v))[1..] == Insert(es[1..], key, v);
    }
  }

  lemma {:induction false} InnerDictInserted(es: seq<Entry>, key: string, inner: seq<Entry>)
    ensures InnerDict(Insert(es, key, Dict(inner)), key) == inner
  {
    FindInserted(es, key, Dict(inner));
  }

  lemma {:induction false} FindInserted(es: seq<Entry>, key: string, v: Node)
    ensures var r := Insert(es, key, v);
      Find(r, key) < |r| && r[Find(r, key)].value == v
  {
    if es == [] {
    } else if es[0].key == key {
    } else if Less(key, es[0].key) {
    } else {
      FindInserted(es[1..], key, v);
      assert ([es[0]] + Insert(es[1..], key, v))[1..] == Insert(es[1..], key, v);
    }
  }

  /** An insertion adds its entry and keeps the others, in order. */
  lemma {:induction false} InsertSorted(es: seq<Entry>, key: string, value: Node)
    requires Sorted(es)
    ensures var r := Insert(es, key, value);
      Sorted(r) && forall i :: 0 <= i < |r| ==> r[i] == Entry(key, value) || (r[i] in es && r[i].key != key)
  {
    if es == [] {
    } else if es[0].key == key {
      assert forall i :: 0 < i < |es| ==> Less(es[0].key, es[i].key);
      LessIrreflexive(key);
    } else if Less(key, es[0].key) {
      forall i | 0 <= i < |es|
        ensures Less(key, es[i].key)
      {
        if i > 0 { LessTransitive(key, es[0].key, es[i].key); }
      }
      LessIrreflexive(key);
    } else {
      LessTotal(es[0].key, key);
      InsertSorted(es[1..], key, value);
    }
  }

  /** The other keys lead where they led before. */
  lemma {:induction false} FindOther(es: seq<Entry>, key: string, v: Node, q: string)
    requires q != key
    ensures var r := Insert(es, key, v); var i, j := Find(es, q), Find(r, q);
      (i == |es| <==> j == |r|) && (i < |es| ==> r[j] == es[i])
  {
    if es == [] {
    } else if es[0].key == key {
      assert ([Entry(key, v)] + es[1..])[1..] == es[1..];
    } else if Less(key, es[0].key) {
      assert ([Entry(key, v)] + es)[1..] == es;
    } else {
      FindOther(es[1..], key, v, q);
      assert ([es[0]] + Insert(es[1..], key, v))[1..] == Insert(es[1..], key, v);
    }
  }

  /** In a sorted dict a key leads to its entry. */
  lemma {:induction false} FindSorted(es: seq<Entry>, i: nat)
    requires Sorted(es) && i < |es|
    ensures Find(es, es[i].key) == i
  {
    if i > 0 {
      LessIrreflexive(es[0].key);
      assert Less(es[0].key, es[i].key);
      FindSorted(es[1..], i - 1);
    }
  }
}
