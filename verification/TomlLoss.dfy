/** What is overridden is lost: if a parse ends with all the quotation marks of its text, no value that has
    some was overridden on the way. */
module TomlLoss {
  import opened Options
  import opened ConfigTree
  import opened Lexer
  import opened TomlText
  import opened TomlParse
  import opened TomlLex
  import opened TomlValues
  import opened TomlTables
  import opened TomlImage

  /** The value at a path of keys that is no dict itself. */
  function Leaf(n: Node, path: seq<string>): Option<Node>
    decreases |path|, 1
  {
    if n.Dict? then LeafIn(n.entries, path) else if path == [] then Some(n) else None
  }

  function LeafIn(es: seq<Entry>, path: seq<string>): Option<Node>
    decreases |path|, 0
  {
    if path == [] then None
    else
      var i := Find(es, path[0]);
      if i == |es| then None else Leaf(es[i].value, path[1..])
  }

  /** Tree `u` holds at some path, in quotation marks or with some inside, what `n` does not. */
  ghost predicate Stained(u: Node, n: Node) {
    exists path, w :: Stain(u, n, path, w)
  }

  ghost predicate Stain(u: Node, n: Node, path: seq<string>, w: Node) {
    Leaf(u, path) == Some(w) && NodeQuotes(w) > 0 && Leaf(n, path) != Some(w)
  }

  lemma StainedDiffers(u: Node, n: Node)
    requires Stained(u, n)
    ensures u != n
  {}

  lemma {:induction false} LeafQuotes(n: Node, path: seq<string>)
    requires Leaf(n, path).Some?
    ensures NodeQuotes(Leaf(n, path).value) <= NodeQuotes(n)
    decreases |path|
  {
    if n.Dict? {
      var i := Find(n.entries, path[0]);
      LeafQuotes(n.entries[i].value, path[1..]);
      EntryPart(n.entries, i);
    }
  }

  lemma {:induction false} EntryPart(es: seq<Entry>, i: nat)
    requires i < |es|
    ensures NodeQuotes(es[i].value) <= EntryQuotes(es)
  {
    if i > 0 { EntryPart(es[1..], i - 1); }
  }

  lemma {:induction false} ItemPart(items: seq<Node>, i: nat)
    requires i < |items|
    ensures NodeQuotes(items[i]) <= ItemQuotes(items)
  {
    if i > 0 { ItemPart(items[1..], i - 1); }
  }

  // ---------------------------------------------------------------- insertions

  /** A leaf stays, or its quotation marks are lost. */
  lemma LeafInserted(es: seq<Entry>, key: string, v: Node, path: seq<string>)
    requires Sorted(es) && LeafIn(es, path).Some?
    ensures LeafIn(Insert(es, key, v), path) == LeafIn(es, path)
      || EntryQuotes(Insert(es, key, v)) + NodeQuotes(LeafIn(es, path).value) <= EntryQuotes(es) + Quotes(key) + NodeQuotes(v)
  {
    InsertQuotes(es, key, v);
    if key == path[0] {
      LeafQuotes(es[Find(es, key)].value, path[1..]);
    } else {
      FindOther(es, key, v, path[0]);
    }
  }

  /** A leaf with quotation marks that a loss-free parse of a dict has found is there at its end. */
  lemma {:induction false} DictKeeps(io: Doubles, ls: seq<Lexeme>, glob: bool, acc: seq<Entry>, path: seq<string>)
    requires Wordy(ls) && MadeEntries(acc) && LeafIn(acc, path).Some? && NodeQuotes(LeafIn(acc, path).value) > 0
    requires var p := ParseDict(io, ls, glob, acc);
      p.Parsed? && EntryQuotes(acc) + WordQuotes(ls) <= EntryQuotes(p.value.entries) + WordQuotes(p.rest)
    ensures LeafIn(ParseDict(io, ls, glob, acc).value.entries, path) == LeafIn(acc, path)
    decreases |ls|
  {
    hide NextWord, Wordy, WordKey, Quotes, WordQuotes, ParseEntry, KeyOk, MadeEntries, Insert, Made, LeafIn;
    if NextWord(ls).Some? && NextWord(ls).value.0 != "[" {
      NextWordOk(ls);
      var name := NextWord(ls).value;
      WordIsKey(name.0);
      EntryMakes(io, name.1);
      var v := ParseEntry(io, name.1);
      MadeMore(acc, name.0, v.value);
      var entries := Insert(acc, name.0, v.value);
      MadeSorted(acc);
      LeafInserted(acc, name.0, v.value, path);
      if glob {
        DictMakes(io, v.rest, true, entries);
        DictKeeps(io, v.rest, true, entries, path);
      } else {
        NextWordOk(v.rest);
        var r := NextWord(v.rest).value;
        if r.0 == "," {
          DictMakes(io, r.1, false, entries);
          DictKeeps(io, r.1, false, entries, path);
        }
      }
    }
  }

  lemma MadeSorted(es: seq<Entry>)
    requires MadeEntries(es)
    ensures Sorted(es)
  {}
}
