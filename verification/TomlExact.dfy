/** Which trees come back from their text, exactly. */
module TomlExact {
  import opened Options
  import opened ConfigTree
  import opened Numerals
  import opened Lexer
  import opened TomlText
  import opened TomlParse
  import opened TomlLex
  import opened TomlValues
  import opened TomlTables
  import opened TomlRoundTrip
  import opened TomlImage
  import opened TomlLoss
  import opened TomlFaults
  import T = Tokenizer

  // ---------------------------------------------------------------- what a whole text can give

  ghost predicate GrownEntries(es: seq<Entry>) { Grown(Dict(es)) }

  function NameQuotes(names: seq<string>): nat {
    if names == [] then 0 else Quotes(names[0]) + NameQuotes(names[1..])
  }

  ghost predicate NamesOk(names: seq<string>) { forall i :: 0 <= i < |names| ==> Wordish(names[i]) }

  lemma GrownMore(es: seq<Entry>, key: string, v: Node)
    requires GrownEntries(es) && Wordish(key) && Grown(v)
    ensures GrownEntries(Insert(es, key, v))
    ensures EntryQuotes(Insert(es, key, v)) + Overridden(es, key) == EntryQuotes(es) + Quotes(key) + NodeQuotes(v)
  {
    hide Wordish, Sorted;
    InsertSorted(es, key, v);
    InsertQuotes(es, key, v);
  }

  lemma InnerGrown(es: seq<Entry>, key: string)
    requires GrownEntries(es)
    ensures GrownEntries(InnerDict(es, key))
    ensures EntryQuotes(InnerDict(es, key)) <= Overridden(es, key)
  {
    hide Wordish;
  }

  /** Storing at a path keeps what is good, and adds no quotation marks but those of names and value. */
  lemma {:induction false} GrownAt(es: seq<Entry>, names: seq<string>, v: Node)
    requires GrownEntries(es) && names != [] && NamesOk(names) && Grown(v)
    ensures GrownEntries(InsertAt(es, names, v))
    ensures EntryQuotes(InsertAt(es, names, v)) <= EntryQuotes(es) + NameQuotes(names) + NodeQuotes(v)
    decreases |names|
  {
    hide Wordish, Grown, Quotes, Overridden, InnerDict, Insert;
    if |names| == 1 {
      GrownMore(es, names[0], v);
    } else {
      var inner := InnerDict(es, names[0]);
      InnerGrown(es, names[0]);
      GrownAt(inner, names[1..], v);
      GrownMore(es, names[0], Dict(InsertAt(inner, names[1..], v)));
    }
  }

  /** A leaf stays where it is, or its quotation marks are lost. */
  lemma {:induction false} LeafInsertedAt(es: seq<Entry>, names: seq<string>, v: Node, path: seq<string>)
    requires GrownEntries(es) && names != [] && NamesOk(names) && Grown(v) && LeafIn(es, path).Some?
    ensures LeafIn(InsertAt(es, names, v), path) == LeafIn(es, path)
      || EntryQuotes(InsertAt(es, names, v)) + NodeQuotes(LeafIn(es, path).value) <= EntryQuotes(es) + NameQuotes(names) + NodeQuotes(v)
    decreases |names|
  {
    hide Wordish, Quotes, Insert, Overridden;
    if |names| == 1 {
      LeafInserted(es, names[0], v, path);
    } else {
      var key := names[0];
      var inner := InnerDict(es, key);
      InnerGrown(es, key);
      GrownAt(inner, names[1..], v);
      var stored := Dict(InsertAt(inner, names[1..], v));
      GrownMore(es, key, stored);
      if key != path[0] {
        FindOther(es, key, stored, path[0]);
      } else {
        FindInserted(es, key, stored);
        KeyQuotes(es, key);
        var was := es[Find(es, key)].value;
        LeafQuotes(was, path[1..]);
        if was.Dict? { LeafInsertedAt(inner, names[1..], v, path[1..]); }
      }
    }
  }

  lemma KeyQuotes(es: seq<Entry>, key: string)
    requires Find(es, key) < |es|
    ensures Overridden(es, key) == Quotes(key) + NodeQuotes(es[Find(es, key)].value)
  {}

  /** What is stored at a path is found there. */
  lemma {:induction false} LeafStored(es: seq<Entry>, names: seq<string>, t: seq<Entry>, q: seq<string>)
    requires names != []
    ensures LeafIn(InsertAt(es, names, Dict(t)), names + q) == LeafIn(t, q)
    decreases |names|
  {
    hide Insert, InnerDict;
    assert (names + q)[1..] == names[1..] + q;
    if |names| == 1 {
      FindInserted(es, names[0], Dict(t));
      assert names[1..] + q == q;
    } else {
      var inner := InsertAt(InnerDict(es, names[0]), names[1..], Dict(t));
      FindInserted(es, names[0], Dict(inner));
      LeafStored(InnerDict(es, names[0]), names[1..], t, q);
    }
  }

  // ---------------------------------------------------------------- names in headers

  /** Names are parts of the header: they have no token characters, unless the header is a single mark. */
  lemma {:induction false} RunNames(s: string)
    requires NoTok(s)
    ensures forall i :: 0 <= i < |Names(s)| ==> NoTok(Names(s)[i])
    decreases |s|
  {
    if s != "" {
      T.NextIsLongestOrRun(DotTokens(), s);
      var r := T.Next(DotTokens(), s);
      if r.len == 0 {
        UpToNulIsPart(s);
      } else {
        RunNames(s[r.len..]);
      }
    }
  }

  lemma {:induction false} UpToNulIsPart(s: string)
    ensures |UpToNul(s)| <= |s| && UpToNul(s) == s[..|UpToNul(s)|]
  {
    if s != "" && s[0] != '\0' { UpToNulIsPart(s[1..]); }
  }

  lemma {:induction false} NoNameQuotes(names: seq<string>)
    requires forall i :: 0 <= i < |names| ==> NoTok(names[i])
    ensures NameQuotes(names) == 0
  {
    if names != [] {
      NoTokNoQuotes(names[0]);
      NoNameQuotes(names[1..]);
    }
  }

  lemma NamesAreOk(w: string)
    requires WordKey(w)
    ensures NamesOk(Names(w)) && NameQuotes(Names(w)) <= Quotes(w)
  {
    hide Names, Quotes;
    if NoTok(w) {
      RunNames(w);
      NoNameQuotes(Names(w));
    } else {
      NamesOfHeader([w]);
      assert HeaderName([w]) == w && [w][1..] == [];
    }
  }

  // ---------------------------------------------------------------- whole texts

  /** What a whole text gives: a tree with words for keys, and no quotation marks that the words lack. */
  ghost predicate GlobalMade(p: Parsed<Node>, ls: seq<Lexeme>, acc: seq<Entry>) {
    p.Parsed? ==>
      p.value.Dict? && GrownEntries(p.value.entries) && p.rest == []
      && EntryQuotes(p.value.entries) <= EntryQuotes(acc) + WordQuotes(ls)
  }

  /** The words of a table header and the table. */
  lemma HeaderMakes(io: Doubles, ls: seq<Lexeme>)
    requires Wordy(ls) && NextWord(ls).Some? && NextWord(ls).value.0 == "["
    requires var name := NextWord(NextWord(ls).value.1); name.Some?
    requires var close := NextWord(NextWord(NextWord(ls).value.1).value.1); close.Some?
    ensures var name := NextWord(NextWord(ls).value.1).value; var rest := NextWord(name.1).value.1;
      && WordKey(name.0) && Wordy(rest) && Quotes(name.0) + WordQuotes(rest) <= WordQuotes(ls)
      && DictMade(ParseDict(io, rest, true, []), rest, [])
  {
    hide NextWord, Wordy, WordKey, WordQuotes, Quotes, ParseDict;
    NextWordOk(ls);
    NextWordOk(NextWord(ls).value.1);
    NextWordOk(NextWord(NextWord(ls).value.1).value.1);
    NothingRead(io);
    DictMakes(io, NextWord(NextWord(NextWord(ls).value.1).value.1).value.1, true, []);
  }

  lemma MadeTableGrown(es: seq<Entry>)
    requires MadeEntries(es)
    ensures GrownEntries(es)
  {
    hide KeyOk, Sorted, Made;
    forall i | 0 <= i < |es|
      ensures Wordish(es[i].key) && Grown(es[i].value)
    {
      MadeIsGrown(es[i].value);
      KeyIsWordish(es[i].key);
    }
  }

  lemma KeyIsWordish(key: string)
    requires KeyOk(key) || WordKey(key)
    ensures Wordish(key)
  {}

  lemma {:induction false} GlobalMakes(io: Doubles, ls: seq<Lexeme>, acc: seq<Entry>)
    requires Wordy(ls) && GrownEntries(acc)
    ensures GlobalMade(ParseGlobal(io, ls, acc), ls, acc)
    decreases |ls|
  {
    hide NextWord, Wordy, WordKey, Quotes, WordQuotes, ParseEntry, ParseDict, KeyOk, MadeEntries, Insert, InsertAt, Made, GrownEntries, Names, NameQuotes, NamesOk, Wordish;
    if NextWord(ls).Some? {
      NextWordOk(ls);
      var r := NextWord(ls).value;
      if r.0 != "[" {
        EntryMakes(io, r.1);
        var v := ParseEntry(io, r.1);
        if v.Parsed? {
          MadeIsGrown(v.value);
          KeyIsWordish(r.0);
          GrownMore(acc, r.0, v.value);
          GlobalMakes(io, v.rest, Insert(acc, r.0, v.value));
        }
      } else if NextWord(r.1).Some? && NextWord(NextWord(r.1).value.1).Some? {
        HeaderMakes(io, ls);
        var name := NextWord(r.1).value;
        var close := NextWord(name.1).value;
        var p := ParseDict(io, close.1, true, []);
        if p.Parsed? && Names(name.0) != [] {
          NamesAreOk(name.0);
          MadeTableGrown(p.value.entries);
          TableGrownAt(acc, Names(name.0), p.value.entries);
          GlobalMakes(io, p.rest, InsertAt(acc, Names(name.0), p.value));
        }
      }
    }
  }

  lemma TableGrownAt(acc: seq<Entry>, names: seq<string>, t: seq<Entry>)
    requires GrownEntries(acc) && GrownEntries(t) && names != [] && NamesOk(names)
    ensures GrownEntries(InsertAt(acc, names, Dict(t)))
    ensures EntryQuotes(InsertAt(acc, names, Dict(t))) <= EntryQuotes(acc) + NameQuotes(names) + EntryQuotes(t)
  {
    hide NamesOk, EntryQuotes, Sorted, Wordish;
    GrownAt(acc, names, Dict(t));
  }

  /** A leaf with quotation marks that a loss-free parse has found is there at its end. */
  lemma {:induction false} GlobalKeeps(io: Doubles, ls: seq<Lexeme>, acc: seq<Entry>, path: seq<string>)
    requires Wordy(ls) && GrownEntries(acc) && LeafIn(acc, path).Some? && NodeQuotes(LeafIn(acc, path).value) > 0
    requires var p := ParseGlobal(io, ls, acc);
      p.Parsed? && p.value.Dict? && EntryQuotes(acc) + WordQuotes(ls) <= EntryQuotes(p.value.entries)
    ensures LeafIn(ParseGlobal(io, ls, acc).value.entries, path) == LeafIn(acc, path)
    decreases |ls|
  {
    hide NextWord, Wordy, WordKey, Quotes, WordQuotes, ParseEntry, ParseDict, KeyOk, MadeEntries, Insert, InsertAt, Made, GrownEntries,
      Names, NameQuotes, NamesOk, Wordish, LeafIn, Grown, EntryQuotes;
    if NextWord(ls).Some? {
      NextWordOk(ls);
      var r := NextWord(ls).value;
      if r.0 != "[" {
        EntryMakes(io, r.1);
        var v := ParseEntry(io, r.1);
        MadeIsGrown(v.value);
        KeyIsWordish(r.0);
        GrownMore(acc, r.0, v.value);
        GrownSorted(acc);
        LeafInserted(acc, r.0, v.value, path);
        GlobalMakes(io, v.rest, Insert(acc, r.0, v.value));
        GlobalKeeps(io, v.rest, Insert(acc, r.0, v.value), path);
      } else {
        HeaderMakes(io, ls);
        EmptyGrown();
        var name := NextWord(r.1).value;
        var close := NextWord(name.1).value;
        var p := ParseDict(io, close.1, true, []);
        NamesAreOk(name.0);
        MadeTableGrown(p.value.entries);
        TableGrownAt(acc, Names(name.0), p.value.entries);
        TableLeaf(acc, Names(name.0), p.value.entries, path);
        GlobalMakes(io, p.rest, InsertAt(acc, Names(name.0), p.value));
        GlobalKeeps(io, p.rest, InsertAt(acc, Names(name.0), p.value), path);
      }
    }
  }

  lemma GrownSorted(es: seq<Entry>)
    requires GrownEntries(es)
    ensures Sorted(es)
  {}

  lemma TableLeaf(acc: seq<Entry>, names: seq<string>, t: seq<Entry>, path: seq<string>)
    requires GrownEntries(acc) && GrownEntries(t) && names != [] && NamesOk(names) && LeafIn(acc, path).Some?
    ensures LeafIn(InsertAt(acc, names, Dict(t)), path) == LeafIn(acc, path)
      || EntryQuotes(InsertAt(acc, names, Dict(t))) + NodeQuotes(LeafIn(acc, path).value) <= EntryQuotes(acc) + NameQuotes(names) + EntryQuotes(t)
  {
    hide NamesOk, EntryQuotes, Sorted, Wordish;
    LeafInsertedAt(acc, names, Dict(t), path);
  }

  /** Whatever the text, the keys of a parsed tree are names and its integers have 32 bits: a tree in
      which one anywhere is not never comes back. */
  lemma ParsedIsGrown(io: Doubles, text: string)
    ensures var p := Parse(io, text); p.Parsed? ==> Grown(p.value)
  {
    hide Grown, ParseGlobal;
    LexWordy(text);
    EmptyGrown();
    GlobalMakes(io, Lex(text), []);
  }

  /** A whole text gives a dict and leaves no words. */
  lemma NoRest(io: Doubles, text: string)
    ensures var p := Parse(io, text); p.Parsed? ==> p.value.Dict? && p.rest == []
  {
    hide ParseGlobal;
    LexWordy(text);
    EmptyGrown();
    GlobalMakes(io, Lex(text), []);
  }

  lemma EmptyGrown()
    ensures GrownEntries([]) && EntryQuotes([]) == 0
  {}
}
