/** Printing a configuration tree and parsing the text gives the same tree. */
module TomlRoundTrip {
  import opened ConfigTree
  import opened Numerals
  import opened Lexer
  import opened TomlText
  import opened TomlParse
  import opened TomlLex
  import opened TomlValues
  import opened TomlTables
  import T = Tokenizer

  /** The trees that survive. A dict printed as a table or as a prefix of table names has a key without
      a dot, or, at the top, a single mark; below a prefix there are such dicts again, and below a table
      every dict is printed inline. */
  ghost predicate Restorable(io: Doubles, es: seq<Entry>, top: bool)
    decreases es
  {
    && Sorted(es)
    && forall i :: 0 <= i < |es| ==>
        if es[i].value.Dict? then
          && es[i].value.entries != []
          && (if HasOthers(es[i].value.entries) then TableKeyOk(es[i].key, top) && Readable(io, es[i].value)
              else PathKeyOk(es[i].key) && Restorable(io, es[i].value.entries, false))
        else KeyOk(es[i].key) && Readable(io, es[i].value)
  }

  predicate TableKeyOk(key: string, top: bool) {
    (PathKeyOk(key) && '\0' !in key) || (top && MarkKey(key))
  }

  // ---------------------------------------------------------------- the tables can be read

  lemma RestorableTail(io: Doubles, es: seq<Entry>, top: bool)
    requires es != [] && Restorable(io, es, top)
    ensures Restorable(io, es[1..], top)
  {}

  /** Below a prefix all paths can be longer. */
  ghost predicate PathsLonger(ts: seq<Table>) {
    forall i :: 0 <= i < |ts| ==> PathOk(ts[i].path)
  }

  lemma {:induction false} PathsUnder(io: Doubles, key: string, ts: seq<Table>)
    requires PathKeyOk(key) && TablesOk(io, ts) && PathsLonger(ts)
    ensures TablesOk(io, Under(key, ts)) && PathsLonger(Under(key, ts))
    decreases |ts|
  {
    hide PathKeyOk, EntriesOk, HeaderOk, PathOk;
    if ts != [] {
      assert TableOk(io, ts[0]);
      forall i | 0 <= i < |ts[1..]|
        ensures TableOk(io, ts[1..][i]) && PathOk(ts[1..][i].path)
      {
        assert TableOk(io, ts[1 + i]);
      }
      PathsUnder(io, key, ts[1..]);
      PathLonger(key, ts[0].path);
      assert TableOk(io, Table([key] + ts[0].path, ts[0].entries));
      TablesJoin(io, [Table([key] + ts[0].path, ts[0].entries)], Under(key, ts[1..]));
    }
  }

  lemma PathLonger(key: string, path: seq<string>)
    requires PathKeyOk(key) && PathOk(path)
    ensures PathOk([key] + path) && HeaderOk([key] + path)
  {
    hide PathKeyOk;
  }

  lemma TablesJoin(io: Doubles, a: seq<Table>, b: seq<Table>)
    requires TablesOk(io, a) && TablesOk(io, b)
    ensures TablesOk(io, a + b) && (PathsLonger(a) && PathsLonger(b) ==> PathsLonger(a + b))
  {
    hide TableOk, PathOk;
  }

  lemma OneTableOk(io: Doubles, key: string, inner: seq<Entry>, top: bool)
    requires TableKeyOk(key, top) && Readable(io, Dict(inner))
    ensures TableOk(io, Table([key], inner)) && (!top ==> PathOk([key]))
  {
    hide PathKeyOk;
  }

  lemma RestorableSorted(io: Doubles, es: seq<Entry>, top: bool)
    requires Restorable(io, es, top)
    ensures Sorted(es)
  {}

  lemma {:induction false} TablesReadable(io: Doubles, es: seq<Entry>, top: bool)
    requires Restorable(io, es, top)
    ensures TablesOk(io, TablesOf(es)) && (!top ==> PathsLonger(TablesOf(es)))
    decreases es
  {
    hide PathKeyOk, TableOk, TableKeyOk, PathOk;
    if es != [] {
      RestorableTail(io, es, top);
      TablesReadable(io, es[1..], top);
      if es[0].value.Dict? {
        var key, inner := es[0].key, es[0].value.entries;
        if HasOthers(inner) {
          OneTableOk(io, key, inner, top);
        } else {
          TablesReadable(io, inner, false);
          PathsUnder(io, key, TablesOf(inner));
        }
        TablesJoin(io, TablesOfDict(key, inner), TablesOf(es[1..]));
      } else {
        assert TablesOf(es) == TablesOf(es[1..]);
      }
    }
  }

  // ---------------------------------------------------------------- the tables rebuild the dict

  /** Storing tables under a key stores them in the dict under that key. */
  lemma {:induction false} StoredUnder(es: seq<Entry>, key: string, ts: seq<Table>)
    requires ts != [] && PathsOk(ts) && PathsOk(Under(key, ts))
    ensures Stored(es, Under(key, ts)) == Insert(es, key, Dict(Stored(InnerDict(es, key), ts)))
    decreases |ts|
  {
    hide Insert, InnerDict;
    var t := ts[0];
    var path := [key] + t.path;
    var inner := InsertAt(InnerDict(es, key), t.path, Dict(t.entries));
    var next := Insert(es, key, Dict(inner));
    assert path[1..] == t.path;
    assert InsertAt(es, path, Dict(t.entries)) == next;
    assert Under(key, ts)[1..] == Under(key, ts[1..]);
    if ts[1..] != [] {
      UnderPaths(key, ts[1..]);
      StoredUnder(next, key, ts[1..]);
      InnerDictInserted(es, key, inner);
      InsertTwice(es, key, Dict(inner), Dict(Stored(inner, ts[1..])));
    }
  }

  lemma {:induction false} StoredAppend(es: seq<Entry>, a: seq<Table>, b: seq<Table>)
    requires PathsOk(a) && PathsOk(b) && PathsOk(a + b)
    ensures Stored(es, a + b) == Stored(Stored(es, a), b)
    decreases |a|
  {
    hide InsertAt;
    if a == [] {
      assert a + b == b;
    } else {
      assert (a + b)[1..] == a[1..] + b;
      StoredAppend(InsertAt(es, a[0].path, Dict(a[0].entries)), a[1..], b);
    }
  }

  lemma {:induction false} DirectAreEntries(es: seq<Entry>)
    ensures forall j :: 0 <= j < |Direct(es)| ==> Direct(es)[j] in es
  {
    if es != [] { DirectAreEntries(es[1..]); }
  }

  lemma {:induction false} DirectSorted(es: seq<Entry>)
    requires Sorted(es)
    ensures Sorted(Direct(es))
  {
    if es != [] {
      DirectSorted(es[1..]);
      DirectAreEntries(es[1..]);
    }
  }

  /** With some entries back in place, storing the tables of the others completes the dict. */
  lemma {:induction false} StoredRestores(io: Doubles, before: seq<Entry>, es: seq<Entry>, top: bool)
    requires Restorable(io, es, top) && Sorted(before + es) && PathsOk(TablesOf(es))
    ensures Stored(before + Direct(es), TablesOf(es)) == before + es
    decreases es, 1
  {
    hide PathKeyOk, KeyOk, Readable, Stored, Sorted, HasOthers, TablesOfDict, Restorable, Direct, PathsOk;
    if es == [] {
      NothingToStore(before);
    } else {
      var e := es[0];
      assert before + [e] + es[1..] == before + es;
      RestorableTail(io, es, top);
      TablesPaths(es[1..]);
      StoredRestores(io, before + [e], es[1..], top);
      DirectUnfold(es);
      if e.value.Dict? {
        assert [] + Direct(es[1..]) == Direct(es[1..]);
        DictRestored(io, before, es, top);
        StoredAppend(before + Direct(es[1..]), TablesOfDict(e.key, e.value.entries), TablesOf(es[1..]));
      } else {
        Joined(before, [e], Direct(es[1..]));
        assert [] + TablesOf(es[1..]) == TablesOf(es[1..]);
      }
    }
  }

  lemma NothingToStore(before: seq<Entry>)
    ensures Stored(before + Direct([]), TablesOf([])) == before + []
  {}

  lemma Joined(before: seq<Entry>, head: seq<Entry>, rest: seq<Entry>)
    ensures before + (head + rest) == before + head + rest
  {}

  lemma DirectUnfold(es: seq<Entry>)
    requires es != []
    ensures Direct(es) == (if es[0].value.Dict? then [] else [es[0]]) + Direct(es[1..])
  {}

  lemma {:induction false} DictRestored(io: Doubles, before: seq<Entry>, es: seq<Entry>, top: bool)
    requires es != [] && es[0].value.Dict? && Restorable(io, es, top) && Sorted(before + es)
    ensures PathsOk(TablesOfDict(es[0].key, es[0].value.entries))
    ensures Stored(before + Direct(es[1..]), TablesOfDict(es[0].key, es[0].value.entries)) == before + [es[0]] + Direct(es[1..])
    decreases es, 0
  {
    hide PathKeyOk, KeyOk, Readable, HasOthers, Sorted, Direct;
    var key, inner := es[0].key, es[0].value.entries;
    var d := before + Direct(es[1..]);
    BetweenNeighbours(before, es);
    InsertBetween(before, key, Dict(inner), Direct(es[1..]));
    TablesPaths(inner);
    UnderPaths(key, TablesOf(inner));
    if HasOthers(inner) {
      var ts := [Table([key], inner)];
      assert ts[1..] == [];
    } else {
      assert Restorable(io, inner, false);
      NoOthersNoValues(io, inner);
      assert [] + Direct(inner) == [] && [] + inner == inner;
      assert Sorted(inner);
      StoredRestores(io, [], inner, false);
      SomeTables(io, inner);
      NoDictYet(before, es);
      StoredUnder(d, key, TablesOf(inner));
    }
  }

  /** A dict of dicts has a table. */
  lemma {:induction false} SomeTables(io: Doubles, es: seq<Entry>)
    requires es != [] && !HasOthers(es) && Restorable(io, es, false)
    ensures TablesOf(es) != []
    decreases es
  {
    assert es[0].value.Dict?;
    var inner := es[0].value.entries;
    if !HasOthers(inner) { SomeTables(io, inner); }
  }

  lemma BetweenNeighbours(before: seq<Entry>, es: seq<Entry>)
    requires es != [] && Sorted(before + es)
    ensures forall i :: 0 <= i < |before| ==> Less(before[i].key, es[0].key)
    ensures forall i :: 0 <= i < |Direct(es[1..])| ==> Less(es[0].key, Direct(es[1..])[i].key)
  {
    var all := before + es;
    assert all[|before|] == es[0];
    forall i | 0 <= i < |before|
      ensures Less(before[i].key, es[0].key)
    {
      assert all[i] == before[i];
    }
    DirectAreEntries(es[1..]);
    forall i | 0 <= i < |Direct(es[1..])|
      ensures Less(es[0].key, Direct(es[1..])[i].key)
    {
      var j :| 0 <= j < |es[1..]| && es[1..][j] == Direct(es[1..])[i];
      assert all[|before| + 1 + j] == es[1..][j];
    }
  }

  lemma NoDictYet(before: seq<Entry>, es: seq<Entry>)
    requires es != [] && Sorted(before + es)
    ensures InnerDict(before + Direct(es[1..]), es[0].key) == []
  {
    var d := before + Direct(es[1..]);
    BetweenNeighbours(before, es);
    forall i | 0 <= i < |d|
      ensures d[i].key != es[0].key
    {
      if i < |before| { LessNotBoth(d[i].key, es[0].key); } else { LessNotBoth(es[0].key, d[i].key); }
    }
  }

  // ---------------------------------------------------------------- the theorem

  lemma DirectReadable(io: Doubles, es: seq<Entry>)
    requires Restorable(io, es, true)
    ensures EntriesOk(io, Direct(es))
  {
    DirectSorted(es);
    DirectAreEntries(es);
    DirectHasNoDict(es);
    forall i | 0 <= i < |Direct(es)|
      ensures KeyOk(Direct(es)[i].key) && Readable(io, Direct(es)[i].value)
    {
      var j :| 0 <= j < |es| && es[j] == Direct(es)[i];
    }
  }

  lemma {:induction false} DirectHasNoDict(es: seq<Entry>)
    ensures forall i :: 0 <= i < |Direct(es)| ==> !Direct(es)[i].value.Dict?
  {
    if es != [] { DirectHasNoDict(es[1..]); }
  }

  /** Dumping a tree and parsing the text gives the same tree. */
  lemma DumpedTreeIsReadBack(io: Doubles, root: seq<Entry>)
    requires Restorable(io, root, true)
    ensures Parse(io, Dump(io, root)) == Parsed(Dict(root), [])
  {
    hide Restorable, EntriesOk, Sorted, DumpSuperValues, DumpSuperTables, ParseGlobal, Stored, TablesOf, Direct, Lex;
    var ts := TablesOf(root);
    TablesPaths(root);
    TablesPrinted(io, "", root);
    DirectReadable(io, root);
    assert [] + Direct(root) == Direct(root) && [] + root == root;
    SuperValuesRead(io, Lex(Dump(io, root)), [], root, TablesText(io, "", ts));
    TablesReadable(io, root, true);
    TablesRead(io, Lex(TablesText(io, "", ts)), Direct(root), ts);
    RestorableSorted(io, root, true);
    StoredRestores(io, [], root, true);
  }

  // ---------------------------------------------------------------- what survives, and what does not

  /** A string without quotes and backslashes survives. */
  lemma PlainStringSurvives(s: string)
    requires '"' !in s && '\\' !in s
    ensures StringOk(s)
  {
    StringWords(s);
    PlainWords(Lex(s));
  }

  lemma {:induction false} PlainWords(ls: seq<Lexeme>)
    requires '"' !in Concat(ls) && '\\' !in Concat(ls)
    ensures Unbroken(ls, "\"", false)
  {
    if ls != [] {
      assert forall c :: c in ls[0].str ==> c in Concat(ls);
      assert forall c :: c in Concat(ls[1..]) ==> c in Concat(ls);
      PlainWords(ls[1..]);
      assert "\""[0] == '"' && "\\"[0] == '\\';
      assert '"' in "\"" && '\\' in "\\";
      assert ls[0].str != "\"" && ls[0].str != "\\";
    }
  }

  /** A top-level dict without entries leaves no trace in the text. */
  lemma EmptyTableIsLost(io: Doubles, key: string)
    ensures Parse(io, Dump(io, [Entry(key, Dict([]))])) == Parsed(Dict([]), [])
  {
    var root := [Entry(key, Dict([]))];
    assert root[1..] == [];
    assert !HasOthers(root[0].value.entries);
    assert DumpSuperValues(io, root) == DumpSuperValues(io, []);
    assert DumpSuperTables(io, "", root) == DumpSuper(io, "" + key + ".", []) + DumpSuperTables(io, "", []);
    LexEmpty();
    NothingLeft();
  }

  /** An inline dict without entries does not come back: its closing brace is taken for a key. */
  lemma EmptyInlineDictNotRead(io: Doubles, indent: nat, post: string)
    ensures ParseValue(io, Lex(DumpValue(io, Dict([]), indent) + post)) != Parsed(Dict([]), Lex(post))
  {
    hide Lex, NextWord, ParseEntry, IsTok, IsMark;
    Marks();
    assert DumpValue(io, Dict([]), indent) + post == ['{'] + (['}'] + post);
    NextMark('{', ['}'] + post);
    NextMark('}', post);
    var p := ParseDict(io, Lex(['}'] + post), false, []);
    assert p.Parsed? ==> |p.rest| < |Lex(post)|;
    assert ParseValue(io, Lex(['{'] + (['}'] + post))) == p;
  }

  /** A table under a key with a dot comes back as a table in a dict. */
  lemma DottedKeySplits(io: Doubles, a: string, b: string, es: seq<Entry>)
    requires PathKeyOk(a) && PathKeyOk(b) && '\0' !in b && HasOthers(es) && EntriesOk(io, es)
    ensures Parse(io, Dump(io, [Entry(a + "." + b, Dict(es))])) == Parsed(Dict([Entry(a, Dict([Entry(b, Dict(es))]))]), [])
  {
    hide Lex, PathKeyOk, EntriesOk, DumpGlobal, ParseGlobal;
    var root := [Entry(a + "." + b, Dict(es))];
    var ts := [Table([a, b], es)];
    assert root[1..] == [] && ts[1..] == [] && [a, b][1..] == [b];
    assert HeaderName([a, b]) == a + "." + b;
    assert DumpSuperValues(io, root) == DumpSuperValues(io, []);
    var text := "\n[" + "" + (a + "." + b) + "]\n" + DumpGlobal(io, es);
    assert DumpSuperTables(io, "", root) == text + DumpSuperTables(io, "", []) == text;
    assert TablesText(io, "", ts) == text + TablesText(io, "", []) == text;
    assert Dump(io, root) == TablesText(io, "", ts);
    assert TableOk(io, ts[0]);
    TablesRead(io, Lex(Dump(io, root)), [], ts);
    assert Stored([], ts) == InsertAt([], [a, b], Dict(es));
  }
}
