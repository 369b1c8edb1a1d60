/** Which whole trees come back from their text: exactly the restorable ones. */
module TomlDocuments {
  import opened Options
  import opened ConfigTree
  import opened Lexer
  import opened TomlText
  import opened TomlParse
  import opened TomlLex
  import opened TomlValues
  import opened TomlTables
  import opened TomlRoundTrip
  import opened TomlImage
  import opened TomlLoss
  import opened TomlFaults
  import opened TomlExact

  /** The keys that get into table headers can stand there: no dot, no token character, and so on. */
  ghost predicate PathsPlain(es: seq<Entry>, top: bool)
    decreases es
  {
    forall i :: 0 <= i < |es| && es[i].value.Dict? && es[i].value.entries != [] ==>
      if HasOthers(es[i].value.entries) then TableKeyOk(es[i].key, top)
      else PathKeyOk(es[i].key) && PathsPlain(es[i].value.entries, false)
  }

  // ---------------------------------------------------------------- the quotation marks of a text

  lemma {:induction false} GlobalTextQuotes(io: Doubles, es: seq<Entry>)
    requires forall i :: 0 <= i < |es| ==> FloatsOk(io, es[i].value)
    ensures Quotes(DumpGlobal(io, es)) == EntryQuotes(es)
  {
    hide Quotes, DumpValue, NodeQuotes, FloatsOk;
    Plain();
    if es != [] {
      var v := DumpValue(io, es[0].value, |es[0].key| + 3);
      ValueTextQuotes(io, es[0].value, |es[0].key| + 3);
      GlobalTextQuotes(io, es[1..]);
      QuotesAppend("\n", DumpGlobal(io, es[1..]));
      EntryQuotesSum("", es[0].key, v, "\n" + DumpGlobal(io, es[1..]));
      assert "" + es[0].key == es[0].key;
      assert es[0].key + " = " + v + "\n" + DumpGlobal(io, es[1..]) == es[0].key + " = " + v + ("\n" + DumpGlobal(io, es[1..]));
    }
  }

  lemma {:induction false} SuperTextQuotes(io: Doubles, base: string, es: seq<Entry>, top: bool)
    requires PathsPlain(es, top) && Quotes(base) == 0 && forall i :: 0 <= i < |es| ==> FloatsOk(io, es[i].value)
    ensures Quotes(DumpSuperValues(io, es)) + Quotes(DumpSuperTables(io, base, es)) <= EntryQuotes(es)
    decreases es, 1
  {
    hide Quotes, DumpValue, DumpGlobal, NodeQuotes, FloatsOk, TableKeyOk, PathKeyOk, HasOthers;
    Plain();
    if es != [] {
      var e := es[0];
      SuperTextQuotes(io, base, es[1..], top);
      var values, tables := DumpSuperValues(io, es[1..]), DumpSuperTables(io, base, es[1..]);
      if e.value.Dict? {
        DictTextQuotes(io, base, e, top);
        QuotesAppend(TableText(io, base, e.key, e.value.entries), tables);
      } else {
        var v := DumpValue(io, e.value, 0);
        ValueTextQuotes(io, e.value, 0);
        QuotesAppend("\n", values);
        EntryQuotesSum("", e.key, v, "\n" + values);
        assert "" + e.key == e.key;
        assert e.key + " = " + v + "\n" + values == e.key + " = " + v + ("\n" + values);
      }
    }
  }

  lemma {:induction false} DictTextQuotes(io: Doubles, base: string, e: Entry, top: bool)
    requires e.value.Dict? && Quotes(base) == 0 && FloatsOk(io, e.value)
    requires e.value.entries != [] ==>
      if HasOthers(e.value.entries) then TableKeyOk(e.key, top) else PathKeyOk(e.key) && PathsPlain(e.value.entries, false)
    ensures Quotes(TableText(io, base, e.key, e.value.entries)) <= Quotes(e.key) + NodeQuotes(e.value)
    decreases e.value.entries, 2
  {
    hide Quotes, DumpValue, DumpGlobal, DumpSuperValues, DumpSuperTables;
    Plain();
    var inner := e.value.entries;
    if HasOthers(inner) {
      GlobalTextQuotes(io, inner);
      HeaderQuotes(base, e.key, DumpGlobal(io, inner));
    } else if inner == [] {
      NothingPrinted(io, base + e.key + ".");
    } else {
      PrefixQuotes(base, e.key);
      SuperTextQuotes(io, base + e.key + ".", inner, false);
      QuotesAppend(DumpSuperValues(io, inner), DumpSuperTables(io, base + e.key + ".", inner));
    }
  }

  lemma NothingPrinted(io: Doubles, base: string)
    ensures DumpSuper(io, base, []) == ""
  {}

  lemma PrefixQuotes(base: string, key: string)
    requires Quotes(base) == 0 && PathKeyOk(key)
    ensures Quotes(base + key + ".") == 0
  {
    NoTokNoQuotes(key);
    assert "."[1..] == "" && "."[0] == '.';
    QuotesAppend(base, key);
    QuotesAppend(base + key, ".");
  }

  lemma HeaderQuotes(base: string, key: string, body: string)
    requires Quotes(base) == 0
    ensures Quotes("\n[" + base + key + "]\n" + body) == Quotes(key) + Quotes(body)
  {
    assert Quotes("\n[") == 0 && Quotes("]\n") == 0 by {
      assert "\n["[1..] == "[" && "["[1..] == "" && "]\n"[1..] == "\n" && "\n"[1..] == "";
    }
    QuotesAppend("\n[", base);
    QuotesAppend("\n[" + base, key);
    QuotesAppend("\n[" + base + key, "]\n");
    QuotesAppend("\n[" + base + key + "]\n", body);
  }

  // ---------------------------------------------------------------- direct values

  /** Nothing that was read is to be lost if the parse is to end with `root`. */
  ghost predicate EndsWith(io: Doubles, ls: seq<Lexeme>, acc: seq<Entry>, root: seq<Entry>) {
    ParseGlobal(io, ls, acc) == Parsed(Dict(root), []) && EntryQuotes(acc) + WordQuotes(ls) <= EntryQuotes(root)
  }

  lemma SameEnd(io: Doubles, ls: seq<Lexeme>, ls': seq<Lexeme>, acc: seq<Entry>, root: seq<Entry>)
    requires EndsWith(io, ls, acc, root) && NextWord(ls') == NextWord(ls) && WordQuotes(ls') <= WordQuotes(ls)
    ensures EndsWith(io, ls', acc, root)
  {}

  /** A stain that got into the tree is in it at the end. */
  lemma StainedEnd(io: Doubles, ls: seq<Lexeme>, acc: seq<Entry>, root: seq<Entry>, path: seq<string>)
    requires EndsWith(io, ls, acc, root) && Wordy(ls) && GrownEntries(acc)
    requires LeafIn(acc, path).Some? && NodeQuotes(LeafIn(acc, path).value) > 0
    ensures LeafIn(root, path) == LeafIn(acc, path)
  {
    hide ParseGlobal, GrownEntries, LeafIn, EntryQuotes, WordQuotes;
    GlobalKeeps(io, ls, acc, path);
  }

  /** The next direct value: either it is good and stored, or the parse does not end with `root`. */
  lemma DirectStep(io: Doubles, w: string, acc: seq<Entry>, es: seq<Entry>, tail: string, root: seq<Entry>)
    requires es != [] && EntriesPlain(io, acc, es) && White(w) && Cut(tail) && !es[0].value.Dict?
    requires EndsWith(io, Lex(w + EntryText(io, es[0], 0, tail)), acc, root)
    requires forall q :: LeafIn(root, [es[0].key] + q) == Leaf(es[0].value, q)
    ensures KeyOk(es[0].key) && Readable(io, es[0].value) && EndsWith(io, Lex(tail), acc + [es[0]], root)
  {
    hide Lex, NextWord, IsTok, NoTok, ParseEntry, ParseValue, DumpValue, EntryText, Readable, IsMark, White, Sorted, ParseDict,
      Wordy, WordKey, WordQuotes, Quotes, EntryQuotes, NodeQuotes, MadeEntries, Made, KeyOk, Stained, EntriesPlain, EntriesOk, Insert,
      Grown, FloatsOk, Wordish, NoHeader, Doomed, Leaf, LeafIn, Cut, Names, InsertAt;
    var e := es[0];
    var ls := Lex(w + EntryText(io, e, 0, tail));
    FirstPlain(io, acc, es);
    EntryHead(io, e, w, 0, tail);
    WordishKeys(e.key);
    if e.key == "[" { BracketIsDoomed(io, ls); DoomedEnd(io, ls, acc, root); }
    var u := ParseEntry(io, NextWord(ls).value.1);
    EntryValue(io, e, 0, tail);
    EntriesAreMade(io, acc);
    StoredNext(acc, es, u.value);
    MadeMore(acc, e.key, u.value);
    if Readable(io, e.value) {
      ValueRead(io, e.value, 0, tail);
    } else {
      FaultyDirect(io, acc, es, tail, root);
    }
  }

  lemma DoomedEnd(io: Doubles, ls: seq<Lexeme>, acc: seq<Entry>, root: seq<Entry>)
    requires Doomed(io, ls)
    ensures !EndsWith(io, ls, acc, root)
  {}

  lemma FaultyDirect(io: Doubles, acc: seq<Entry>, es: seq<Entry>, tail: string, root: seq<Entry>)
    requires es != [] && EntriesPlain(io, acc, es) && Cut(tail) && !es[0].value.Dict? && !Readable(io, es[0].value) && KeyOk(es[0].key)
    requires forall q :: LeafIn(root, [es[0].key] + q) == Leaf(es[0].value, q)
    ensures var ls := Lex(DumpValue(io, es[0].value, 0) + tail); var u := ParseValue(io, ls);
      (u.Parsed? && EntryQuotes(acc) + Quotes(es[0].key) + WordQuotes(ls) <= EntryQuotes(root))
        ==> !EndsWith(io, u.rest, Insert(acc, es[0].key, u.value), root)
  {
    hide Lex, IsTok, NoTok, ParseValue, DumpValue, Readable, IsMark, Sorted, ParseGlobal,
      Wordy, WordKey, WordQuotes, Quotes, EntryQuotes, NodeQuotes, MadeEntries, Made, KeyOk, EntriesPlain, EntriesOk, Insert,
      Grown, FloatsOk, Wordish, Leaf, LeafIn, GrownEntries;
    var e := es[0];
    var ls := Lex(DumpValue(io, e.value, 0) + tail);
    var u := ParseValue(io, ls);
    FirstPlain(io, acc, es);
    EntryValue(io, e, 0, tail);
    EntriesAreMade(io, acc);
    if u.Parsed? && EntryQuotes(acc) + Quotes(e.key) + WordQuotes(ls) <= EntryQuotes(root) {
      var acc' := Insert(acc, e.key, u.value);
      StoredNext(acc, es, u.value);
      MadeMore(acc, e.key, u.value);
      MadeTableGrown(acc');
      GlobalMakes(io, u.rest, acc');
      if EndsWith(io, u.rest, acc', root) {
        InsertBound(acc, e.key, u.value);
        FaultyValue(io, e.value, 0, tail);
        var q, x :| Stain(u.value, e.value, q, x);
        StainedEnd(io, u.rest, acc', root, [e.key] + q);
      }
    }
  }

  lemma InsertBound(es: seq<Entry>, key: string, v: Node)
    requires MadeEntries(es)
    ensures EntryQuotes(Insert(es, key, v)) <= EntryQuotes(es) + Quotes(key) + NodeQuotes(v)
  {
    hide Quotes, NodeQuotes;
    InsertQuotes(es, key, v);
  }

  /** Keys of `es` lead in `root` where they lead in `es`. */
  ghost predicate Within(root: seq<Entry>, es: seq<Entry>) {
    forall i, q :: 0 <= i < |es| ==> LeafIn(root, [es[i].key] + q) == Leaf(es[i].value, q)
  }

  lemma AllWithin(root: seq<Entry>)
    requires Sorted(root)
    ensures Within(root, root)
  {
    forall i, q | 0 <= i < |root|
      ensures LeafIn(root, [root[i].key] + q) == Leaf(root[i].value, q)
    {
      FindSorted(root, i);
      assert ([root[i].key] + q)[1..] == q;
    }
  }

  lemma DirectPlain(io: Doubles, acc: seq<Entry>, e: Entry, more: seq<Entry>)
    requires EntriesPlain(io, acc, [e] + more) && KeyOk(e.key) && Readable(io, e.value)
    ensures EntriesPlain(io, acc + [e], more) && acc + [e] + more == acc + ([e] + more)
  {
    hide KeyOk, Readable, Wordish, Grown, FloatsOk;
    var all := acc + ([e] + more);
    assert acc + [e] + more == all && acc + [e] == all[..|acc| + 1];
    assert ([e] + more)[0] == e;
    forall i | 0 <= i < |more|
      ensures Wordish(more[i].key) && Grown(more[i].value) && FloatsOk(io, more[i].value)
    {
      assert more[i] == ([e] + more)[i + 1];
    }
  }

  /** If the parse ends with `root`, all its direct values are good. */
  lemma {:induction false} FaultlessDirect(io: Doubles, w: string, acc: seq<Entry>, es: seq<Entry>, post: string, root: seq<Entry>)
    requires EntriesPlain(io, acc, Direct(es)) && White(w) && Within(root, es)
    requires EndsWith(io, Lex(w + (DumpSuperValues(io, es) + post)), acc, root)
    ensures EntriesOk(io, acc + Direct(es)) && EndsWith(io, Lex(post), acc + Direct(es), root)
    decreases |es|
  {
    hide Lex, NextWord, IsTok, NoTok, ParseGlobal, DumpValue, EntryText, Readable, White, Sorted, WordQuotes, Quotes, EntryQuotes,
      KeyOk, Grown, FloatsOk, Wordish, Leaf, LeafIn, Cut, EndsWith;
    if es == [] {
      assert "" + post == post && acc + Direct(es) == acc;
      SkipWhite(w, post);
      WhiteQuotes(w, post);
      SameEnd(io, Lex(w + post), Lex(post), acc, root);
    } else if es[0].value.Dict? {
      assert Direct(es) == Direct(es[1..]);
      FaultlessDirect(io, w, acc, es[1..], post, root);
    } else {
      var e := es[0];
      var more := DumpSuperValues(io, es[1..]) + post;
      SuperLine(io, e, DumpSuperValues(io, es[1..]), post);
      NewlineSkipped(more);
      NewlineIsWhite();
      var all := [e] + Direct(es[1..]);
      assert Direct(es) == all && all[0] == e;
      assert Within(root, es[1..]);
      DirectStep(io, w, acc, all, "\n" + more, root);
      DirectPlain(io, acc, e, Direct(es[1..]));
      FaultlessDirect(io, "\n", acc + [e], es[1..], post, root);
    }
  }

  // ---------------------------------------------------------------- tables

  /** A table of `root`, printed under a good header. */
  ghost predicate TableOf(io: Doubles, root: seq<Entry>, t: Table) {
    && t.path != [] && HeaderOk(t.path) && EntriesPlain(io, [], t.entries)
    && forall q :: LeafIn(root, t.path + q) == LeafIn(t.entries, q)
  }

  /** The next table: either it is good and stored, or the parse does not end with `root`. */
  lemma TableStep(io: Doubles, acc: seq<Entry>, t: Table, post: string, root: seq<Entry>)
    requires GrownEntries(acc) && TableOf(io, root, t) && EndsTable(post)
    requires EndsWith(io, Lex("\n" + (['['] + (HeaderName(t.path) + ([']'] + ("\n" + (DumpGlobal(io, t.entries) + post)))))), acc, root)
    ensures EntriesOk(io, t.entries) && EndsWith(io, Lex(post), InsertAt(acc, t.path, Dict(t.entries)), root)
    ensures GrownEntries(InsertAt(acc, t.path, Dict(t.entries)))
  {
    hide Lex, NextWord, NoTok, ParseEntry, ParseDict, DumpGlobal, Readable, Sorted, KeyOk, EntriesOk, Names, InsertAt, HeaderOk,
      WordQuotes, Quotes, EntryQuotes, EntriesPlain, EndsTable, GrownEntries, NameQuotes, Wordy, HeaderName, LeafIn, EntriesFaulty, NamesOk;
    var name, body := HeaderName(t.path), DumpGlobal(io, t.entries) + post;
    HeaderRead(t.path, body);
    NamesOfHeader(t.path);
    HeaderCounted(name, body);
    HeaderNames(t.path);
    NewlineIsWhite();
    EmptyGrown();
    NothingRead(io);
    LexWordy("\n" + body);
    DictMakes(io, Lex("\n" + body), true, []);
    assert [] + t.entries == t.entries;
    PlainOrFaulty(io, t.entries);
    var p := ParseDict(io, Lex("\n" + body), true, []);
    if EntriesOk(io, t.entries) {
      NewlineSkipped(body);
      GlobalRead(io, Lex("\n" + body), [], t.entries, post);
      PlainGrown(io, t.entries);
      TableGrownAt(acc, t.path, t.entries);
      TableCounted(io, t.entries, post);
      RestMatters(io, p.rest, Lex(post), InsertAt(acc, t.path, Dict(t.entries)));
    } else {
      FaultyEnd(io, acc, t, post, root);
    }
  }

  lemma HeaderCounted(name: string, body: string)
    ensures WordQuotes(Lex("\n" + (['['] + (name + ([']'] + ("\n" + body)))))) == Quotes(name) + WordQuotes(Lex("\n" + body))
  {
    hide Quotes, Lex, WordQuotes;
    var text := "\n" + body;
    LexQuotes("\n" + (['['] + (name + ([']'] + text))));
    LexQuotes(text);
    Plain();
    QuotesAppend("\n", ['['] + (name + ([']'] + text)));
    QuotesAppend("[", name + ([']'] + text));
    QuotesAppend(name, [']'] + text);
    QuotesAppend("]", text);
    assert "[" == ['['] && "]" == [']'];
  }

  lemma HeaderNames(path: seq<string>)
    requires HeaderOk(path)
    ensures path != [] && NamesOk(path) && NameQuotes(path) <= Quotes(HeaderName(path))
  {
    hide Names, NoTok, Quotes, NameQuotes, HeaderName;
    NamesOfHeader(path);
    HeaderIsWord(path);
    NamesAreOk(HeaderName(path));
  }

  lemma PlainOrFaulty(io: Doubles, es: seq<Entry>)
    requires EntriesPlain(io, [], es)
    ensures EntriesOk(io, es) || EntriesFaulty(io, [], es)
  {
    hide KeyOk, Readable, Grown, FloatsOk, Wordish;
    assert [] + es == es;
  }

  lemma PlainGrown(io: Doubles, es: seq<Entry>)
    requires EntriesPlain(io, [], es)
    ensures GrownEntries(es) && forall i :: 0 <= i < |es| ==> FloatsOk(io, es[i].value)
  {
    hide KeyOk, Readable, FloatsOk, Wordish;
    assert [] + es == es;
  }

  lemma TableCounted(io: Doubles, es: seq<Entry>, post: string)
    requires forall i :: 0 <= i < |es| ==> FloatsOk(io, es[i].value)
    ensures WordQuotes(Lex("\n" + (DumpGlobal(io, es) + post))) == EntryQuotes(es) + WordQuotes(Lex(post))
  {
    hide Quotes, Lex, WordQuotes, DumpGlobal, EntryQuotes, FloatsOk;
    LexQuotes("\n" + (DumpGlobal(io, es) + post));
    LexQuotes(post);
    Plain();
    GlobalTextQuotes(io, es);
    QuotesAppend("\n", DumpGlobal(io, es) + post);
    QuotesAppend(DumpGlobal(io, es), post);
  }

  lemma FaultyEnd(io: Doubles, acc: seq<Entry>, t: Table, post: string, root: seq<Entry>)
    requires GrownEntries(acc) && TableOf(io, root, t) && EndsTable(post) && EntriesFaulty(io, [], t.entries)
    requires NamesOk(t.path) && NameQuotes(t.path) <= Quotes(HeaderName(t.path))
    ensures var ls := Lex("\n" + (DumpGlobal(io, t.entries) + post)); var p := ParseDict(io, ls, true, []);
      (p.Parsed? && EntryQuotes(acc) + Quotes(HeaderName(t.path)) + WordQuotes(ls) <= EntryQuotes(root))
        ==> !EndsWithTable(io, p, acc, t.path, root)
  {
    hide Lex, NextWord, ParseDict, ParseGlobal, DumpGlobal, Sorted, KeyOk, Names, InsertAt, HeaderOk, WordQuotes, Quotes, EntryQuotes,
      EntriesPlain, EndsTable, GrownEntries, NameQuotes, Wordy, HeaderName, LeafIn, EntriesFaulty, NamesOk, NodeQuotes, Doomed;
    var ls := Lex("\n" + (DumpGlobal(io, t.entries) + post));
    var p := ParseDict(io, ls, true, []);
    NothingRead(io);
    NewlineIsWhite();
    LexWordy("\n" + (DumpGlobal(io, t.entries) + post));
    DictMakes(io, ls, true, []);
    assert [] + t.entries == t.entries;
    if p.Parsed? && EntryQuotes(acc) + Quotes(HeaderName(t.path)) + WordQuotes(ls) <= EntryQuotes(root) && EndsWithTable(io, p, acc, t.path, root) {
      var table := p.value.entries;
      var acc' := InsertAt(acc, t.path, Dict(table));
      MadeTableGrown(table);
      TableGrownAt(acc, t.path, table);
      GlobalMakes(io, p.rest, acc');
      FaultyTable(io, [], t.entries, "\n", post);
      if Doomed(io, p.rest) {
        DoomedParse(io, p.rest, acc');
      } else {
        var q, x :| Stain(p.value, Dict(t.entries), q, x);
        DictLeaf(table, q);
        DictLeaf(t.entries, q);
        LeafStored(acc, t.path, table, q);
        GlobalKeeps(io, p.rest, acc', t.path + q);
      }
    }
  }

  lemma DictLeaf(es: seq<Entry>, q: seq<string>)
    ensures Leaf(Dict(es), q) == LeafIn(es, q)
  {}

  lemma DoomedParse(io: Doubles, ls: seq<Lexeme>, acc: seq<Entry>)
    requires Doomed(io, ls)
    ensures ParseGlobal(io, ls, acc).Failed?
  {}

  /** Storing the table `p` and reading on gives `root`. */
  ghost predicate EndsWithTable(io: Doubles, p: Parsed<Node>, acc: seq<Entry>, path: seq<string>, root: seq<Entry>) {
    p.Parsed? && path != [] && ParseGlobal(io, p.rest, InsertAt(acc, path, p.value)) == Parsed(Dict(root), [])
  }

  ghost predicate TablesOfTree(io: Doubles, root: seq<Entry>, ts: seq<Table>) {
    forall i :: 0 <= i < |ts| ==> TableOf(io, root, ts[i])
  }

  /** If the parse ends with `root`, all its tables are good. */
  lemma {:induction false} FaultlessTables(io: Doubles, acc: seq<Entry>, ts: seq<Table>, root: seq<Entry>)
    requires GrownEntries(acc) && PathsOk(ts) && TablesOfTree(io, root, ts)
    requires EndsWith(io, Lex(TablesText(io, "", ts)), acc, root)
    ensures TablesOk(io, ts)
    decreases |ts|
  {
    hide Lex, NextWord, ParseGlobal, DumpGlobal, EntriesOk, InsertAt, HeaderOk, WordQuotes, EntryQuotes, EndsTable, GrownEntries,
      HeaderName, TableOf, EndsWith;
    if ts != [] {
      var more := TablesText(io, "", ts[1..]);
      assert TableOf(io, root, ts[0]);
      HeaderText(HeaderName(ts[0].path), DumpGlobal(io, ts[0].entries), more);
      TextEndsTable(io, ts[1..]);
      TableStep(io, acc, ts[0], more, root);
      forall i | 0 <= i < |ts[1..]|
        ensures TableOf(io, root, ts[1..][i])
      {
        assert TableOf(io, root, ts[i + 1]);
      }
      FaultlessTables(io, InsertAt(acc, ts[0].path, Dict(ts[0].entries)), ts[1..], root);
      FirstTableOk(io, root, ts);
    }
  }

  lemma FirstTableOk(io: Doubles, root: seq<Entry>, ts: seq<Table>)
    requires ts != [] && TableOf(io, root, ts[0]) && EntriesOk(io, ts[0].entries) && TablesOk(io, ts[1..])
    ensures TablesOk(io, ts)
  {
    hide HeaderOk, EntriesOk, LeafIn, EntriesPlain;
    forall i | 0 <= i < |ts|
      ensures TableOk(io, ts[i])
    {
      if i > 0 { assert TableOk(io, ts[1..][i - 1]); }
    }
  }

  // ---------------------------------------------------------------- the tables of a tree

  /** The keys of a table lead in the tree where they lead in the table. */
  lemma {:induction false} TablesWithin(io: Doubles, root: seq<Entry>, es: seq<Entry>, top: bool)
    requires Within(root, es) && GrownEntries(es) && PathsPlain(es, top)
    requires forall i :: 0 <= i < |es| ==> FloatsOk(io, es[i].value)
    ensures TablesOfTree(io, root, TablesOf(es)) && (!top ==> PathsLonger(TablesOf(es)))
    decreases es, 0
  {
    hide TableOf, FloatsOk, TableKeyOk, PathKeyOk, LeafIn, Leaf, HasOthers, PathOk, Wordish;
    if es != [] {
      LaterGrown(es);
      LaterPlain(es, top);
      TablesWithin(io, root, es[1..], top);
      var e := es[0];
      if e.value.Dict? {
        DictWithin(io, root, e, top);
      }
    }
  }

  lemma LaterGrown(es: seq<Entry>)
    requires es != [] && GrownEntries(es)
    ensures GrownEntries(es[1..]) && Grown(es[0].value)
  {
    hide Wordish;
  }

  lemma LaterPlain(es: seq<Entry>, top: bool)
    requires es != [] && PathsPlain(es, top)
    ensures PathsPlain(es[1..], top)
    ensures es[0].value.Dict? && es[0].value.entries != [] ==>
      if HasOthers(es[0].value.entries) then TableKeyOk(es[0].key, top) else PathKeyOk(es[0].key) && PathsPlain(es[0].value.entries, false)
  {
    hide TableKeyOk, PathKeyOk, HasOthers;
  }

  lemma {:induction false} DictWithin(io: Doubles, root: seq<Entry>, e: Entry, top: bool)
    requires e.value.Dict? && Grown(e.value) && FloatsOk(io, e.value)
    requires forall q :: LeafIn(root, [e.key] + q) == Leaf(e.value, q)
    requires e.value.entries != [] ==>
      if HasOthers(e.value.entries) then TableKeyOk(e.key, top) else PathKeyOk(e.key) && PathsPlain(e.value.entries, false)
    ensures TablesOfTree(io, root, TablesOfDict(e.key, e.value.entries)) && (!top ==> PathsLonger(TablesOfDict(e.key, e.value.entries)))
    decreases e.value.entries, 1
  {
    hide FloatsOk, PathKeyOk, LeafIn, Leaf, HasOthers, Wordish;
    var inner := e.value.entries;
    if HasOthers(inner) {
      OthersAreEntries(inner);
      OneTableWithin(io, root, e, top);
    } else if inner != [] {
      SortedOf(e.value);
      AllWithin(inner);
      DictFloats(io, inner);
      TablesWithin(io, inner, inner, false);
      UnderWithin(io, root, inner, e.key, TablesOf(inner)) by { LeavesUnder(root, e); }
    }
  }

  lemma OthersAreEntries(es: seq<Entry>)
    requires HasOthers(es)
    ensures es != []
  {}

  lemma SortedOf(n: Node)
    requires n.Dict? && Grown(n)
    ensures Sorted(n.entries) && GrownEntries(n.entries)
  {}

  lemma DictFloats(io: Doubles, es: seq<Entry>)
    requires FloatsOk(io, Dict(es))
    ensures forall i :: 0 <= i < |es| ==> FloatsOk(io, es[i].value)
  {}

  lemma LeavesUnder(root: seq<Entry>, e: Entry)
    requires e.value.Dict? && forall q :: LeafIn(root, [e.key] + q) == Leaf(e.value, q)
    ensures forall q :: LeafIn(root, [e.key] + q) == LeafIn(e.value.entries, q)
  {
    hide LeafIn;
  }

  lemma OneTableWithin(io: Doubles, root: seq<Entry>, e: Entry, top: bool)
    requires e.value.Dict? && Grown(e.value) && FloatsOk(io, e.value) && TableKeyOk(e.key, top)
    requires forall q :: LeafIn(root, [e.key] + q) == Leaf(e.value, q)
    ensures TableOf(io, root, Table([e.key], e.value.entries)) && (!top ==> PathOk([e.key]))
  {
    hide PathKeyOk, LeafIn, Grown, Wordish, MarkKey;
    LeavesUnder(root, e);
    SortedOf(e.value);
    DictPlain(io, e.value.entries);
  }

  lemma DictPlain(io: Doubles, es: seq<Entry>)
    requires Grown(Dict(es)) && FloatsOk(io, Dict(es))
    ensures EntriesPlain(io, [], es)
  {
    hide Wordish, KeyOk, Readable;
    assert [] + es == es;
  }

  lemma {:induction false} UnderWithin(io: Doubles, root: seq<Entry>, inner: seq<Entry>, key: string, ts: seq<Table>)
    requires PathKeyOk(key) && TablesOfTree(io, inner, ts) && PathsLonger(ts)
    requires forall q :: LeafIn(root, [key] + q) == LeafIn(inner, q)
    ensures TablesOfTree(io, root, Under(key, ts)) && PathsLonger(Under(key, ts))
    decreases |ts|
  {
    hide PathKeyOk, PathOk, HeaderOk, EntriesPlain, LeafIn;
    if ts != [] {
      forall i | 0 <= i < |ts[1..]|
        ensures TableOf(io, inner, ts[1..][i]) && PathOk(ts[1..][i].path)
      {
        assert TableOf(io, inner, ts[i + 1]);
      }
      UnderWithin(io, root, inner, key, ts[1..]);
      var t := ts[0];
      assert TableOf(io, inner, t);
      PathLonger(key, t.path);
      forall q: seq<string>
        ensures LeafIn(root, ([key] + t.path) + q) == LeafIn(t.entries, q)
      {
        assert ([key] + t.path) + q == [key] + (t.path + q);
      }
      assert TableOf(io, root, Table([key] + t.path, t.entries));
    }
  }

  // ---------------------------------------------------------------- no empty dicts

  /** No dict, but those in arrays, is empty. */
  ghost predicate Full(es: seq<Entry>)
    decreases es
  {
    forall i :: 0 <= i < |es| && es[i].value.Dict? ==> es[i].value.entries != [] && Full(es[i].value.entries)
  }

  lemma {:induction false} FullMore(es: seq<Entry>, key: string, v: Node)
    requires Full(es) && (v.Dict? ==> v.entries != [] && Full(v.entries))
    ensures Full(Insert(es, key, v))
  {
    if es == [] {
    } else if es[0].key == key {
    } else if Less(key, es[0].key) {
    } else {
      FullMore(es[1..], key, v);
    }
  }

  lemma {:induction false} FullAt(es: seq<Entry>, names: seq<string>, t: seq<Entry>)
    requires Full(es) && names != [] && t != [] && Full(t)
    ensures Full(InsertAt(es, names, Dict(t))) && InsertAt(es, names, Dict(t)) != []
    decreases |names|
  {
    hide Insert;
    if |names| == 1 {
      FullMore(es, names[0], Dict(t));
    } else {
      FullAt(InnerDict(es, names[0]), names[1..], t);
      FullMore(es, names[0], Dict(InsertAt(InnerDict(es, names[0]), names[1..], Dict(t))));
    }
  }

  ghost predicate TablesFull(ts: seq<Table>) {
    forall i :: 0 <= i < |ts| ==> ts[i].path != [] && ts[i].entries != [] && Full(ts[i].entries)
  }

  lemma {:induction false} FullStored(es: seq<Entry>, ts: seq<Table>)
    requires Full(es) && PathsOk(ts) && TablesFull(ts)
    ensures Full(Stored(es, ts))
    decreases |ts|
  {
    hide InsertAt, Full;
    if ts != [] {
      FullAt(es, ts[0].path, ts[0].entries);
      FullStored(InsertAt(es, ts[0].path, Dict(ts[0].entries)), ts[1..]);
    }
  }

  lemma {:induction false} ReadableIsFull(io: Doubles, es: seq<Entry>)
    requires EntriesOk(io, es)
    ensures Full(es)
    decreases es
  {
    hide KeyOk, Sorted, StringOk, NoTok;
    forall i | 0 <= i < |es| && es[i].value.Dict?
      ensures es[i].value.entries != [] && Full(es[i].value.entries)
    {
      DictNonEmpty(io, es[i].value.entries);
      ReadableIsFull(io, es[i].value.entries);
    }
  }

  lemma {:induction false} PrintedTablesFull(io: Doubles, es: seq<Entry>)
    requires TablesOk(io, TablesOf(es))
    ensures TablesFull(TablesOf(es))
  {
    hide EntriesOk, HeaderOk, TablesOf, Full;
    TablesPaths(es);
    TablesHaveOthers(es);
    forall i | 0 <= i < |TablesOf(es)|
      ensures TablesOf(es)[i].path != [] && TablesOf(es)[i].entries != [] && Full(TablesOf(es)[i].entries)
    {
      assert TableOk(io, TablesOf(es)[i]);
      ReadableIsFull(io, TablesOf(es)[i].entries);
    }
  }

  lemma {:induction false} TablesHaveOthers(es: seq<Entry>)
    ensures forall i :: 0 <= i < |TablesOf(es)| ==> TablesOf(es)[i].entries != []
    decreases es
  {
    if es != [] {
      TablesHaveOthers(es[1..]);
      if es[0].value.Dict? && !HasOthers(es[0].value.entries) {
        TablesHaveOthers(es[0].value.entries);
        UnderEntries(es[0].key, TablesOf(es[0].value.entries));
      }
    }
  }

  lemma {:induction false} UnderEntries(key: string, ts: seq<Table>)
    ensures forall i :: 0 <= i < |ts| ==> Under(key, ts)[i].entries == ts[i].entries && Under(key, ts)[i].path == [key] + ts[i].path
  {
    if ts != [] { UnderEntries(key, ts[1..]); }
  }

  // ---------------------------------------------------------------- the theorem

  /** Good values, good tables and no empty dict make a tree that survives. */
  lemma {:induction false} PartsRestorable(io: Doubles, es: seq<Entry>, top: bool)
    requires GrownEntries(es) && PathsPlain(es, top) && Full(es) && EntriesOk(io, Direct(es)) && TablesOk(io, TablesOf(es))
    ensures Restorable(io, es, top)
    decreases es, 0
  {
    hide KeyOk, Readable, Wordish, TableKeyOk, PathKeyOk, HasOthers, Sorted, TableOk, Direct, TablesOf;
    SortedOf(Dict(es));
    forall i | 0 <= i < |es|
      ensures if es[i].value.Dict? then
          && es[i].value.entries != []
          && (if HasOthers(es[i].value.entries) then TableKeyOk(es[i].key, top) && Readable(io, es[i].value)
              else PathKeyOk(es[i].key) && Restorable(io, es[i].value.entries, false))
        else KeyOk(es[i].key) && Readable(io, es[i].value)
    {
      if es[i].value.Dict? {
        DictParts(io, es, i);
        var inner := es[i].value.entries;
        if !HasOthers(inner) {
          NoOthersNoValues(io, inner);
          NothingRead(io);
          PartsRestorable(io, inner, false);
        }
      } else {
        DirectHas(es, i);
        var j :| 0 <= j < |Direct(es)| && Direct(es)[j] == es[i];
      }
    }
  }

  lemma {:induction false} DirectHas(es: seq<Entry>, i: nat)
    requires i < |es| && !es[i].value.Dict?
    ensures es[i] in Direct(es)
  {
    if i > 0 { DirectHas(es[1..], i - 1); }
  }

  lemma {:induction false} DictParts(io: Doubles, es: seq<Entry>, i: nat)
    requires i < |es| && es[i].value.Dict? && es[i].value.entries != [] && GrownEntries(es) && TablesOk(io, TablesOf(es))
    ensures var inner := es[i].value.entries;
      && GrownEntries(inner)
      && (if HasOthers(inner) then Readable(io, es[i].value) else TablesOk(io, TablesOf(inner)))
    decreases i
  {
    hide EntriesOk, HasOthers, Readable, HeaderOk, Wordish;
    LaterGrown(es);
    TablesHead(io, es);
    if i > 0 {
      DictParts(io, es[1..], i - 1);
    } else {
      SortedOf(es[0].value);
      if HasOthers(es[0].value.entries) {
        assert TableOk(io, TablesOfDict(es[0].key, es[0].value.entries)[0]);
        EntriesReadable(io, es[0].value.entries);
      } else {
        TablesPaths(es[0].value.entries);
        UnderOk(io, es[0].key, TablesOf(es[0].value.entries));
      }
    }
  }

  lemma EntriesReadable(io: Doubles, es: seq<Entry>)
    requires EntriesOk(io, es) && es != []
    ensures Readable(io, Dict(es))
  {}

  lemma TablesHead(io: Doubles, es: seq<Entry>)
    requires es != [] && TablesOk(io, TablesOf(es))
    ensures TablesOk(io, TablesOf(es[1..])) && (es[0].value.Dict? ==> TablesOk(io, TablesOfDict(es[0].key, es[0].value.entries)))
  {
    hide TableOk, TablesOfDict;
    var a, b := if es[0].value.Dict? then TablesOfDict(es[0].key, es[0].value.entries) else [], TablesOf(es[1..]);
    assert TablesOf(es) == a + b;
    forall i | 0 <= i < |b| ensures TableOk(io, b[i]) { assert b[i] == (a + b)[|a| + i]; }
    forall i | 0 <= i < |a| ensures TableOk(io, a[i]) { assert a[i] == (a + b)[i]; }
  }

  /** A path that is good with a key in front is good without. */
  lemma UnderOk(io: Doubles, key: string, ts: seq<Table>)
    requires TablesOk(io, Under(key, ts)) && PathsOk(ts)
    ensures TablesOk(io, ts)
  {
    hide EntriesOk, MarkKey, PathKeyOk;
    UnderEntries(key, ts);
    forall i | 0 <= i < |ts|
      ensures TableOk(io, ts[i])
    {
      var path := [key] + ts[i].path;
      assert TableOk(io, Under(key, ts)[i]);
      assert |path| >= 2;
      assert path[1..] == ts[i].path;
    }
  }

  lemma RootPlain(io: Doubles, root: seq<Entry>)
    requires Grown(Dict(root)) && FloatsOk(io, Dict(root))
    ensures EntriesPlain(io, [], Direct(root)) && Sorted(root) && GrownEntries(Direct(root)) && GrownEntries(root)
  {
    hide Wordish, KeyOk, Readable, Sorted;
    DirectSorted(root);
    DirectAreEntries(root);
    assert [] + Direct(root) == Direct(root);
    forall i | 0 <= i < |Direct(root)|
      ensures Wordish(Direct(root)[i].key) && Grown(Direct(root)[i].value) && FloatsOk(io, Direct(root)[i].value)
    {
      var j :| 0 <= j < |root| && root[j] == Direct(root)[i];
    }
    NothingSorted(io);
  }

  lemma NothingSorted(io: Doubles)
    ensures EntriesOk(io, [])
  {}

  /** At the start no quotation mark is lost yet. */
  lemma StartTight(io: Doubles, root: seq<Entry>)
    requires FloatsOk(io, Dict(root)) && PathsPlain(root, true)
    ensures WordQuotes(Lex(Dump(io, root))) <= EntryQuotes(root)
  {
    hide Quotes, FloatsOk, Lex, DumpSuperValues, DumpSuperTables;
    DictFloats(io, root);
    assert Quotes("") == 0 by { Plain(); }
    SuperTextQuotes(io, "", root, true);
    QuotesAppend(DumpSuperValues(io, root), DumpSuperTables(io, "", root));
    LexQuotes(Dump(io, root));
  }

  /** A tree that comes back has good values and tables only, and is what was stored of them. */
  lemma ReturnedParts(io: Doubles, root: seq<Entry>)
    requires FloatsOk(io, Dict(root)) && PathsPlain(root, true) && Parse(io, Dump(io, root)) == Parsed(Dict(root), [])
    ensures Grown(Dict(root)) && EntriesOk(io, Direct(root)) && TablesOk(io, TablesOf(root)) && PathsOk(TablesOf(root))
    ensures root == Stored(Direct(root), TablesOf(root))
  {
    hide EntriesOk, DumpSuperValues, DumpSuperTables, ParseGlobal, Stored, TablesOf, Direct, Lex, WordQuotes, EntryQuotes, FloatsOk,
      Grown, PathsPlain, EntriesPlain, TablesText, Within, LeafIn, Leaf, Sorted, TablesOk, GrownEntries;
    var ts := TablesOf(root);
    ParsedIsGrown(io, Dump(io, root));
    RootPlain(io, root);
    TablesPaths(root);
    TablesPrinted(io, "", root);
    StartTight(io, root);
    NoQuotesYet();
    AllWithin(root);
    assert White("") && [] + Direct(root) == Direct(root);
    assert "" + (DumpSuperValues(io, root) + TablesText(io, "", ts)) == Dump(io, root);
    FaultlessDirect(io, "", [], root, TablesText(io, "", ts), root);
    DictFloats(io, root);
    TablesWithin(io, root, root, true);
    FaultlessTables(io, Direct(root), ts, root);
    TablesRead(io, Lex(TablesText(io, "", ts)), Direct(root), ts);
  }

  lemma NoQuotesYet()
    ensures EntryQuotes([]) == 0
  {}

  lemma OnlyRestorableComesBack(io: Doubles, root: seq<Entry>)
    requires FloatsOk(io, Dict(root)) && PathsPlain(root, true) && Parse(io, Dump(io, root)) == Parsed(Dict(root), [])
    ensures Restorable(io, root, true)
  {
    hide EntriesOk, Parse, Stored, TablesOf, Direct, FloatsOk, PathsPlain, TablesOk, GrownEntries, Restorable, Full, Grown;
    ReturnedParts(io, root);
    ReadableIsFull(io, Direct(root));
    PrintedTablesFull(io, root);
    FullStored(Direct(root), TablesOf(root));
    SortedOf(Dict(root));
    PartsRestorable(io, root, true);
  }

  /** Dumping a tree and parsing the text gives the same tree exactly if the tree is restorable. The doubles
      must be printed with a dot and read back, and the keys in table headers be fit for them. */
  lemma TreeComesBackIff(io: Doubles, root: seq<Entry>)
    requires FloatsOk(io, Dict(root)) && PathsPlain(root, true)
    ensures Parse(io, Dump(io, root)) == Parsed(Dict(root), []) <==> Restorable(io, root, true)
  {
    hide Parse, Dump, FloatsOk, PathsPlain, Restorable;
    if Restorable(io, root, true) {
      DumpedTreeIsReadBack(io, root);
    } else if Parse(io, Dump(io, root)) == Parsed(Dict(root), []) {
      OnlyRestorableComesBack(io, root);
    }
  }
}
