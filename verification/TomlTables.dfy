/** Printed tables read back, and put where they were in the tree. */
module TomlTables {
  import opened Options
  import opened ConfigTree
  import opened Lexer
  import opened TomlText
  import opened TomlParse
  import opened TomlLex
  import opened TomlValues
  import T = Tokenizer

  // ---------------------------------------------------------------- names in headers

  /** A key that can stand in a dotted table header. The last one is read up to a NUL character. */
  predicate PathKeyOk(key: string) {
    key != "" && NoTok(key) && '.' !in key
  }

  predicate PathOk(path: seq<string>) {
    path != [] && (forall i :: 0 <= i < |path| ==> PathKeyOk(path[i])) && '\0' !in path[|path| - 1]
  }

  /** A header without dots can be a single mark, too. */
  predicate HeaderOk(path: seq<string>) {
    PathOk(path) || (|path| == 1 && MarkKey(path[0]))
  }

  function HeaderName(path: seq<string>): string
    requires path != []
  {
    if |path| == 1 then path[0] else path[0] + "." + HeaderName(path[1..])
  }

  const DOT_CHARS := "." + SKIP_CHARS

  lemma DotFlags(q: string)
    requires q != ""
    ensures T.FlagsOf(DotTokens(), q) == if |q| == 1 && q[0] in DOT_CHARS then Some(T.Flags(true, "")) else None
  {
    var a := T.OneCharTokens(".", T.Flags(false, ""));
    var b := T.OneCharTokens(DOT_CHARS, T.Flags(true, ""));
    T.LastInsertionWins(a + b, q);
    T.LastFlagsOfConcat(a, b, q);
    T.OneCharFlags(".", T.Flags(false, ""), q);
    T.OneCharFlags(DOT_CHARS, T.Flags(true, ""), q);
    assert DOT_CHARS[0] == '.';
  }

  lemma DotHeads(c: char)
    ensures c in DotTokens().keyHeads <==> c in DOT_CHARS
  {
    var a := T.OneCharTokens(".", T.Flags(false, ""));
    var b := T.OneCharTokens(DOT_CHARS, T.Flags(true, ""));
    var ts: seq<T.Token> := a + b;
    T.HeadsOfBuild(ts, c);
    assert DOT_CHARS[0] == '.';
    if c in DOT_CHARS {
      var i :| 0 <= i < |DOT_CHARS| && DOT_CHARS[i] == c;
      assert ts[1 + i].str == [c];
    }
  }

  /** A text without the characters that cut names. */
  predicate NamePart(key: string) {
    key != "" && forall i :: 0 <= i < |key| ==> key[i] !in DOT_CHARS
  }

  /** The first name of a path is the text up to a dot. */
  lemma NameStep(key: string, rest: string)
    requires NamePart(key) && rest != "" && rest[0] == '.'
    ensures Names(key + rest) == [key] + Names(rest)
  {
    var s := key + rest;
    NameFound(key, rest);
    assert s[|key|] == '.' && DOT_CHARS[0] == '.';
    assert s[..|key|] == key && s[|key|..] == rest;
  }

  /** The last name is read up to a NUL character. */
  lemma LastName(key: string)
    requires NamePart(key)
    ensures Names(key) == [UpToNul(key)]
  {
    NameFound(key, "");
    assert key + "" == key;
  }

  lemma NameFound(key: string, rest: string)
    requires NamePart(key)
    ensures var s := key + rest; var r := T.Next(DotTokens(), s);
      && (rest != "" && rest[0] == '.' ==> r.len == |key| && !r.skip)
      && (rest == "" ==> r.len == 0)
  {
    var s := key + rest;
    T.NextIsLongestOrRun(DotTokens(), s);
    forall m | 1 <= m <= |s|
      ensures T.FlagsOf(DotTokens(), s[..m]) == None
    {
      DotFlags(s[..m]);
      assert s[..m][0] == key[0];
    }
    forall k | 0 <= k < |s|
      ensures s[k] in DotTokens().keyHeads <==> s[k] in DOT_CHARS
    {
      DotHeads(s[k]);
    }
    if rest != "" && rest[0] == '.' { assert s[|key|] == '.' && DOT_CHARS[0] == '.'; }
  }

  lemma PathKeyIsName(key: string)
    requires PathKeyOk(key) || MarkKey(key)
    ensures NamePart(key)
  {
    SkipsAreToks();
    forall i | 0 <= i < |key|
      ensures key[i] !in DOT_CHARS
    {
      var c := key[i];
      assert c in key;
      DotOrSkip(c);
    }
  }

  lemma Dot()
    ensures !IsTok('.')
  {}

  lemma DotOrSkip(c: char)
    ensures c in DOT_CHARS ==> c == '.' || IsSkip(c)
    ensures IsMark(c) ==> c !in DOT_CHARS
  {
    Dot();
  }

  lemma {:induction false} WholeName(key: string)
    requires '\0' !in key
    ensures UpToNul(key) == key
  {
    if key != "" { WholeName(key[1..]); }
  }

  lemma DotDropped(rest: string)
    ensures Names("." + rest) == Names(rest)
  {
    var s := "." + rest;
    T.NextIsLongestOrRun(DotTokens(), s);
    forall m | 1 <= m <= |s|
      ensures T.FlagsOf(DotTokens(), s[..m]) == if m == 1 then Some(T.Flags(true, "")) else None
    {
      DotFlags(s[..m]);
      assert s[..m][0] == '.' && DOT_CHARS[0] == '.';
    }
    assert T.FlagsOf(DotTokens(), s[..1]) != None;
    assert s[1..] == rest;
  }

  /** Cutting a header at its dots gives the path it was made from. */
  lemma {:induction false} NamesOfHeader(path: seq<string>)
    requires HeaderOk(path)
    ensures Names(HeaderName(path)) == path
  {
    hide Names, PathKeyOk, MarkKey, NamePart;
    PathKeyIsName(path[0]);
    if |path| == 1 {
      NoNul(path[0]);
      LastName(path[0]);
      WholeName(path[0]);
      assert path == [path[0]];
    } else {
      var more := HeaderName(path[1..]);
      assert HeaderName(path) == path[0] + ("." + more);
      NameStep(path[0], "." + more);
      DotDropped(more);
      NamesOfHeader(path[1..]);
    }
  }

  lemma NoNul(key: string)
    ensures MarkKey(key) ==> '\0' !in key
  {
    if MarkKey(key) { assert !IsTok('\0'); }
  }

  lemma NoNames()
    ensures Names("") == []
  {}

  lemma {:induction false} HeaderIsWord(path: seq<string>)
    requires HeaderOk(path)
    ensures (HeaderName(path) != "" && NoTok(HeaderName(path))) || MarkKey(HeaderName(path))
    ensures PathOk(path) ==> HeaderName(path) != "" && NoTok(HeaderName(path))
  {
    if |path| > 1 {
      HeaderIsWord(path[1..]);
      Dot();
    }
  }

  // ---------------------------------------------------------------- entries of tables

  /** A text after which a table ends: the next header, or nothing. */
  predicate EndsTable(post: string) {
    NextWord(Lex(post)) == None || NextWord(Lex(post)).value.0 == "["
  }

  lemma NewlineSkipped(s: string)
    ensures NextWord(Lex("\n" + s)) == NextWord(Lex(s))
    ensures Cut("\n" + s)
  {
    Marks();
    SkipWhite("\n", s);
  }

  /** Only the next word matters to the parser of a whole text. */
  lemma RestMatters(io: Doubles, ls: seq<Lexeme>, ls': seq<Lexeme>, acc: seq<Entry>)
    requires NextWord(ls) == NextWord(ls')
    ensures ParseGlobal(io, ls, acc) == ParseGlobal(io, ls', acc)
  {
    hide NextWord, ParseDict, ParseEntry, Names;
  }

  /** Only the next word matters to the parser of tables. */
  lemma {:induction false} GlobalRead(io: Doubles, ls: seq<Lexeme>, acc: seq<Entry>, es: seq<Entry>, post: string)
    requires EntriesOk(io, acc + es) && EndsTable(post)
    requires NextWord(ls) == NextWord(Lex(DumpGlobal(io, es) + post))
    ensures var p := ParseDict(io, ls, true, acc);
      p.Parsed? && p.value == Dict(acc + es) && NextWord(p.rest) == NextWord(Lex(post))
    decreases |es|
  {
    hide Lex, NextWord, NoTok, Cut, ParseEntry, DumpValue, EntryText, Readable, Sorted, KeyOk, EntriesOk;
    if es == [] {
      assert "" + post == post && acc + es == acc;
      NothingLeft();
    } else {
      var e := es[0];
      var more := DumpGlobal(io, es[1..]) + post;
      GlobalLine(io, e, DumpGlobal(io, es[1..]), post);
      FirstEntry(io, acc, es);
      NewlineSkipped(more);
      EntryRead(io, e, |e.key| + 3, "\n" + more);
      NotHeader(e.key);
      GlobalRead(io, Lex("\n" + more), acc + [e], es[1..], post);
    }
  }

  lemma NothingLeft()
    ensures NextWord([]) == None
  {}

  lemma GlobalLine(io: Doubles, e: Entry, more: string, post: string)
    ensures (e.key + " = " + DumpValue(io, e.value, |e.key| + 3) + "\n" + more) + post
      == EntryText(io, e, |e.key| + 3, "\n" + (more + post))
  {}

  /** The entries of a dict that are printed before all tables. */
  function Direct(es: seq<Entry>): seq<Entry> {
    if es == [] then [] else (if es[0].value.Dict? then [] else [es[0]]) + Direct(es[1..])
  }

  lemma {:induction false} SuperValuesRead(io: Doubles, ls: seq<Lexeme>, acc: seq<Entry>, es: seq<Entry>, post: string)
    requires EntriesOk(io, acc + Direct(es))
    requires NextWord(ls) == NextWord(Lex(DumpSuperValues(io, es) + post))
    ensures ParseGlobal(io, ls, acc) == ParseGlobal(io, Lex(post), acc + Direct(es))
    decreases |es|
  {
    hide Lex, NextWord, NoTok, Cut, ParseEntry, ParseDict, DumpValue, EntryText, Readable, Sorted, KeyOk, EntriesOk;
    if es == [] {
      assert "" + post == post && acc + Direct(es) == acc;
    } else if es[0].value.Dict? {
      assert Direct(es) == Direct(es[1..]);
      SuperValuesRead(io, ls, acc, es[1..], post);
    } else {
      var e := es[0];
      var more := DumpSuperValues(io, es[1..]) + post;
      assert DumpSuperValues(io, es) + post == EntryText(io, e, 0, "\n" + more) by {
        SuperLine(io, e, DumpSuperValues(io, es[1..]), post);
      }
      assert Direct(es)[0] == e && Direct(es)[1..] == Direct(es[1..]);
      FirstEntry(io, acc, Direct(es));
      NewlineSkipped(more);
      EntryRead(io, e, 0, "\n" + more);
      NotHeader(e.key);
      SuperValuesRead(io, Lex("\n" + more), acc + [e], es[1..], post);
    }
  }

  lemma SuperLine(io: Doubles, e: Entry, more: string, post: string)
    ensures (e.key + " = " + DumpValue(io, e.value, 0) + "\n" + more) + post == EntryText(io, e, 0, "\n" + (more + post))
  {}

  // ---------------------------------------------------------------- tables

  /** A table as printed: where it belongs, and its entries. */
  datatype Table = Table(path: seq<string>, entries: seq<Entry>)

  function Under(key: string, ts: seq<Table>): (r: seq<Table>)
    ensures |r| == |ts|
  {
    if ts == [] then [] else [Table([key] + ts[0].path, ts[0].entries)] + Under(key, ts[1..])
  }

  /** The tables of the dicts in `es`, in the order they are printed. */
  function TablesOf(es: seq<Entry>): seq<Table>
    decreases es, 0
  {
    if es == [] then []
    else
      (if !es[0].value.Dict? then []
       else TablesOfDict(es[0].key, es[0].value.entries))
      + TablesOf(es[1..])
  }

  function TablesOfDict(key: string, inner: seq<Entry>): seq<Table>
    decreases inner, 1
  {
    if HasOthers(inner) then [Table([key], inner)] else Under(key, TablesOf(inner))
  }

  ghost predicate PathsOk(ts: seq<Table>) {
    forall i :: 0 <= i < |ts| ==> ts[i].path != []
  }

  function TablesText(io: Doubles, base: string, ts: seq<Table>): string
    requires PathsOk(ts)
  {
    if ts == [] then ""
    else "\n[" + base + HeaderName(ts[0].path) + "]\n" + DumpGlobal(io, ts[0].entries) + TablesText(io, base, ts[1..])
  }

  lemma {:induction false} UnderPaths(key: string, ts: seq<Table>)
    ensures PathsOk(Under(key, ts))
  {
    if ts != [] { UnderPaths(key, ts[1..]); }
  }

  lemma {:induction false} TablesPaths(es: seq<Entry>)
    ensures PathsOk(TablesOf(es))
    decreases es
  {
    if es != [] {
      TablesPaths(es[1..]);
      if es[0].value.Dict? { UnderPaths(es[0].key, TablesOf(es[0].value.entries)); }
    }
  }

  lemma {:induction false} UnderText(io: Doubles, base: string, key: string, ts: seq<Table>)
    requires PathsOk(ts) && PathsOk(Under(key, ts))
    ensures TablesText(io, base, Under(key, ts)) == TablesText(io, base + key + ".", ts)
  {
    hide DumpGlobal;
    if ts != [] {
      UnderPaths(key, ts[1..]);
      UnderText(io, base, key, ts[1..]);
      var path := ts[0].path;
      assert ([key] + path)[1..] == path;
      assert HeaderName([key] + path) == key + "." + HeaderName(path);
      assert base + (key + "." + HeaderName(path)) == base + key + "." + HeaderName(path);
      assert Under(key, ts)[1..] == Under(key, ts[1..]);
    }
  }

  lemma {:induction false} TextAppend(io: Doubles, base: string, a: seq<Table>, b: seq<Table>)
    requires PathsOk(a) && PathsOk(b)
    ensures PathsOk(a + b) && TablesText(io, base, a + b) == TablesText(io, base, a) + TablesText(io, base, b)
  {
    hide DumpGlobal, HeaderName;
    if a == [] {
      assert a + b == b;
      assert "" + TablesText(io, base, b) == TablesText(io, base, b);
    } else {
      TextAppend(io, base, a[1..], b);
      assert (a + b)[1..] == a[1..] + b;
      var first := "\n[" + base + HeaderName(a[0].path) + "]\n" + DumpGlobal(io, a[0].entries);
      assert TablesText(io, base, a + b) == first + TablesText(io, base, a[1..] + b);
      assert first + (TablesText(io, base, a[1..]) + TablesText(io, base, b))
        == (first + TablesText(io, base, a[1..])) + TablesText(io, base, b);
    }
  }

  lemma {:induction false} NoOthersNoValues(io: Doubles, es: seq<Entry>)
    requires !HasOthers(es)
    ensures DumpSuperValues(io, es) == "" && Direct(es) == []
  {
    if es != [] {
      assert es[0].value.Dict?;
      assert !HasOthers(es[1..]);
      NoOthersNoValues(io, es[1..]);
    }
  }

  /** What is printed last is the list of tables. */
  lemma {:induction false} TablesPrinted(io: Doubles, base: string, es: seq<Entry>)
    ensures PathsOk(TablesOf(es)) && DumpSuperTables(io, base, es) == TablesText(io, base, TablesOf(es))
    decreases es, 1
  {
    TablesPaths(es);
    if es != [] {
      TablesPrinted(io, base, es[1..]);
      if es[0].value.Dict? {
        DictPrinted(io, base, es[0].key, es[0].value.entries);
        TextAppend(io, base, TablesOfDict(es[0].key, es[0].value.entries), TablesOf(es[1..]));
      } else {
        assert TablesOf(es) == TablesOf(es[1..]);
      }
    }
  }

  lemma OneTableText(io: Doubles, base: string, key: string, inner: seq<Entry>)
    ensures TablesText(io, base, [Table([key], inner)]) == "\n[" + base + key + "]\n" + DumpGlobal(io, inner)
  {
    hide DumpGlobal;
    var t := [Table([key], inner)];
    assert t[1..] == [];
    assert HeaderName([key]) == key;
  }

  lemma {:induction false} DictPrinted(io: Doubles, base: string, key: string, inner: seq<Entry>)
    ensures PathsOk(TablesOfDict(key, inner))
    ensures TablesText(io, base, TablesOfDict(key, inner)) ==
      if HasOthers(inner) then "\n[" + base + key + "]\n" + DumpGlobal(io, inner)
      else DumpSuper(io, base + key + ".", inner)
    decreases inner, 2
  {
    hide DumpGlobal, DumpSuperValues, HeaderName;
    if HasOthers(inner) {
      OneTableText(io, base, key, inner);
    } else {
      NoOthersNoValues(io, inner);
      TablesPrinted(io, base + key + ".", inner);
      UnderPaths(key, TablesOf(inner));
      UnderText(io, base, key, TablesOf(inner));
      assert "" + DumpSuperTables(io, base + key + ".", inner) == DumpSuperTables(io, base + key + ".", inner);
    }
  }

  // ---------------------------------------------------------------- reading tables

  ghost predicate TableOk(io: Doubles, t: Table) {
    HeaderOk(t.path) && EntriesOk(io, t.entries)
  }

  ghost predicate TablesOk(io: Doubles, ts: seq<Table>) {
    forall i :: 0 <= i < |ts| ==> TableOk(io, ts[i])
  }

  /** Storing tables one after the other. */
  function Stored(es: seq<Entry>, ts: seq<Table>): seq<Entry>
    requires PathsOk(ts)
    decreases |ts|
  {
    if ts == [] then es else Stored(InsertAt(es, ts[0].path, Dict(ts[0].entries)), ts[1..])
  }

  lemma {:induction false} TablesRead(io: Doubles, ls: seq<Lexeme>, acc: seq<Entry>, ts: seq<Table>)
    requires TablesOk(io, ts) && PathsOk(ts)
    requires NextWord(ls) == NextWord(Lex(TablesText(io, "", ts)))
    ensures ParseGlobal(io, ls, acc) == Parsed(Dict(Stored(acc, ts)), [])
    decreases |ts|
  {
    hide Lex, NextWord, NoTok, Cut, ParseEntry, ParseDict, DumpGlobal, Readable, Sorted, KeyOk, EntriesOk, Names, InsertAt, HeaderOk;
    if ts == [] {
      LexEmpty();
      NothingLeft();
    } else {
      assert TableOk(io, ts[0]);
      var name := HeaderName(ts[0].path);
      var more := TablesText(io, "", ts[1..]);
      var table := DumpGlobal(io, ts[0].entries) + more;
      HeaderText(name, DumpGlobal(io, ts[0].entries), more);
      HeaderRead(ts[0].path, table);
      TextEndsTable(io, ts[1..]);
      assert [] + ts[0].entries == ts[0].entries;
      NewlineSkipped(table);
      GlobalRead(io, Lex("\n" + table), [], ts[0].entries, more);
      NamesOfHeader(ts[0].path);
      TablesRead(io, ParseDict(io, Lex("\n" + table), true, []).rest, InsertAt(acc, ts[0].path, Dict(ts[0].entries)), ts[1..]);
    }
  }

  lemma HeaderText(name: string, body: string, more: string)
    ensures "\n[" + "" + name + "]\n" + body + more == "\n" + (['['] + (name + ([']'] + ("\n" + (body + more)))))
  {}

  lemma HeaderRead(path: seq<string>, table: string)
    requires HeaderOk(path)
    ensures var r := NextWord(Lex("\n" + (['['] + (HeaderName(path) + ([']'] + ("\n" + table))))));
      && r.Some? && r.value.0 == "["
      && var name := NextWord(r.value.1);
      && name.Some? && name.value.0 == HeaderName(path)
      && NextWord(name.value.1) == Some(("]", Lex("\n" + table)))
  {
    hide Lex, NextWord, HeaderName, NoTok, PathKeyOk, MarkKey;
    var close := [']'] + ("\n" + table);
    var name := HeaderName(path);
    Marks();
    HeaderIsWord(path);
    NewlineSkipped(['['] + (name + close));
    NextMark('[', name + close);
    NextKey(name, close);
    NextMark(']', "\n" + table);
  }

  lemma TextEndsTable(io: Doubles, ts: seq<Table>)
    requires PathsOk(ts)
    ensures EndsTable(TablesText(io, "", ts))
  {
    hide Lex, NextWord, DumpGlobal;
    if ts == [] {
      LexEmpty();
      NothingLeft();
    } else {
      var name := HeaderName(ts[0].path);
      var more := TablesText(io, "", ts[1..]);
      HeaderText(name, DumpGlobal(io, ts[0].entries), more);
      var rest := name + ([']'] + ("\n" + (DumpGlobal(io, ts[0].entries) + more)));
      NewlineSkipped(['['] + rest);
      Marks();
      NextMark('[', rest);
    }
  }
}
