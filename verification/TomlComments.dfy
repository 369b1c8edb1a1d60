/** Comments and white space: what stands between the words of a TOML text does not matter. */
module TomlComments {
  import opened Options
  import opened ConfigTree
  import opened Lexer
  import opened TomlText
  import opened TomlParse
  import opened TomlLex
  import opened TomlValues
  import opened TomlTables
  import opened TomlRoundTrip

  // ---------------------------------------------------------------- one comment

  lemma {:induction false} CharsOfWords(ls: seq<Lexeme>, i: nat, c: char)
    requires i < |ls| && c in ls[i].str
    ensures c in Concat(ls)
  {
    if i > 0 { CharsOfWords(ls[1..], i - 1, c); }
  }

  /** A line without a newline has no word that ends a comment. */
  lemma NoEndWithin(c: string)
    requires '\n' !in c
    ensures forall i :: 0 <= i < |Lex(c)| ==> Lex(c)[i].str != "\n"
  {
    hide Lex, Concat;
    StringWords(c);
    forall i | 0 <= i < |Lex(c)|
      ensures Lex(c)[i].str != "\n"
    {
      if Lex(c)[i].str == "\n" {
        assert '\n' in "\n";
        CharsOfWords(Lex(c), i, '\n');
      }
    }
  }

  lemma Sharp()
    ensures IsTok('#') && IsTok('\n') && !IsSkip('#')
    ensures CharLexeme('#') == Lexeme("#", false, "\n")
  {
    Marks();
    assert TOKEN_CHARS[12] == '#';
  }

  /** The words of a commented line. */
  lemma CommentWords(c: string, s: string)
    requires '\n' !in c
    ensures Lex("#" + c + "\n" + s) == [CharLexeme('#')] + (Lex(c) + ([CharLexeme('\n')] + Lex(s)))
  {
    hide Lex, IsTok, IsSkip;
    var line := "\n" + s;
    assert "#" + c + "\n" + s == ['#'] + (c + line);
    Sharp();
    assert line == ['\n'] + s;
    LexTok('#', c + line);
    LexAppend(c, line);
    LexTok('\n', s);
  }

  /** What stands between a sharp and the end of its line is not read. */
  lemma CommentSkipped(c: string, s: string)
    requires '\n' !in c
    ensures NextWord(Lex("#" + c + "\n" + s)) == NextWord(Lex(s))
  {
    hide Lex, NextWord, AfterComment, IsTok, IsSkip;
    var ls := Lex(c) + ([CharLexeme('\n')] + Lex(s));
    CommentWords(c, s);
    Sharp();
    NoEndWithin(c);
    CommentEndsAtFirst(ls, "\n", |Lex(c)|);
    NextWordUnfold([CharLexeme('#')] + ls);
    assert ls[|Lex(c)| + 1..] == Lex(s);
  }

  /** A comment in the last line ends the text. */
  lemma LastCommentSkipped(c: string)
    requires '\n' !in c
    ensures NextWord(Lex("#" + c)) == None
  {
    hide Lex, NextWord, AfterComment, IsTok, IsSkip;
    assert "#" + c == ['#'] + c;
    Sharp();
    LexTok('#', c);
    NoEndWithin(c);
    CommentEndsAtFirst(Lex(c), "\n", |Lex(c)|);
    NextWordUnfold([CharLexeme('#')] + Lex(c));
    NothingLeft();
  }

  /** A text is parsed as if its first line, a comment, were not there, whatever follows. */
  lemma CommentLineDropped(io: Doubles, c: string, s: string)
    requires '\n' !in c
    ensures Parse(io, "#" + c + "\n" + s) == Parse(io, s)
  {
    hide Lex;
    CommentSkipped(c, s);
    RestMatters(io, Lex("#" + c + "\n" + s), Lex(s), []);
  }

  /** A text that is one comment is an empty configuration. */
  lemma OnlyComment(io: Doubles, c: string)
    requires '\n' !in c
    ensures Parse(io, "#" + c) == Parsed(Dict([]), [])
  {
    hide Lex;
    LastCommentSkipped(c);
  }

  // ---------------------------------------------------------------- gaps

  /** The text after the first newline. */
  function AfterLine(s: string): (r: string)
    ensures |r| <= |s| && (s != "" ==> |r| < |s|)
  {
    if s == "" then "" else if s[0] == '\n' then s[1..] else AfterLine(s[1..])
  }

  /** White space and comments that are closed by a newline. */
  predicate Gap(g: string)
    decreases |g|
  {
    if g == "" then true
    else if g[0] == '#' then '\n' in g && Gap(AfterLine(g))
    else IsSkip(g[0]) && Gap(g[1..])
  }

  lemma {:induction false} FirstLine(s: string) returns (c: string)
    requires '\n' in s
    ensures '\n' !in c && s == c + "\n" + AfterLine(s)
  {
    if s[0] == '\n' {
      c := "";
    } else {
      var rest := FirstLine(s[1..]);
      c := [s[0]] + rest;
      assert s == [s[0]] + s[1..];
    }
  }

  lemma Later(s: string, c: char)
    requires c in s && s[0] != c
    ensures c in s[1..]
  {
    var i :| 0 <= i < |s| && s[i] == c;
    assert s[1..][i - 1] == c;
  }

  /** A gap that starts with a comment: the comment, the end of its line, and a gap. */
  lemma CommentFirst(g: string) returns (c: string)
    requires Gap(g) && g != "" && g[0] == '#'
    ensures '\n' !in c && g == "#" + c + "\n" + AfterLine(g) && Gap(AfterLine(g)) && |AfterLine(g)| < |g|
  {
    hide IsSkip, Gap;
    assert '\n' in g && Gap(AfterLine(g)) by { CommentGap(g); }
    Later(g, '\n');
    c := FirstLine(g[1..]);
    var rest := AfterLine(g);
    assert rest == AfterLine(g[1..]);
    assert "#" + c + "\n" + rest == ['#'] + (c + "\n" + rest);
    assert g == [g[0]] + g[1..];
  }

  lemma CommentGap(g: string)
    requires Gap(g) && g != "" && g[0] == '#'
    ensures '\n' in g && Gap(AfterLine(g))
  {}

  /** Between two words any white space and any comments will do. */
  lemma {:induction false} GapSkipped(g: string, s: string)
    requires Gap(g)
    ensures NextWord(Lex(g + s)) == NextWord(Lex(s))
    decreases |g|
  {
    hide Lex, NextWord, IsTok, IsSkip, AfterLine;
    if g == "" {
      assert g + s == s;
    } else if g[0] != '#' {
      GapSkipped(g[1..], s);
      OneWhite(g[0], g[1..] + s);
      assert g + s == [g[0]] + (g[1..] + s);
    } else {
      var c := CommentFirst(g);
      GapSkipped(AfterLine(g), s);
      CommentSkipped(c, AfterLine(g) + s);
      assert g + s == "#" + c + "\n" + (AfterLine(g) + s);
    }
  }

  lemma OneWhite(c: char, s: string)
    requires IsSkip(c)
    ensures NextWord(Lex([c] + s)) == NextWord(Lex(s))
  {
    hide IsTok, IsSkip, Lex, NextWord;
    SkipWhite([c], s);
  }

  lemma GapCuts(g: string, s: string)
    requires Gap(g) && g != ""
    ensures Cut(g + s)
  {
    hide IsTok, IsSkip;
    Sharp();
    SkipsAreToks();
  }

  // ---------------------------------------------------------------- documents in any layout

  /** What is written after the line of each value, after each header, and at the start. */
  type Layout = seq<string> -> string

  /** Each value is followed by white space or comments, one character at least. */
  ghost predicate Separates(gap: Layout) {
    forall path :: Gap(gap(path)) && (path != [] ==> gap(path) != "")
  }

  function LaidValues(io: Doubles, gap: Layout, path: seq<string>, es: seq<Entry>): string {
    if es == [] then ""
    else
      es[0].key + " = " + DumpValue(io, es[0].value, |es[0].key| + 3) + gap(path + [es[0].key])
      + LaidValues(io, gap, path, es[1..])
  }

  function LaidTables(io: Doubles, gap: Layout, ts: seq<Table>): string
    requires PathsOk(ts)
  {
    if ts == [] then ""
    else
      "[" + HeaderName(ts[0].path) + "]" + gap(ts[0].path) + LaidValues(io, gap, ts[0].path, ts[0].entries)
      + LaidTables(io, gap, ts[1..])
  }

  /** A tree as the printer writes it, but with `gap` between the lines. */
  function Laid(io: Doubles, gap: Layout, root: seq<Entry>): string {
    TablesPaths(root);
    gap([]) + LaidValues(io, gap, [], Direct(root)) + LaidTables(io, gap, TablesOf(root))
  }

  lemma LaidLine(io: Doubles, e: Entry, g: string, more: string, post: string)
    ensures (e.key + " = " + DumpValue(io, e.value, |e.key| + 3) + g + more) + post
      == EntryText(io, e, |e.key| + 3, g + (more + post))
  {}

  /** The first value of a list is read, and the parser is left before the gap behind it. */
  lemma LaidEntry(io: Doubles, gap: Layout, path: seq<string>, es: seq<Entry>, post: string)
    requires Separates(gap) && es != [] && KeyOk(es[0].key) && Readable(io, es[0].value)
    ensures var r := NextWord(Lex(LaidValues(io, gap, path, es) + post));
      && r.Some? && r.value.0 == es[0].key && r.value.0 != "["
      && var p := ParseEntry(io, r.value.1);
      && p.Parsed? && p.value == es[0].value
      && NextWord(p.rest) == NextWord(Lex(LaidValues(io, gap, path, es[1..]) + post))
  {
    hide Lex, NextWord, NoTok, Cut, ParseEntry, DumpValue, EntryText, Readable, KeyOk, Gap;
    var e := es[0];
    var g := gap(path + [e.key]);
    var more := LaidValues(io, gap, path, es[1..]);
    LaidLine(io, e, g, more, post);
    GapCuts(g, more + post);
    EntryRead(io, e, |e.key| + 3, g + (more + post));
    NotHeader(e.key);
    GapSkipped(g, more + post);
  }

  lemma {:induction false} LaidTableRead(io: Doubles, gap: Layout, path: seq<string>, ls: seq<Lexeme>, acc: seq<Entry>,
                                         es: seq<Entry>, post: string)
    requires Separates(gap) && EntriesOk(io, acc + es) && EndsTable(post)
    requires NextWord(ls) == NextWord(Lex(LaidValues(io, gap, path, es) + post))
    ensures var p := ParseDict(io, ls, true, acc);
      p.Parsed? && p.value == Dict(acc + es) && NextWord(p.rest) == NextWord(Lex(post))
    decreases |es|
  {
    hide Lex, NextWord, ParseEntry, LaidValues, Readable, Sorted, KeyOk, EntriesOk, Gap;
    if es == [] {
      assert LaidValues(io, gap, path, es) + post == post by { NoLine(io, gap, path); }
      assert acc + es == acc;
      NothingLeft();
    } else {
      FirstEntry(io, acc, es);
      LaidEntry(io, gap, path, es, post);
      LaidTableRead(io, gap, path, ParseEntry(io, NextWord(ls).value.1).rest, acc + [es[0]], es[1..], post);
    }
  }

  lemma NoLine(io: Doubles, gap: Layout, path: seq<string>)
    ensures LaidValues(io, gap, path, []) == ""
  {}

  lemma {:induction false} LaidValuesRead(io: Doubles, gap: Layout, ls: seq<Lexeme>, acc: seq<Entry>, es: seq<Entry>,
                                          post: string)
    requires Separates(gap) && EntriesOk(io, acc + es)
    requires NextWord(ls) == NextWord(Lex(LaidValues(io, gap, [], es) + post))
    ensures ParseGlobal(io, ls, acc) == ParseGlobal(io, Lex(post), acc + es)
    decreases |es|
  {
    hide Lex, NextWord, ParseEntry, ParseDict, LaidValues, Readable, Sorted, KeyOk, EntriesOk, Gap;
    if es == [] {
      assert LaidValues(io, gap, [], es) + post == post by { NoLine(io, gap, []); }
      assert acc + es == acc;
      RestMatters(io, ls, Lex(post), acc);
    } else {
      FirstEntry(io, acc, es);
      LaidEntry(io, gap, [], es, post);
      LaidValuesRead(io, gap, ParseEntry(io, NextWord(ls).value.1).rest, acc + [es[0]], es[1..], post);
    }
  }

  lemma LaidHeader(path: seq<string>, table: string)
    requires HeaderOk(path) && Cut(table)
    ensures var r := NextWord(Lex(['['] + (HeaderName(path) + ([']'] + table))));
      && r.Some? && r.value.0 == "["
      && var name := NextWord(r.value.1);
      && name.Some? && name.value.0 == HeaderName(path)
      && NextWord(name.value.1) == Some(("]", Lex(table)))
  {
    hide Lex, NextWord, HeaderName, NoTok, PathKeyOk, MarkKey;
    var close := [']'] + table;
    Marks();
    HeaderIsWord(path);
    NextMark('[', HeaderName(path) + close);
    NextKey(HeaderName(path), close);
    NextMark(']', table);
  }

  lemma LaidTablesText(io: Doubles, gap: Layout, ts: seq<Table>)
    requires PathsOk(ts) && ts != []
    ensures LaidTables(io, gap, ts) == ['['] + (HeaderName(ts[0].path)
      + ([']'] + (gap(ts[0].path) + (LaidValues(io, gap, ts[0].path, ts[0].entries) + LaidTables(io, gap, ts[1..])))))
  {
    hide HeaderName, LaidValues;
  }

  lemma LaidEndsTable(io: Doubles, gap: Layout, ts: seq<Table>)
    requires PathsOk(ts)
    ensures EndsTable(LaidTables(io, gap, ts))
  {
    hide Lex, NextWord, LaidValues, IsMark;
    if ts == [] {
      LexEmpty();
      NothingLeft();
    } else {
      LaidTablesText(io, gap, ts);
      Marks();
      var rest := LaidValues(io, gap, ts[0].path, ts[0].entries) + LaidTables(io, gap, ts[1..]);
      NextMark('[', HeaderName(ts[0].path) + ([']'] + (gap(ts[0].path) + rest)));
    }
  }

  lemma {:induction false} LaidTablesRead(io: Doubles, gap: Layout, ls: seq<Lexeme>, acc: seq<Entry>, ts: seq<Table>)
    requires Separates(gap) && TablesOk(io, ts) && PathsOk(ts)
    requires NextWord(ls) == NextWord(Lex(LaidTables(io, gap, ts)))
    ensures ParseGlobal(io, ls, acc) == Parsed(Dict(Stored(acc, ts)), [])
    decreases |ts|
  {
    hide Lex, NextWord, Cut, ParseEntry, ParseDict, LaidValues, EntriesOk, Names, InsertAt, HeaderOk, Gap;
    if ts == [] {
      LexEmpty();
      NothingLeft();
    } else {
      assert TableOk(io, ts[0]);
      var t, g := ts[0], gap(ts[0].path);
      var more := LaidTables(io, gap, ts[1..]);
      var table := LaidValues(io, gap, t.path, t.entries) + more;
      LaidTablesText(io, gap, ts);
      GapCuts(g, table);
      LaidHeader(t.path, g + table);
      LaidEndsTable(io, gap, ts[1..]);
      assert [] + t.entries == t.entries;
      GapSkipped(g, table);
      LaidTableRead(io, gap, t.path, Lex(g + table), [], t.entries, more);
      NamesOfHeader(t.path);
      LaidTablesRead(io, gap, ParseDict(io, Lex(g + table), true, []).rest, InsertAt(acc, t.path, Dict(t.entries)), ts[1..]);
    }
  }

  /** A restorable tree is read back from its text however the lines are spaced and commented: before the
      first line, behind any value or header, and between any two lines. */
  lemma AnyLayoutIsReadBack(io: Doubles, gap: Layout, root: seq<Entry>)
    requires Restorable(io, root, true) && Separates(gap)
    ensures Parse(io, Laid(io, gap, root)) == Parsed(Dict(root), [])
  {
    hide Restorable, Readable, KeyOk, Sorted, LaidValues, LaidTables, ParseGlobal, Stored, TablesOf, Direct, Lex, NextWord, Gap;
    var ts := TablesOf(root);
    TablesPaths(root);
    var values, tables := LaidValues(io, gap, [], Direct(root)), LaidTables(io, gap, ts);
    DirectReadable(io, root);
    assert [] + Direct(root) == Direct(root) && [] + root == root;
    assert Laid(io, gap, root) == gap([]) + (values + tables);
    GapSkipped(gap([]), values + tables);
    LaidValuesRead(io, gap, Lex(Laid(io, gap, root)), [], Direct(root), tables);
    TablesReadable(io, root, true);
    LaidTablesRead(io, gap, Lex(tables), Direct(root), ts);
    RestorableSorted(io, root, true);
    StoredRestores(io, [], root, true);
  }
}
