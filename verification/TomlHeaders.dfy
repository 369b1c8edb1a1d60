/** Keys that do not fit into table headers: a tree whose values all survive still does not come back if one
    of its header keys is empty, has a dot, or ends a header and has a NUL character. */
module TomlHeaders {
  import opened Options
  import opened ConfigTree
  import opened Lexer
  import opened TomlText
  import opened TomlParse
  import opened TomlLex
  import opened TomlValues
  import opened TomlTables
  import opened TomlRoundTrip
  import opened TomlImage
  import opened TomlLoss
  import opened TomlFaults
  import opened TomlExact
  import opened TomlDocuments

  // ---------------------------------------------------------------- the names read from a header

  predicate RunPath(path: seq<string>) {
    path != [] && forall i :: 0 <= i < |path| ==> NoTok(path[i])
  }

  /** What becomes of a path: empty keys are dropped, and the last one is cut at a NUL. */
  function Kept(path: seq<string>): seq<string> {
    if path == [] then []
    else (if path[0] == "" then [] else [if |path| == 1 then UpToNul(path[0]) else path[0]]) + Kept(path[1..])
  }

  function Chars(names: seq<string>): nat {
    if names == [] then 0 else |names[0]| + Chars(names[1..])
  }

  function NonDots(s: string): nat {
    if s == "" then 0 else (if s[0] == '.' then 0 else 1) + NonDots(s[1..])
  }

  lemma {:induction false} NonDotsAppend(a: string, b: string)
    ensures NonDots(a + b) == NonDots(a) + NonDots(b)
  {
    if a == "" { assert a + b == b; } else {
      assert (a + b)[1..] == a[1..] + b;
      NonDotsAppend(a[1..], b);
    }
  }

  lemma {:induction false} NonDotsBound(s: string)
    ensures NonDots(s) <= |s| && (NonDots(s) == |s| <==> '.' !in s)
  {
    if s != "" { NonDotsBound(s[1..]); }
  }

  /** A run up to the first dot. */
  lemma UpToDot(s: string) returns (key: string, rest: string)
    requires s != "" && s[0] != '.'
    ensures s == key + rest && key != "" && '.' !in key && (rest != "" ==> rest[0] == '.') && |rest| < |s|
  {
    var i := 1;
    while i < |s| && s[i] != '.'
      invariant 1 <= i <= |s| && '.' !in s[..i]
    {
      i := i + 1;
    }
    key, rest := s[..i], s[i..];
  }

  lemma RunIsName(key: string)
    requires key != "" && NoTok(key) && '.' !in key
    ensures NamePart(key)
  {
    PathKeyIsName(key);
  }

  /** Names have no more characters than the header has besides dots. */
  lemma {:induction false} NamesChars(s: string)
    requires NoTok(s)
    ensures Chars(Names(s)) <= NonDots(s)
    decreases |s|
  {
    hide Names, NamePart, NoTok, UpToNul;
    if s == "" {
      NoNames();
    } else if s[0] == '.' {
      assert s == "." + s[1..];
      DotDropped(s[1..]);
      TailNoTok(s, 1);
      NamesChars(s[1..]);
    } else {
      var key, rest := UpToDot(s);
      assert s[..|key|] == key && s[|key|..] == rest;
      TailNoTok(s, |key|);
      RunIsName(key);
      NonDotsBound(key);
      NonDotsAppend(key, rest);
      if rest == "" {
        assert key == s;
        LastName(key);
        UpToNulIsPart(key);
        assert Chars([UpToNul(key)][1..]) == 0;
      } else {
        NameStep(key, rest);
        NamesChars(rest);
      }
    }
  }

  lemma TailNoTok(s: string, i: nat)
    requires NoTok(s) && i <= |s|
    ensures NoTok(s[i..]) && NoTok(s[..i])
  {}

  lemma {:induction false} HeaderNonDots(path: seq<string>)
    requires path != []
    ensures NonDots(HeaderName(path)) <= Chars(path)
    ensures NonDots(HeaderName(path)) == Chars(path) ==> forall i :: 0 <= i < |path| ==> '.' !in path[i]
  {
    NonDotsBound(path[0]);
    if |path| > 1 {
      HeaderNonDots(path[1..]);
      NonDotsAppend(path[0], "." + HeaderName(path[1..]));
      NonDotsAppend(".", HeaderName(path[1..]));
      assert path[0] + "." + HeaderName(path[1..]) == path[0] + ("." + HeaderName(path[1..]));
    } else {
      assert Chars(path[1..]) == 0;
    }
  }

  lemma {:induction false} RunHeader(path: seq<string>)
    requires RunPath(path)
    ensures NoTok(HeaderName(path)) && (HeaderName(path) == "" ==> path == [""])
  {
    if |path| > 1 {
      RunHeader(path[1..]);
      Dot();
    }
  }

  /** Without dots in its keys, a path is read as what is kept of it. */
  lemma {:induction false} NamesAreKept(path: seq<string>)
    requires RunPath(path) && forall i :: 0 <= i < |path| ==> '.' !in path[i]
    ensures Names(HeaderName(path)) == Kept(path)
  {
    hide Names, NamePart, NoTok, UpToNul;
    if |path| == 1 {
      assert Kept(path[1..]) == [];
      if path[0] == "" { NoNames(); } else {
        RunIsName(path[0]);
        LastName(path[0]);
      }
    } else {
      NamesAreKept(path[1..]);
      var more := HeaderName(path[1..]);
      assert HeaderName(path) == path[0] + ("." + more);
      DotDropped(more);
      if path[0] == "" {
        assert "" + ("." + more) == "." + more;
      } else {
        RunIsName(path[0]);
        NameStep(path[0], "." + more);
      }
    }
  }

  lemma {:induction false} KeptChars(path: seq<string>)
    ensures Chars(Kept(path)) <= Chars(path) && |Kept(path)| <= |path|
    ensures path != [] && Chars(Kept(path)) == Chars(path) ==> '\0' !in path[|path| - 1]
    ensures |Kept(path)| == |path| ==> forall i :: 0 <= i < |path| ==> path[i] != ""
  {
    if path != [] {
      KeptChars(path[1..]);
      UpToNulShort(path[0]);
      var first := if path[0] == "" then [] else [if |path| == 1 then UpToNul(path[0]) else path[0]];
      assert Kept(path) == first + Kept(path[1..]);
      if path[0] == "" { assert Kept(path) == Kept(path[1..]); } else { assert Kept(path)[1..] == Kept(path[1..]); }
    }
  }

  lemma {:induction false} UpToNulShort(s: string)
    ensures |UpToNul(s)| <= |s| && (|UpToNul(s)| == |s| <==> '\0' !in s)
  {
    if s != "" && s[0] != '\0' { UpToNulShort(s[1..]); }
  }

  /** A path whose names have all its characters, and are as many, is good. */
  lemma SameSizePath(path: seq<string>)
    requires RunPath(path) && Chars(Names(HeaderName(path))) == Chars(path) && |Names(HeaderName(path))| == |path|
    ensures PathOk(path)
  {
    hide Names, NoTok, Chars, NonDots, Kept;
    RunHeader(path);
    NamesChars(HeaderName(path));
    HeaderNonDots(path);
    NamesAreKept(path);
    KeptChars(path);
  }

  /** The names are never more than the keys, if they have all the characters. */
  lemma NamesAtMost(path: seq<string>)
    requires RunPath(path)
    ensures Chars(Names(HeaderName(path))) <= Chars(path)
    ensures Chars(Names(HeaderName(path))) == Chars(path) ==> |Names(HeaderName(path))| <= |path|
  {
    hide Names, NoTok, Chars, NonDots, Kept;
    RunHeader(path);
    NamesChars(HeaderName(path));
    HeaderNonDots(path);
    if Chars(Names(HeaderName(path))) == Chars(path) {
      NamesAreKept(path);
      KeptChars(path);
    }
  }

  // ---------------------------------------------------------------- weighing trees

  /** Keys weigh their characters, or one each. */
  function KeyWeight(chars: bool, key: string): nat { if chars then |key| else 1 }

  function PathWeight(chars: bool, path: seq<string>): nat { if chars then Chars(path) else |path| }

  /** Every value that is no dict weighs as much as the keys that lead to it, and `d` more. */
  function Weight(n: Node, d: nat, chars: bool): nat
    decreases n, 1
  {
    if n.Dict? then Weights(n.entries, d, chars) else d
  }

  function Weights(es: seq<Entry>, d: nat, chars: bool): nat
    decreases es, 0
  {
    if es == [] then 0 else Weight(es[0].value, d + KeyWeight(chars, es[0].key), chars) + Weights(es[1..], d, chars)
  }

  lemma {:induction false} Heavier(es: seq<Entry>, d: nat, d': nat, chars: bool)
    requires d <= d'
    ensures Weights(es, d, chars) <= Weights(es, d', chars)
    ensures d < d' && HasOthers(es) ==> Weights(es, d, chars) < Weights(es, d', chars)
    decreases es
  {
    if es != [] {
      Heavier(es[1..], d, d', chars);
      var k := KeyWeight(chars, es[0].key);
      if es[0].value.Dict? {
        Heavier(es[0].value.entries, d + k, d' + k, chars);
        if HasOthers(es) {
          var i :| 0 <= i < |es| && !es[i].value.Dict?;
          assert es[1..][i - 1] == es[i];
        }
      }
    }
  }

  lemma {:induction false} InsertWeight(es: seq<Entry>, key: string, v: Node, d: nat, chars: bool)
    requires Sorted(es)
    ensures var i := Find(es, key);
      Weights(Insert(es, key, v), d, chars) + (if i < |es| then Weight(es[i].value, d + KeyWeight(chars, key), chars) else 0)
        == Weights(es, d, chars) + Weight(v, d + KeyWeight(chars, key), chars)
  {
    hide Weight;
    if es == [] {
      assert [Entry(key, v)][1..] == [];
    } else if es[0].key == key {
      assert ([Entry(key, v)] + es[1..])[1..] == es[1..];
    } else if Less(key, es[0].key) {
      assert ([Entry(key, v)] + es)[1..] == es;
      NotThere(es, key);
    } else {
      InsertWeight(es[1..], key, v, d, chars);
      assert ([es[0]] + Insert(es[1..], key, v))[1..] == Insert(es[1..], key, v);
    }
  }

  /** Storing at a path adds at most the weight of what is stored. */
  lemma {:induction false} StoreWeight(es: seq<Entry>, names: seq<string>, t: seq<Entry>, d: nat, chars: bool)
    requires GrownEntries(es) && GrownEntries(t) && names != [] && NamesOk(names)
    ensures GrownEntries(InsertAt(es, names, Dict(t)))
    ensures Weights(InsertAt(es, names, Dict(t)), d, chars) <= Weights(es, d, chars) + Weights(t, d + PathWeight(chars, names), chars)
    decreases |names|
  {
    hide Grown, Insert, Wordish, Sorted;
    GrownAt(es, names, Dict(t));
    SortedOf(Dict(es));
    var key, k := names[0], KeyWeight(chars, names[0]);
    if |names| == 1 {
      InsertWeight(es, key, Dict(t), d, chars);
      assert PathWeight(chars, names) == k by { assert Chars(names[1..]) == 0; }
    } else {
      var inner := InnerDict(es, key);
      InnerGrown(es, key);
      StoreWeight(inner, names[1..], t, d + k, chars);
      InsertWeight(es, key, Dict(InsertAt(inner, names[1..], Dict(t))), d, chars);
      InnerWeight(es, key, d, chars);
      assert d + k + PathWeight(chars, names[1..]) == d + PathWeight(chars, names);
    }
  }

  lemma InnerWeight(es: seq<Entry>, key: string, d: nat, chars: bool)
    ensures var i := Find(es, key); var k := KeyWeight(chars, key);
      Weights(InnerDict(es, key), d + k, chars) <= if i < |es| then Weight(es[i].value, d + k, chars) else 0
  {}

  function TablesWeight(ts: seq<Table>, d: nat, chars: bool): nat {
    if ts == [] then 0 else Weights(ts[0].entries, d + PathWeight(chars, ts[0].path), chars) + TablesWeight(ts[1..], d, chars)
  }

  lemma {:induction false} TablesWeightAppend(a: seq<Table>, b: seq<Table>, d: nat, chars: bool)
    ensures TablesWeight(a + b, d, chars) == TablesWeight(a, d, chars) + TablesWeight(b, d, chars)
  {
    if a == [] { assert a + b == b; } else {
      assert (a + b)[1..] == a[1..] + b;
      TablesWeightAppend(a[1..], b, d, chars);
    }
  }

  lemma {:induction false} UnderWeight(key: string, ts: seq<Table>, d: nat, chars: bool)
    ensures TablesWeight(Under(key, ts), d, chars) == TablesWeight(ts, d + KeyWeight(chars, key), chars)
  {
    if ts != [] {
      UnderWeight(key, ts[1..], d, chars);
      assert ([key] + ts[0].path)[1..] == ts[0].path;
      assert Under(key, ts)[1..] == Under(key, ts[1..]);
      assert PathWeight(chars, [key] + ts[0].path) == KeyWeight(chars, key) + PathWeight(chars, ts[0].path);
    }
  }

  /** A tree weighs what its direct values and its tables weigh. */
  lemma {:induction false} TreeWeight(es: seq<Entry>, d: nat, chars: bool)
    ensures Weights(Direct(es), d, chars) + TablesWeight(TablesOf(es), d, chars) == Weights(es, d, chars)
    decreases es, 0
  {
    hide TablesOfDict, TablesWeight, Weight;
    if es == [] {
      NoTables(d, chars);
    } else {
      TreeWeight(es[1..], d, chars);
      if es[0].value.Dict? {
        DictWeight(es[0], d, chars);
        TablesWeightAppend(TablesOfDict(es[0].key, es[0].value.entries), TablesOf(es[1..]), d, chars);
        assert Direct(es) == Direct(es[1..]);
      } else {
        assert Direct(es)[0] == es[0] && Direct(es)[1..] == Direct(es[1..]) && TablesOf(es) == TablesOf(es[1..]);
      }
    }
  }

  lemma NoTables(d: nat, chars: bool)
    ensures TablesWeight([], d, chars) == 0
  {}

  lemma {:induction false} DictWeight(e: Entry, d: nat, chars: bool)
    requires e.value.Dict?
    ensures TablesWeight(TablesOfDict(e.key, e.value.entries), d, chars) == Weight(e.value, d + KeyWeight(chars, e.key), chars)
    decreases e.value.entries, 1
  {
    hide TablesOf, Weights;
    var key, inner := e.key, e.value.entries;
    if HasOthers(inner) {
      assert [Table([key], inner)][1..] == [] && Chars([key][1..]) == 0;
      assert PathWeight(chars, [key]) == KeyWeight(chars, key);
    } else {
      TreeWeight(inner, d + KeyWeight(chars, key), chars);
      DirectOfDicts(inner);
      NoWeight(d + KeyWeight(chars, key), chars);
      UnderWeight(key, TablesOf(inner), d, chars);
    }
  }

  lemma NoWeight(d: nat, chars: bool)
    ensures Weights([], d, chars) == 0
  {}

  lemma {:induction false} DirectOfDicts(es: seq<Entry>)
    requires !HasOthers(es)
    ensures Direct(es) == []
  {
    if es != [] {
      assert es[0].value.Dict?;
      assert !HasOthers(es[1..]) by { assert forall i :: 0 <= i < |es[1..]| ==> es[1..][i] == es[i + 1]; }
      DirectOfDicts(es[1..]);
    }
  }

  // ---------------------------------------------------------------- reading tables under any header

  /** A header that is a word, or nothing. */
  predicate WordHeader(path: seq<string>) {
    RunPath(path) || (|path| == 1 && MarkKey(path[0]))
  }

  ghost predicate GoodTable(io: Doubles, t: Table) {
    WordHeader(t.path) && EntriesOk(io, t.entries) && HasOthers(t.entries)
  }

  ghost predicate GoodTables(io: Doubles, ts: seq<Table>) {
    forall i :: 0 <= i < |ts| ==> GoodTable(io, ts[i])
  }

  /** The tables under the paths that are read from their headers. */
  function Named(ts: seq<Table>): (r: seq<Table>)
    requires PathsOk(ts)
    ensures |r| == |ts|
  {
    if ts == [] then [] else [Table(Names(HeaderName(ts[0].path)), ts[0].entries)] + Named(ts[1..])
  }

  /** An empty header takes its closing bracket for its name. */
  lemma EmptyHeaderFails(io: Doubles, ls: seq<Lexeme>, acc: seq<Entry>, es: seq<Entry>, post: string)
    requires EntriesOk(io, es) && es != []
    requires NextWord(ls) == Some(("[", Lex([']'] + ("\n" + (DumpGlobal(io, es) + post)))))
    ensures ParseGlobal(io, ls, acc).Failed?
  {
    hide Lex, NextWord, ParseEntry, DumpValue, EntryText, Readable, Sorted, KeyOk, NoHeader, IsMark, IsTok, NoTok, Wordish, Cut;
    var e := es[0];
    var more := DumpGlobal(io, es[1..]) + post;
    Marks();
    GlobalLine(io, e, DumpGlobal(io, es[1..]), post);
    NextMark(']', "\n" + (DumpGlobal(io, es) + post));
    NewlineIsWhite();
    NewlineSkipped(more);
    FirstGood(io, es);
    EntryHead(io, e, "\n", |e.key| + 3, "\n" + more);
    var r := NextWord(Lex("\n" + (DumpGlobal(io, es) + post))).value;
    assert r.0 == e.key;
    NotHeader("=") by { EqualsIsKey(); }
    assert ParseDict(io, r.1, true, []).Failed?;
  }

  lemma EqualsIsKey()
    ensures KeyOk("=")
  {
    Marks();
    assert "="[0] == '=' && "["[0] == '[';
  }

  lemma FirstGood(io: Doubles, es: seq<Entry>)
    requires EntriesOk(io, es) && es != []
    ensures KeyOk(es[0].key) && Wordish(es[0].key) && FloatsOk(io, es[0].value)
  {
    ReadableFloats(io, es[0].value);
  }

  lemma {:induction false} ReadableFloats(io: Doubles, n: Node)
    requires Readable(io, n)
    ensures FloatsOk(io, n)
    decreases n
  {
    hide KeyOk, Sorted, StringOk;
    match n {
      case Array(items) => forall i | 0 <= i < |items| ensures FloatsOk(io, items[i]) { ReadableFloats(io, items[i]); }
      case Dict(es) => forall i | 0 <= i < |es| ensures FloatsOk(io, es[i].value) { ReadableFloats(io, es[i].value); }
      case _ =>
    }
  }

  /** A table is stored under the names in its header, or the parse fails. */
  lemma OneNamed(io: Doubles, ls: seq<Lexeme>, acc: seq<Entry>, t: Table, more: string)
    requires GoodTable(io, t) && EndsTable(more) && t.path != []
    requires NextWord(ls) == NextWord(Lex("\n" + (['['] + (HeaderName(t.path) + ([']'] + ("\n" + (DumpGlobal(io, t.entries) + more)))))))
    ensures ParseGlobal(io, ls, acc).Parsed? ==>
      && Names(HeaderName(t.path)) != []
      && ParseGlobal(io, ls, acc) == ParseGlobal(io, Lex(more), InsertAt(acc, Names(HeaderName(t.path)), Dict(t.entries)))
  {
    hide Lex, NextWord, NoTok, Cut, ParseEntry, ParseDict, DumpGlobal, Readable, Sorted, KeyOk, EntriesOk, Names, InsertAt, WordHeader,
      HasOthers, HeaderName, EndsTable, IsMark, IsTok;
    var name, body := HeaderName(t.path), DumpGlobal(io, t.entries) + more;
    var close := [']'] + ("\n" + body);
    NewlineSkipped(['['] + (name + close));
    Marks();
    NextMark('[', name + close);
    HeaderWord(t.path);
    OthersAreEntries(t.entries);
    if name == "" {
      assert "" + close == close;
      EmptyHeaderFails(io, ls, acc, t.entries, more);
    } else {
      BracketCuts("\n" + body);
      NextKey(name, close);
      NextMark(']', "\n" + body);
      assert [] + t.entries == t.entries;
      NewlineSkipped(body);
      GlobalRead(io, Lex("\n" + body), [], t.entries, more);
      if Names(name) != [] {
        var p := ParseDict(io, Lex("\n" + body), true, []);
        RestMatters(io, p.rest, Lex(more), InsertAt(acc, Names(name), Dict(t.entries)));
      }
    }
  }

  lemma {:induction false} NamedRead(io: Doubles, acc: seq<Entry>, ts: seq<Table>)
    requires GoodTables(io, ts) && PathsOk(ts)
    ensures var p := ParseGlobal(io, Lex(TablesText(io, "", ts)), acc);
      p.Parsed? ==> PathsOk(Named(ts)) && p == Parsed(Dict(Stored(acc, Named(ts))), [])
    decreases |ts|
  {
    hide Lex, NextWord, ParseGlobal, DumpGlobal, Names, InsertAt, HeaderName, EndsTable, GoodTable;
    if ts == [] {
      NothingNamed(io, acc);
    } else {
      var more := TablesText(io, "", ts[1..]);
      assert GoodTable(io, ts[0]);
      HeaderText(HeaderName(ts[0].path), DumpGlobal(io, ts[0].entries), more);
      TextEndsTable(io, ts[1..]);
      OneNamed(io, Lex(TablesText(io, "", ts)), acc, ts[0], more);
      if Names(HeaderName(ts[0].path)) != [] {
        forall i | 0 <= i < |ts[1..]| ensures GoodTable(io, ts[1..][i]) { assert GoodTable(io, ts[i + 1]); }
        NamedRead(io, InsertAt(acc, Names(HeaderName(ts[0].path)), Dict(ts[0].entries)), ts[1..]);
        NamedStored(acc, ts);
      }
    }
  }

  lemma NothingNamed(io: Doubles, acc: seq<Entry>)
    ensures ParseGlobal(io, Lex(TablesText(io, "", [])), acc) == Parsed(Dict(Stored(acc, Named([]))), [])
  {
    LexEmpty();
    NothingLeft();
  }

  lemma BracketCuts(s: string)
    ensures Cut([']'] + s)
  {
    Marks();
  }

  lemma HeaderWord(path: seq<string>)
    requires path != [] && WordHeader(path)
    ensures HeaderName(path) == "" || WordKey(HeaderName(path))
  {
    if RunPath(path) { RunHeader(path); }
  }

  lemma NamedStored(acc: seq<Entry>, ts: seq<Table>)
    requires ts != [] && PathsOk(ts) && Names(HeaderName(ts[0].path)) != []
    ensures Named(ts)[0] == Table(Names(HeaderName(ts[0].path)), ts[0].entries) && Named(ts)[1..] == Named(ts[1..])
    ensures PathsOk(Named(ts[1..])) ==>
      && PathsOk(Named(ts))
      && Stored(acc, Named(ts)) == Stored(InsertAt(acc, Names(HeaderName(ts[0].path)), Dict(ts[0].entries)), Named(ts[1..]))
  {
    hide Names, HeaderName, InsertAt;
    assert Named(ts)[1..] == Named(ts[1..]);
    if PathsOk(Named(ts[1..])) {
      forall i | 0 <= i < |Named(ts)| ensures Named(ts)[i].path != [] { if i > 0 { assert Named(ts)[i] == Named(ts[1..])[i - 1]; } }
    }
  }

  // ---------------------------------------------------------------- what comes back was printed under good headers

  lemma {:induction false} StoredWeight(acc: seq<Entry>, ts: seq<Table>, chars: bool)
    requires GrownEntries(acc) && PathsOk(ts)
    requires forall i :: 0 <= i < |ts| ==> NamesOk(ts[i].path) && GrownEntries(ts[i].entries)
    ensures Weights(Stored(acc, ts), 0, chars) <= Weights(acc, 0, chars) + TablesWeight(ts, 0, chars)
    decreases |ts|
  {
    hide GrownEntries, NamesOk, InsertAt;
    if ts != [] {
      StoreWeight(acc, ts[0].path, ts[0].entries, 0, chars);
      StoredWeight(InsertAt(acc, ts[0].path, Dict(ts[0].entries)), ts[1..], chars);
    }
  }

  /** Names never outweigh the keys; where they do not outweigh them in all, no name weighs less than its key. */
  ghost predicate Lighter(a: seq<Table>, b: seq<Table>, chars: bool) {
    |a| == |b| && forall i :: 0 <= i < |a| ==>
      a[i].entries == b[i].entries && HasOthers(b[i].entries) && PathWeight(chars, a[i].path) <= PathWeight(chars, b[i].path)
  }

  lemma {:induction false} SameWeight(a: seq<Table>, b: seq<Table>, chars: bool)
    requires Lighter(a, b, chars)
    ensures TablesWeight(a, 0, chars) <= TablesWeight(b, 0, chars)
    ensures TablesWeight(a, 0, chars) == TablesWeight(b, 0, chars) ==>
      forall i :: 0 <= i < |a| ==> PathWeight(chars, a[i].path) == PathWeight(chars, b[i].path)
    decreases |a|
  {
    hide PathWeight, HasOthers;
    if a != [] {
      SameWeight(a[1..], b[1..], chars);
      Heavier(b[0].entries, PathWeight(chars, a[0].path), PathWeight(chars, b[0].path), chars);
    }
  }

  lemma {:induction false} NamedTables(ts: seq<Table>)
    requires PathsOk(ts)
    ensures forall i :: 0 <= i < |ts| ==> Named(ts)[i] == Table(Names(HeaderName(ts[i].path)), ts[i].entries)
  {
    hide Names, HeaderName;
    if ts != [] { NamedTables(ts[1..]); }
  }

  lemma NamesOfWordHeader(path: seq<string>)
    requires path != [] && WordHeader(path)
    ensures NamesOk(Names(HeaderName(path)))
    ensures Chars(Names(HeaderName(path))) <= Chars(path)
    ensures Chars(Names(HeaderName(path))) == Chars(path) ==>
      |Names(HeaderName(path))| <= |path| && (|Names(HeaderName(path))| == |path| ==> HeaderOk(path))
  {
    hide Names, NoTok, Kept;
    HeaderWord(path);
    if RunPath(path) {
      NamesAtMost(path);
      if HeaderName(path) == "" { NoNames(); } else { NamesAreOk(HeaderName(path)); }
      if Chars(Names(HeaderName(path))) == Chars(path) && |Names(HeaderName(path))| == |path| { SameSizePath(path); }
    } else {
      NamesOfHeader(path);
      NamesAreOk(HeaderName(path));
    }
  }

  /** If storing under the names gives the tree, every header is good. */
  lemma NamesAreKeys(io: Doubles, root: seq<Entry>)
    requires Grown(Dict(root)) && GoodTables(io, TablesOf(root)) && PathsOk(TablesOf(root)) && PathsOk(Named(TablesOf(root)))
    requires GrownEntries(Direct(root)) && root == Stored(Direct(root), Named(TablesOf(root)))
    ensures forall i :: 0 <= i < |TablesOf(root)| ==> HeaderOk(TablesOf(root)[i].path)
  {
    hide Names, HeaderName, TablesOf, Direct, Stored, Chars, HeaderOk, WordHeader, EntriesOk, HasOthers, NamesOk, GrownEntries, Grown, Weights, TablesWeight;
    var ts := TablesOf(root);
    NamedTables(ts);
    forall i | 0 <= i < |ts|
      ensures NamesOk(Named(ts)[i].path) && GrownEntries(Named(ts)[i].entries) && HasOthers(ts[i].entries)
      ensures Chars(Named(ts)[i].path) <= Chars(ts[i].path)
      ensures Chars(Named(ts)[i].path) == Chars(ts[i].path) ==>
        |Named(ts)[i].path| <= |ts[i].path| && (|Named(ts)[i].path| == |ts[i].path| ==> HeaderOk(ts[i].path))
    {
      assert GoodTable(io, ts[i]);
      NamesOfWordHeader(ts[i].path);
      EntriesAreMade(io, ts[i].entries);
      MadeTableGrown(ts[i].entries);
    }
    TreeWeight(root, 0, true);
    StoredWeight(Direct(root), Named(ts), true);
    SameWeight(Named(ts), ts, true);
    assert forall i :: 0 <= i < |ts| ==> PathWeight(true, Named(ts)[i].path) == PathWeight(true, ts[i].path);
    TreeWeight(root, 0, false);
    StoredWeight(Direct(root), Named(ts), false);
    SameWeight(Named(ts), ts, false);
    assert forall i :: 0 <= i < |ts| ==> PathWeight(false, Named(ts)[i].path) == PathWeight(false, ts[i].path);
  }

  ghost predicate GoodPaths(ts: seq<Table>, top: bool) {
    forall i :: 0 <= i < |ts| ==> if top then HeaderOk(ts[i].path) else PathOk(ts[i].path)
  }

  lemma {:induction false} SomeTablesFull(es: seq<Entry>)
    requires es != [] && !HasOthers(es) && Full(es)
    ensures TablesOf(es) != []
    decreases es
  {
    assert es[0].value.Dict?;
    var inner := es[0].value.entries;
    if !HasOthers(inner) { SomeTablesFull(inner); }
  }

  lemma {:induction false} GoodPathsPlain(es: seq<Entry>, top: bool)
    requires Full(es) && GoodPaths(TablesOf(es), top)
    ensures PathsPlain(es, top)
    decreases es, 1
  {
    hide TableKeyOk, PathKeyOk, HasOthers, PathOk, HeaderOk;
    if es != [] {
      TablesSplit(es, top);
      GoodPathsPlain(es[1..], top);
      var e := es[0];
      if e.value.Dict? {
        DictPathsPlain(e, top);
      }
      forall i | 0 <= i < |es| && es[i].value.Dict? && es[i].value.entries != []
        ensures if HasOthers(es[i].value.entries) then TableKeyOk(es[i].key, top) else PathKeyOk(es[i].key) && PathsPlain(es[i].value.entries, false)
      {
        if i > 0 { assert es[i] == es[1..][i - 1]; }
      }
    }
  }

  lemma TablesSplit(es: seq<Entry>, top: bool)
    requires es != [] && GoodPaths(TablesOf(es), top)
    ensures GoodPaths(TablesOf(es[1..]), top) && (es[0].value.Dict? ==> GoodPaths(TablesOfDict(es[0].key, es[0].value.entries), top))
  {
    hide GoodPaths, TablesOfDict;
    GoodParts(if es[0].value.Dict? then TablesOfDict(es[0].key, es[0].value.entries) else [], TablesOf(es[1..]), top);
  }

  lemma GoodParts(a: seq<Table>, b: seq<Table>, top: bool)
    requires GoodPaths(a + b, top)
    ensures GoodPaths(a, top) && GoodPaths(b, top)
  {
    hide HeaderOk, PathOk;
    forall i | 0 <= i < |b| ensures if top then HeaderOk(b[i].path) else PathOk(b[i].path) { assert b[i] == (a + b)[|a| + i]; }
    forall i | 0 <= i < |a| ensures if top then HeaderOk(a[i].path) else PathOk(a[i].path) { assert a[i] == (a + b)[i]; }
  }

  lemma {:induction false} DictPathsPlain(e: Entry, top: bool)
    requires e.value.Dict? && e.value.entries != [] && Full(e.value.entries) && GoodPaths(TablesOfDict(e.key, e.value.entries), top)
    ensures if HasOthers(e.value.entries) then TableKeyOk(e.key, top) else PathKeyOk(e.key) && PathsPlain(e.value.entries, false)
    decreases e.value.entries, 2
  {
    hide PathKeyOk, MarkKey, HasOthers, TablesOf;
    var inner := e.value.entries;
    if HasOthers(inner) {
      assert TablesOfDict(e.key, inner)[0].path == [e.key];
    } else {
      SomeTablesFull(inner);
      TablesPaths(inner);
      UnderEntries(e.key, TablesOf(inner));
      forall i | 0 <= i < |TablesOf(inner)|
        ensures PathOk(TablesOf(inner)[i].path) && PathKeyOk(e.key)
      {
        var path := Under(e.key, TablesOf(inner))[i].path;
        assert path == [e.key] + TablesOf(inner)[i].path && path[1..] == TablesOf(inner)[i].path && path[0] == e.key;
      }
      assert 0 < |TablesOf(inner)|;
      GoodPathsPlain(inner, false);
    }
  }

  // ---------------------------------------------------------------- the theorem

  /** Every value that is printed survives, and every key of one is a word. */
  ghost predicate ValuesSurvive(io: Doubles, es: seq<Entry>)
    decreases es
  {
    && Sorted(es)
    && forall i :: 0 <= i < |es| ==>
        if !es[i].value.Dict? then KeyOk(es[i].key) && Readable(io, es[i].value)
        else if HasOthers(es[i].value.entries) then EntriesOk(io, es[i].value.entries)
        else ValuesSurvive(io, es[i].value.entries)
  }

  /** The keys in table headers have no token characters; at the top they can be single marks. */
  ghost predicate HeaderKeysAreRuns(es: seq<Entry>, top: bool)
    decreases es
  {
    forall i :: 0 <= i < |es| && es[i].value.Dict? ==>
      if HasOthers(es[i].value.entries) then NoTok(es[i].key) || (top && MarkKey(es[i].key))
      else NoTok(es[i].key) && HeaderKeysAreRuns(es[i].value.entries, false)
  }

  lemma {:induction false} RunTables(io: Doubles, es: seq<Entry>, top: bool)
    requires ValuesSurvive(io, es) && HeaderKeysAreRuns(es, top)
    ensures GoodTables(io, TablesOf(es)) && (!top ==> forall i :: 0 <= i < |TablesOf(es)| ==> RunPath(TablesOf(es)[i].path))
    decreases es
  {
    hide NoTok, MarkKey, KeyOk, Readable, EntriesOk, HasOthers;
    if es != [] {
      LaterSurvive(io, es, top);
      RunTables(io, es[1..], top);
      var e := es[0];
      if e.value.Dict? {
        if HasOthers(e.value.entries) {
          assert GoodTable(io, Table([e.key], e.value.entries));
        } else {
          RunTables(io, e.value.entries, false);
          UnderEntries(e.key, TablesOf(e.value.entries));
          forall i | 0 <= i < |TablesOf(e.value.entries)|
            ensures GoodTable(io, Under(e.key, TablesOf(e.value.entries))[i]) && RunPath(Under(e.key, TablesOf(e.value.entries))[i].path)
          {
            assert GoodTable(io, TablesOf(e.value.entries)[i]);
          }
        }
      }
    }
  }

  lemma LaterSurvive(io: Doubles, es: seq<Entry>, top: bool)
    requires es != [] && ValuesSurvive(io, es) && HeaderKeysAreRuns(es, top)
    ensures ValuesSurvive(io, es[1..]) && HeaderKeysAreRuns(es[1..], top)
  {
    hide NoTok, MarkKey, KeyOk, Readable, EntriesOk, HasOthers;
  }

  lemma {:induction false} SurvivorsFloat(io: Doubles, es: seq<Entry>)
    requires ValuesSurvive(io, es)
    ensures FloatsOk(io, Dict(es))
    decreases es
  {
    hide KeyOk, Sorted, HasOthers;
    forall i | 0 <= i < |es|
      ensures FloatsOk(io, es[i].value)
    {
      var v := es[i].value;
      if !v.Dict? {
        ReadableFloats(io, v);
      } else if HasOthers(v.entries) {
        forall j | 0 <= j < |v.entries| ensures FloatsOk(io, v.entries[j].value) { ReadableFloats(io, v.entries[j].value); }
      } else {
        SurvivorsFloat(io, v.entries);
      }
    }
  }

  lemma SurvivorsDirect(io: Doubles, es: seq<Entry>)
    requires ValuesSurvive(io, es)
    ensures EntriesOk(io, Direct(es))
  {
    hide KeyOk, Readable, EntriesOk, HasOthers;
    DirectSorted(es);
    DirectAreEntries(es);
    DirectHasNoDict(es);
    forall i | 0 <= i < |Direct(es)|
      ensures KeyOk(Direct(es)[i].key) && Readable(io, Direct(es)[i].value)
    {
      var j :| 0 <= j < |es| && es[j] == Direct(es)[i];
    }
    AreOk(io, Direct(es));
  }

  lemma AreOk(io: Doubles, es: seq<Entry>)
    requires Sorted(es) && forall i :: 0 <= i < |es| ==> KeyOk(es[i].key) && Readable(io, es[i].value)
    ensures EntriesOk(io, es)
  {}

  lemma NamedFull(io: Doubles, ts: seq<Table>)
    requires GoodTables(io, ts) && PathsOk(ts) && PathsOk(Named(ts))
    ensures TablesFull(Named(ts))
  {
    hide WordHeader, EntriesOk, HasOthers, Full, Names, HeaderName;
    NamedTables(ts);
    forall i | 0 <= i < |ts|
      ensures Named(ts)[i].entries != [] && Full(Named(ts)[i].entries)
    {
      assert GoodTable(io, ts[i]);
      OthersAreEntries(ts[i].entries);
      ReadableIsFull(io, ts[i].entries);
    }
  }

  lemma ReturnedHeaders(io: Doubles, root: seq<Entry>)
    requires ValuesSurvive(io, root) && HeaderKeysAreRuns(root, true) && Parse(io, Dump(io, root)) == Parsed(Dict(root), [])
    ensures PathsPlain(root, true)
  {
    hide EntriesOk, DumpSuperValues, DumpSuperTables, ParseGlobal, Stored, TablesOf, Direct, Lex, Grown, PathsPlain, TablesText, Sorted,
      GoodTables, GrownEntries, ValuesSurvive, HeaderKeysAreRuns, Named, Full, TablesFull, HeaderOk, PathOk;
    var ts := TablesOf(root);
    ParsedIsGrown(io, Dump(io, root));
    SurvivorsFloat(io, root);
    RootPlain(io, root);
    TablesPaths(root);
    TablesPrinted(io, "", root);
    SurvivorsDirect(io, root);
    RunTables(io, root, true);
    assert [] + Direct(root) == Direct(root);
    SuperValuesRead(io, Lex(Dump(io, root)), [], root, TablesText(io, "", ts));
    NamedRead(io, Direct(root), ts);
    NamesAreKeys(io, root);
    ReadableIsFull(io, Direct(root));
    NamedFull(io, ts);
    FullStored(Direct(root), Named(ts));
    GoodPathsPlain(root, true);
  }

  /** Where every value survives, a tree comes back exactly if its header keys are good, too: no key there
      is empty or has a dot, none that ends a header has a NUL character, and no dict is empty. */
  lemma HeaderKeysDecide(io: Doubles, root: seq<Entry>)
    requires ValuesSurvive(io, root) && HeaderKeysAreRuns(root, true)
    ensures Parse(io, Dump(io, root)) == Parsed(Dict(root), []) <==> Restorable(io, root, true)
  {
    hide Parse, Dump, ValuesSurvive, HeaderKeysAreRuns, Restorable, PathsPlain, FloatsOk;
    if Restorable(io, root, true) {
      DumpedTreeIsReadBack(io, root);
    } else if Parse(io, Dump(io, root)) == Parsed(Dict(root), []) {
      ReturnedHeaders(io, root);
      SurvivorsFloat(io, root);
      OnlyRestorableComesBack(io, root);
    }
  }
}
