/** Printed values read back: strings, numbers, arrays and inline dicts. */
module TomlValues {
  import opened Options
  import opened ConfigTree
  import opened Numerals
  import opened Lexer
  import opened TomlText
  import opened TomlParse
  import opened TomlLex
  import T = Tokenizer

  /** A run of word characters from the start of `s`. */
  lemma FirstRun(s: string) returns (w: string, rest: string)
    requires s != "" && !IsTok(s[0])
    ensures s == w + rest && w != "" && NoTok(w) && Cut(rest) && |rest| < |s|
  {
    var i := 1;
    while i < |s| && !IsTok(s[i])
      invariant 1 <= i <= |s| && NoTok(s[..i])
    {
      i := i + 1;
    }
    w, rest := s[..i], s[i..];
  }

  /** Texts that meet at a token are cut into words separately. */
  lemma {:induction false} LexAppend(s: string, t: string)
    requires Cut(t)
    ensures Lex(s + t) == Lex(s) + Lex(t)
    decreases |s|
  {
    hide Lex;
    if s == "" {
      assert s + t == t;
      LexEmpty();
    } else if IsTok(s[0]) {
      assert s == [s[0]] + s[1..];
      assert s + t == [s[0]] + (s[1..] + t);
      LexTok(s[0], s[1..]);
      LexTok(s[0], s[1..] + t);
      LexAppend(s[1..], t);
    } else {
      var w, rest := FirstRun(s);
      assert s + t == w + (rest + t);
      LexRun(w, rest);
      assert Cut(rest + t);
      LexRun(w, rest + t);
      LexAppend(rest, t);
    }
  }

  lemma LexEmpty()
    ensures Lex("") == []
  {}

  // ---------------------------------------------------------------- next words

  lemma NextRun(w: string, s: string)
    requires w != "" && NoTok(w) && Cut(s)
    ensures NextWord(Lex(w + s)) == Some((w, Lex(s)))
  {
    hide Lex;
    LexRun(w, s);
  }

  /** A token that is neither skipped nor the start of a comment is a word. */
  predicate IsMark(c: char) { IsTok(c) && !IsSkip(c) && c != '#' }

  lemma NextMark(c: char, s: string)
    requires IsMark(c)
    ensures NextWord(Lex([c] + s)) == Some(([c], Lex(s)))
  {
    hide Lex;
    LexTok(c, s);
  }

  lemma Marks()
    ensures IsMark('[') && IsMark(']') && IsMark('{') && IsMark('}') && IsMark('=') && IsMark(',') && IsMark('"')
    ensures IsSkip(' ') && IsSkip('\n') && IsTok(' ') && IsTok('\n')
  {
    assert TOKEN_CHARS[0] == '[' && TOKEN_CHARS[1] == ']' && TOKEN_CHARS[2] == '{' && TOKEN_CHARS[3] == '}';
    assert TOKEN_CHARS[4] == '=' && TOKEN_CHARS[5] == ',' && TOKEN_CHARS[7] == '"';
    assert TOKEN_CHARS[8] == ' ' && TOKEN_CHARS[9] == '\n';
    assert SKIP_CHARS[0] == ' ' && SKIP_CHARS[2] == '\n';
  }

  predicate White(w: string) { forall i :: 0 <= i < |w| ==> IsSkip(w[i]) }

  lemma {:induction false} SkipWhite(w: string, s: string)
    requires White(w)
    ensures NextWord(Lex(w + s)) == NextWord(Lex(s))
  {
    hide Lex;
    if w == "" {
      assert w + s == s;
    } else {
      assert w + s == [w[0]] + (w[1..] + s);
      SkipsAreToks();
      LexTok(w[0], w[1..] + s);
      SkipWhite(w[1..], s);
    }
  }

  // ---------------------------------------------------------------- strings

  /** Reading the words of a string up to its closing quote meets no earlier end, and the quote is not
      escaped. A backslash only escapes when it is a word of its own. */
  predicate Unbroken(ls: seq<Lexeme>, end: string, escaping: bool) {
    if ls == [] then !escaping
    else (ls[0].str != end || escaping) && Unbroken(ls[1..], end, !escaping && ls[0].str == "\\")
  }

  predicate StringOk(s: string) { Unbroken(Lex(s), "\"", false) }

  lemma {:induction false} ScanString(ls: seq<Lexeme>, q: Lexeme, rest: seq<Lexeme>, escaping: bool, acc: string)
    requires q.str != "" && forall l :: l in ls ==> l.str != ""
    ensures var p := ParseString(ls + [q] + rest, q.str, escaping, acc);
      && (Unbroken(ls, q.str, escaping) ==> p == Parsed(Str(acc + Concat(ls)), rest))
      && (!Unbroken(ls, q.str, escaping) ==> p.Failed? || (p.value.Str? && |p.value.s| != |acc + Concat(ls)|))
  {
    var all := ls + [q] + rest;
    if ls == [] {
      assert all[0] == q && all[1..] == rest;
      assert acc + "" == acc;
      if escaping { StringGrows(rest, q.str, false, acc + q.str); }
    } else {
      assert all[0] == ls[0] && all[1..] == ls[1..] + [q] + rest;
      if ls[0].str == q.str && !escaping {
        assert |Concat(ls)| > 0;
      } else {
        ScanString(ls[1..], q, rest, !escaping && ls[0].str == "\\", acc + ls[0].str);
        assert acc + ls[0].str + Concat(ls[1..]) == acc + Concat(ls);
      }
    }
  }

  lemma {:induction false} StringGrows(ls: seq<Lexeme>, end: string, escaping: bool, acc: string)
    ensures var p := ParseString(ls, end, escaping, acc);
      p.Parsed? ==> p.value.Str? && |p.value.s| >= |acc|
  {
    if ls != [] && !(ls[0].str == end && !escaping) {
      StringGrows(ls[1..], end, !escaping && ls[0].str == "\\", acc + ls[0].str);
    }
  }

  predicate Quote(q: char) { q == '"' || q == '\'' }

  lemma QuotesAreMarks(q: char)
    requires Quote(q)
    ensures IsMark(q) && IsTok(q) && CharLexeme(q).str == [q]
  {
    Marks();
    assert TOKEN_CHARS[6] == '\'';
    assert !IsSkip('\'');
  }

  /** Between quotes of either kind exactly the strings without a word that ends or escapes them are read
      as they stand; others fail or become another string. */
  lemma QuotedRead(io: Doubles, q: char, s: string, post: string)
    requires Quote(q)
    ensures var p := ParseValue(io, Lex([q] + s + [q] + post));
      if Unbroken(Lex(s), [q], false) then p == Parsed(Str(s), Lex(post))
      else p.Failed? || (p.value.Str? && p.value != Str(s))
  {
    hide Lex, NextWord, IsTok, IsSkip, IsMark, Concat, Unbroken, ParseString, ParseDict, ParseArray;
    var tail := [q] + post;
    assert [q] + s + [q] + post == [q] + (s + tail);
    QuotesAreMarks(q);
    NextMark(q, s + tail);
    LexAppend(s, tail);
    LexTok(q, post);
    StringWords(s);
    ScanString(Lex(s), CharLexeme(q), Lex(post), false, "");
    assert Lex(s) + ([CharLexeme(q)] + Lex(post)) == Lex(s) + [CharLexeme(q)] + Lex(post);
    assert "" + Concat(Lex(s)) == s;
    assert [q] == "\"" || [q] == "'";
  }

  /** Exactly the unbroken strings read back as they were printed. */
  lemma StringRead(io: Doubles, s: string, indent: nat, post: string)
    ensures ParseValue(io, Lex(DumpValue(io, Str(s), indent) + post)) == Parsed(Str(s), Lex(post)) <==> StringOk(s)
  {
    hide Lex, Unbroken, ParseValue;
    QuotedRead(io, '"', s, post);
    assert DumpValue(io, Str(s), indent) + post == ['"'] + s + ['"'] + post;
    assert ['"'] == "\"";
  }

  lemma StringWords(s: string)
    ensures Concat(Lex(s)) == s && forall l :: l in Lex(s) ==> l.str != ""
  {
    LexedConcat(TomlTokens(), s);
    LexedNonEmpty(TomlTokens(), s);
  }

  // ---------------------------------------------------------------- values

  /** A key that is a word: a run of word characters, or a single mark, but no opening bracket. */
  predicate KeyOk(key: string) { (key != "" && NoTok(key)) || (MarkKey(key) && key != "[") }

  predicate MarkKey(key: string) { |key| == 1 && IsMark(key[0]) }

  lemma NextKey(key: string, s: string)
    requires (key != "" && NoTok(key)) || MarkKey(key)
    requires Cut(s)
    ensures NextWord(Lex(key + s)) == Some((key, Lex(s)))
  {
    hide Lex, NextWord, IsMark;
    if key != "" && NoTok(key) { NextRun(key, s); } else {
      assert key == [key[0]];
      NextMark(key[0], s);
    }
  }

  /** The values that survive: 32-bit integers, doubles the library prints with a dot, strings without
      a word that ends or escapes them, arrays of such, and non-empty dicts with one-word keys. */
  ghost predicate Readable(io: Doubles, n: Node)
    decreases n
  {
    match n
    case Int(i) => IsInt32(i)
    case Float(f) => NoTok(io.show(f)) && '.' in io.show(f) && io.read(io.show(f)) == Some(f)
    case Bool(b) => true
    case Str(s) => StringOk(s)
    case Array(items) => forall i :: 0 <= i < |items| ==> Readable(io, items[i])
    case Dict(es) => es != [] && Sorted(es) && forall i :: 0 <= i < |es| ==> KeyOk(es[i].key) && Readable(io, es[i].value)
  }

  ghost predicate EntriesOk(io: Doubles, es: seq<Entry>) {
    Sorted(es) && forall i :: 0 <= i < |es| ==> KeyOk(es[i].key) && Readable(io, es[i].value)
  }

  lemma NoTokDigits(s: string)
    requires forall c :: c in s ==> IsDigit(c)
    ensures NoTok(s) && NoTok("-" + s) && '.' !in s && '.' !in "-" + s
  {
    forall c | IsTok(c)
      ensures !IsDigit(c) && c != '-'
    {}
    forall i | 0 <= i < |s|
      ensures !IsTok(s[i])
    {
      assert s[i] in s;
    }
  }

  lemma IntRead(io: Doubles, i: int, indent: nat, post: string)
    requires Cut(post)
    ensures var p := ParseValue(io, Lex(DumpValue(io, Int(i), indent) + post));
      p == if IsInt32(i) then Parsed(Int(i), Lex(post)) else Failed(NotANumber)
  {
    hide Lex, NextWord, Stoi, Digits, NoTok, IsTok, Cut;
    var w := IntText(i);
    NoTokDigits(Digits(if i < 0 then -i else i));
    assert NoTok(w) && '.' !in w && w != "";
    IntTextRead(i);
    NextRun(w, post);
    assert w[0] == '-' || IsDigit(w[0]) by { assert i >= 0 ==> w[0] in w; }
  }

  lemma WordsRead(io: Doubles, n: Node, indent: nat, post: string)
    requires n.Bool? || n.Float?
    requires Readable(io, n) && Cut(post)
    ensures ParseValue(io, Lex(DumpValue(io, n, indent) + post)) == Parsed(n, Lex(post))
  {
    hide Lex, NextWord, Stoi;
    var w := DumpValue(io, n, indent);
    assert NoTok("true") && NoTok("false");
    NextRun(w, post);
  }

  lemma {:induction false} ValueRead(io: Doubles, n: Node, indent: nat, post: string)
    requires Readable(io, n) && Cut(post)
    ensures ParseValue(io, Lex(DumpValue(io, n, indent) + post)) == Parsed(n, Lex(post))
    decreases n, 2
  {
    hide Lex, NextWord, Stoi, IsTok, NoTok, Sorted, ParseValue, DumpValue, IsInt32;
    if n.Int? {
      IntRead(io, n.i, indent, post);
    } else if n.Bool? || n.Float? {
      WordsRead(io, n, indent, post);
    } else if n.Str? {
      StringRead(io, n.s, indent, post);
    } else if n.Array? {
      ArrayRead(io, n.items, indent, post);
    } else {
      DictRead(io, n.entries, indent, post);
    }
  }

  // ---------------------------------------------------------------- arrays

  lemma {:induction false} ArrayRead(io: Doubles, items: seq<Node>, indent: nat, post: string)
    requires Readable(io, Array(items)) && Cut(post)
    ensures ParseValue(io, Lex(DumpValue(io, Array(items), indent) + post)) == Parsed(Array(items), Lex(post))
    decreases items, 1
  {
    hide Lex, NextWord, Stoi, IsTok, IsSkip, NoTok, ParseItems, Cut, Readable, IsMark, ItemsText, DumpItems;
    Marks();
    var text := DumpItems(io, items, true, false, indent) + ("]" + post);
    assert DumpValue(io, Array(items), indent) + post == ['['] + text;
    NextMark('[', text);
    assert ParseValue(io, Lex(['['] + text)) == ParseArray(io, Lex(text));
    ArrayText(io, items, indent, post);
    if items == [] {
      NextMark(']', post);
    } else {
      assert [] + items == items && White("");
      ItemsRead(io, items, "", false, indent, [], post);
      NoCloser(io, Lex(text));
    }
  }

  lemma ArrayText(io: Doubles, items: seq<Node>, indent: nat, post: string)
    ensures DumpItems(io, items, true, false, indent) + ("]" + post)
      == if items == [] then [']'] + post else ItemsText(io, items, "", false, indent, post)
  {
    if items == [] {
      assert DumpItems(io, items, true, false, indent) + ("]" + post) == [']'] + post;
    } else {
      var v := DumpValue(io, items[0], indent + 1);
      var more := DumpItems(io, items[1..], false, Breaks(items[0]), indent);
      assert DumpItems(io, items, true, false, indent) == "" + v + more;
      assert "" + v + more + ("]" + post) == "" + (v + (more + ("]" + post)));
    }
  }

  /** No value starts with a closing bracket. */
  lemma NoCloser(io: Doubles, ls: seq<Lexeme>)
    requires ParseItems(io, ls, []).Parsed?
    ensures NextWord(ls).Some? && NextWord(ls).value.0 != "]"
  {
    hide NextWord, ParseDict, ParseArray, ParseString;
    assert ParseValue(io, ls).Parsed?;
    assert Stoi("]") == None;
  }

  /** The first item, white before it, and what follows up to the end of the array. */
  function ItemsText(io: Doubles, items: seq<Node>, w: string, returned: bool, indent: nat, post: string): string
    requires items != []
  {
    w + (DumpValue(io, items[0], indent + 1) + ItemsTail(io, items[1..], returned || Breaks(items[0]), indent, post))
  }

  function ItemsTail(io: Doubles, items: seq<Node>, returned: bool, indent: nat, post: string): string {
    DumpItems(io, items, false, returned, indent) + ("]" + post)
  }

  lemma {:induction false} ItemsRead(io: Doubles, items: seq<Node>, w: string, returned: bool, indent: nat,
                                     acc: seq<Node>, post: string)
    requires items != [] && Readable(io, Array(items)) && White(w)
    ensures ParseItems(io, Lex(ItemsText(io, items, w, returned, indent, post)), acc) == Parsed(Array(acc + items), Lex(post))
    decreases items, 0
  {
    hide Lex, NextWord, Stoi, IsTok, NoTok, ParseValue, DumpValue, Readable, IsMark, White;
    Marks();
    var more := returned || Breaks(items[0]);
    var tail := ItemsTail(io, items[1..], more, indent, post);
    var v := DumpValue(io, items[0], indent + 1);
    ItemReadable(io, items);
    ItemsTailWords(io, items[1..], more, indent, post);
    ValueRead(io, items[0], indent + 1, tail);
    SkipWhite(w, v + tail);
    SameValue(io, Lex(w + (v + tail)), Lex(v + tail));
    if items[1..] != [] {
      var sep := ItemsGap(more, indent);
      ItemsRead(io, items[1..], sep, more, indent, acc + [items[0]], post);
      assert acc + [items[0]] + items[1..] == acc + items;
    } else {
      assert acc + [items[0]] == acc + items;
    }
  }

  lemma ItemReadable(io: Doubles, items: seq<Node>)
    requires items != [] && Readable(io, Array(items))
    ensures Readable(io, items[0]) && Readable(io, Array(items[1..]))
  {}

  lemma SameValue(io: Doubles, a: seq<Lexeme>, b: seq<Lexeme>)
    requires NextWord(a) == NextWord(b)
    ensures ParseValue(io, a) == ParseValue(io, b)
  {}

  /** The white between a comma and the next item. */
  function ItemsGap(returned: bool, indent: nat): (w: string)
    ensures White(w)
  {
    Marks();
    if returned then " \n" + Spaces(indent + 1) else " "
  }

  lemma ItemsTailWords(io: Doubles, items: seq<Node>, returned: bool, indent: nat, post: string)
    ensures Cut(ItemsTail(io, items, returned, indent, post))
    ensures NextWord(Lex(ItemsTail(io, items, returned, indent, post))) ==
      if items == [] then Some(("]", Lex(post)))
      else Some((",", Lex(ItemsText(io, items, ItemsGap(returned, indent), returned, indent, post))))
  {
    hide Lex, NextWord, IsTok, IsSkip, IsMark, DumpValue, Breaks, ParseItems;
    Marks();
    var tail := ItemsTail(io, items, returned, indent, post);
    if items == [] {
      assert tail == [']'] + post;
      NextMark(']', post);
    } else {
      var text := ItemsText(io, items, ItemsGap(returned, indent), returned, indent, post);
      ItemsJoin(io, items, returned, indent, post);
      NextMark(',', text);
    }
  }

  lemma ItemsJoin(io: Doubles, items: seq<Node>, returned: bool, indent: nat, post: string)
    requires items != []
    ensures ItemsTail(io, items, returned, indent, post)
      == [','] + ItemsText(io, items, ItemsGap(returned, indent), returned, indent, post)
  {
    hide DumpValue, Breaks, White;
    var v := DumpValue(io, items[0], indent + 1);
    var more := DumpItems(io, items[1..], false, returned || Breaks(items[0]), indent);
    assert Separator(false, returned, indent) == [','] + ItemsGap(returned, indent);
    assert [','] + ItemsGap(returned, indent) + v + more + ("]" + post)
      == [','] + (ItemsGap(returned, indent) + (v + (more + ("]" + post))));
  }

  // ---------------------------------------------------------------- inline dicts

  lemma {:induction false} DictRead(io: Doubles, es: seq<Entry>, indent: nat, post: string)
    requires Readable(io, Dict(es)) && Cut(post)
    ensures ParseValue(io, Lex(DumpValue(io, Dict(es), indent) + post)) == Parsed(Dict(es), Lex(post))
    decreases es, 1
  {
    hide Lex, NextWord, Stoi, IsTok, NoTok, ParseDict, Cut, Readable, IsMark, DumpValue, LocalText, EntriesOk;
    DictNonEmpty(io, es);
    assert [] + es == es;
    var text := LocalText(io, es, "", indent, post);
    DictText(io, es, indent, post);
    NextMark('{', text) by { Marks(); }
    assert White("");
    LocalRead(io, [], es, "", indent, post);
    assert ParseValue(io, Lex(['{'] + text)) == ParseDict(io, Lex(text), false, []);
  }

  lemma DictText(io: Doubles, es: seq<Entry>, indent: nat, post: string)
    requires es != []
    ensures DumpValue(io, Dict(es), indent) + post == ['{'] + LocalText(io, es, "", indent, post)
  {
    var v := DumpValue(io, es[0].value, indent + |es[0].key| + 3);
    var more := DumpLocal(io, es[1..], false, indent);
    assert DumpLocal(io, es, true, indent) == "" + es[0].key + " = " + v + more;
  }

  lemma DictNonEmpty(io: Doubles, es: seq<Entry>)
    requires Readable(io, Dict(es))
    ensures es != [] && EntriesOk(io, es)
  {}

  /** An entry on one line, with the white before it and what follows its value. */
  function EntryText(io: Doubles, e: Entry, indent: nat, tail: string): string {
    e.key + (" = " + (DumpValue(io, e.value, indent) + tail))
  }

  function LocalText(io: Doubles, es: seq<Entry>, w: string, indent: nat, post: string): string
    requires es != []
  {
    w + EntryText(io, es[0], indent + |es[0].key| + 3, LocalTail(io, es[1..], indent, post))
  }

  function LocalTail(io: Doubles, es: seq<Entry>, indent: nat, post: string): string {
    DumpLocal(io, es, false, indent) + ("}" + post)
  }

  /** A printed entry: its key, then a value. */
  lemma {:induction false} EntryRead(io: Doubles, e: Entry, indent: nat, tail: string)
    requires KeyOk(e.key) && Readable(io, e.value) && Cut(tail)
    ensures var ls := Lex(EntryText(io, e, indent, tail));
      && NextWord(ls).Some? && NextWord(ls).value.0 == e.key
      && ParseEntry(io, NextWord(ls).value.1) == Parsed(e.value, Lex(tail))
    decreases e, 3
  {
    hide Lex, NextWord, Stoi, IsTok, NoTok, ParseValue, DumpValue, Readable, IsMark, White;
    Marks();
    var v := DumpValue(io, e.value, indent);
    NextKey(e.key, " = " + (v + tail));
    OneSpaceWhite();
    assert " = " + (v + tail) == " " + (['='] + (" " + (v + tail)));
    SkipWhite(" ", ['='] + (" " + (v + tail)));
    NextMark('=', " " + (v + tail));
    SkipWhite(" ", v + tail);
    SameValue(io, Lex(" " + (v + tail)), Lex(v + tail));
    ValueRead(io, e.value, indent, tail);
  }

  lemma OneSpaceWhite()
    ensures White(" ")
  {
    Marks();
  }

  lemma {:induction false} LocalRead(io: Doubles, acc: seq<Entry>, es: seq<Entry>, w: string, indent: nat, post: string)
    requires es != [] && EntriesOk(io, acc + es) && White(w)
    ensures ParseDict(io, Lex(LocalText(io, es, w, indent, post)), false, acc) == Parsed(Dict(acc + es), Lex(post))
    decreases es, 0
  {
    hide Lex, NextWord, IsTok, NoTok, ParseEntry, DumpValue, EntryText, LocalTail, Readable, IsMark, White, Sorted;
    var e := es[0];
    var tail := LocalTail(io, es[1..], indent, post);
    var text := EntryText(io, e, indent + |e.key| + 3, tail);
    FirstEntry(io, acc, es);
    LocalTailWords(io, es[1..], indent, post);
    EntryRead(io, e, indent + |e.key| + 3, tail);
    SkipWhite(w, text);
    NotHeader(e.key);
    if es[1..] != [] {
      LocalRead(io, acc + [e], es[1..], " ", indent, post) by { OneSpaceWhite(); }
    } else {
      assert acc + [e] == acc + es;
    }
  }

  lemma NotHeader(key: string)
    requires KeyOk(key)
    ensures key != "["
  {
    Marks();
    assert "["[0] == '[';
  }

  /** Entries come in order, so that each one is stored last. */
  lemma FirstEntry(io: Doubles, acc: seq<Entry>, es: seq<Entry>)
    requires es != [] && EntriesOk(io, acc + es)
    ensures KeyOk(es[0].key) && Readable(io, es[0].value)
    ensures Insert(acc, es[0].key, es[0].value) == acc + [es[0]]
    ensures acc + [es[0]] + es[1..] == acc + es && EntriesOk(io, acc + [es[0]])
  {
    var all := acc + es;
    assert all[|acc|] == es[0];
    forall i | 0 <= i < |acc|
      ensures Less(acc[i].key, es[0].key)
    {
      assert all[i] == acc[i];
    }
    InsertLast(acc, es[0].key, es[0].value);
    assert acc + [es[0]] + es[1..] == acc + es;
    assert acc + [es[0]] == all[..|acc| + 1];
  }

  lemma LocalTailWords(io: Doubles, es: seq<Entry>, indent: nat, post: string)
    ensures Cut(LocalTail(io, es, indent, post))
    ensures NextWord(Lex(LocalTail(io, es, indent, post))) ==
      if es == [] then Some(("}", Lex(post))) else Some((",", Lex(LocalText(io, es, " ", indent, post))))
  {
    hide Lex, NextWord, IsTok, IsMark, DumpValue;
    Marks();
    var tail := LocalTail(io, es, indent, post);
    if es == [] {
      assert tail == ['}'] + post;
      NextMark('}', post);
    } else {
      var text := LocalText(io, es, " ", indent, post);
      assert tail == [','] + text;
      NextMark(',', text);
    }
  }
}
