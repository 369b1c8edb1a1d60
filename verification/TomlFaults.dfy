/** Values that do not survive: reading what is printed of one fails, or leaves a trace that stays. */
module TomlFaults {
  import opened Options
  import opened ConfigTree
  import opened Numerals
  import opened Lexer
  import opened TomlText
  import opened TomlParse
  import opened TomlLex
  import opened TomlValues
  import opened TomlTables
  import opened TomlImage
  import opened TomlLoss

  predicate Wordish(key: string) { NoTok(key) || MarkKey(key) }

  /** What a whole text can give: as `Made`, but a table can be empty, and its key any name. */
  ghost predicate Grown(n: Node)
    decreases n
  {
    match n
    case Int(i) => IsInt32(i)
    case Array(items) => forall i :: 0 <= i < |items| ==> Grown(items[i])
    case Dict(es) => Sorted(es) && forall i :: 0 <= i < |es| ==> Wordish(es[i].key) && Grown(es[i].value)
    case _ => true
  }

  /** The C++ library prints each double of the tree as a word with a dot, and reads it back. */
  ghost predicate FloatsOk(io: Doubles, n: Node)
    decreases n
  {
    match n
    case Float(f) => NoTok(io.show(f)) && '.' in io.show(f) && io.read(io.show(f)) == Some(f)
    case Array(items) => forall i :: 0 <= i < |items| ==> FloatsOk(io, items[i])
    case Dict(es) => forall i :: 0 <= i < |es| ==> FloatsOk(io, es[i].value)
    case _ => true
  }

  lemma {:induction false} MadeIsGrown(n: Node)
    requires Made(n)
    ensures Grown(n)
    decreases n
  {
    hide NoTok, MarkKey, Sorted;
    match n {
      case Array(items) => forall i | 0 <= i < |items| ensures Grown(items[i]) { MadeIsGrown(items[i]); }
      case Dict(es) => forall i | 0 <= i < |es| ensures Grown(es[i].value) { MadeIsGrown(es[i].value); }
      case _ =>
    }
  }

  lemma {:induction false} ReadableIsMade(io: Doubles, n: Node)
    requires Readable(io, n)
    ensures Made(n)
    decreases n
  {
    hide NoTok, KeyOk, Sorted, StringOk;
    match n {
      case Array(items) => forall i | 0 <= i < |items| ensures Made(items[i]) { ReadableIsMade(io, items[i]); }
      case Dict(es) => forall i | 0 <= i < |es| ensures Made(es[i].value) { ReadableIsMade(io, es[i].value); }
      case _ =>
    }
  }

  lemma EntriesAreMade(io: Doubles, es: seq<Entry>)
    requires EntriesOk(io, es)
    ensures MadeEntries(es)
  {
    hide KeyOk, Sorted, Readable, Made;
    forall i | 0 <= i < |es| ensures Made(es[i].value) { ReadableIsMade(io, es[i].value); }
  }

  // ---------------------------------------------------------------- first words

  /** No printed value starts with an equals sign or a closing bracket. */
  lemma ValueStarts(io: Doubles, n: Node, indent: nat, tail: string)
    requires FloatsOk(io, n) && Cut(tail)
    ensures var r := NextWord(Lex(DumpValue(io, n, indent) + tail));
      r.Some? && r.value.0 != "=" && r.value.0 != "]"
  {
    hide Lex, NextWord, Cut, Digits, NoTok, IsMark, IsTok;
    Marks();
    var w := DumpValue(io, n, indent);
    match n {
      case Int(i) =>
        NoTokDigits(Digits(if i < 0 then -i else i));
        NextRun(w, tail);
      case Float(f) => NextRun(w, tail);
      case Bool(b) =>
        assert NoTok("true") && NoTok("false") by { TrueFalse(); }
        NextRun(w, tail);
      case Str(s) =>
        assert w + tail == ['"'] + (s + "\"" + tail);
        NextMark('"', s + "\"" + tail);
      case Array(items) =>
        var text := DumpItems(io, items, true, false, indent) + "]" + tail;
        assert w + tail == ['['] + text;
        NextMark('[', text);
      case Dict(es) =>
        var text := DumpLocal(io, es, true, indent) + "}" + tail;
        assert w + tail == ['{'] + text;
        NextMark('{', text);
    }
    if n.Int? || n.Float? || n.Bool? { RunIsNoMark(w); }
  }

  lemma TrueFalse()
    ensures NoTok("true") && NoTok("false")
  {}

  lemma RunIsNoMark(w: string)
    requires NoTok(w)
    ensures w != "=" && w != "]" && w != "["
  {
    Marks();
    assert "="[0] == '=' && "]"[0] == ']' && "["[0] == '[';
  }

  /** A value where a name should be. */
  lemma ValueIsNoEntry(io: Doubles, w: string, n: Node, indent: nat, tail: string)
    requires FloatsOk(io, n) && Cut(tail) && White(w)
    ensures var ls := Lex(w + (DumpValue(io, n, indent) + tail));
      && NextWord(ls).Some? && NextWord(ls).value.0 != "=" && NextWord(ls).value.0 != "]"
      && ParseEntry(io, ls) == Failed(Syntax)
  {
    hide Lex, NextWord, DumpValue, ParseValue, White, Cut;
    ValueStarts(io, n, indent, tail);
    SkipWhite(w, DumpValue(io, n, indent) + tail);
  }

  lemma {:induction false} WhiteQuotes(w: string, s: string)
    requires White(w)
    ensures WordQuotes(Lex(w + s)) == WordQuotes(Lex(s)) && Quotes(w) == 0
  {
    NoQuotesInWhite(w);
    QuotesAppend(w, s);
    LexQuotes(w + s);
    LexQuotes(s);
  }

  lemma {:induction false} NoQuotesInWhite(w: string)
    requires White(w)
    ensures Quotes(w) == 0
  {
    if w != "" {
      NoQuotesInWhite(w[1..]);
      assert IsSkip(w[0]);
      assert !IsSkip('"') && !IsSkip('\'');
    }
  }

  // ---------------------------------------------------------------- strings

  /** A broken string does not come back: something of another length does, or nothing. */
  lemma BrokenString(io: Doubles, s: string, indent: nat, post: string)
    requires !StringOk(s)
    ensures var p := ParseValue(io, Lex(DumpValue(io, Str(s), indent) + post));
      p.Parsed? ==> p.value.Str? && p.value != Str(s)
  {
    hide Lex, Unbroken, ParseValue;
    QuotedRead(io, '"', s, post);
    assert DumpValue(io, Str(s), indent) + post == ['"'] + s + ['"'] + post;
    assert ['"'] == "\"";
  }

  // ---------------------------------------------------------------- values

  /** What follows a value is not taken for the rest of an entry named by a closing brace. */
  ghost predicate NoEntryAfter(io: Doubles, n: Node, post: string) {
    Cut(post) && (n == Dict([]) ==> ParseEntry(io, Lex(post)).Failed?)
  }

  /** The quotation marks of the words are all in the value or after it. */
  ghost predicate Tight(p: Parsed<Node>, ls: seq<Lexeme>, had: nat) {
    p.Parsed? && had + WordQuotes(ls) <= NodeQuotes(p.value) + WordQuotes(p.rest)
  }

  lemma {:induction false} FaultyValue(io: Doubles, n: Node, indent: nat, post: string)
    requires Grown(n) && FloatsOk(io, n) && !Readable(io, n) && NoEntryAfter(io, n, post)
    requires var ls := Lex(DumpValue(io, n, indent) + post); Tight(ParseValue(io, ls), ls, 0)
    ensures Stained(ParseValue(io, Lex(DumpValue(io, n, indent) + post)).value, n)
    decreases n, 2
  {
    hide Lex, IsTok, NoTok, Sorted, ParseValue, DumpValue, IsInt32, StringOk, Wordish, KeyOk;
    var u := ParseValue(io, Lex(DumpValue(io, n, indent) + post)).value;
    if n.Str? {
      BrokenString(io, n.s, indent, post);
      assert Stain(u, n, [], u);
    } else if n.Array? {
      FaultyArray(io, n.items, indent, post);
      assert Stain(u, n, [], u);
    } else {
      FaultyDict(io, n.entries, indent, post);
    }
  }

  lemma {:induction false} FaultyArray(io: Doubles, items: seq<Node>, indent: nat, post: string)
    requires Grown(Array(items)) && FloatsOk(io, Array(items)) && !Readable(io, Array(items)) && Cut(post)
    requires var ls := Lex(DumpValue(io, Array(items), indent) + post); Tight(ParseValue(io, ls), ls, 0)
    ensures var p := ParseValue(io, Lex(DumpValue(io, Array(items), indent) + post));
      p.value.Array? && p.value != Array(items) && NodeQuotes(p.value) > 0
    decreases items, 1
  {
    hide Lex, NextWord, IsTok, IsSkip, NoTok, ParseItems, Cut, IsMark, ItemsText, DumpItems, Grown, WordQuotes;
    Marks();
    var text := DumpItems(io, items, true, false, indent) + ("]" + post);
    assert DumpValue(io, Array(items), indent) + post == ['['] + text;
    NextMark('[', text);
    assert ParseValue(io, Lex(['['] + text)) == ParseArray(io, Lex(text));
    ArrayText(io, items, indent, post);
    assert [] + items == items && White("");
    NotClosed(io, items, indent, post);
    BracketQuotes(text);
    ItemsOf(io, items);
    FaultyItems(io, items, "", false, indent, [], post);
  }

  lemma BracketQuotes(text: string)
    ensures WordQuotes(Lex(['['] + text)) == WordQuotes(Lex(text)) && WordQuotes(Lex(['{'] + text)) == WordQuotes(Lex(text))
  {
    LexQuotes(['['] + text);
    LexQuotes(['{'] + text);
    LexQuotes(text);
    assert (['['] + text)[1..] == text && (['{'] + text)[1..] == text;
  }

  lemma NotClosed(io: Doubles, items: seq<Node>, indent: nat, post: string)
    requires items != [] && FloatsOk(io, items[0])
    ensures var r := NextWord(Lex(ItemsText(io, items, "", false, indent, post)));
      r.Some? && r.value.0 != "]"
  {
    hide Lex, NextWord, ItemsTail, DumpValue, Breaks;
    var tail := ItemsTail(io, items[1..], false || Breaks(items[0]), indent, post);
    ItemsTailWords(io, items[1..], false || Breaks(items[0]), indent, post);
    ValueStarts(io, items[0], indent + 1, tail);
    assert "" + (DumpValue(io, items[0], indent + 1) + tail) == DumpValue(io, items[0], indent + 1) + tail;
  }

  /** Items of an array: each can be printed, but not all survive. */
  ghost predicate SomeFaulty(io: Doubles, items: seq<Node>) {
    && (forall i :: 0 <= i < |items| ==> Grown(items[i]) && FloatsOk(io, items[i]))
    && exists i :: 0 <= i < |items| && !Readable(io, items[i])
  }

  lemma ItemsOf(io: Doubles, items: seq<Node>)
    requires Grown(Array(items)) && FloatsOk(io, Array(items)) && !Readable(io, Array(items))
    ensures SomeFaulty(io, items)
  {}

  lemma LaterFaulty(io: Doubles, items: seq<Node>)
    requires SomeFaulty(io, items) && Readable(io, items[0])
    ensures items[1..] != [] && SomeFaulty(io, items[1..])
  {
    hide Readable, Grown, FloatsOk;
    var i :| 0 <= i < |items| && !Readable(io, items[i]);
    assert items[1..][i - 1] == items[i];
  }

  /** The words after a value in an array. */
  lemma NoEntryInArray(io: Doubles, n: Node, items: seq<Node>, returned: bool, indent: nat, post: string)
    ensures NoEntryAfter(io, n, ItemsTail(io, items, returned, indent, post))
  {
    hide Lex, NextWord, ItemsTail, ItemsText, ParseValue;
    ItemsTailWords(io, items, returned, indent, post);
  }

  lemma {:induction false} FaultyItems(io: Doubles, items: seq<Node>, w: string, returned: bool, indent: nat,
                                       acc: seq<Node>, post: string)
    requires SomeFaulty(io, items) && White(w) && forall i :: 0 <= i < |acc| ==> Made(acc[i])
    requires var ls := Lex(ItemsText(io, items, w, returned, indent, post)); Tight(ParseItems(io, ls, acc), ls, ItemQuotes(acc))
    ensures var p := ParseItems(io, Lex(ItemsText(io, items, w, returned, indent, post)), acc);
      p.value.Array? && p.value != Array(acc + items) && NodeQuotes(p.value) > 0
    decreases items, 0
  {
    hide Lex, NextWord, IsTok, NoTok, ParseValue, DumpValue, Readable, IsMark, White, Made, Grown, FloatsOk, ItemsTail, Wordy, WordQuotes, Quotes, NoEntryAfter, WordKey, Stained;
    var more := returned || Breaks(items[0]);
    var tail := ItemsTail(io, items[1..], more, indent, post);
    var v := DumpValue(io, items[0], indent + 1);
    var ls := Lex(w + (v + tail));
    var p := ParseItems(io, ls, acc);
    NoEntryInArray(io, items[0], items[1..], more, indent, post);
    LexWordy(v + tail);
    SkipWhite(w, v + tail);
    SameValue(io, ls, Lex(v + tail));
    WhiteQuotes(w, v + tail);
    ValueMakes(io, Lex(v + tail));
    var u := ParseValue(io, Lex(v + tail));
    ItemQuotesMore(acc, u.value);
    NextWordOk(u.rest);
    var r := NextWord(u.rest).value;
    if Readable(io, items[0]) {
      LaterFaulty(io, items);
      ItemsTailWords(io, items[1..], more, indent, post);
      assert Cut(tail);
      ValueRead(io, items[0], indent + 1, tail);
      FaultyItems(io, items[1..], ItemsGap(more, indent), more, indent, acc + [items[0]], post);
      assert acc + [items[0]] + items[1..] == acc + items;
    } else {
      LastFaulty(io, u, r, acc, p);
      NoEntryCuts(io, items[0], tail);
      FaultyValue(io, items[0], indent + 1, tail);
      StainedFacts(u.value, items[0]);
      assert (acc + items)[|acc|] == items[0];
      ItemPart(p.value.items, |acc|);
    }
  }

  lemma NoEntryCuts(io: Doubles, n: Node, post: string)
    requires NoEntryAfter(io, n, post)
    ensures Cut(post)
  {}

  lemma StainedFacts(u: Node, n: Node)
    requires Stained(u, n)
    ensures u != n && NodeQuotes(u) > 0
  {
    var path, w :| Stain(u, n, path, w);
    LeafQuotes(u, path);
  }

  /** After the value `u` the array goes on or ends, with `u` in its place. */
  lemma LastFaulty(io: Doubles, u: Parsed<Node>, r: (string, seq<Lexeme>), acc: seq<Node>, p: Parsed<Node>)
    requires u.Parsed? && Made(u.value) && Wordy(u.rest) && NextWord(u.rest) == Some(r) && forall i :: 0 <= i < |acc| ==> Made(acc[i])
    requires p.Parsed? && p == (if r.0 == "]" then Parsed(Array(acc + [u.value]), r.1)
                                else if r.0 == "," then ParseItems(io, r.1, acc + [u.value]) else Failed(Syntax))
    ensures p.value.Array? && |acc| < |p.value.items| && p.value.items[|acc|] == u.value
    ensures NodeQuotes(p.value) + WordQuotes(p.rest) <= ItemQuotes(acc) + NodeQuotes(u.value) + WordQuotes(u.rest)
  {
    hide NextWord, Wordy, WordQuotes, Made, ParseItems, Quotes, WordKey;
    NextWordOk(u.rest);
    ItemQuotesMore(acc, u.value);
    if r.0 == "," {
      ItemsMake(io, r.1, acc + [u.value]);
      assert p.value.items[|acc|] == p.value.items[..|acc| + 1][|acc|];
    }
  }

  // ---------------------------------------------------------------- inline dicts

  lemma {:induction false} FaultyDict(io: Doubles, es: seq<Entry>, indent: nat, post: string)
    requires Grown(Dict(es)) && FloatsOk(io, Dict(es)) && !Readable(io, Dict(es)) && NoEntryAfter(io, Dict(es), post)
    requires var ls := Lex(DumpValue(io, Dict(es), indent) + post); Tight(ParseValue(io, ls), ls, 0)
    ensures Stained(ParseValue(io, Lex(DumpValue(io, Dict(es), indent) + post)).value, Dict(es))
    decreases es, 1
  {
    hide Lex, NextWord, Stoi, IsTok, NoTok, ParseDict, Cut, Readable, IsMark, DumpValue, LocalText, Grown, WordQuotes, FloatsOk, ParseEntry, Stained;
    Marks();
    if es == [] {
      NoEntryInBraces(io, indent, post);
    } else {
      var text := LocalText(io, es, "", indent, post);
      DictText(io, es, indent, post);
      NextMark('{', text);
      assert ParseValue(io, Lex(['{'] + text)) == ParseDict(io, Lex(text), false, []);
      BracketQuotes(text);
      EntriesOf(io, es);
      assert [] + es == es && White("");
      NothingRead(io);
      LexWordy(text);
      DictMakes(io, Lex(text), false, []);
      FaultyLocal(io, [], es, "", indent, post);
    }
  }

  lemma NothingRead(io: Doubles)
    ensures EntriesOk(io, []) && MadeEntries([]) && EntryQuotes([]) == 0
  {}

  /** The closing brace of a dict without entries is taken for a name. */
  lemma NoEntryInBraces(io: Doubles, indent: nat, post: string)
    requires ParseEntry(io, Lex(post)).Failed?
    ensures ParseValue(io, Lex(DumpValue(io, Dict([]), indent) + post)).Failed?
  {
    hide Lex, NextWord, ParseEntry, IsTok, IsMark;
    Marks();
    assert DumpValue(io, Dict([]), indent) + post == ['{'] + (['}'] + post);
    NextMark('{', ['}'] + post);
    NextMark('}', post);
    assert "}" == ['}'] && "}"[0] != "["[0];
    var p := ParseDict(io, Lex(['}'] + post), false, []);
    assert p.Failed?;
    assert ParseValue(io, Lex(['{'] + (['}'] + post))) == p;
  }

  /** Entries that can be printed, in order after `acc`, not all of which survive. */
  ghost predicate EntriesFaulty(io: Doubles, acc: seq<Entry>, es: seq<Entry>) {
    && EntriesPlain(io, acc, es)
    && exists i :: 0 <= i < |es| && !(KeyOk(es[i].key) && Readable(io, es[i].value))
  }

  ghost predicate EntriesPlain(io: Doubles, acc: seq<Entry>, es: seq<Entry>) {
    && Sorted(acc + es) && EntriesOk(io, acc)
    && (forall i :: 0 <= i < |es| ==> Wordish(es[i].key) && Grown(es[i].value) && FloatsOk(io, es[i].value))
  }

  lemma EntriesOf(io: Doubles, es: seq<Entry>)
    requires es != [] && Grown(Dict(es)) && FloatsOk(io, Dict(es)) && !Readable(io, Dict(es))
    ensures EntriesFaulty(io, [], es)
  {
    hide Wordish, KeyOk;
    assert [] + es == es;
  }

  /** A good first entry is stored; the faulty one is among the others. */
  lemma LaterEntryFaulty(io: Doubles, acc: seq<Entry>, es: seq<Entry>)
    requires es != [] && EntriesFaulty(io, acc, es) && KeyOk(es[0].key) && Readable(io, es[0].value)
    ensures es[1..] != [] && EntriesFaulty(io, acc + [es[0]], es[1..])
  {
    hide Readable, Grown, FloatsOk, Wordish, KeyOk;
    var all := acc + es;
    assert acc + [es[0]] + es[1..] == all;
    assert acc + [es[0]] == all[..|acc| + 1];
    var i :| 0 <= i < |es| && !(KeyOk(es[i].key) && Readable(io, es[i].value));
    assert es[1..][i - 1] == es[i];
  }

  lemma StoredLast(acc: seq<Entry>, es: seq<Entry>, u: Node)
    requires es != [] && Sorted(acc + es)
    ensures Insert(acc, es[0].key, u) == acc + [Entry(es[0].key, u)] && Sorted(acc + [Entry(es[0].key, u)])
  {
    var all, now := acc + es, acc + [Entry(es[0].key, u)];
    assert all[|acc|] == es[0];
    forall i | 0 <= i < |acc|
      ensures Less(acc[i].key, es[0].key)
    {
      assert all[i] == acc[i];
    }
    InsertLast(acc, es[0].key, u);
    assert forall i :: 0 <= i < |acc| ==> now[i] == all[i];
  }

  /** Storing the next entry, whatever its value turned out to be. */
  lemma StoredNext(acc: seq<Entry>, es: seq<Entry>, u: Node)
    requires es != [] && Sorted(acc + es)
    ensures Insert(acc, es[0].key, u) == acc + [Entry(es[0].key, u)] && Sorted(acc + [Entry(es[0].key, u)])
    ensures forall path :: LeafIn(acc + [Entry(es[0].key, u)], [es[0].key] + path) == Leaf(u, path)
    ensures forall path :: LeafIn(acc + es, [es[0].key] + path) == Leaf(es[0].value, path)
    ensures acc + [Entry(es[0].key, es[0].value)] + es[1..] == acc + es
  {
    hide Leaf, Insert, Less;
    var all, now := acc + es, acc + [Entry(es[0].key, u)];
    assert all[|acc|] == es[0];
    StoredLast(acc, es, u);
    FindSorted(all, |acc|);
    FindSorted(now, |acc|);
    forall path: seq<string>
      ensures LeafIn(now, [es[0].key] + path) == Leaf(u, path) && LeafIn(all, [es[0].key] + path) == Leaf(es[0].value, path)
    {
      assert ([es[0].key] + path)[1..] == path;
    }
    assert Entry(es[0].key, es[0].value) == es[0];
  }

  /** The head of an entry: its key, if that is a word for a name, or what is taken for one. */
  lemma EntryHead(io: Doubles, e: Entry, w: string, indent: nat, tail: string)
    requires Wordish(e.key) && FloatsOk(io, e.value) && Cut(tail) && White(w)
    ensures var ls := Lex(w + EntryText(io, e, indent, tail)); var r := NextWord(ls);
      && r.Some?
      && (KeyOk(e.key) ==>
            && r.value.0 == e.key && NextWord(r.value.1).Some? && NextWord(r.value.1).value.0 == "="
            && ParseEntry(io, NextWord(r.value.1).value.1) == Failed(Syntax)
            && ParseEntry(io, r.value.1) == ParseValue(io, Lex(DumpValue(io, e.value, indent) + tail)))
      && (e.key == "" ==> r.value.0 == "=" && ParseEntry(io, r.value.1) == Failed(Syntax))
      && (e.key == "[" ==> r.value.0 == "[" && NoHeader(r.value.1))
      && WordQuotes(ls) == Quotes(e.key) + WordQuotes(Lex(DumpValue(io, e.value, indent) + tail))
  {
    hide Lex, NextWord, Stoi, IsTok, NoTok, ParseValue, DumpValue, Readable, IsMark, White, Quotes, FloatsOk, Cut;
    var v := DumpValue(io, e.value, indent);
    var after := " " + (v + tail);
    EntryQuotesAre(e.key, w, v, tail);
    EqualsNext(v + tail);
    OneSpaceWhite();
    ValueIsNoEntry(io, " ", e.value, indent, tail);
    SkipWhite(" ", v + tail);
    SkipWhite(w, EntryText(io, e, indent, tail));
    SameValue(io, Lex(after), Lex(v + tail));
    if e.key == "" {
      assert EntryText(io, e, indent, tail) == " = " + (v + tail);
      NoBrackets();
    } else {
      NextKey(e.key, " = " + (v + tail)) by { Marks(); }
    }
  }

  lemma NoBrackets()
    ensures !KeyOk("") && !KeyOk("[")
  {
    Marks();
    assert "["[0] == '[';
  }

  lemma EqualsNext(s: string)
    ensures Cut(" = " + s) && NextWord(Lex(" = " + s)) == Some(("=", Lex(" " + s)))
  {
    hide Lex, NextWord, IsTok, IsMark;
    Marks();
    OneSpaceWhite();
    assert " = " + s == " " + (['='] + (" " + s));
    SkipWhite(" ", ['='] + (" " + s));
    NextMark('=', " " + s);
    assert ['='] == "=";
  }

  /** After a bracket come an equals sign and something that closes no header. */
  ghost predicate NoHeader(ls: seq<Lexeme>) {
    var r := NextWord(ls);
    r.Some? && r.value.0 == "=" && NextWord(r.value.1).Some? && NextWord(r.value.1).value.0 != "]"
  }

  lemma EntryQuotesAre(key: string, w: string, v: string, tail: string)
    requires White(w)
    ensures WordQuotes(Lex(w + (key + (" = " + (v + tail))))) == Quotes(key) + WordQuotes(Lex(v + tail))
  {
    hide White, Lex;
    WhiteQuotes(w, key + (" = " + (v + tail)));
    LexQuotes(key + (" = " + (v + tail)));
    LexQuotes(v + tail);
    QuotesAppend(key, " = " + (v + tail));
    QuotesAppend(" = ", v + tail);
    assert Quotes(" = ") == 0 by {
      assert " = "[1..] == "= " && "= "[1..] == " " && " "[1..] == "";
      assert " = "[0] == ' ' && "= "[0] == '=' && " "[0] == ' ';
    }
  }

  lemma WordishKeys(key: string)
    requires Wordish(key)
    ensures KeyOk(key) || key == "" || key == "["
  {}

  lemma FirstPlain(io: Doubles, acc: seq<Entry>, es: seq<Entry>)
    requires es != [] && EntriesPlain(io, acc, es)
    ensures Wordish(es[0].key) && Grown(es[0].value) && FloatsOk(io, es[0].value) && Sorted(acc + es) && EntriesOk(io, acc)
  {}

  /** A faulty value was stored under the first key, and nothing was lost since. */
  lemma StainStays(io: Doubles, acc: seq<Entry>, es: seq<Entry>, u: Node, ls: seq<Lexeme>, glob: bool)
    requires es != [] && Sorted(acc + es) && Stained(u, es[0].value)
    requires Wordy(ls) && MadeEntries(acc + [Entry(es[0].key, u)])
    requires var p := ParseDict(io, ls, glob, acc + [Entry(es[0].key, u)]);
      p.Parsed? && EntryQuotes(acc + [Entry(es[0].key, u)]) + WordQuotes(ls) <= EntryQuotes(p.value.entries) + WordQuotes(p.rest)
    ensures Stained(ParseDict(io, ls, glob, acc + [Entry(es[0].key, u)]).value, Dict(acc + es))
  {
    hide ParseDict, MadeEntries, EntryQuotes, WordQuotes, Wordy, LeafIn, NodeQuotes, Sorted;
    var q, x :| Stain(u, es[0].value, q, x);
    StoredNext(acc, es, u);
    var path := [es[0].key] + q;
    DictKeeps(io, ls, glob, acc + [Entry(es[0].key, u)], path);
    var end := ParseDict(io, ls, glob, acc + [Entry(es[0].key, u)]).value;
    assert Stain(end, Dict(acc + es), path, x);
  }

  lemma StainStored(acc: seq<Entry>, es: seq<Entry>, u: Node)
    requires es != [] && Sorted(acc + es) && Stained(u, es[0].value)
    ensures Stained(Dict(acc + [Entry(es[0].key, u)]), Dict(acc + es))
  {
    hide LeafIn, NodeQuotes, Sorted;
    var q, x :| Stain(u, es[0].value, q, x);
    StoredNext(acc, es, u);
    assert Stain(Dict(acc + [Entry(es[0].key, u)]), Dict(acc + es), [es[0].key] + q, x);
  }

  /** No quotation mark was lost in parsing a dict. */
  ghost predicate TightDict(p: Parsed<Node>, ls: seq<Lexeme>, acc: seq<Entry>) {
    p.Parsed? && p.value.Dict? && EntryQuotes(acc) + WordQuotes(ls) <= EntryQuotes(p.value.entries) + WordQuotes(p.rest)
  }

  lemma {:induction false} FaultyLocal(io: Doubles, acc: seq<Entry>, es: seq<Entry>, w: string, indent: nat, post: string)
    requires es != [] && EntriesFaulty(io, acc, es) && White(w)
    requires var ls := Lex(LocalText(io, es, w, indent, post)); TightDict(ParseDict(io, ls, false, acc), ls, acc)
    ensures Stained(ParseDict(io, Lex(LocalText(io, es, w, indent, post)), false, acc).value, Dict(acc + es))
    decreases es, 0
  {
    hide Lex, NextWord, IsTok, NoTok, ParseEntry, ParseValue, DumpValue, EntryText, LocalTail, Readable, IsMark, White, Sorted,
      Wordy, WordKey, WordQuotes, Quotes, EntryQuotes, NodeQuotes, MadeEntries, Made, KeyOk, Stained, EntriesPlain, EntriesOk, Insert,
      Grown, FloatsOk, Wordish, NoEntryAfter, NoHeader;
    var e := es[0];
    var tail := LocalTail(io, es[1..], indent, post);
    var text := EntryText(io, e, indent + |e.key| + 3, tail);
    var ls := Lex(w + text);
    FirstPlain(io, acc, es);
    LocalTailWords(io, es[1..], indent, post);
    EntryHead(io, e, w, indent + |e.key| + 3, tail);
    WordishKeys(e.key);
    assert KeyOk(e.key);
    var u := ParseEntry(io, NextWord(ls).value.1);
    EntryValue(io, e, indent + |e.key| + 3, tail);
    EntriesAreMade(io, acc);
    StoredNext(acc, es, u.value);
    MadeMore(acc, e.key, u.value);
    NextWordOk(u.rest);
    var r := NextWord(u.rest).value;
    if Readable(io, e.value) {
      LaterEntryFaulty(io, acc, es);
      ValueRead(io, e.value, indent + |e.key| + 3, tail);
      FaultyLocal(io, acc + [e], es[1..], " ", indent, post) by { OneSpaceWhite(); }
    } else {
      var acc' := acc + [Entry(e.key, u.value)];
      if r.0 == "," { DictMakes(io, r.1, false, acc'); }
      NoEntryInDict(io, e.value, es[1..], indent, post);
      FaultyValue(io, e.value, indent + |e.key| + 3, tail);
      if r.0 == "," { StainStays(io, acc, es, u.value, r.1, false); } else { StainStored(acc, es, u.value); }
    }
  }

  lemma EntryValue(io: Doubles, e: Entry, indent: nat, tail: string)
    ensures Makes(ParseValue(io, Lex(DumpValue(io, e.value, indent) + tail)), Lex(DumpValue(io, e.value, indent) + tail), 0)
  {
    hide Lex, ParseValue, DumpValue;
    LexWordy(DumpValue(io, e.value, indent) + tail);
    ValueMakes(io, Lex(DumpValue(io, e.value, indent) + tail));
  }

  lemma NoEntryInDict(io: Doubles, n: Node, es: seq<Entry>, indent: nat, post: string)
    ensures NoEntryAfter(io, n, LocalTail(io, es, indent, post))
  {
    hide Lex, NextWord, LocalTail, LocalText, ParseValue;
    LocalTailWords(io, es, indent, post);
  }

  // ---------------------------------------------------------------- tables

  /** Words on which reading a text fails, whatever was read before. */
  ghost predicate Doomed(io: Doubles, ls: seq<Lexeme>) {
    forall acc :: ParseGlobal(io, ls, acc).Failed?
  }

  lemma BracketIsDoomed(io: Doubles, ls: seq<Lexeme>)
    requires NextWord(ls).Some? && NextWord(ls).value.0 == "[" && NoHeader(NextWord(ls).value.1)
    ensures Doomed(io, ls)
  {
    hide NextWord, ParseDict, ParseEntry, Names;
  }

  lemma EqualsIsNoValue(io: Doubles, ls: seq<Lexeme>)
    requires NextWord(ls).Some? && NextWord(ls).value.0 == "="
    ensures ParseValue(io, ls).Failed?
  {
    hide NextWord;
    assert Stoi("=") == None && '.' !in "=";
  }

  /** After an entry of a table comes the next key, the next header, or nothing. */
  lemma NoEntryInTable(io: Doubles, n: Node, acc: seq<Entry>, es: seq<Entry>, post: string)
    requires es != [] && EntriesPlain(io, acc, es) && EndsTable(post)
    ensures NoEntryAfter(io, n, "\n" + (DumpGlobal(io, es[1..]) + post))
  {
    hide Lex, NextWord, DumpValue, EntryText, IsTok, IsMark, NoTok, Sorted, KeyOk, Wordish, Grown, FloatsOk, ParseValue, NoHeader;
    var more := DumpGlobal(io, es[1..]) + post;
    NewlineSkipped(more);
    if es[1..] == [] {
      assert "" + post == post;
    } else {
      var e := es[1];
      var rest := DumpGlobal(io, es[2..]) + post;
      assert es[1..][1..] == es[2..];
      GlobalLine(io, e, DumpGlobal(io, es[2..]), post);
      NewlineSkipped(rest);
      NewlineIsWhite();
      SecondPlain(io, acc, es);
      EntryHead(io, e, "\n", |e.key| + 3, "\n" + rest);
      WordishKeys(e.key);
      var r := NextWord(Lex("\n" + more)).value;
      if r.0 == "=" { EqualsIsNoValue(io, r.1); }
    }
  }

  lemma NewlineIsWhite()
    ensures White("\n")
  {
    Marks();
  }

  lemma SecondPlain(io: Doubles, acc: seq<Entry>, es: seq<Entry>)
    requires |es| >= 2 && EntriesPlain(io, acc, es)
    ensures es[1].key != "" && Wordish(es[1].key) && FloatsOk(io, es[1].value)
  {
    var all := acc + es;
    assert all[|acc|] == es[0] && all[|acc| + 1] == es[1];
    assert Less(all[|acc|].key, all[|acc| + 1].key);
  }

  lemma {:induction false} FaultyTable(io: Doubles, acc: seq<Entry>, es: seq<Entry>, w: string, post: string)
    requires EntriesFaulty(io, acc, es) && White(w) && EndsTable(post)
    requires var ls := Lex(w + (DumpGlobal(io, es) + post)); TightDict(ParseDict(io, ls, true, acc), ls, acc)
    ensures var p := ParseDict(io, Lex(w + (DumpGlobal(io, es) + post)), true, acc);
      Stained(p.value, Dict(acc + es)) || Doomed(io, p.rest)
    decreases |es|
  {
    hide Lex, NextWord, IsTok, NoTok, ParseEntry, ParseValue, DumpValue, EntryText, Readable, IsMark, White, Sorted, Cut,
      Wordy, WordKey, WordQuotes, Quotes, EntryQuotes, NodeQuotes, MadeEntries, Made, KeyOk, Stained, EntriesPlain, EntriesOk, Insert,
      Grown, FloatsOk, Wordish, NoEntryAfter, NoHeader, Doomed, EndsTable;
    var e := es[0];
    var more := DumpGlobal(io, es[1..]) + post;
    var tail := "\n" + more;
    var ls := Lex(w + EntryText(io, e, |e.key| + 3, tail));
    GlobalLine(io, e, DumpGlobal(io, es[1..]), post);
    NewlineSkipped(more);
    FirstPlain(io, acc, es);
    EntryHead(io, e, w, |e.key| + 3, tail);
    WordishKeys(e.key);
    if e.key == "[" {
      BracketIsDoomed(io, ls);
    } else {
      var u := ParseEntry(io, NextWord(ls).value.1);
      EntryValue(io, e, |e.key| + 3, tail);
      EntriesAreMade(io, acc);
      StoredNext(acc, es, u.value);
      MadeMore(acc, e.key, u.value);
      if Readable(io, e.value) {
        LaterEntryFaulty(io, acc, es);
        ValueRead(io, e.value, |e.key| + 3, tail);
        NewlineIsWhite();
        FaultyTable(io, acc + [e], es[1..], "\n", post);
      } else {
        DictMakes(io, u.rest, true, acc + [Entry(e.key, u.value)]);
        NoEntryInTable(io, e.value, acc, es, post);
        FaultyValue(io, e.value, |e.key| + 3, tail);
        StainStays(io, acc, es, u.value, u.rest, true);
      }
    }
  }

  /** Values come back exactly if they are readable: no value is read where another was printed. */
  lemma ValueComesBackIff(io: Doubles, n: Node, indent: nat, post: string)
    requires FloatsOk(io, n) && Cut(post)
    ensures ParseValue(io, Lex(DumpValue(io, n, indent) + post)) == Parsed(n, Lex(post)) <==> Readable(io, n)
  {
    hide Lex, ParseValue, DumpValue, Readable, FloatsOk, Made, Cut;
    if Readable(io, n) {
      ValueRead(io, n, indent, post);
    } else if ParseValue(io, Lex(DumpValue(io, n, indent) + post)) == Parsed(n, Lex(post)) {
      FaultyIsNotBack(io, n, indent, post);
    }
  }

  lemma FaultyIsNotBack(io: Doubles, n: Node, indent: nat, post: string)
    requires FloatsOk(io, n) && Cut(post) && !Readable(io, n)
    ensures ParseValue(io, Lex(DumpValue(io, n, indent) + post)) != Parsed(n, Lex(post))
  {
    hide Lex, ParseValue, DumpValue, Readable, FloatsOk, Cut;
    var text := DumpValue(io, n, indent) + post;
    if ParseValue(io, Lex(text)) == Parsed(n, Lex(post)) {
      LexWordy(text);
      ValueMakes(io, Lex(text));
      MadeIsGrown(n);
      ValueTextQuotes(io, n, indent);
      LexQuotes(text);
      LexQuotes(post);
      QuotesAppend(DumpValue(io, n, indent), post);
      FaultyValue(io, n, indent, post);
      StainedDiffers(n, n);
    }
  }

  // ---------------------------------------------------------------- quotation marks of printed values

  lemma {:induction false} ValueTextQuotes(io: Doubles, n: Node, indent: nat)
    requires FloatsOk(io, n)
    ensures Quotes(DumpValue(io, n, indent)) == NodeQuotes(n)
    decreases n, 1
  {
    hide Quotes, NoTok, Digits, Cut, DumpItems, DumpLocal;
    OneQuote();
    match n {
      case Int(i) =>
        NoTokDigits(Digits(if i < 0 then -i else i));
        NoTokNoQuotes(IntText(i));
      case Float(f) => NoTokNoQuotes(io.show(f));
      case Bool(b) =>
        TrueFalse();
        NoTokNoQuotes(if b then "true" else "false");
      case Str(s) =>
        QuotesAppend("\"", s);
        QuotesAppend("\"" + s, "\"");
      case Array(items) =>
        Plain();
        ItemsTextQuotes(io, items, true, false, indent);
        QuotesAppend("[", DumpItems(io, items, true, false, indent));
        QuotesAppend("[" + DumpItems(io, items, true, false, indent), "]");
      case Dict(es) =>
        Plain();
        LocalTextQuotes(io, es, true, indent);
        QuotesAppend("{", DumpLocal(io, es, true, indent));
        QuotesAppend("{" + DumpLocal(io, es, true, indent), "}");
    }
  }

  lemma Plain()
    ensures Quotes("[") == Quotes("]") == Quotes("{") == Quotes("}") == 0
    ensures Quotes(", ") == Quotes(" = ") == Quotes("\n") == Quotes("") == 0
  {
    assert "["[1..] == "" && "]"[1..] == "" && "{"[1..] == "" && "}"[1..] == "" && "\n"[1..] == "";
    assert ", "[1..] == " " && " "[1..] == "" && " = "[1..] == "= " && "= "[1..] == " ";
    assert Quotes(" ") == 0 && Quotes("= ") == 0;
  }

  lemma {:induction false} ItemsTextQuotes(io: Doubles, items: seq<Node>, first: bool, returned: bool, indent: nat)
    requires forall i :: 0 <= i < |items| ==> FloatsOk(io, items[i])
    ensures Quotes(DumpItems(io, items, first, returned, indent)) == ItemQuotes(items)
    decreases items, 0
  {
    hide Quotes, DumpValue, NodeQuotes, FloatsOk;
    Plain();
    if items != [] {
      var sep, v := Separator(first, returned, indent), DumpValue(io, items[0], indent + 1);
      SeparatorQuotes(first, returned, indent);
      ValueTextQuotes(io, items[0], indent + 1);
      ItemsTextQuotes(io, items[1..], false, returned || Breaks(items[0]), indent);
      QuotesAppend(sep, v);
      QuotesAppend(sep + v, DumpItems(io, items[1..], false, returned || Breaks(items[0]), indent));
    }
  }

  lemma SeparatorQuotes(first: bool, returned: bool, indent: nat)
    ensures Quotes(Separator(first, returned, indent)) == 0
  {
    hide Quotes;
    Plain();
    Marks();
    QuotesAppend(", ", "\n");
    QuotesAppend(", " + "\n", Spaces(indent + 1));
    NoQuotesInWhite(Spaces(indent + 1));
  }

  lemma {:induction false} LocalTextQuotes(io: Doubles, es: seq<Entry>, first: bool, indent: nat)
    requires forall i :: 0 <= i < |es| ==> FloatsOk(io, es[i].value)
    ensures Quotes(DumpLocal(io, es, first, indent)) == EntryQuotes(es)
    decreases es, 0
  {
    hide Quotes, DumpValue, NodeQuotes, FloatsOk;
    Plain();
    if es != [] {
      var sep, v := if first then "" else ", ", DumpValue(io, es[0].value, indent + |es[0].key| + 3);
      ValueTextQuotes(io, es[0].value, indent + |es[0].key| + 3);
      LocalTextQuotes(io, es[1..], false, indent);
      EntryQuotesSum(sep, es[0].key, v, DumpLocal(io, es[1..], false, indent));
    }
  }

  lemma EntryQuotesSum(sep: string, key: string, v: string, more: string)
    ensures Quotes(sep + key + " = " + v + more) == Quotes(sep) + Quotes(key) + Quotes(v) + Quotes(more)
  {
    hide Quotes;
    Plain();
    QuotesAppend(sep, key);
    QuotesAppend(sep + key, " = ");
    QuotesAppend(sep + key + " = ", v);
    QuotesAppend(sep + key + " = " + v, more);
  }
}
