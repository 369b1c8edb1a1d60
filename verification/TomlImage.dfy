/** What any parse can give: whatever the text was, the parsed tree has words for keys, 32-bit integers and
    sorted dicts, and it holds no more quotation marks than its text. */
module TomlImage {
  import opened Options
  import opened ConfigTree
  import opened Numerals
  import opened Lexer
  import opened TomlText
  import opened TomlParse
  import opened TomlLex
  import opened TomlValues
  import opened TomlTables
  import T = Tokenizer

  // ---------------------------------------------------------------- words

  predicate WordOk(l: Lexeme) {
    || (|l.str| == 1 && IsTok(l.str[0]) && l == CharLexeme(l.str[0]))
    || (l.str != "" && NoTok(l.str) && !l.skip && l.commentEnd == "")
  }

  predicate Wordy(ls: seq<Lexeme>) { forall i :: 0 <= i < |ls| ==> WordOk(ls[i]) }

  lemma {:induction false} LexWordy(s: string)
    ensures Wordy(Lex(s))
    decreases |s|
  {
    hide Lex, WordOk;
    if s == "" {
      LexEmpty();
    } else if IsTok(s[0]) {
      assert s == [s[0]] + s[1..];
      LexTok(s[0], s[1..]);
      LexWordy(s[1..]);
      CharWordOk(s[0]);
    } else {
      var w, rest := FirstRun(s);
      LexRun(w, rest);
      LexWordy(rest);
      RunWordOk(w);
    }
  }

  lemma CharWordOk(c: char)
    requires IsTok(c)
    ensures WordOk(CharLexeme(c))
  {}

  lemma RunWordOk(w: string)
    requires w != "" && NoTok(w)
    ensures WordOk(Lexeme(w, false, ""))
  {}

  // ---------------------------------------------------------------- quotation marks

  predicate IsQuote(c: char) { c == '"' || c == '\'' }

  function Quotes(s: string): nat {
    if s == "" then 0 else (if IsQuote(s[0]) then 1 else 0) + Quotes(s[1..])
  }

  function WordQuotes(ls: seq<Lexeme>): nat {
    if ls == [] then 0 else Quotes(ls[0].str) + WordQuotes(ls[1..])
  }

  lemma {:induction false} QuotesAppend(a: string, b: string)
    ensures Quotes(a + b) == Quotes(a) + Quotes(b)
  {
    if a == "" { assert a + b == b; } else {
      assert (a + b)[1..] == a[1..] + b;
      QuotesAppend(a[1..], b);
    }
  }

  lemma {:induction false} WordQuotesConcat(ls: seq<Lexeme>)
    ensures WordQuotes(ls) == Quotes(Concat(ls))
  {
    if ls != [] {
      WordQuotesConcat(ls[1..]);
      QuotesAppend(ls[0].str, Concat(ls[1..]));
    }
  }

  lemma LexQuotes(s: string)
    ensures WordQuotes(Lex(s)) == Quotes(s)
  {
    WordQuotesConcat(Lex(s));
    LexedConcat(TomlTokens(), s);
  }

  lemma QuotesAreToks(c: char)
    ensures IsQuote(c) ==> IsTok(c)
  {
    assert TOKEN_CHARS[6] == '\'' && TOKEN_CHARS[7] == '"';
  }

  lemma {:induction false} NoTokNoQuotes(s: string)
    requires NoTok(s)
    ensures Quotes(s) == 0
  {
    if s != "" {
      QuotesAreToks(s[0]);
      NoTokNoQuotes(s[1..]);
    }
  }

  /** The quotation marks a tree needs: two for each string, and those in strings and keys. */
  function NodeQuotes(n: Node): nat
    decreases n, 1
  {
    match n
    case Str(s) => 2 + Quotes(s)
    case Array(items) => ItemQuotes(items)
    case Dict(es) => EntryQuotes(es)
    case _ => 0
  }

  function ItemQuotes(items: seq<Node>): nat
    decreases items, 0
  {
    if items == [] then 0 else NodeQuotes(items[0]) + ItemQuotes(items[1..])
  }

  function EntryQuotes(es: seq<Entry>): nat
    decreases es, 0
  {
    if es == [] then 0 else Quotes(es[0].key) + NodeQuotes(es[0].value) + EntryQuotes(es[1..])
  }

  lemma {:induction false} ItemQuotesAppend(a: seq<Node>, b: seq<Node>)
    ensures ItemQuotes(a + b) == ItemQuotes(a) + ItemQuotes(b)
  {
    if a == [] { assert a + b == b; } else {
      assert (a + b)[1..] == a[1..] + b;
      ItemQuotesAppend(a[1..], b);
    }
  }

  lemma {:induction false} ItemQuotesMore(items: seq<Node>, v: Node)
    ensures ItemQuotes(items + [v]) == ItemQuotes(items) + NodeQuotes(v)
  {
    ItemQuotesAppend(items, [v]);
    assert [v][1..] == [];
  }

  /** What an insertion overrides is lost. */
  function Overridden(es: seq<Entry>, key: string): nat {
    var i := Find(es, key);
    if i < |es| then Quotes(key) + NodeQuotes(es[i].value) else 0
  }

  lemma {:induction false} InsertQuotes(es: seq<Entry>, key: string, v: Node)
    requires Sorted(es)
    ensures EntryQuotes(Insert(es, key, v)) + Overridden(es, key) == EntryQuotes(es) + Quotes(key) + NodeQuotes(v)
  {
    hide NodeQuotes, Quotes;
    if es == [] {
      assert [Entry(key, v)][1..] == [];
    } else if es[0].key == key {
      assert ([Entry(key, v)] + es[1..])[1..] == es[1..];
    } else if Less(key, es[0].key) {
      assert ([Entry(key, v)] + es)[1..] == es;
      NotThere(es, key);
    } else {
      InsertQuotes(es[1..], key, v);
      assert ([es[0]] + Insert(es[1..], key, v))[1..] == Insert(es[1..], key, v);
    }
  }

  lemma NotThere(es: seq<Entry>, key: string)
    requires Sorted(es) && es != [] && Less(key, es[0].key)
    ensures Find(es, key) == |es|
  {
    var i := Find(es, key);
    if i < |es| {
      LessIrreflexive(key);
      if i > 0 { LessTransitive(key, es[0].key, key); }
    }
  }

  // ---------------------------------------------------------------- what the next word can be

  predicate WordKey(w: string) { w != "" && (NoTok(w) || MarkKey(w)) }

  lemma {:induction false} AfterCommentOk(ls: seq<Lexeme>, end: string)
    requires Wordy(ls)
    ensures Wordy(AfterComment(ls, end)) && WordQuotes(AfterComment(ls, end)) <= WordQuotes(ls)
  {
    hide WordOk;
    if ls != [] && ls[0].str != end { AfterCommentOk(ls[1..], end); }
  }

  lemma {:induction false} NextWordOk(ls: seq<Lexeme>)
    requires Wordy(ls) && NextWord(ls).Some?
    ensures var r := NextWord(ls).value;
      WordKey(r.0) && Wordy(r.1) && Quotes(r.0) + WordQuotes(r.1) <= WordQuotes(ls)
    decreases |ls|
  {
    hide WordOk, WordKey;
    if ls[0].skip {
      NextWordOk(ls[1..]);
    } else if ls[0].commentEnd != "" {
      AfterCommentOk(ls[1..], ls[0].commentEnd);
      NextWordOk(AfterComment(ls[1..], ls[0].commentEnd));
    } else {
      FirstWordKey(ls);
    }
  }

  lemma FirstWordKey(ls: seq<Lexeme>)
    requires ls != [] && WordOk(ls[0]) && !ls[0].skip && ls[0].commentEnd == ""
    ensures WordKey(ls[0].str)
  {}

  // ---------------------------------------------------------------- values

  /** What is read as a value. */
  ghost predicate Made(n: Node)
    decreases n
  {
    match n
    case Int(i) => IsInt32(i)
    case Array(items) => forall i :: 0 <= i < |items| ==> Made(items[i])
    case Dict(es) => es != [] && Sorted(es) && forall i :: 0 <= i < |es| ==> KeyOk(es[i].key) && Made(es[i].value)
    case _ => true
  }

  ghost predicate MadeEntries(es: seq<Entry>) {
    Sorted(es) && forall i :: 0 <= i < |es| ==> KeyOk(es[i].key) && Made(es[i].value)
  }

  lemma MadeMore(es: seq<Entry>, key: string, v: Node)
    requires MadeEntries(es) && KeyOk(key) && Made(v)
    ensures MadeEntries(Insert(es, key, v))
    ensures EntryQuotes(Insert(es, key, v)) <= EntryQuotes(es) + Quotes(key) + NodeQuotes(v)
  {
    hide KeyOk, Made, Sorted;
    InsertSorted(es, key, v);
    InsertQuotes(es, key, v);
  }

  lemma WordIsKey(w: string)
    requires WordKey(w) && w != "["
    ensures KeyOk(w)
  {}

  lemma {:induction false} StringMakes(ls: seq<Lexeme>, end: string, escaping: bool, acc: string)
    requires Wordy(ls) && Quotes(end) == 1
    ensures var p := ParseString(ls, end, escaping, acc);
      p.Parsed? ==> p.value.Str? && Wordy(p.rest) && Quotes(p.value.s) + 1 + WordQuotes(p.rest) <= Quotes(acc) + WordQuotes(ls)
    decreases |ls|
  {
    hide WordOk, Quotes;
    if ls != [] && !(ls[0].str == end && !escaping) {
      StringMakes(ls[1..], end, !escaping && ls[0].str == "\\", acc + ls[0].str);
      QuotesAppend(acc, ls[0].str);
    }
  }

  lemma OneQuote()
    ensures Quotes("") == 0 && Quotes("\"") == 1 && Quotes("'") == 1
  {
    assert "\""[1..] == "" && "'"[1..] == "";
    assert "\""[0] == '"' && "'"[0] == '\'';
  }

  /** A parsed value is made of words, and the quotation marks it needs were in the words it is from. */
  ghost predicate Makes(p: Parsed<Node>, ls: seq<Lexeme>, had: nat) {
    p.Parsed? ==> Made(p.value) && Wordy(p.rest) && NodeQuotes(p.value) + WordQuotes(p.rest) <= had + WordQuotes(ls)
  }

  lemma {:induction false} ValueMakes(io: Doubles, ls: seq<Lexeme>)
    requires Wordy(ls)
    ensures Makes(ParseValue(io, ls), ls, 0)
    decreases |ls|, 1
  {
    hide NextWord, Wordy, WordKey, Stoi, Quotes, WordQuotes, ParseDict, ParseArray, ParseString;
    if NextWord(ls).Some? {
      NextWordOk(ls);
      var r := NextWord(ls).value;
      if r.0 == "{" {
        DictMakes(io, r.1, false, []);
      } else if r.0 == "[" {
        ArrayMakes(io, r.1);
      } else if r.0 == "'" || r.0 == "\"" {
        OneQuote();
        StringMakes(r.1, r.0, false, "");
      } else {
        StoiIsInt32(r.0);
      }
    }
  }

  lemma StoiIsInt32(s: string)
    ensures Stoi(s).Some? ==> IsInt32(Stoi(s).value)
  {}

  lemma {:induction false} ArrayMakes(io: Doubles, ls: seq<Lexeme>)
    requires Wordy(ls)
    ensures Makes(ParseArray(io, ls), ls, 0)
    decreases |ls|, 3
  {
    hide NextWord, Wordy, WordKey, Quotes, WordQuotes, ParseItems;
    if NextWord(ls).Some? { NextWordOk(ls); }
    ItemsMake(io, ls, []);
  }

  lemma {:induction false} ItemsMake(io: Doubles, ls: seq<Lexeme>, acc: seq<Node>)
    requires Wordy(ls) && forall i :: 0 <= i < |acc| ==> Made(acc[i])
    ensures var p := ParseItems(io, ls, acc);
      Makes(p, ls, ItemQuotes(acc)) && (p.Parsed? ==> p.value.Array? && |acc| < |p.value.items| && p.value.items[..|acc|] == acc)
    decreases |ls|, 2
  {
    hide NextWord, Wordy, WordKey, Quotes, WordQuotes, ParseValue;
    ValueMakes(io, ls);
    var v := ParseValue(io, ls);
    if v.Parsed? {
      ItemQuotesMore(acc, v.value);
      if NextWord(v.rest).Some? {
        NextWordOk(v.rest);
        var r := NextWord(v.rest).value;
        if r.0 == "," {
          ItemsMake(io, r.1, acc + [v.value]);
          var p := ParseItems(io, r.1, acc + [v.value]);
          if p.Parsed? { assert p.value.items[..|acc|] == p.value.items[..|acc| + 1][..|acc|]; }
        }
      }
    }
  }

  lemma {:induction false} EntryMakes(io: Doubles, ls: seq<Lexeme>)
    requires Wordy(ls)
    ensures Makes(ParseEntry(io, ls), ls, 0)
    decreases |ls|, 2
  {
    hide NextWord, Wordy, WordKey, Quotes, WordQuotes, ParseValue;
    if NextWord(ls).Some? {
      NextWordOk(ls);
      ValueMakes(io, NextWord(ls).value.1);
    }
  }

  ghost predicate DictMade(p: Parsed<Node>, ls: seq<Lexeme>, acc: seq<Entry>) {
    p.Parsed? ==>
      && p.value.Dict? && MadeEntries(p.value.entries) && Wordy(p.rest)
      && EntryQuotes(p.value.entries) + WordQuotes(p.rest) <= EntryQuotes(acc) + WordQuotes(ls)
  }

  lemma {:induction false} DictMakes(io: Doubles, ls: seq<Lexeme>, glob: bool, acc: seq<Entry>)
    requires Wordy(ls) && MadeEntries(acc)
    ensures DictMade(ParseDict(io, ls, glob, acc), ls, acc)
    ensures var p := ParseDict(io, ls, glob, acc); p.Parsed? && !glob ==> p.value.entries != []
    ensures acc == [] && !glob ==> Makes(ParseDict(io, ls, glob, acc), ls, 0)
    decreases |ls|, 0
  {
    hide NextWord, Wordy, WordKey, Quotes, WordQuotes, ParseEntry, KeyOk, MadeEntries, Insert, Made;
    if NextWord(ls).None? {
      NoWords();
    } else {
      NextWordOk(ls);
      var name := NextWord(ls).value;
      if name.0 != "[" {
        WordIsKey(name.0);
        EntryMakes(io, name.1);
        var v := ParseEntry(io, name.1);
        if v.Parsed? {
          MadeMore(acc, name.0, v.value);
          var entries := Insert(acc, name.0, v.value);
          if glob {
            DictMakes(io, v.rest, true, entries);
          } else if NextWord(v.rest).Some? {
            NextWordOk(v.rest);
            DictMakes(io, NextWord(v.rest).value.1, false, entries);
          }
        }
      }
    }
    var p := ParseDict(io, ls, glob, acc);
    if p.Parsed? && !glob && acc == [] { MadeDict(p.value.entries); }
  }

  lemma NoWords()
    ensures Wordy([]) && WordQuotes([]) == 0
  {}

  lemma MadeDict(es: seq<Entry>)
    requires MadeEntries(es) && es != []
    ensures Made(Dict(es)) && NodeQuotes(Dict(es)) == EntryQuotes(es)
  {}
}
