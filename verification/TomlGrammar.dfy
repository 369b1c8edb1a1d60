/** The grammar of TOML texts, as forms and how they are spelled. The parser takes exactly the texts that
    spell a form, and gives what the form means. */
module TomlGrammar {
  import opened Options
  import opened ConfigTree
  import opened Numerals
  import opened Lexer
  import opened TomlText
  import opened TomlParse
  import opened TomlLex
  import opened TomlValues
  import opened TomlTables
  import opened TomlExact

  /** The form of a value. Between quotes all words count, elsewhere white space and comments do not. */
  datatype Form =
    | Bare(word: string)
    | Quoted(quote: string, words: seq<Lexeme>)
    | List(items: seq<Form>)
    | Inline(pairs: seq<Pair>)

  datatype Pair = Pair(name: string, form: Form)

  datatype Header = Header(name: string, pairs: seq<Pair>)

  /** A text: values, then tables. */
  datatype Document = Document(pairs: seq<Pair>, tables: seq<Header>)

  // ---------------------------------------------------------------- well-formed

  predicate WellFormed(f: Form)
    decreases f
  {
    match f
    case Bare(w) => w !in ["{", "[", "'", "\""]
    case Quoted(q, words) => q in ["'", "\""] && Unbroken(words, q, false)
    case List(items) => forall i :: 0 <= i < |items| ==> WellFormed(items[i])
    case Inline(pairs) => pairs != [] && forall i :: 0 <= i < |pairs| ==> pairs[i].name != "[" && WellFormed(pairs[i].form)
  }

  predicate PairsOk(pairs: seq<Pair>) {
    forall i :: 0 <= i < |pairs| ==> pairs[i].name != "[" && WellFormed(pairs[i].form)
  }

  predicate DocumentOk(d: Document) {
    PairsOk(d.pairs) && forall i :: 0 <= i < |d.tables| ==> Names(d.tables[i].name) != [] && PairsOk(d.tables[i].pairs)
  }

  // ---------------------------------------------------------------- what forms mean

  function Meaning(io: Doubles, f: Form): Option<Node>
    decreases f, 1
  {
    match f
    case Bare(w) =>
      if w == "false" then Some(Bool(false))
      else if w == "true" then Some(Bool(true))
      else if '.' in w then (match io.read(w) case None => None case Some(x) => Some(Float(x)))
      else (match Stoi(w) case None => None case Some(i) => Some(Int(i)))
    case Quoted(_, words) => Some(Str(Concat(words)))
    case List(items) => (match Meanings(io, items) case None => None case Some(vs) => Some(Array(vs)))
    case Inline(pairs) => (match Gathered(io, [], pairs) case None => None case Some(es) => Some(Dict(es)))
  }

  function Meanings(io: Doubles, items: seq<Form>): (r: Option<seq<Node>>)
    ensures r.Some? ==> |r.value| == |items|
    decreases items, 0
  {
    if items == [] then Some([])
    else
      match (Meaning(io, items[0]), Meanings(io, items[1..]))
      case (Some(v), Some(vs)) => Some([v] + vs)
      case _ => None
  }

  /** Storing values under their names one after the other. */
  function Gathered(io: Doubles, acc: seq<Entry>, pairs: seq<Pair>): Option<seq<Entry>>
    decreases pairs, 0
  {
    if pairs == [] then Some(acc)
    else
      match Meaning(io, pairs[0].form)
      case None => None
      case Some(v) => Gathered(io, Insert(acc, pairs[0].name, v), pairs[1..])
  }

  function GatheredTables(io: Doubles, acc: seq<Entry>, tables: seq<Header>): Option<seq<Entry>>
    requires forall i :: 0 <= i < |tables| ==> Names(tables[i].name) != []
    decreases |tables|
  {
    if tables == [] then Some(acc)
    else
      match Gathered(io, [], tables[0].pairs)
      case None => None
      case Some(es) => GatheredTables(io, InsertAt(acc, Names(tables[0].name), Dict(es)), tables[1..])
  }

  function DocumentMeaning(io: Doubles, d: Document): Option<seq<Entry>>
    requires DocumentOk(d)
  {
    match Gathered(io, [], d.pairs)
    case None => None
    case Some(es) => GatheredTables(io, es, d.tables)
  }

  // ---------------------------------------------------------------- how forms are spelled

  type Spelled = Option<seq<Lexeme>>

  /** The words after `w`, if that is the next word. */
  function Expect(ls: seq<Lexeme>, w: string): Spelled {
    match NextWord(ls)
    case None => None
    case Some(r) => if r.0 == w then Some(r.1) else None
  }

  /** The words after a form, if that is what stands at the start. */
  function AfterForm(ls: seq<Lexeme>, f: Form): Spelled
    decreases f, 1
  {
    match f
    case Bare(w) => Expect(ls, w)
    case Quoted(q, words) =>
      (match Expect(ls, q)
       case None => None
       case Some(r) => if |words| < |r| && r[..|words|] == words && r[|words|].str == q then Some(r[|words| + 1..]) else None)
    case List(items) =>
      (match Expect(ls, "[")
       case None => None
       case Some(r) => AfterItems(r, items))
    case Inline(pairs) =>
      (match Expect(ls, "{")
       case None => None
       case Some(r) => AfterPairs(r, pairs))
  }

  function AfterItems(ls: seq<Lexeme>, items: seq<Form>): Spelled
    decreases items, 0
  {
    if items == [] then Expect(ls, "]")
    else
      match AfterForm(ls, items[0])
      case None => None
      case Some(r) =>
        if |items| == 1 then Expect(r, "]")
        else match Expect(r, ",") { case None => None case Some(r') => AfterItems(r', items[1..]) }
  }

  function AfterPair(ls: seq<Lexeme>, p: Pair): Spelled
    decreases p, 2
  {
    match Expect(ls, p.name)
    case None => None
    case Some(r) => match Expect(r, "=") { case None => None case Some(r') => AfterForm(r', p.form) }
  }

  function AfterPairs(ls: seq<Lexeme>, pairs: seq<Pair>): Spelled
    decreases pairs, 0
  {
    if pairs == [] then None
    else
      match AfterPair(ls, pairs[0])
      case None => None
      case Some(r) =>
        if |pairs| == 1 then Expect(r, "}")
        else match Expect(r, ",") { case None => None case Some(r') => AfterPairs(r', pairs[1..]) }
  }

  /** The lines of a table, or those before all tables. */
  function AfterLines(ls: seq<Lexeme>, pairs: seq<Pair>): Spelled
    decreases |pairs|
  {
    if pairs == [] then Some(ls)
    else match AfterPair(ls, pairs[0]) { case None => None case Some(r) => AfterLines(r, pairs[1..]) }
  }

  function AfterHeader(ls: seq<Lexeme>, name: string): Spelled {
    match Expect(ls, "[")
    case None => None
    case Some(r) => match Expect(r, name) { case None => None case Some(r') => Expect(r', "]") }
  }

  function AfterTables(ls: seq<Lexeme>, tables: seq<Header>): Spelled
    decreases |tables|
  {
    if tables == [] then Some(ls)
    else
      match AfterHeader(ls, tables[0].name)
      case None => None
      case Some(r) =>
        match AfterLines(r, tables[0].pairs)
        case None => None
        case Some(r') => AfterTables(r', tables[1..])
  }

  /** Do these words spell the document, and nothing after it? */
  predicate SpellDocument(ls: seq<Lexeme>, d: Document) {
    match AfterLines(ls, d.pairs)
    case None => false
    case Some(r) =>
      match AfterTables(r, d.tables)
      case None => false
      case Some(r') => NextWord(r') == None
  }

  ghost predicate Spells(io: Doubles, ls: seq<Lexeme>, f: Form, v: Node, rest: seq<Lexeme>) {
    WellFormed(f) && Meaning(io, f) == Some(v) && AfterForm(ls, f) == Some(rest)
  }

  // ---------------------------------------------------------------- every spelled form is read

  lemma {:induction false} ScanQuoted(words: seq<Lexeme>, q: Lexeme, rest: seq<Lexeme>, escaping: bool, acc: string)
    requires Unbroken(words, q.str, escaping)
    ensures ParseString(words + [q] + rest, q.str, escaping, acc) == Parsed(Str(acc + Concat(words)), rest)
  {
    var all := words + [q] + rest;
    if words == [] {
      assert all[0] == q && all[1..] == rest;
      assert acc + "" == acc;
    } else {
      assert all[0] == words[0] && all[1..] == words[1..] + [q] + rest;
      ScanQuoted(words[1..], q, rest, !escaping && words[0].str == "\\", acc + words[0].str);
      assert acc + words[0].str + Concat(words[1..]) == acc + Concat(words);
    }
  }

  /** No value is spelled by a closing bracket. */
  lemma NoCloserForm(io: Doubles, ls: seq<Lexeme>, f: Form)
    requires WellFormed(f) && Meaning(io, f).Some? && AfterForm(ls, f).Some?
    ensures NextWord(ls).Some? && NextWord(ls).value.0 != "]"
  {
    hide NextWord;
    assert Stoi("]") == None;
  }

  lemma {:induction false} FormIsRead(io: Doubles, ls: seq<Lexeme>, f: Form, v: Node, rest: seq<Lexeme>)
    requires Spells(io, ls, f, v, rest)
    ensures ParseValue(io, ls) == Parsed(v, rest)
    decreases f, 2
  {
    hide NextWord, Unbroken, ParseItems, ParseString, Stoi;
    match f
    case Bare(w) =>
    case Quoted(q, words) =>
      var r, n := NextWord(ls).value.1, |words|;
      assert r == r[..n] + [r[n]] + r[n + 1..];
      ScanQuoted(words, r[n], r[n + 1..], false, "");
      assert "" + Concat(words) == Concat(words);
    case List(items) =>
      var r := NextWord(ls).value.1;
      if items != [] {
        NoCloserForm(io, r, items[0]) by { FirstItem(io, r, items); }
        ItemsAreRead(io, r, items, [], v.items, rest);
        assert [] + v.items == v.items;
      }
    case Inline(pairs) =>
      PairsAreRead(io, NextWord(ls).value.1, pairs, [], v.entries, rest);
  }

  lemma FirstItem(io: Doubles, ls: seq<Lexeme>, items: seq<Form>)
    requires items != [] && Meanings(io, items).Some? && AfterItems(ls, items).Some?
    ensures Meaning(io, items[0]).Some? && AfterForm(ls, items[0]).Some?
  {}

  lemma {:induction false} ItemsAreRead(io: Doubles, ls: seq<Lexeme>, items: seq<Form>, acc: seq<Node>, vs: seq<Node>, rest: seq<Lexeme>)
    requires items != [] && (forall i :: 0 <= i < |items| ==> WellFormed(items[i]))
    requires Meanings(io, items) == Some(vs) && AfterItems(ls, items) == Some(rest)
    ensures ParseItems(io, ls, acc) == Parsed(Array(acc + vs), rest)
    decreases items, 1
  {
    hide NextWord, ParseValue, WellFormed;
    var r := AfterForm(ls, items[0]).value;
    FormIsRead(io, ls, items[0], vs[0], r);
    if |items| == 1 {
      assert items[1..] == [] && vs == [vs[0]];
    } else {
      ItemsAreRead(io, Expect(r, ",").value, items[1..], acc + [vs[0]], vs[1..], rest);
      assert acc + [vs[0]] + vs[1..] == acc + vs;
    }
  }

  /** A name, an equals sign and a form. */
  lemma {:induction false} PairIsRead(io: Doubles, ls: seq<Lexeme>, p: Pair)
    requires WellFormed(p.form) && Meaning(io, p.form).Some? && AfterPair(ls, p).Some?
    ensures NextWord(ls).Some? && NextWord(ls).value.0 == p.name
    ensures ParseEntry(io, NextWord(ls).value.1) == Parsed(Meaning(io, p.form).value, AfterPair(ls, p).value)
    decreases p, 3
  {
    hide NextWord, ParseValue, WellFormed, Meaning, AfterForm;
    var r := Expect(NextWord(ls).value.1, "=").value;
    FormIsRead(io, r, p.form, Meaning(io, p.form).value, AfterForm(r, p.form).value);
  }

  lemma NothingGathered(io: Doubles, es: seq<Entry>)
    ensures Gathered(io, es, []) == Some(es)
  {}

  lemma {:induction false} PairsAreRead(io: Doubles, ls: seq<Lexeme>, pairs: seq<Pair>, acc: seq<Entry>, es: seq<Entry>, rest: seq<Lexeme>)
    requires PairsOk(pairs) && Gathered(io, acc, pairs) == Some(es) && AfterPairs(ls, pairs) == Some(rest)
    ensures ParseDict(io, ls, false, acc) == Parsed(Dict(es), rest)
    decreases pairs, 1
  {
    hide NextWord, ParseEntry, WellFormed, Meaning, AfterPair, Insert;
    var p := pairs[0];
    var r := AfterPair(ls, p).value;
    PairIsRead(io, ls, p);
    var now := Insert(acc, p.name, Meaning(io, p.form).value);
    if |pairs| == 1 {
      assert pairs[1..] == [];
      NothingGathered(io, now);
    } else {
      PairsAreRead(io, Expect(r, ",").value, pairs[1..], now, es, rest);
    }
  }

  // ---------------------------------------------------------------- everything read was spelled

  lemma {:induction false} QuotedWords(ls: seq<Lexeme>, q: string, escaping: bool, acc: string) returns (words: seq<Lexeme>)
    requires ParseString(ls, q, escaping, acc).Parsed?
    ensures |words| < |ls| && ls[..|words|] == words && ls[|words|].str == q && Unbroken(words, q, escaping)
    ensures ParseString(ls, q, escaping, acc) == Parsed(Str(acc + Concat(words)), ls[|words| + 1..])
  {
    if ls[0].str == q && !escaping {
      words := [];
      assert acc + "" == acc;
    } else {
      var more := QuotedWords(ls[1..], q, !escaping && ls[0].str == "\\", acc + ls[0].str);
      words := [ls[0]] + more;
      assert words[1..] == more;
      assert acc + ls[0].str + Concat(more) == acc + Concat(words);
    }
  }

  lemma {:induction false} FormRead(io: Doubles, ls: seq<Lexeme>) returns (f: Form)
    requires ParseValue(io, ls).Parsed?
    ensures Spells(io, ls, f, ParseValue(io, ls).value, ParseValue(io, ls).rest)
    decreases |ls|, 1
  {
    hide NextWord, Unbroken, ParseItems, ParseString, Stoi, ParseDict;
    var r := NextWord(ls).value;
    if r.0 == "{" {
      var pairs := PairsRead(io, r.1, []);
      f := Inline(pairs);
    } else if r.0 == "[" {
      if NextWord(r.1).Some? && NextWord(r.1).value.0 == "]" {
        f := List([]);
      } else {
        var items := ItemsRead(io, r.1, []);
        f := List(items);
        assert [] + Meanings(io, items).value == Meanings(io, items).value;
      }
    } else if r.0 == "'" || r.0 == "\"" {
      var words := QuotedWords(r.1, r.0, false, "");
      f := Quoted(r.0, words);
      assert "" + Concat(words) == Concat(words);
    } else {
      f := Bare(r.0);
    }
  }

  lemma OneMeaning(io: Doubles, f: Form, v: Node)
    requires Meaning(io, f) == Some(v)
    ensures Meanings(io, [f]) == Some([v])
  {
    hide Meaning;
    var fs, vs := [f], [v];
    assert fs[1..] == [] && Meanings(io, []) == Some([]);
    assert fs[0] == f && Meanings(io, fs) == Some([v] + []);
    assert [v] + [] == vs;
  }

  lemma {:induction false} ItemsRead(io: Doubles, ls: seq<Lexeme>, acc: seq<Node>) returns (items: seq<Form>)
    requires ParseItems(io, ls, acc).Parsed?
    ensures items != [] && forall i :: 0 <= i < |items| ==> WellFormed(items[i])
    ensures Meanings(io, items).Some? && ParseItems(io, ls, acc).value == Array(acc + Meanings(io, items).value)
    ensures AfterItems(ls, items) == Some(ParseItems(io, ls, acc).rest)
    decreases |ls|, 2
  {
    hide NextWord, ParseValue, WellFormed;
    var f := FormRead(io, ls);
    var p := ParseValue(io, ls);
    var r := NextWord(p.rest).value;
    if r.0 == "]" {
      items := [f];
      OneMeaning(io, f, p.value);
    } else {
      var more := ItemsRead(io, r.1, acc + [p.value]);
      items := [f] + more;
      assert items[1..] == more;
      assert acc + [p.value] + Meanings(io, more).value == acc + Meanings(io, items).value;
    }
  }

  lemma {:induction false} PairRead(io: Doubles, ls: seq<Lexeme>) returns (p: Pair)
    requires NextWord(ls).Some? && ParseEntry(io, NextWord(ls).value.1).Parsed?
    ensures var e := ParseEntry(io, NextWord(ls).value.1);
      && p.name == NextWord(ls).value.0 && WellFormed(p.form) && Meaning(io, p.form) == Some(e.value)
      && AfterPair(ls, p) == Some(e.rest)
    decreases |ls|, 2
  {
    hide NextWord, ParseValue, WellFormed, Meaning, AfterForm;
    var r := NextWord(ls).value.1;
    var f := FormRead(io, NextWord(r).value.1);
    p := Pair(NextWord(ls).value.0, f);
  }

  lemma {:induction false} PairsRead(io: Doubles, ls: seq<Lexeme>, acc: seq<Entry>) returns (pairs: seq<Pair>)
    requires ParseDict(io, ls, false, acc).Parsed?
    ensures var d := ParseDict(io, ls, false, acc);
      && pairs != [] && PairsOk(pairs) && Gathered(io, acc, pairs) == Some(d.value.entries)
      && AfterPairs(ls, pairs) == Some(d.rest)
    decreases |ls|, 3
  {
    hide NextWord, ParseEntry, WellFormed, Meaning, AfterPair, Insert;
    var p := PairRead(io, ls);
    var e := ParseEntry(io, NextWord(ls).value.1);
    var r := NextWord(e.rest).value;
    var now := Insert(acc, p.name, e.value);
    if r.0 == "}" {
      pairs := [p];
      assert pairs[1..] == [];
      NothingGathered(io, now);
    } else {
      var more := PairsRead(io, r.1, now);
      pairs := [p] + more;
      assert pairs[1..] == more;
    }
  }

  /** The parser reads a value exactly if the words spell a form that means it. */
  lemma ValueIsSpelled(io: Doubles, ls: seq<Lexeme>, v: Node, rest: seq<Lexeme>)
    ensures ParseValue(io, ls) == Parsed(v, rest) <==> exists f :: Spells(io, ls, f, v, rest)
  {
    hide ParseValue, Spells;
    if ParseValue(io, ls) == Parsed(v, rest) {
      var f := FormRead(io, ls);
    }
    forall f | Spells(io, ls, f, v, rest)
      ensures ParseValue(io, ls) == Parsed(v, rest)
    {
      FormIsRead(io, ls, f, v, rest);
    }
  }

  // ---------------------------------------------------------------- whole texts

  predicate TableEnds(ls: seq<Lexeme>) { NextWord(ls) == None || NextWord(ls).value.0 == "[" }

  lemma {:induction false} LinesAreRead(io: Doubles, ls: seq<Lexeme>, pairs: seq<Pair>, acc: seq<Entry>, es: seq<Entry>, rest: seq<Lexeme>)
    requires PairsOk(pairs) && Gathered(io, acc, pairs) == Some(es) && AfterLines(ls, pairs) == Some(rest) && TableEnds(rest)
    ensures var d := ParseDict(io, ls, true, acc);
      d.Parsed? && d.value == Dict(es) && NextWord(d.rest) == NextWord(rest)
    decreases |pairs|
  {
    hide NextWord, ParseEntry, WellFormed, Meaning, AfterPair, Insert;
    if pairs == [] {
      NothingLeft();
    } else {
      PairIsRead(io, ls, pairs[0]);
      LinesAreRead(io, AfterPair(ls, pairs[0]).value, pairs[1..], Insert(acc, pairs[0].name, Meaning(io, pairs[0].form).value), es, rest);
    }
  }

  lemma {:induction false} TablesAreRead(io: Doubles, ls: seq<Lexeme>, ls': seq<Lexeme>, tables: seq<Header>, acc: seq<Entry>, es: seq<Entry>)
    requires NextWord(ls) == NextWord(ls')
    requires forall i :: 0 <= i < |tables| ==> Names(tables[i].name) != [] && PairsOk(tables[i].pairs)
    requires GatheredTables(io, acc, tables) == Some(es)
    requires AfterTables(ls', tables).Some? && NextWord(AfterTables(ls', tables).value) == None
    ensures ParseGlobal(io, ls, acc) == Parsed(Dict(es), [])
    decreases |tables|
  {
    hide NextWord, ParseDict, AfterLines, PairsOk, Insert, InsertAt, Names, Gathered, ParseEntry;
    if tables != [] {
      var t := tables[0];
      var r := AfterHeader(ls', t.name).value;
      var r' := AfterLines(r, t.pairs).value;
      TablesEnd(r', tables[1..]);
      var inner := Gathered(io, [], t.pairs).value;
      LinesAreRead(io, r, t.pairs, [], inner, r');
      TablesAreRead(io, ParseDict(io, r, true, []).rest, r', tables[1..], InsertAt(acc, Names(t.name), Dict(inner)), es);
    }
  }

  lemma TablesEnd(ls: seq<Lexeme>, tables: seq<Header>)
    requires AfterTables(ls, tables).Some? && NextWord(AfterTables(ls, tables).value) == None
    ensures TableEnds(ls)
  {
    hide NextWord, AfterLines;
  }

  lemma {:induction false} DocumentIsRead(io: Doubles, ls: seq<Lexeme>, pairs: seq<Pair>, tables: seq<Header>, acc: seq<Entry>, mid: seq<Entry>,
                                          es: seq<Entry>)
    requires DocumentOk(Document(pairs, tables)) && SpellDocument(ls, Document(pairs, tables))
    requires Gathered(io, acc, pairs) == Some(mid) && GatheredTables(io, mid, tables) == Some(es)
    ensures ParseGlobal(io, ls, acc) == Parsed(Dict(es), [])
    decreases |pairs|
  {
    hide NextWord, ParseEntry, ParseDict, WellFormed, Meaning, AfterPair, Insert, AfterTables, GatheredTables, Names;
    if pairs == [] {
      TablesAreRead(io, ls, ls, tables, acc, es);
    } else {
      PairIsRead(io, ls, pairs[0]);
      var now := Insert(acc, pairs[0].name, Meaning(io, pairs[0].form).value);
      DocumentIsRead(io, AfterPair(ls, pairs[0]).value, pairs[1..], tables, now, mid, es);
    }
  }

  lemma {:induction false} LinesRead(io: Doubles, ls: seq<Lexeme>, acc: seq<Entry>) returns (pairs: seq<Pair>)
    requires ParseDict(io, ls, true, acc).Parsed?
    ensures var d := ParseDict(io, ls, true, acc);
      && PairsOk(pairs) && Gathered(io, acc, pairs) == Some(d.value.entries) && AfterLines(ls, pairs).Some?
      && NextWord(AfterLines(ls, pairs).value) == NextWord(d.rest) && TableEnds(d.rest)
    decreases |ls|
  {
    hide NextWord, ParseEntry, WellFormed, Meaning, AfterPair, Insert;
    if NextWord(ls) == None || NextWord(ls).value.0 == "[" {
      pairs := [];
      NothingLeft();
    } else {
      var p := PairRead(io, ls);
      var e := ParseEntry(io, NextWord(ls).value.1);
      var more := LinesRead(io, e.rest, Insert(acc, p.name, e.value));
      pairs := [p] + more;
      assert pairs[1..] == more;
    }
  }

  lemma {:induction false} HeadersRead(io: Doubles, ls: seq<Lexeme>, ls': seq<Lexeme>, acc: seq<Entry>) returns (tables: seq<Header>)
    requires NextWord(ls) == NextWord(ls') && TableEnds(ls) && ParseGlobal(io, ls, acc).Parsed?
    ensures forall i :: 0 <= i < |tables| ==> Names(tables[i].name) != [] && PairsOk(tables[i].pairs)
    ensures AfterTables(ls', tables).Some? && NextWord(AfterTables(ls', tables).value) == None
    ensures var p := ParseGlobal(io, ls, acc); p.value.Dict? && GatheredTables(io, acc, tables) == Some(p.value.entries)
    decreases |ls|
  {
    hide NextWord, ParseDict, ParseEntry, AfterLines, PairsOk, Insert, InsertAt, Names, Gathered;
    if NextWord(ls) == None {
      tables := [];
    } else {
      var name := NextWord(NextWord(ls).value.1).value;
      var r := NextWord(name.1).value.1;
      var lines := LinesRead(io, r, []);
      var d := ParseDict(io, r, true, []);
      var more := HeadersRead(io, d.rest, AfterLines(r, lines).value, InsertAt(acc, Names(name.0), d.value));
      tables := [Header(name.0, lines)] + more;
      assert tables[1..] == more;
    }
  }

  lemma {:induction false} DocumentRead(io: Doubles, ls: seq<Lexeme>, acc: seq<Entry>) returns (pairs: seq<Pair>, tables: seq<Header>)
    requires ParseGlobal(io, ls, acc).Parsed?
    ensures DocumentOk(Document(pairs, tables)) && SpellDocument(ls, Document(pairs, tables))
    ensures Gathered(io, acc, pairs).Some? && ParseGlobal(io, ls, acc).value.Dict?
    ensures GatheredTables(io, Gathered(io, acc, pairs).value, tables) == Some(ParseGlobal(io, ls, acc).value.entries)
    decreases |ls|
  {
    hide NextWord, ParseEntry, ParseDict, WellFormed, Meaning, AfterPair, Insert, AfterTables, GatheredTables, Names;
    if TableEnds(ls) {
      pairs := [];
      tables := HeadersRead(io, ls, ls, acc);
    } else {
      var p := PairRead(io, ls);
      var e := ParseEntry(io, NextWord(ls).value.1);
      var more, ts := DocumentRead(io, e.rest, Insert(acc, p.name, e.value));
      pairs, tables := [p] + more, ts;
      assert pairs[1..] == more;
    }
  }

  /** Do the words spell a document that means `root`? */
  ghost predicate Denotes(io: Doubles, ls: seq<Lexeme>, d: Document, root: seq<Entry>) {
    DocumentOk(d) && SpellDocument(ls, d) && DocumentMeaning(io, d) == Some(root)
  }

  /** The parser accepts exactly the texts that spell a document, and gives what the document means. */
  lemma TextIsSpelled(io: Doubles, text: string, root: seq<Entry>)
    ensures Parse(io, text) == Parsed(Dict(root), []) <==> exists d :: Denotes(io, Lex(text), d, root)
  {
    hide Lex, ParseGlobal, SpellDocument, DocumentOk, Gathered, GatheredTables;
    var ls := Lex(text);
    if Parse(io, text) == Parsed(Dict(root), []) {
      var pairs, tables := DocumentRead(io, ls, []);
      assert Denotes(io, ls, Document(pairs, tables), root);
    }
    forall d | Denotes(io, ls, d, root)
      ensures Parse(io, text) == Parsed(Dict(root), [])
    {
      DocumentIsRead(io, ls, d.pairs, d.tables, [], Gathered(io, [], d.pairs).value, root);
    }
  }

  /** Any other text is an error. */
  lemma OthersFail(io: Doubles, text: string)
    ensures Parse(io, text).Failed? <==> forall d, root :: !Denotes(io, Lex(text), d, root)
  {
    hide Lex, ParseGlobal, Denotes;
    if Parse(io, text).Parsed? {
      NoRest(io, text);
      TextIsSpelled(io, text, Parse(io, text).value.entries);
    }
    forall d, root | Denotes(io, Lex(text), d, root)
      ensures Parse(io, text).Parsed?
    {
      TextIsSpelled(io, text, root);
    }
  }
}
