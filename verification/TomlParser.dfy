/** The TOML parser as it runs over a lexer, and the printer as it appends to streams. */
module TomlParser {
  import opened Options
  import opened ConfigTree
  import opened Numerals
  import opened Lexer
  import opened TomlText
  import opened TomlParse
  import T = Tokenizer

  /** What a parsing method returns or throws. */
  datatype Outcome<+V> = Done(value: V) | Thrown(error: TomlError)

  /** The words after which a value must come. */
  predicate Opener(w: string) { w == "=" || w == "[" || w == "," }

  lemma OpenerIsNoNumber(w: string)
    requires Opener(w)
    ensures Stoi(w) == None
  {}

  lemma SameItems(io: Doubles, a: seq<Lexeme>, b: seq<Lexeme>)
    requires NextWord(a) == NextWord(b)
    ensures ParseItems(io, a, []) == ParseItems(io, b, [])
  {
    hide NextWord, TomlParse.ParseDict, TomlParse.ParseArray, TomlParse.ParseString;
    assert TomlParse.ParseValue(io, a) == TomlParse.ParseValue(io, b);
  }

  /** One round of the loop over a dict's entries. */
  lemma DictStep(io: Doubles, ls: seq<Lexeme>, glob: bool, d: seq<Entry>)
    ensures TomlParse.ParseDict(io, ls, glob, d) ==
      match NextWord(ls)
      case None => if glob then Parsed(Dict(d), []) else Failed(Syntax)
      case Some(name) =>
        if name.0 == "[" then (if glob then Parsed(Dict(d), ls) else Failed(Syntax))
        else
          match NextWord(name.1)
          case None => Failed(Syntax)
          case Some(eq) =>
            if eq.0 != "=" then Failed(Syntax)
            else
              match TomlParse.ParseValue(io, eq.1)
              case Failed(e) => Failed(e)
              case Parsed(v, rest) => AfterEntry(io, rest, glob, Insert(d, name.0, v))
  {
    hide NextWord, TomlParse.ParseValue;
  }

  function AfterEntry(io: Doubles, rest: seq<Lexeme>, glob: bool, d: seq<Entry>): Parsed<Node> {
    if glob then TomlParse.ParseDict(io, rest, true, d)
    else
      match NextWord(rest)
      case None => Failed(Syntax)
      case Some(r) =>
        if r.0 == "}" then Parsed(Dict(d), r.1)
        else if r.0 == "," then TomlParse.ParseDict(io, r.1, false, d)
        else Failed(Syntax)
  }

  /** Cuts a header name at its dots. */
  method Tokenize(str: string) returns (names: seq<string>)
    ensures names == Names(str)
  {
    hide *;
    names := [];
    var data := str;
    var t := DotTokens();
    while data != ""
      invariant names + Names(data) == Names(str)
      decreases |data|
    {
      NamesUnfold(data);
      var res := T.Next(t, data);
      if res.len == 0 { break; }
      if !res.skip {
        assert names + ([data[..res.len]] + Names(data[res.len..])) == names + [data[..res.len]] + Names(data[res.len..]);
        names := names + [data[..res.len]];
      } else {
        assert [] + Names(data[res.len..]) == Names(data[res.len..]);
      }
      data := data[res.len..];
    }
    NamesUnfold(data);
    if data != "" {
      names := names + [UpToNul(data)];
    }
  }

  lemma NamesUnfold(s: string)
    ensures s == "" ==> Names(s) == []
    ensures s != "" ==>
      var r := T.Next(DotTokens(), s);
      && r.len <= |s|
      && Names(s) == if r.len == 0 then [UpToNul(s)] else (if r.skip then [] else [s[..r.len]]) + Names(s[r.len..])
  {
    if s != "" { T.NextIsLongestOrRun(DotTokens(), s); }
  }

  class TomlParser {
    const io: Doubles
    const lex: Lexer

    constructor (io: Doubles, content: string)
      ensures this.io == io && fresh(lex) && lex.Valid() && !lex.eof && lex.cursor == 0
      ensures lex.Rest() == Lex(content)
    {
      this.io := io;
      this.lex := new Lexer(content, TomlTokens());
    }

    /** Going back one word leads to a word after which a value must come, also at the end of the text. */
    ghost predicate Asked()
      reads lex
    {
      && lex.Valid()
      && var log := if lex.eof then lex.rewinders[..|lex.rewinders| - 1] else lex.rewinders;
      && log != []
      && var r := NextWord(lex.Lexemes()[log[|log| - 1]..]);
      && r.Some? && Opener(r.value.0)
    }

    method AssertRead(expected: seq<string>) returns (r: Outcome<Word>)
      requires lex.Valid() && "" !in expected
      modifies lex`cursor, lex`rewinders, lex`eof
      ensures lex.Valid()
      ensures match NextWord(old(lex.Rest()))
        case None => r == Thrown(Syntax)
        case Some(w) =>
          if w.0 in expected then
            && r.Done? && r.value.str == w.0 && lex.Rest() == w.1
            && (Opener(w.0) ==> Asked())
          else r == Thrown(Syntax)
    {
      var next := lex.Next();
      if next.str in expected { return Done(next); }
      return Thrown(Syntax);
    }

    /** Reads the next word if it is an expected one; at the end of the text the read fails as it does elsewhere. */
    method ReadIf(expected: seq<string>) returns (w: Word)
      requires lex.Valid() && "" !in expected
      modifies lex`cursor, lex`rewinders, lex`eof
      ensures lex.Valid() && (old(Asked()) && w.str !in expected ==> Asked())
      ensures match NextWord(old(lex.Rest()))
        case None => w.str == "" && lex.Rest() == []
        case Some(r) =>
          if r.0 in expected then w.str == r.0 && lex.Rest() == r.1
          else w.str == "" && lex.Rest() == old(lex.Rest())
    {
      var next := lex.Next();
      if next.eof { return next; }
      if next.str in expected { return next; }
      lex.Rewind(1);
      return EOF_WORD;
    }

    method ParseInt() returns (r: Outcome<Node>)
      requires lex.Valid()
      modifies lex`cursor, lex`rewinders, lex`eof
      ensures lex.Valid()
      ensures match NextWord(old(lex.Rest()))
        case None => r == Thrown(NotANumber)
        case Some(w) =>
          if Stoi(w.0).Some? then r == Done(Int(Stoi(w.0).value)) && lex.Rest() == w.1 else r == Thrown(NotANumber)
    {
      var l := lex.Next();
      assert Stoi("") == None;
      match Stoi(l.str) {
        case Some(i) => return Done(Int(i));
        case None => return Thrown(NotANumber);
      }
    }

    method ParseFloat() returns (r: Outcome<Node>)
      requires lex.Valid() && NextWord(lex.Rest()).Some?
      modifies lex`cursor, lex`rewinders, lex`eof
      ensures lex.Valid()
      ensures var w := NextWord(old(lex.Rest())).value;
        if io.read(w.0).Some? then r == Done(Float(io.read(w.0).value)) && lex.Rest() == w.1 else r == Thrown(NotANumber)
    {
      var l := lex.Next();
      match io.read(l.str) {
        case Some(f) => return Done(Float(f));
        case None => return Thrown(NotANumber);
      }
    }

    method ParseString(end: Word) returns (r: Outcome<Node>)
      requires lex.Valid()
      modifies lex`cursor, lex`rewinders, lex`eof
      ensures lex.Valid()
      ensures match TomlParse.ParseString(old(lex.Rest()), end.str, false, "")
        case Parsed(v, rest) => r == Done(v) && lex.Rest() == rest
        case Failed(e) => r == Thrown(e)
    {
      var ss := "";
      var escaping := false;
      while true
        invariant lex.Valid()
        invariant TomlParse.ParseString(lex.Rest(), end.str, escaping, ss)
          == TomlParse.ParseString(old(lex.Rest()), end.str, false, "")
        decreases |lex.Rest()|
      {
        var n := lex.DirectNext();
        if n.eof { return Thrown(Syntax); }
        if n.str == end.str && !escaping { return Done(Str(ss)); }
        ss := ss + n.str;
        escaping := !escaping && n.str == "\\";
      }
      assert false;
    }

    method ParseValue() returns (r: Outcome<Node>)
      requires Asked()
      modifies lex`cursor, lex`rewinders, lex`eof
      ensures lex.Valid()
      ensures match TomlParse.ParseValue(io, old(lex.Rest()))
        case Parsed(v, rest) => r == Done(v) && lex.Rest() == rest
        case Failed(e) => r == Thrown(e)
      decreases |lex.Rest()|, 1
    {
      hide NextWord, TomlParse.ParseDict, TomlParse.ParseArray, TomlParse.ParseString, Zip;
      var begin := lex.Next();
      if begin.str == "{" {
        r := ParseDict(false);
      } else if begin.str == "[" {
        r := ParseArray();
      } else if begin.str == "'" || begin.str == "\"" {
        r := ParseString(begin);
      } else if begin.str == "false" {
        r := Done(Bool(false));
      } else if begin.str == "true" {
        r := Done(Bool(true));
      } else {
        lex.Rewind(1);
        if '.' in begin.str {
          r := ParseFloat();
        } else {
          if begin.eof { OpenerIsNoNumber(NextWord(lex.Rest()).value.0); }
          r := ParseInt();
        }
      }
    }

    method ParseArray() returns (r: Outcome<Node>)
      requires Asked()
      modifies lex`cursor, lex`rewinders, lex`eof
      ensures lex.Valid()
      ensures match TomlParse.ParseArray(io, old(lex.Rest()))
        case Parsed(v, rest) => r == Done(v) && lex.Rest() == rest
        case Failed(e) => r == Thrown(e)
      decreases |lex.Rest()|, 3
    {
      hide NextWord, TomlParse.ParseValue, TomlParse.ParseDict, AfterComment, Zip;
      var arr: seq<Node> := [];
      var close := ReadIf(["]"]);
      if close.str != "]" {
        SameItems(io, lex.Rest(), old(lex.Rest()));
        while true
          invariant Asked()
          invariant |lex.Rest()| <= |old(lex.Rest())|
          invariant ParseItems(io, lex.Rest(), arr) == TomlParse.ParseArray(io, old(lex.Rest()))
          decreases |lex.Rest()|
        {
          var value := ParseValue();
          if value.Thrown? { return value; }
          arr := arr + [value.value];
          var next := AssertRead([",", "]"]);
          if next.Thrown? { return Thrown(next.error); }
          if next.value.str == "]" { break; }
        }
      }
      return Done(Array(arr));
    }

    method ParseDict(glob: bool) returns (r: Outcome<Node>)
      requires lex.Valid()
      modifies lex`cursor, lex`rewinders, lex`eof
      ensures lex.Valid()
      ensures match TomlParse.ParseDict(io, old(lex.Rest()), glob, [])
        case Parsed(v, rest) => r == Done(v) && lex.Rest() == rest
        case Failed(e) => r == Thrown(e)
      decreases |lex.Rest()|, 0
    {
      hide NextWord, TomlParse.ParseDict, TomlParse.ParseValue, Insert;
      var d: seq<Entry> := [];
      while true
        invariant lex.Valid() && |lex.Rest()| <= |old(lex.Rest())|
        invariant TomlParse.ParseDict(io, lex.Rest(), glob, d) == TomlParse.ParseDict(io, old(lex.Rest()), glob, [])
        decreases |lex.Rest()|
      {
        DictStep(io, lex.Rest(), glob, d);
        var name := lex.Next();
        if name.eof || name.str == "[" {
          if !glob { return Thrown(Syntax); }
          if !name.eof { lex.Rewind(1); }
          break;
        }
        var eq := AssertRead(["="]);
        if eq.Thrown? { return Thrown(eq.error); }
        var value := ParseValue();
        if value.Thrown? { return value; }
        d := Insert(d, name.str, value.value);
        if !glob {
          var next := AssertRead(["}", ","]);
          if next.Thrown? { return Thrown(next.error); }
          if next.value.str == "}" { break; }
        }
      }
      return Done(Dict(d));
    }

    method ParseGlobal() returns (r: Outcome<Node>)
      requires lex.Valid()
      modifies lex`cursor, lex`rewinders, lex`eof
      ensures lex.Valid()
      ensures match TomlParse.ParseGlobal(io, old(lex.Rest()), [])
        case Parsed(v, rest) => r == Done(v)
        case Failed(e) => r == Thrown(e)
    {
      hide NextWord, TomlParse.ParseValue, TomlParse.ParseDict, InsertAt, Insert, Names, Zip;
      var glob: seq<Entry> := [];
      while true
        invariant lex.Valid()
        invariant TomlParse.ParseGlobal(io, lex.Rest(), glob) == TomlParse.ParseGlobal(io, old(lex.Rest()), [])
        decreases |lex.Rest()|
      {
        var open := ReadIf(["["]);
        if open.str == "[" {
          var name := lex.Next();
          var names := Tokenize(name.str);
          var close := AssertRead(["]"]);
          if close.Thrown? { return Thrown(close.error); }
          var value := ParseDict(true);
          if value.Thrown? { return value; }
          if names == [] { return Thrown(NoName); }
          glob := InsertAt(glob, names, value.value);
        } else {
          var n := lex.Next();
          if n.eof { break; }
          var eq := AssertRead(["="]);
          if eq.Thrown? { return Thrown(eq.error); }
          var value := ParseValue();
          if value.Thrown? { return value; }
          glob := Insert(glob, n.str, value.value);
        }
      }
      return Done(Dict(glob));
    }
  }

  /** Parsing a whole text. */
  method ParseText(io: Doubles, content: string) returns (r: Outcome<Node>)
    ensures match Parse(io, content)
      case Parsed(v, rest) => r == Done(v)
      case Failed(e) => r == Thrown(e)
  {
    var p := new TomlParser(io, content);
    r := p.ParseGlobal();
  }
}
