/** What the TOML parser makes of the words of a text. */
module TomlParse {
  import opened Options
  import opened ConfigTree
  import opened Numerals
  import opened Lexer
  import opened TomlText
  import T = Tokenizer

  /** Why a parse stops: a lexer error, a word that is no number, or a table header without a name. */
  datatype TomlError = Syntax | NotANumber | NoName

  /** A value and the words after it, or the error thrown. */
  datatype Parsed<+V> = Parsed(value: V, rest: seq<Lexeme>) | Failed(error: TomlError)

  // ---------------------------------------------------------------- the tokens

  const TOKEN_CHARS := "[]{}=,'\" \n\t\r#"
  const SKIP_CHARS := " \t\n\r"

  function TomlTokens(): (t: T.Tokens)
    ensures T.TokensOk(t)
  {
    T.Build(T.OneCharTokens(TOKEN_CHARS, T.Flags(false, ""))
            + T.OneCharTokens(SKIP_CHARS, T.Flags(true, ""))
            + [T.Token("#", T.Flags(false, "\n"))])
  }

  function DotTokens(): (t: T.Tokens)
    ensures T.TokensOk(t)
  {
    T.Build(T.OneCharTokens(".", T.Flags(false, "")) + T.OneCharTokens("." + SKIP_CHARS, T.Flags(true, "")))
  }

  /** The names in a table header, cut at the dots. A last name stops at a NUL character. */
  function Names(s: string): seq<string>
    decreases |s|
  {
    if s == "" then []
    else
      T.NextIsLongestOrRun(DotTokens(), s);
      var r := T.Next(DotTokens(), s);
      if r.len == 0 then [UpToNul(s)]
      else (if r.skip then [] else [s[..r.len]]) + Names(s[r.len..])
  }

  function UpToNul(s: string): string {
    if s == "" || s[0] == '\0' then "" else [s[0]] + UpToNul(s[1..])
  }

  // ---------------------------------------------------------------- values

  function ParseValue(io: Doubles, ls: seq<Lexeme>): (p: Parsed<Node>)
    ensures p.Parsed? ==> |p.rest| < |ls|
    decreases |ls|, 1
  {
    match NextWord(ls)
    // The rewind at the end of the text goes back to the word that asked for a value: '=', '[' or
    // ',', and no number is read from those.
    case None => Failed(NotANumber)
    case Some(r) =>
      if r.0 == "{" then ParseDict(io, r.1, false, [])
      else if r.0 == "[" then ParseArray(io, r.1)
      else if r.0 == "'" || r.0 == "\"" then ParseString(r.1, r.0, false, "")
      else if r.0 == "false" then Parsed(Bool(false), r.1)
      else if r.0 == "true" then Parsed(Bool(true), r.1)
      else if '.' in r.0 then
        match io.read(r.0) { case None => Failed(NotANumber) case Some(f) => Parsed(Float(f), r.1) }
      else
        match Stoi(r.0) { case None => Failed(NotANumber) case Some(i) => Parsed(Int(i), r.1) }
  }

  /** Joins the words up to `end`, whatever they are, unless a lone backslash word precedes it. */
  function ParseString(ls: seq<Lexeme>, end: string, escaping: bool, acc: string): (p: Parsed<Node>)
    ensures p.Parsed? ==> |p.rest| < |ls|
  {
    if ls == [] then Failed(Syntax)
    else if ls[0].str == end && !escaping then Parsed(Str(acc), ls[1..])
    else ParseString(ls[1..], end, !escaping && ls[0].str == "\\", acc + ls[0].str)
  }

  function ParseArray(io: Doubles, ls: seq<Lexeme>): (p: Parsed<Node>)
    ensures p.Parsed? ==> |p.rest| < |ls|
    decreases |ls|, 3
  {
    match NextWord(ls)
    case Some(r) => if r.0 == "]" then Parsed(Array([]), r.1) else ParseItems(io, ls, [])
    case None => ParseItems(io, ls, [])
  }

  function ParseItems(io: Doubles, ls: seq<Lexeme>, acc: seq<Node>): (p: Parsed<Node>)
    ensures p.Parsed? ==> |p.rest| < |ls|
    decreases |ls|, 2
  {
    match ParseValue(io, ls)
    case Failed(e) => Failed(e)
    case Parsed(v, rest) =>
      match NextWord(rest)
      case None => Failed(Syntax)
      case Some(r) =>
        if r.0 == "]" then Parsed(Array(acc + [v]), r.1)
        else if r.0 == "," then ParseItems(io, r.1, acc + [v])
        else Failed(Syntax)
  }

  /** A name, an equals sign and a value. */
  function ParseEntry(io: Doubles, ls: seq<Lexeme>): (p: Parsed<Node>)
    ensures p.Parsed? ==> |p.rest| < |ls|
    decreases |ls|, 2
  {
    match NextWord(ls)
    case None => Failed(Syntax)
    case Some(r) => if r.0 == "=" then ParseValue(io, r.1) else Failed(Syntax)
  }

  /** The entries of an inline dict up to the closing brace, or of a table up to the next header. */
  function ParseDict(io: Doubles, ls: seq<Lexeme>, glob: bool, acc: seq<Entry>): (p: Parsed<Node>)
    ensures p.Parsed? ==> |p.rest| <= |ls|
    ensures p.Parsed? && !glob ==> |p.rest| < |ls|
    ensures p.Parsed? ==> p.value.Dict?
    decreases |ls|, 0
  {
    match NextWord(ls)
    case None => if glob then Parsed(Dict(acc), []) else Failed(Syntax)
    case Some(name) =>
      if name.0 == "[" then (if glob then Parsed(Dict(acc), ls) else Failed(Syntax))
      else
        match ParseEntry(io, name.1)
        case Failed(e) => Failed(e)
        case Parsed(v, rest) =>
          var entries := Insert(acc, name.0, v);
          if glob then ParseDict(io, rest, true, entries)
          else
            match NextWord(rest)
            case None => Failed(Syntax)
            case Some(r) =>
              if r.0 == "}" then Parsed(Dict(entries), r.1)
              else if r.0 == "," then ParseDict(io, r.1, false, entries)
              else Failed(Syntax)
  }

  /** Stores a table under a path, through the dicts on the way, which are made where there is none. */
  function InsertAt(es: seq<Entry>, names: seq<string>, value: Node): seq<Entry>
    requires names != []
    decreases |names|
  {
    if |names| == 1 then Insert(es, names[0], value)
    else Insert(es, names[0], Dict(InsertAt(InnerDict(es, names[0]), names[1..], value)))
  }

  function ParseGlobal(io: Doubles, ls: seq<Lexeme>, acc: seq<Entry>): Parsed<Node>
    decreases |ls|
  {
    match NextWord(ls)
    case None => Parsed(Dict(acc), [])
    case Some(r) =>
      if r.0 == "[" then
        match NextWord(r.1)
        case None => Failed(Syntax)
        case Some(name) =>
          match NextWord(name.1)
          case None => Failed(Syntax)
          case Some(close) =>
            if close.0 != "]" then Failed(Syntax)
            else
              match ParseDict(io, close.1, true, [])
              case Failed(e) => Failed(e)
              case Parsed(table, rest) =>
                var names := Names(name.0);
                if names == [] then Failed(NoName)
                else ParseGlobal(io, rest, InsertAt(acc, names, table))
      else
        match ParseEntry(io, r.1)
        case Failed(e) => Failed(e)
        case Parsed(v, rest) => ParseGlobal(io, rest, Insert(acc, r.0, v))
  }

  function Lex(s: string): seq<Lexeme> { Lexed(TomlTokens(), s) }

  function Parse(io: Doubles, text: string): Parsed<Node> { ParseGlobal(io, Lex(text), []) }
}
