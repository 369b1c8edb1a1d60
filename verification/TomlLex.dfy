/** The words of a TOML text: single token characters, and the runs between them. */
module TomlLex {
  import opened Options
  import opened Lexer
  import opened TomlParse
  import T = Tokenizer

  predicate IsTok(c: char) { c in TOKEN_CHARS }

  predicate IsSkip(c: char) { c in SKIP_CHARS }

  predicate NoTok(s: string) { forall i :: 0 <= i < |s| ==> !IsTok(s[i]) }

  /** A text that can follow a word without growing it. */
  predicate Cut(s: string) { s == "" || IsTok(s[0]) }

  function CharFlags(c: char): T.Flags {
    if c == '#' then T.Flags(false, "\n") else T.Flags(IsSkip(c), "")
  }

  lemma TomlFlags(q: string)
    requires q != ""
    ensures T.FlagsOf(TomlTokens(), q) == if |q| == 1 && IsTok(q[0]) then Some(CharFlags(q[0])) else None
  {
    var a := T.OneCharTokens(TOKEN_CHARS, T.Flags(false, ""));
    var b := T.OneCharTokens(SKIP_CHARS, T.Flags(true, ""));
    var c := [T.Token("#", T.Flags(false, "\n"))];
    T.LastInsertionWins(a + b + c, q);
    T.LastFlagsOfConcat(a + b, c, q);
    T.LastFlagsOfConcat(a, b, q);
    T.OneCharFlags(TOKEN_CHARS, T.Flags(false, ""), q);
    T.OneCharFlags(SKIP_CHARS, T.Flags(true, ""), q);
    assert c[..0] == [];
    assert q == "#" <==> |q| == 1 && q[0] == '#';
  }

  lemma TomlHeads(c: char)
    ensures c in TomlTokens().keyHeads <==> IsTok(c)
  {
    var a := T.OneCharTokens(TOKEN_CHARS, T.Flags(false, ""));
    var b := T.OneCharTokens(SKIP_CHARS, T.Flags(true, ""));
    var ts := a + b + [T.Token("#", T.Flags(false, "\n"))];
    T.HeadsOfBuild(ts, c);
    forall i | 0 <= i < |ts|
      ensures IsTok(ts[i].str[0]) && ts[i].str != ""
    {
      SkipsAreToks();
    }
    if IsTok(c) {
      var i :| 0 <= i < |TOKEN_CHARS| && TOKEN_CHARS[i] == c;
      assert ts[i].str == [c];
    }
  }

  lemma SkipsAreToks()
    ensures forall c :: IsSkip(c) ==> IsTok(c)
  {
    forall c | IsSkip(c)
      ensures IsTok(c)
    {
      assert c == ' ' || c == '\t' || c == '\n' || c == '\r';
      assert TOKEN_CHARS[8] == ' ' && TOKEN_CHARS[9] == '\n' && TOKEN_CHARS[10] == '\t' && TOKEN_CHARS[11] == '\r';
    }
  }

  function CharLexeme(c: char): Lexeme { Lexeme([c], CharFlags(c).skip, CharFlags(c).commentEnd) }

  lemma LexTok(c: char, s: string)
    requires IsTok(c)
    ensures Lex([c] + s) == [CharLexeme(c)] + Lex(s)
  {
    var text := [c] + s;
    T.NextIsLongestOrRun(TomlTokens(), text);
    forall m | 1 <= m <= |text|
      ensures T.FlagsOf(TomlTokens(), text[..m]) == if m == 1 then Some(CharFlags(c)) else None
    {
      TomlFlags(text[..m]);
    }
    assert text[..1] == [c] && text[1..] == s;
    assert T.FlagsOf(TomlTokens(), text[..1]) != None;
  }

  lemma LexRun(w: string, s: string)
    requires w != "" && NoTok(w) && Cut(s)
    ensures Lex(w + s) == [Lexeme(w, false, "")] + Lex(s)
  {
    var text := w + s;
    T.NextIsLongestOrRun(TomlTokens(), text);
    forall m | 1 <= m <= |text|
      ensures T.FlagsOf(TomlTokens(), text[..m]) == None
    {
      TomlFlags(text[..m]);
      assert text[..m][0] == w[0];
    }
    var r := T.Next(TomlTokens(), text);
    var end := if r.len == 0 then |text| else r.len;
    forall k | 0 <= k < |text|
      ensures text[k] in TomlTokens().keyHeads <==> IsTok(text[k])
      ensures k < |w| ==> !IsTok(text[k])
    {
      TomlHeads(text[k]);
    }
    assert end >= |w|;
    if s != "" {
      assert text[|w|] == s[0];
      assert end == |w|;
      assert text[..|w|] == w && text[|w|..] == s;
    } else {
      assert text == w;
    }
  }
}
