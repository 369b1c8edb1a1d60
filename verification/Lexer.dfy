/** The lexer: a text cut into words once, then read through a cursor that can be rewound. */
module Lexer {
  import opened Options
  import opened Tokenizer

  /** A word of the text with the flags of the token it is. */
  datatype Lexeme = Lexeme(str: string, skip: bool, commentEnd: string)

  datatype Word = Word(str: string, line: nat, col: nat, eof: bool)

  const EOF_WORD := Word("", 0, 0, true)

  /** The words of a text; a rest without any token head is one last word. */
  function Lexed(t: Tokens, s: string): (ls: seq<Lexeme>)
    requires TokensOk(t)
    decreases |s|
  {
    if s == "" then []
    else
      NextIsLongestOrRun(t, s);
      var r := Next(t, s);
      if r.len == 0 then [Lexeme(s, false, "")]
      else [Lexeme(s[..r.len], r.skip, r.commentEnd)] + Lexed(t, s[r.len..])
  }

  function Concat(ls: seq<Lexeme>): string {
    if ls == [] then "" else ls[0].str + Concat(ls[1..])
  }

  /** Lexer is lossless. */
  lemma {:induction false} LexedConcat(t: Tokens, s: string)
    requires TokensOk(t)
    ensures Concat(Lexed(t, s)) == s
    decreases |s|
  {
    hide Next, FlagsOf, TokensOk;
    if s != "" {
      NextIsLongestOrRun(t, s);
      var r := Next(t, s);
      if r.len == 0 {
        assert [Lexeme(s, false, "")][1..] == [];
      } else {
        LexedConcat(t, s[r.len..]);
        assert ([Lexeme(s[..r.len], r.skip, r.commentEnd)] + Lexed(t, s[r.len..]))[1..] == Lexed(t, s[r.len..]);
      }
    }
  }

  lemma {:induction false} LexedNonEmpty(t: Tokens, s: string)
    requires TokensOk(t)
    ensures forall l :: l in Lexed(t, s) ==> l.str != ""
    decreases |s|
  {
    if s != "" {
      NextIsLongestOrRun(t, s);
      var r := Next(t, s);
      if r.len != 0 { LexedNonEmpty(t, s[r.len..]); }
    }
  }

  // ---------------------------------------------------------------- positions

  datatype Position = Position(line: nat, col: nat)

  /** How the lexer moves its position over a word. */
  function After(p: Position, word: string): Position {
    if word != "" && word[0] == '\n' then Position(p.line + 1, 1) else Position(p.line, p.col + |word|)
  }

  function Positions(ls: seq<Lexeme>, p: Position): (ps: seq<Position>)
    ensures |ps| == |ls|
  {
    if ls == [] then [] else [p] + Positions(ls[1..], After(p, ls[0].str))
  }

  /** The true position after a text: one line per newline, one column per character since the last. */
  function PositionAfter(s: string): Position {
    if s == "" then Position(1, 1)
    else
      var p := PositionAfter(s[..|s| - 1]);
      if s[|s| - 1] == '\n' then Position(p.line + 1, 1) else Position(p.line, p.col + 1)
  }

  ghost predicate OneNewline(word: string) {
    word == "\n" || '\n' !in word
  }

  lemma {:induction false} PositionAfterWord(s: string, word: string)
    requires OneNewline(word)
    ensures PositionAfter(s + word) == After(PositionAfter(s), word)
  {
    if word == "" {
      assert s + word == s;
    } else {
      assert (s + word)[..|s + word| - 1] == s + word[..|word| - 1];
      if word != "\n" {
        PositionAfterWord(s, word[..|word| - 1]);
      } else {
        assert s + word[..0] == s;
      }
    }
  }

  /** The text before the `i`-th word. */
  function Before(ls: seq<Lexeme>, i: nat): string
    requires i <= |ls|
  {
    Concat(ls[..i])
  }

  lemma {:induction false} PositionsAreTrue(ls: seq<Lexeme>, s: string, i: nat)
    requires i < |ls|
    requires forall l :: l in ls ==> OneNewline(l.str)
    ensures Positions(ls, PositionAfter(s))[i] == PositionAfter(s + Before(ls, i))
    decreases i
  {
    hide PositionAfter, After, OneNewline, Before;
    BeforeStep(ls, i);
    if i == 0 {
      assert s + "" == s;
    } else {
      PositionAfterWord(s, ls[0].str);
      PositionsAreTrue(ls[1..], s + ls[0].str, i - 1);
      assert s + ls[0].str + Before(ls[1..], i - 1) == s + (ls[0].str + Before(ls[1..], i - 1));
    }
  }

  lemma BeforeStep(ls: seq<Lexeme>, i: nat)
    requires i < |ls|
    ensures Before(ls, i) == if i == 0 then "" else ls[0].str + Before(ls[1..], i - 1)
  {
    if i > 0 { assert ls[..i][1..] == ls[1..][..i - 1]; }
  }

  /** If "\n" is a token and no longer token contains a newline, no word hides one. */
  lemma {:induction false} WordsHaveOneNewline(t: Tokens, s: string)
    requires TokensOk(t) && FlagsOf(t, "\n") != None && '\n' in t.keyHeads
    requires forall q :: FlagsOf(t, q) != None ==> OneNewline(q)
    ensures forall l :: l in Lexed(t, s) ==> OneNewline(l.str)
    decreases |s|
  {
    if s != "" {
      NextIsLongestOrRun(t, s);
      var r := Next(t, s);
      if s[0] == '\n' { assert s[..1] == "\n"; }
      if r.len != 0 { WordsHaveOneNewline(t, s[r.len..]); }
    }
  }

  // ---------------------------------------------------------------- reading words

  /** The words after the end of a comment. */
  function AfterComment(ls: seq<Lexeme>, end: string): (r: seq<Lexeme>)
    ensures |r| <= |ls|
  {
    if ls == [] then [] else if ls[0].str == end then ls[1..] else AfterComment(ls[1..], end)
  }

  /** A comment ends with the first word that closes it; one that is never closed takes all words. */
  lemma {:induction false} CommentEndsAtFirst(ls: seq<Lexeme>, end: string, i: nat)
    requires i <= |ls| && (forall k :: 0 <= k < i ==> ls[k].str != end) && (i < |ls| ==> ls[i].str == end)
    ensures AfterComment(ls, end) == if i < |ls| then ls[i + 1..] else []
  {
    if i > 0 { CommentEndsAtFirst(ls[1..], end, i - 1); }
  }

  /** The next word that is neither skipped nor in a comment, and the words after it. */
  function NextWord(ls: seq<Lexeme>): (r: Option<(string, seq<Lexeme>)>)
    ensures r.Some? ==> |r.value.1| < |ls|
    decreases |ls|
  {
    if ls == [] then None
    else if ls[0].skip then NextWord(ls[1..])
    else if ls[0].commentEnd != "" then NextWord(AfterComment(ls[1..], ls[0].commentEnd))
    else Some((ls[0].str, ls[1..]))
  }

  /** The words and their infos as the lexer stores them. */
  function WordsOf(ls: seq<Lexeme>, p: Position): (ws: seq<Word>)
    ensures |ws| == |ls|
  {
    if ls == [] then []
    else [Word(ls[0].str, p.line, p.col, false)] + WordsOf(ls[1..], After(p, ls[0].str))
  }

  function InfosOf(ls: seq<Lexeme>): (infos: seq<TokenResult>)
    ensures |infos| == |ls|
  {
    if ls == [] then []
    else [TokenResult(|ls[0].str|, ls[0].skip, ls[0].commentEnd)] + InfosOf(ls[1..])
  }

  lemma {:induction false} StoredAt(ls: seq<Lexeme>, p: Position, i: nat)
    requires i < |ls|
    ensures WordsOf(ls, p)[i] == Word(ls[i].str, Positions(ls, p)[i].line, Positions(ls, p)[i].col, false)
    ensures InfosOf(ls)[i] == TokenResult(|ls[i].str|, ls[i].skip, ls[i].commentEnd)
    decreases i
  {
    if i > 0 { StoredAt(ls[1..], After(p, ls[0].str), i - 1); }
  }

  /** Where the lexer says a word is, it is. */
  lemma WordsAreWhereTheySay(ls: seq<Lexeme>, i: nat)
    requires i < |ls| && forall l :: l in ls ==> OneNewline(l.str)
    ensures WordsOf(ls, START)[i].line == PositionAfter(Before(ls, i)).line
    ensures WordsOf(ls, START)[i].col == PositionAfter(Before(ls, i)).col
  {
    hide Before, OneNewline, WordsOf, Positions;
    assert PositionAfter("") == START;
    StoredAt(ls, START, i);
    PositionsAreTrue(ls, "", i);
    assert "" + Before(ls, i) == Before(ls, i);
  }

  function Zip(words: seq<Word>, infos: seq<TokenResult>): (ls: seq<Lexeme>)
    requires |words| == |infos|
    ensures |ls| == |words|
  {
    seq(|words|, i requires 0 <= i < |words| => Lexeme(words[i].str, infos[i].skip, infos[i].commentEnd))
  }

  lemma ZipStored(ls: seq<Lexeme>, p: Position)
    ensures Zip(WordsOf(ls, p), InfosOf(ls)) == ls
  {
    forall i | 0 <= i < |ls|
      ensures Zip(WordsOf(ls, p), InfosOf(ls))[i] == ls[i]
    {
      StoredAt(ls, p, i);
    }
  }

  /** Cutting off one word and storing it. */
  lemma StoreStep(t: Tokens, s: string, p: Position)
    requires TokensOk(t) && s != ""
    ensures var r := Next(t, s);
      && r.len <= |s|
      && (r.len != 0 ==>
            var rest := Lexed(t, s[r.len..]);
            && WordsOf(Lexed(t, s), p) == [Word(s[..r.len], p.line, p.col, false)] + WordsOf(rest, After(p, s[..r.len]))
            && InfosOf(Lexed(t, s)) == [r] + InfosOf(rest))
      && (r.len == 0 ==>
            && WordsOf(Lexed(t, s), p) == [Word(s, p.line, p.col, false)]
            && InfosOf(Lexed(t, s)) == [TokenResult(|s|, false, "")])
  {
    NextIsLongestOrRun(t, s);
    var r := Next(t, s);
    if r.len != 0 {
      assert Lexed(t, s)[1..] == Lexed(t, s[r.len..]);
    }
  }

  lemma LexedOfNothing(t: Tokens, p: Position)
    requires TokensOk(t)
    ensures WordsOf(Lexed(t, ""), p) == [] && InfosOf(Lexed(t, "")) == []
  {}

  const START := Position(1, 1)

  lemma MoveOne<T>(done: seq<T>, x: T, rest: seq<T>)
    ensures (done + [x]) + rest == done + ([x] + rest)
  {}

  /** Cuts the whole text into words, recording where each begins. */
  method ReadAll(content: string, t: Tokens) returns (words: seq<Word>, infos: seq<TokenResult>)
    requires TokensOk(t)
    ensures words == WordsOf(Lexed(t, content), START) && infos == InfosOf(Lexed(t, content))
  {
    hide *;
    words, infos := [], [];
    var data := content;
    var p := START;
    while data != ""
      invariant words + WordsOf(Lexed(t, data), p) == WordsOf(Lexed(t, content), START)
      invariant infos + InfosOf(Lexed(t, data)) == InfosOf(Lexed(t, content))
      decreases |data|
    {
      StoreStep(t, data, p);
      var r := Next(t, data);
      if r.len == 0 { break; }
      var str := data[..r.len];
      var word := Word(str, p.line, p.col, false);
      MoveOne(words, word, WordsOf(Lexed(t, data[r.len..]), After(p, str)));
      MoveOne(infos, r, InfosOf(Lexed(t, data[r.len..])));
      words, infos := words + [word], infos + [r];
      data, p := data[r.len..], After(p, str);
    }
    if data != "" {
      StoreStep(t, data, p);
      infos := infos + [TokenResult(|data|, false, "")];
      words := words + [Word(data, p.line, p.col, false)];
    } else {
      LexedOfNothing(t, p);
    }
  }

  class Lexer {
    var words: seq<Word>
    var infos: seq<TokenResult>
    var cursor: nat
    var rewinders: seq<nat>
    var eof: bool

    ghost predicate Valid()
      reads this
    {
      && |words| == |infos| && cursor <= |words| && rewinders != []
      && (forall i :: 0 <= i < |rewinders| ==> rewinders[i] <= |words|)
      && (eof ==> cursor == |words|)
    }

    ghost function Lexemes(): (ls: seq<Lexeme>)
      reads this`words, this`infos
      requires |words| == |infos|
      ensures |ls| == |words|
    {
      Zip(words, infos)
    }

    /** The words not read yet. */
    ghost function Rest(): (ls: seq<Lexeme>)
      reads this`words, this`infos, this`cursor
      requires |words| == |infos| && cursor <= |words|
    {
      Lexemes()[cursor..]
    }

    constructor (content: string, t: Tokens)
      requires TokensOk(t)
      ensures Valid() && cursor == 0 && rewinders == [0] && !eof
      ensures Lexemes() == Lexed(t, content) && Rest() == Lexemes()
      ensures words == WordsOf(Lexed(t, content), START)
    {
      cursor, rewinders, eof := 0, [0], false;
      words, infos := [], [];
      new;
      words, infos := ReadAll(content, t);
      ZipStored(Lexed(t, content), START);
    }

    lemma WordAt()
      requires |words| == |infos| && cursor < |words|
      ensures Rest() == [Lexeme(words[cursor].str, infos[cursor].skip, infos[cursor].commentEnd)] + Lexemes()[cursor + 1..]
    {}

    /** The next word, stepping over skipped words and comments; the cursor before it is recorded. */
    method Next() returns (w: Word)
      requires Valid()
      modifies this`cursor, this`rewinders, this`eof
      ensures Valid()
      ensures rewinders == if old(eof) then old(rewinders) else old(rewinders) + [old(cursor)]
      ensures match NextWord(old(Rest()))
        case None => w == EOF_WORD && eof && Rest() == []
        case Some(r) => !w.eof && !eof && w.str == r.0 && Rest() == r.1
      ensures !w.eof ==> old(cursor) < cursor && w == words[cursor - 1].(eof := false)
    {
      hide Zip, AfterComment, NextWord;
      NoNextWord();
      if eof {
        assert Rest() == [];
        return EOF_WORD;
      }
      rewinders := rewinders + [cursor];
      while cursor < |words|
        invariant Valid()
        invariant NextWord(Rest()) == NextWord(old(Rest()))
        invariant rewinders == old(rewinders) + [old(cursor)] && cursor >= old(cursor)
        decreases |words| - cursor
      {
        var wd := infos[cursor];
        WordAt();
        NextWordUnfold(Rest());
        cursor := cursor + 1;
        if !wd.skip {
          if wd.commentEnd != "" {
            GotoNextToken(wd.commentEnd);
          } else {
            return words[cursor - 1].(eof := false);
          }
        }
      }
      assert Rest() == [];
      eof := true;
      return EOF_WORD;
    }

    /** Moves past the next occurrence of `end`, or to the end of the text. */
    method GotoNextToken(end: string)
      requires Valid() && !eof
      modifies this`cursor, this`eof
      ensures Valid() && cursor >= old(cursor)
      ensures Rest() == AfterComment(old(Rest()), end)
      ensures if eof then forall k :: old(cursor) <= k < |words| ==> words[k].str != end
        else
          && old(cursor) < cursor && words[cursor - 1].str == end
          && forall k :: old(cursor) <= k < cursor - 1 ==> words[k].str != end
    {
      hide Zip, AfterComment;
      while cursor < |words|
        invariant Valid() && cursor >= old(cursor) && !eof
        invariant forall k :: old(cursor) <= k < cursor ==> words[k].str != end
        invariant AfterComment(Rest(), end) == AfterComment(old(Rest()), end)
        decreases |words| - cursor
      {
        var word := words[cursor];
        WordAt();
        CommentUnfold(Rest(), end);
        cursor := cursor + 1;
        if word.str == end { return; }
      }
      assert Rest() == [];
      NoComment(end);
      eof := true;
    }

    /** The next word whatever it is. */
    method DirectNext() returns (w: Word)
      requires Valid()
      modifies this`cursor, this`rewinders, this`eof
      ensures Valid()
      ensures rewinders == if old(eof) then old(rewinders) else old(rewinders) + [old(cursor)]
      ensures if old(Rest()) == [] then w == EOF_WORD && eof && Rest() == []
        else !w.eof && !eof && w.str == old(Rest())[0].str && Rest() == old(Rest())[1..]
      ensures !w.eof ==> cursor == old(cursor) + 1 && w == words[old(cursor)].(eof := false)
    {
      if eof {
        assert Rest() == [];
        return EOF_WORD;
      }
      rewinders := rewinders + [cursor];
      if cursor < |words| {
        cursor := cursor + 1;
        assert Rest() == old(Lexemes())[cursor..];
        assert old(Rest())[0].str == words[cursor - 1].str;
        return words[cursor - 1].(eof := false);
      } else {
        eof := true;
        return EOF_WORD;
      }
    }

    /** Goes back before the last `nb` words read, one at least; the failed read that reached the end is
        no word. */
    method Rewind(nb: nat)
      requires Valid() && |rewinders| >= AtLeastOne(nb) + if eof then 1 else 0
      modifies this`cursor, this`rewinders, this`eof
      ensures Valid() && !eof
      ensures var kept := |old(rewinders)| - AtLeastOne(nb) - if old(eof) then 1 else 0;
        && cursor == old(rewinders)[kept]
        && rewinders == if kept == 0 then [0] else old(rewinders)[..kept]
    {
      if eof {
        rewinders := rewinders[..|rewinders| - 1];
        eof := false;
      }
      if nb > 1 {
        for i := 0 to nb - 1
          invariant |words| == |infos| && !eof
          invariant |rewinders| == |old(rewinders)| - i - if old(eof) then 1 else 0
          invariant rewinders == old(rewinders)[..|rewinders|]
        {
          rewinders := rewinders[..|rewinders| - 1];
        }
      }
      cursor := rewinders[|rewinders| - 1];
      rewinders := rewinders[..|rewinders| - 1];
      if |rewinders| == 0 {
        rewinders := rewinders + [0];
      }
    }

    /** Goes back to the last recorded position `target`, dropping what was recorded since. */
    method RewindTo(target: nat)
      requires Valid() && (eof ==> |rewinders| >= 1)
      modifies this`cursor, this`rewinders, this`eof
      ensures Valid() && !eof
      ensures var log := if old(eof) then old(rewinders)[..|old(rewinders)| - 1] else old(rewinders);
        if target in log then
          exists i :: 0 <= i < |log| && log[i] == target && target !in log[i + 1..]
            && cursor == target && rewinders == if i == 0 then [0] else log[..i]
        else cursor == old(cursor) && rewinders == [0]
    {
      ghost var log := if eof then rewinders[..|rewinders| - 1] else rewinders;
      if eof {
        rewinders := rewinders[..|rewinders| - 1];
        eof := false;
      }
      while |rewinders| > 0
        invariant |words| == |infos| && !eof && cursor == old(cursor) && cursor <= |words|
        invariant |rewinders| <= |log| && rewinders == log[..|rewinders|] && target !in log[|rewinders|..]
        invariant forall i :: 0 <= i < |log| ==> log[i] <= |words|
        decreases |rewinders|
      {
        var last := |rewinders| - 1;
        assert log[last..] == [log[last]] + log[last + 1..];
        if rewinders[last] == target {
          cursor := target;
          rewinders := rewinders[..last];
          assert log[last] == target;
          break;
        } else {
          rewinders := rewinders[..last];
        }
      }
      if |rewinders| == 0 {
        rewinders := rewinders + [0];
      }
    }
  }

  lemma NoNextWord()
    ensures NextWord([]) == None
  {}

  lemma NextWordUnfold(ls: seq<Lexeme>)
    requires ls != []
    ensures NextWord(ls) ==
      if ls[0].skip then NextWord(ls[1..])
      else if ls[0].commentEnd != "" then NextWord(AfterComment(ls[1..], ls[0].commentEnd))
      else Some((ls[0].str, ls[1..]))
  {}

  lemma NoComment(end: string)
    ensures AfterComment([], end) == []
  {}

  lemma CommentUnfold(ls: seq<Lexeme>, end: string)
    requires ls != []
    ensures AfterComment(ls, end) == if ls[0].str == end then ls[1..] else AfterComment(ls[1..], end)
  {}

  function AtLeastOne(nb: nat): nat { if nb == 0 then 1 else nb }

  /** Reading `n` words, and then trying to read past the end if `further`, is undone by one rewind. */
  method ReadAndRewind(lex: Lexer, n: nat, further: bool)
    requires lex.Valid() && !lex.eof && n >= 1 && RealWords(lex.Rest()) >= n
    requires further ==> RealWords(lex.Rest()) == n
    modifies lex
    ensures lex.Valid() && lex.cursor == old(lex.cursor) && lex.rewinders == old(lex.rewinders) && !lex.eof
  {
    hide Zip, AfterComment, NextWord;
    ghost var log := lex.rewinders;
    for i := 0 to n
      invariant lex.Valid() && !lex.eof
      invariant |lex.rewinders| == |log| + i && lex.rewinders[..|log|] == log
      invariant i > 0 ==> lex.rewinders[|log|] == old(lex.cursor)
      invariant i == 0 ==> lex.cursor == old(lex.cursor)
      invariant RealWords(lex.Rest()) == RealWords(old(lex.Rest())) - i
    {
      var w := lex.Next();
    }
    if further {
      var w := lex.Next();
    }
    lex.Rewind(n);
  }

  /** How many words there are to read. */
  ghost function RealWords(ls: seq<Lexeme>): nat
    decreases |ls|
  {
    match NextWord(ls)
    case None => 0
    case Some(r) => 1 + RealWords(r.1)
  }
}
