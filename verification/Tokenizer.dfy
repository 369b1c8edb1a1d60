/** The token trie: a last-insertion-wins map from tokens to flags, searched for longest matches. */
module Tokenizer {
  import opened Options

  /** What the tokenizer found: the length of the word, and the flags of the token it is, if any. */
  datatype TokenResult = TokenResult(len: nat, skip: bool, commentEnd: string)

  const NO_TOKEN := TokenResult(0, false, "")

  datatype Flags = Flags(skip: bool, commentEnd: string)

  datatype TokenNode = TokenNode(key: char, isToken: bool, flags: Flags, keyHeads: seq<char>, heads: seq<TokenNode>)

  function FreshNode(key: char): TokenNode { TokenNode(key, false, Flags(false, ""), [], []) }

  /** The index of a key, or the number of keys. */
  function Find(keys: seq<char>, c: char): (i: nat)
    ensures i <= |keys|
    ensures i < |keys| ==> keys[i] == c
    ensures i == |keys| <==> c !in keys
  {
    if keys == [] then 0
    else if keys[0] == c then 0
    else 1 + Find(keys[1..], c)
  }

  /** Every node of the trie has one child per key, and no key twice. */
  ghost predicate NodeOk(n: TokenNode) {
    && Distinct(n.keyHeads) && |n.keyHeads| == |n.heads|
    && (forall i :: 0 <= i < |n.heads| ==> NodeOk(n.heads[i]))
  }

  ghost predicate Distinct(keys: seq<char>) {
    forall i, j :: 0 <= i < j < |keys| ==> keys[i] != keys[j]
  }

  ghost predicate WellFormed(keys: seq<char>, heads: seq<TokenNode>) {
    && Distinct(keys) && |keys| == |heads|
    && (forall i :: 0 <= i < |heads| ==> NodeOk(heads[i]))
  }

  /** The flags the trie holds for the token that leads from this node along `s`. */
  function Lookup(n: TokenNode, s: string): Option<Flags>
    requires NodeOk(n)
    decreases |s|
  {
    if s == "" then (if n.isToken then Some(n.flags) else None) else LookupIn(n.keyHeads, n.heads, s)
  }

  function LookupIn(keys: seq<char>, heads: seq<TokenNode>, s: string): Option<Flags>
    requires WellFormed(keys, heads) && s != ""
    decreases |s|, 0
  {
    var i := Find(keys, s[0]);
    if i == |keys| then None else Lookup(heads[i], s[1..])
  }

  function Insert(n: TokenNode, s: string, flags: Flags): (n': TokenNode)
    requires NodeOk(n)
    ensures NodeOk(n')
    decreases |s|
  {
    if s == "" then n.(isToken := true, flags := flags)
    else
      var (keys, heads) := InsertIn(n.keyHeads, n.heads, s, flags);
      n.(keyHeads := keys, heads := heads)
  }

  /** Descends into the child of the first character, or grows a new one at the end. */
  function InsertIn(keys: seq<char>, heads: seq<TokenNode>, s: string, flags: Flags): (r: (seq<char>, seq<TokenNode>))
    requires WellFormed(keys, heads) && s != ""
    ensures WellFormed(r.0, r.1)
    decreases |s|, 0
  {
    var i := Find(keys, s[0]);
    if i == |keys| then (keys + [s[0]], heads + [Insert(FreshNode(s[0]), s[1..], flags)])
    else (keys, heads[i := Insert(heads[i], s[1..], flags)])
  }

  /** The length of the longest token along `content`, counting the character of this node. */
  function Len(n: TokenNode, content: string): TokenResult
    requires NodeOk(n)
    decreases |content|
  {
    var own := if n.isToken then TokenResult(1, n.flags.skip, n.flags.commentEnd) else NO_TOKEN;
    if content == "" then own
    else
      var i := Find(n.keyHeads, content[0]);
      if i == |n.keyHeads| then own
      else
        var sub := Len(n.heads[i], content[1..]);
        if sub.len != 0 then sub.(len := sub.len + 1) else own
  }

  /** The keys that start a token, with their tries. */
  datatype Tokens = Tokens(keyHeads: seq<char>, heads: seq<TokenNode>)

  ghost predicate TokensOk(t: Tokens) { WellFormed(t.keyHeads, t.heads) }

  function FlagsOf(t: Tokens, s: string): Option<Flags>
    requires TokensOk(t)
  {
    if s == "" then None else LookupIn(t.keyHeads, t.heads, s)
  }

  function InsertToken(t: Tokens, s: string, flags: Flags): (t': Tokens)
    requires TokensOk(t)
    ensures TokensOk(t')
  {
    if s == "" then t
    else
      var (keys, heads) := InsertIn(t.keyHeads, t.heads, s, flags);
      Tokens(keys, heads)
  }

  /** The first index from `i` on that holds the head of a token, or the length of the text. */
  function NextHead(t: Tokens, s: string, i: nat): (j: nat)
    requires i <= |s|
    ensures i <= j <= |s|
    ensures forall k :: i <= k < j ==> s[k] !in t.keyHeads
    ensures j < |s| ==> s[j] in t.keyHeads
    decreases |s| - i
  {
    if i == |s| || s[i] in t.keyHeads then i else NextHead(t, s, i + 1)
  }

  /** What the search loop of `next` returns. */
  function Next(t: Tokens, s: string): TokenResult
    requires TokensOk(t)
  {
    if s == "" then NO_TOKEN
    else
      var i := Find(t.keyHeads, s[0]);
      var sub := if i == |t.keyHeads| then NO_TOKEN else Len(t.heads[i], s[1..]);
      if sub.len != 0 then sub
      else
        var j := NextHead(t, s, 1);
        if j == |s| then NO_TOKEN else TokenResult(j, false, "")
  }

  // ---------------------------------------------------------------- the trie is a map

  /** Inserting overrides the flags of one token and keeps all others. */
  lemma {:induction false} InsertIsUpdate(n: TokenNode, s: string, flags: Flags, q: string)
    requires NodeOk(n)
    ensures Lookup(Insert(n, s, flags), q) == if q == s then Some(flags) else Lookup(n, q)
    decreases |s|
  {
    if s == "" {
    } else if q == "" {
    } else {
      InsertInIsUpdate(n.keyHeads, n.heads, s, flags, q);
    }
  }

  lemma {:induction false} InsertInIsUpdate(keys: seq<char>, heads: seq<TokenNode>, s: string, flags: Flags, q: string)
    requires WellFormed(keys, heads) && s != "" && q != ""
    ensures var (keys', heads') := InsertIn(keys, heads, s, flags);
      LookupIn(keys', heads', q) == if q == s then Some(flags) else LookupIn(keys, heads, q)
    decreases |s|, 0
  {
    var i := Find(keys, s[0]);
    var (keys', heads') := InsertIn(keys, heads, s, flags);
    var j := Find(keys', q[0]);
    if q[0] == s[0] {
      assert q == s <==> q[1..] == s[1..] by { assert q == [q[0]] + q[1..] && s == [s[0]] + s[1..]; }
      if i == |keys| {
        FindAppended(keys, s[0]);
        InsertIsUpdate(FreshNode(s[0]), s[1..], flags, q[1..]);
        FreshIsEmpty(s[0], q[1..]);
      } else {
        InsertIsUpdate(heads[i], s[1..], flags, q[1..]);
      }
    } else if i == |keys| {
      FindOther(keys, s[0], q[0]);
    }
  }

  lemma {:induction false} FindAppended(keys: seq<char>, c: char)
    requires c !in keys
    ensures Find(keys + [c], c) == |keys|
  {
    if keys != [] {
      assert (keys + [c])[1..] == keys[1..] + [c];
      FindAppended(keys[1..], c);
    }
  }

  lemma {:induction false} FindOther(keys: seq<char>, c: char, d: char)
    requires c != d
    ensures Find(keys + [c], d) == if d in keys then Find(keys, d) else |keys| + 1
  {
    if keys != [] {
      assert (keys + [c])[1..] == keys[1..] + [c];
      if keys[0] != d { FindOther(keys[1..], c, d); }
    }
  }

  lemma FreshIsEmpty(key: char, q: string)
    ensures Lookup(FreshNode(key), q) == None
  {}

  /** A match is the longest token along the text, with that token's flags; no match means there is none. */
  lemma {:induction false} LenIsLongest(n: TokenNode, content: string)
    requires NodeOk(n)
    ensures var r := Len(n, content);
      && r.len <= |content| + 1
      && (r.len > 0 ==> Lookup(n, content[..r.len - 1]) == Some(Flags(r.skip, r.commentEnd)))
      && (forall m :: 0 <= m <= |content| && m >= r.len ==> Lookup(n, content[..m]) == None)
      && (r.len == 0 ==> r == NO_TOKEN)
    decreases |content|
  {
    var r := Len(n, content);
    if content != "" {
      var i := Find(n.keyHeads, content[0]);
      if i < |n.keyHeads| {
        LenIsLongest(n.heads[i], content[1..]);
      }
      forall m | 1 <= m <= |content|
        ensures Lookup(n, content[..m]) ==
          if i == |n.keyHeads| then None else Lookup(n.heads[i], content[1..][..m - 1])
      {
        assert content[..m][0] == content[0] && content[..m][1..] == content[1..][..m - 1];
      }
    }
  }

  lemma InsertTokenIsUpdate(t: Tokens, s: string, flags: Flags, q: string)
    requires TokensOk(t)
    ensures FlagsOf(InsertToken(t, s, flags), q) == if q == s && s != "" then Some(flags) else FlagsOf(t, q)
    ensures forall c :: c in InsertToken(t, s, flags).keyHeads <==> c in t.keyHeads || (s != "" && c == s[0])
  {
    if s != "" && q != "" {
      InsertInIsUpdate(t.keyHeads, t.heads, s, flags, q);
    }
  }

  /** The tokenizer's search: where a token matches, the longest one, with its flags; elsewhere the
      run up to the next character that starts a token, or nothing when there is none. */
  lemma NextIsLongestOrRun(t: Tokens, s: string)
    requires TokensOk(t) && s != ""
    ensures var r := Next(t, s);
      && r.len <= |s|
      && (if exists m :: 1 <= m <= |s| && FlagsOf(t, s[..m]) != None then
            && r.len >= 1
            && FlagsOf(t, s[..r.len]) == Some(Flags(r.skip, r.commentEnd))
            && (forall m :: r.len < m <= |s| ==> FlagsOf(t, s[..m]) == None)
          else
            && !r.skip && r.commentEnd == ""
            && (forall k :: 1 <= k < (if r.len == 0 then |s| else r.len) ==> s[k] !in t.keyHeads)
            && (r.len > 0 ==> r.len < |s| && s[r.len] in t.keyHeads))
  {
    var i := Find(t.keyHeads, s[0]);
    forall m | 1 <= m <= |s|
      ensures FlagsOf(t, s[..m]) == if i == |t.keyHeads| then None else Lookup(t.heads[i], s[1..][..m - 1])
    {
      assert s[..m][0] == s[0] && s[..m][1..] == s[1..][..m - 1];
    }
    if i < |t.keyHeads| {
      LenIsLongest(t.heads[i], s[1..]);
    }
  }

  // ---------------------------------------------------------------- tokens inserted in turn

  datatype Token = Token(str: string, flags: Flags)

  function Build(ts: seq<Token>): (t: Tokens)
    ensures TokensOk(t)
  {
    if ts == [] then Tokens([], []) else InsertToken(Build(ts[..|ts| - 1]), ts[|ts| - 1].str, ts[|ts| - 1].flags)
  }

  /** The flags given by the last insertion of a token. */
  function LastFlags(ts: seq<Token>, q: string): Option<Flags> {
    if ts == [] then None
    else if ts[|ts| - 1].str == q then Some(ts[|ts| - 1].flags)
    else LastFlags(ts[..|ts| - 1], q)
  }

  lemma {:induction false} LastInsertionWins(ts: seq<Token>, q: string)
    requires q != ""
    ensures FlagsOf(Build(ts), q) == LastFlags(ts, q)
  {
    if ts != [] {
      LastInsertionWins(ts[..|ts| - 1], q);
      InsertTokenIsUpdate(Build(ts[..|ts| - 1]), ts[|ts| - 1].str, ts[|ts| - 1].flags, q);
    }
  }

  lemma {:induction false} HeadsOfBuild(ts: seq<Token>, c: char)
    ensures c in Build(ts).keyHeads <==> exists i :: 0 <= i < |ts| && ts[i].str != "" && ts[i].str[0] == c
  {
    if ts != [] {
      var m := |ts| - 1;
      HeadsOfBuild(ts[..m], c);
      InsertTokenIsUpdate(Build(ts[..m]), ts[m].str, ts[m].flags, "");
      if exists i :: 0 <= i < |ts| && ts[i].str != "" && ts[i].str[0] == c {
        var i :| 0 <= i < |ts| && ts[i].str != "" && ts[i].str[0] == c;
        if i < m { assert ts[..m][i] == ts[i]; }
      }
    }
  }

  lemma {:induction false} LastFlagsOfConcat(a: seq<Token>, b: seq<Token>, q: string)
    ensures LastFlags(a + b, q) == if LastFlags(b, q).Some? then LastFlags(b, q) else LastFlags(a, q)
  {
    if b == [] {
      assert a + b == a;
    } else {
      assert (a + b)[..|a + b| - 1] == a + b[..|b| - 1];
      LastFlagsOfConcat(a, b[..|b| - 1], q);
    }
  }

  /** A token for each character of `cs`. */
  function OneCharTokens(cs: string, flags: Flags): (ts: seq<Token>)
    ensures |ts| == |cs| && forall i :: 0 <= i < |cs| ==> ts[i] == Token([cs[i]], flags)
  {
    seq(|cs|, i requires 0 <= i < |cs| => Token([cs[i]], flags))
  }

  lemma {:induction false} OneCharFlags(cs: string, flags: Flags, q: string)
    ensures LastFlags(OneCharTokens(cs, flags), q) == if |q| == 1 && q[0] in cs then Some(flags) else None
  {
    if cs != "" {
      var m := |cs| - 1;
      assert OneCharTokens(cs, flags)[..m] == OneCharTokens(cs[..m], flags);
      OneCharFlags(cs[..m], flags, q);
      assert cs == cs[..m] + [cs[m]];
    }
  }
}
