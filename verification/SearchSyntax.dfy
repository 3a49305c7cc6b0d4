/** The search box syntax: a quote-aware tokenizer and the `group:` / `type:` prefixes. */
module SearchSyntax {

  import opened Wrappers
  import opened Text

  const CONTENT_TYPES: seq<string> := ["text", "image", "files"]

  datatype ParsedSyntax = ParsedSyntax(
    text: string, group: Option<string>, contentType: Option<string>, unknownType: bool)

  // ---------- tokens ----------

  function Flush(cur: string): seq<string> {
    if cur == "" then [] else [cur]
  }

  function TokensFrom(raw: string, cur: string, quoted: bool): seq<string>
    decreases raw
  {
    if raw == "" then Flush(cur)
    else if raw[0] == '"' then TokensFrom(raw[1..], cur + [raw[0]], !quoted)
    else if !quoted && IsWhitespace(raw[0]) then Flush(cur) + TokensFrom(raw[1..], "", false)
    else TokensFrom(raw[1..], cur + [raw[0]], quoted)
  }

  function Tokens(raw: string): seq<string> {
    TokensFrom(raw, "", false)
  }

  method Tokenize(raw: string) returns (tokens: seq<string>)
    ensures tokens == Tokens(raw)
  {
    tokens := [];
    var cur, quoted := "", false;
    for i := 0 to |raw|
      invariant tokens + TokensFrom(raw[i..], cur, quoted) == Tokens(raw)
    {
      assert raw[i..][1..] == raw[i + 1..];
      var ch := raw[i];
      if ch == '"' {
        quoted := !quoted;
        cur := cur + [ch];
      } else if !quoted && IsWhitespace(ch) {
        if cur != "" {
          tokens := tokens + [cur];
          cur := "";
        }
      } else {
        cur := cur + [ch];
      }
    }
    assert raw[|raw|..] == "";
    if cur != "" {
      tokens := tokens + [cur];
    }
  }

  // ---------- what one token means ----------

  /** `key:value`, cut at the first colon; URL-like tokens are not syntax. */
  function SplitPrefix(token: string): Option<(string, string)> {
    if Find(token, "://").Some? then None else
    match Find(token, ":")
    case None => None
    case Some(i) =>
      var key, rest := token[..i], token[i + 1..];
      if key == "" || rest == "" then None else Some((key, rest))
  }

  function StripQuotes(value: string): string {
    if |value| >= 2 && value[0] == '"' && value[|value| - 1] == '"'
    then Trim(value[1..|value| - 1]) else Trim(value)
  }

  datatype Meaning = Literal | Group(name: string) | Type(name: string) | UnknownType

  function MeaningOf(token: string): Meaning {
    match SplitPrefix(token)
    case None => Literal
    case Some((key, rest)) =>
      var value := StripQuotes(rest);
      if key == "group" then (if value == "" then Literal else Group(value))
      else if key == "type" then
        (if value in CONTENT_TYPES then Type(value) else UnknownType)
      else Literal
  }

  // ---------- the parse ----------

  function LiteralsOf(tokens: seq<string>): seq<string> {
    if tokens == [] then []
    else LiteralsOf(tokens[..|tokens| - 1]) +
         (if MeaningOf(tokens[|tokens| - 1]).Literal? then [tokens[|tokens| - 1]] else [])
  }

  function Join(tokens: seq<string>): string {
    if tokens == [] then "" else if |tokens| == 1 then tokens[0] else tokens[0] + " " + Join(tokens[1..])
  }

  /** The last group token, the last known type token, and whether any type token is unknown. */
  function Parsed(tokens: seq<string>): ParsedSyntax {
    ParsedSyntax(Join(LiteralsOf(tokens)), GroupIn(tokens), TypeIn(tokens), UnknownIn(tokens))
  }

  function GroupIn(tokens: seq<string>): Option<string> {
    if tokens == [] then None else
    match MeaningOf(tokens[|tokens| - 1])
    case Group(name) => Some(name)
    case _ => GroupIn(tokens[..|tokens| - 1])
  }

  function TypeIn(tokens: seq<string>): Option<string> {
    if tokens == [] then None else
    match MeaningOf(tokens[|tokens| - 1])
    case Type(name) => Some(name)
    case _ => TypeIn(tokens[..|tokens| - 1])
  }

  predicate UnknownIn(tokens: seq<string>) {
    exists t :: t in tokens && MeaningOf(t).UnknownType?
  }

  /** What the parse has made of the tokens read so far. */
  ghost predicate ReadSoFar(tokens: seq<string>, literal: seq<string>, group: Option<string>,
                            contentType: Option<string>, unknown: bool)
  {
    && literal == LiteralsOf(tokens) && group == GroupIn(tokens)
    && contentType == TypeIn(tokens) && unknown == UnknownIn(tokens)
  }

  lemma UnknownNext(tokens: seq<string>, token: string)
    ensures UnknownIn(tokens + [token]) == (UnknownIn(tokens) || MeaningOf(token).UnknownType?)
  {
    if t :| t in tokens && MeaningOf(t).UnknownType? { assert t in tokens + [token]; }
    assert token in tokens + [token];
  }

  lemma ReadNext(tokens: seq<string>, token: string, literal: seq<string>, group: Option<string>,
                 contentType: Option<string>, unknown: bool)
    requires ReadSoFar(tokens, literal, group, contentType, unknown)
    ensures var m := MeaningOf(token);
            ReadSoFar(tokens + [token], if m.Literal? then literal + [token] else literal,
                      if m.Group? then Some(m.name) else group, if m.Type? then Some(m.name) else contentType,
                      unknown || m.UnknownType?)
  {
    assert (tokens + [token])[..|tokens|] == tokens;
    UnknownNext(tokens, token);
  }

  lemma PrefixNext(tokens: seq<string>, i: nat)
    requires i < |tokens|
    ensures tokens[..i + 1] == tokens[..i] + [tokens[i]]
  {
  }

  method ParseSearchSyntax(raw: string) returns (out: ParsedSyntax)
    ensures out == Parsed(Tokens(raw))
  {
    var group: Option<string>, contentType: Option<string>, unknown := None, None, false;
    var literal: seq<string> := [];
    var tokens := Tokenize(raw);
    for i := 0 to |tokens|
      invariant ReadSoFar(tokens[..i], literal, group, contentType, unknown)
    {
      var token := tokens[i];
      PrefixNext(tokens, i);
      ReadNext(tokens[..i], token, literal, group, contentType, unknown);
      match SplitPrefix(token)
      case None => literal := literal + [token];
      case Some((key, rest)) =>
        if key == "group" {
          var value := StripQuotes(rest);
          if value == "" {
            literal := literal + [token];
          } else {
            group := Some(value);
          }
        } else if key == "type" {
          var value := StripQuotes(rest);
          if value in CONTENT_TYPES {
            contentType := Some(value);
          } else {
            unknown := true;
          }
        } else {
          literal := literal + [token];
        }
    }
    assert tokens[..|tokens|] == tokens;
    var text := JoinTokens(literal);
    out := ParsedSyntax(text, group, contentType, unknown);
  }

  method JoinTokens(tokens: seq<string>) returns (text: string)
    ensures text == Join(tokens)
  {
    text := "";
    var i := |tokens|;
    while i > 0
      invariant 0 <= i <= |tokens|
      invariant text == Join(tokens[i..])
    {
      i := i - 1;
      assert tokens[i..][1..] == tokens[i + 1..];
      text := if i + 1 == |tokens| then tokens[i] else tokens[i] + " " + text;
    }
    assert tokens[0..] == tokens;
  }

  // ---------- re-tokenizing ----------

  /** Reading t from the given quote state: the state after it, or None when a space outside
    * quotes would end the token. */
  function Scan(t: string, quoted: bool): Option<bool> {
    if t == "" then Some(quoted)
    else if t[0] == '"' then Scan(t[1..], !quoted)
    else if !quoted && IsWhitespace(t[0]) then None
    else Scan(t[1..], quoted)
  }

  /** What the tokenizer produces: unbroken non-empty pieces, all but the last with closed quotes. */
  ghost predicate TokenList(tokens: seq<string>) {
    forall i :: 0 <= i < |tokens| ==>
      tokens[i] != "" && Scan(tokens[i], false).Some? && (i < |tokens| - 1 ==> Scan(tokens[i], false) == Some(false))
  }

  lemma {:induction false} ScanAppend(t: string, quoted: bool, c: char)
    requires Scan(t, quoted).Some?
    ensures Scan(t + [c], quoted) == Scan([c], Scan(t, quoted).value)
  {
    if t == "" {
      assert t + [c] == [c];
    } else {
      assert (t + [c])[1..] == t[1..] + [c];
      ScanAppend(t[1..], if t[0] == '"' then !quoted else quoted, c);
    }
  }

  lemma {:induction false} TokensAreTokenList(raw: string, cur: string, quoted: bool)
    requires Scan(cur, false) == Some(quoted)
    ensures TokenList(TokensFrom(raw, cur, quoted))
    decreases raw
  {
    if raw != "" {
      var c := raw[0];
      if c == '"' {
        ScanAppend(cur, false, c);
        TokensAreTokenList(raw[1..], cur + [c], !quoted);
      } else if !quoted && IsWhitespace(c) {
        TokensAreTokenList(raw[1..], "", false);
      } else {
        ScanAppend(cur, false, c);
        TokensAreTokenList(raw[1..], cur + [c], quoted);
      }
    }
  }

  lemma {:induction false} TokensFromPiece(t: string, rest: string, cur: string, quoted: bool)
    requires Scan(t, quoted).Some?
    ensures TokensFrom(t + rest, cur, quoted) == TokensFrom(rest, cur + t, Scan(t, quoted).value)
    decreases t
  {
    if t == "" {
      assert t + rest == rest && cur + t == cur;
    } else {
      assert (t + rest)[1..] == t[1..] + rest;
      assert (cur + [t[0]]) + t[1..] == cur + t;
      TokensFromPiece(t[1..], rest, cur + [t[0]], if t[0] == '"' then !quoted else quoted);
    }
  }

  /** Joining tokens with single spaces and tokenizing again gives the same tokens, an unclosed
    * final quote included. */
  lemma {:induction false} RetokenizeJoined(tokens: seq<string>)
    requires TokenList(tokens)
    ensures Tokens(Join(tokens)) == tokens
  {
    if tokens != [] {
      var t := tokens[0];
      if |tokens| == 1 {
        TokensFromPiece(t, "", "", false);
        assert t + "" == t && "" + t == t;
      } else {
        var rest := Join(tokens[1..]);
        RetokenizeJoined(tokens[1..]);
        TokensFromPiece(t, " " + rest, "", false);
        assert t + (" " + rest) == Join(tokens) && "" + t == t;
        assert (" " + rest)[1..] == rest;
      }
    }
  }

  lemma {:induction false} LiteralsAreTokenList(tokens: seq<string>)
    requires TokenList(tokens)
    ensures TokenList(LiteralsOf(tokens))
    ensures forall t :: t in LiteralsOf(tokens) ==> t in tokens && MeaningOf(t).Literal?
    ensures |tokens| > 0 && Scan(tokens[|tokens| - 1], false) == Some(false) ==>
            forall t :: t in LiteralsOf(tokens) ==> Scan(t, false) == Some(false)
  {
    if tokens != [] {
      var n := |tokens| - 1;
      var init := tokens[..n];
      LiteralsAreTokenList(init);
      if n > 0 { assert init[n - 1] == tokens[n - 1]; }
      var l := LiteralsOf(init);
      assert forall i :: 0 <= i < |l| ==> l[i] in l;
    }
  }

  lemma {:induction false} AllLiteral(tokens: seq<string>)
    requires forall t :: t in tokens ==> MeaningOf(t).Literal?
    ensures Parsed(tokens) == ParsedSyntax(Join(tokens), None, None, false)
  {
    if tokens != [] {
      var n := |tokens| - 1;
      assert tokens[n] in tokens;
      AllLiteral(tokens[..n]);
      AllLiteralKept(tokens);
    }
  }

  lemma {:induction false} AllLiteralKept(tokens: seq<string>)
    requires forall t :: t in tokens ==> MeaningOf(t).Literal?
    ensures LiteralsOf(tokens) == tokens
  {
    if tokens != [] {
      var n := |tokens| - 1;
      assert tokens[n] in tokens;
      AllLiteralKept(tokens[..n]);
      assert LiteralsOf(tokens) == tokens[..n] + [tokens[n]];
    }
  }

  /** Parsing the residual text of a parsed query changes nothing and finds no syntax in it. */
  lemma ReparseIsIdentity(raw: string)
    ensures var p := Parsed(Tokens(raw));
            Parsed(Tokens(p.text)) == ParsedSyntax(p.text, None, None, false)
  {
    TokensAreTokenList(raw, "", false);
    LiteralsAreTokenList(Tokens(raw));
    var l := LiteralsOf(Tokens(raw));
    RetokenizeJoined(l);
    AllLiteral(l);
  }

  // ---------- group:"G" ----------

  predicate QuoteFree(s: string) {
    forall i :: 0 <= i < |s| ==> s[i] != '"'
  }

  function GroupQuery(g: string): string {
    "group:\"" + g + "\""
  }

  lemma {:induction false} ScanQuoted(g: string)
    requires QuoteFree(g)
    ensures Scan(g + "\"", true) == Some(false)
  {
    if g == "" {
      assert g + "\"" == "\"";
    } else {
      assert (g + "\"")[1..] == g[1..] + "\"";
      ScanQuoted(g[1..]);
    }
  }

  lemma HeadOpensQuote()
    ensures Scan("group:\"", false) == Some(true)
  {
    ScanWord("group:", "\"");
    assert "group:" + "\"" == "group:\"" && "\""[1..] == "";
  }

  lemma GroupQueryIsOneToken(g: string)
    requires QuoteFree(g)
    ensures Tokens(GroupQuery(g)) == [GroupQuery(g)]
  {
    var head := "group:\"";
    var tail := g + "\"";
    HeadOpensQuote();
    ScanQuoted(g);
    TokensFromPiece(head, tail, "", false);
    TokensFromPiece(tail, "", head, true);
    assert head + tail == GroupQuery(g) && "" + head == head && tail + "" == tail;
  }

  lemma {:induction false} ScanWord(w: string, rest: string)
    requires forall i :: 0 <= i < |w| ==> w[i] != '"' && !IsWhitespace(w[i])
    ensures Scan(w + rest, false) == Scan(rest, false)
  {
    if w == "" {
      assert w + rest == rest;
    } else {
      assert (w + rest)[1..] == w[1..] + rest;
      ScanWord(w[1..], rest);
    }
  }

  lemma AtCharacters(s: string, pattern: string, i: nat)
    ensures At(s, pattern, i) <==>
            i + |pattern| <= |s| && forall k :: 0 <= k < |pattern| ==> s[i + k] == pattern[k]
  {
    if i + |pattern| <= |s| {
      var w := s[i..i + |pattern|];
      assert forall k :: 0 <= k < |pattern| ==> w[k] == s[i + k];
    }
  }

  lemma QueryCharacters(g: string)
    ensures var q := GroupQuery(g);
            && |q| == |g| + 8 && q[..7] == "group:\"" && q[|g| + 7] == '"'
            && forall k :: 0 <= k < |g| ==> q[7 + k] == g[k]
  {
  }

  lemma UrlMarkInQuery(g: string)
    requires QuoteFree(g)
    ensures Contains(GroupQuery(g), "://") <==> Contains(g, "://")
  {
    var q := GroupQuery(g);
    QueryCharacters(g);
    if i: nat :| At(g, "://", i) {
      AtCharacters(g, "://", i);
      AtCharacters(q, "://", 7 + i);
    }
    if i: nat :| At(q, "://", i) {
      AtCharacters(q, "://", i);
      UrlMarkInside(g, i);
      AtCharacters(g, "://", i - 7);
    }
  }

  lemma UrlMarkInside(g: string, i: nat)
    requires i + 3 <= |GroupQuery(g)|
    requires forall k :: 0 <= k < 3 ==> GroupQuery(g)[i + k] == "://"[k]
    ensures 7 <= i && i - 7 + 3 <= |g|
  {
    var q := GroupQuery(g);
    assert q[i + 1] == "://"[1] == '/' && q[i + 2] == "://"[2] == '/' && q[i + 0] == "://"[0] == ':';
    QueryCharacters(g);
    assert forall k :: 0 <= k < 7 ==> q[k] == q[..7][k];
  }

  lemma GroupQuerySplits(g: string)
    requires QuoteFree(g) && !Contains(g, "://")
    ensures SplitPrefix(GroupQuery(g)) == Some(("group", "\"" + g + "\""))
  {
    var q := GroupQuery(g);
    UrlMarkInQuery(g);
    assert q[..7] == "group:\"";
    assert forall k :: 0 <= k < 7 ==> q[k] == q[..7][k];
    assert q[5..6] == ":" && At(q, ":", 5);
    forall k | 0 <= k < 5 ensures !At(q, ":", k) {
      assert q[k..k + 1][0] == q[k];
    }
    assert q[..5] == "group" && q[6..] == "\"" + g + "\"";
  }

  lemma GroupInOne(token: string)
    ensures GroupIn([token]) ==
            match MeaningOf(token) case Group(name) => Some(name) case _ => None
  {
    assert [token][..0] == [];
  }

  /** A quoted, quote-free name comes back as itself exactly when it is trimmed, non-empty and
    * does not look like a URL. */
  lemma GroupQueryRoundTrip(g: string)
    requires QuoteFree(g)
    ensures Parsed(Tokens(GroupQuery(g))).group == Some(g) <==>
            g != "" && Trim(g) == g && !Contains(g, "://")
  {
    var q := GroupQuery(g);
    GroupQueryIsOneToken(g);
    GroupInOne(q);
    UrlMarkInQuery(g);
    if Contains(g, "://") {
      assert SplitPrefix(q).None?;
    } else {
      GroupQuerySplits(g);
      var value := "\"" + g + "\"";
      assert value[1..|g| + 1] == g;
      assert StripQuotes(value) == Trim(g);
      assert MeaningOf(q) == if Trim(g) == "" then Literal else Group(Trim(g));
    }
  }

  // ---------- which tokens are syntax ----------

  /** A key and a value around the first colon, not a URL. */
  ghost predicate Keyed(token: string, key: string, rest: string) {
    token == key + [':'] + rest && key != "" && rest != "" && ':' !in key && !Contains(token, "://")
  }

  lemma KeyedSplits(token: string, key: string, rest: string)
    requires Keyed(token, key, rest)
    ensures SplitPrefix(token) == Some((key, rest))
  {
    assert token[|key|..|key| + 1] == ":" && At(token, ":", |key|);
    forall k | 0 <= k < |key| ensures !At(token, ":", k) {
      assert token[k..k + 1][0] == key[k];
    }
    assert token[..|key|] == key && token[|key| + 1..] == rest;
  }

  /** Only the two keys are syntax: a type is one of the three or unknown, an empty group and any other key are
    * literal text. */
  lemma KeyDecides(token: string, key: string, rest: string, value: string)
    requires Keyed(token, key, rest) && value == StripQuotes(rest)
    ensures key == "type" && value in CONTENT_TYPES ==> MeaningOf(token) == Type(value)
    ensures key == "type" && value !in CONTENT_TYPES ==> MeaningOf(token) == UnknownType
    ensures key == "group" && value != "" ==> MeaningOf(token) == Group(value)
    ensures (key == "group" && value == "") || (key != "group" && key != "type") ==> MeaningOf(token) == Literal
  {
    KeyedSplits(token, key, rest);
  }

  /** A URL, a token without a colon, and one with nothing on a side of the first colon are literal text. */
  lemma OtherTokensAreLiteral(token: string, i: nat)
    requires || Contains(token, "://") || ':' !in token
             || (i < |token| && token[i] == ':' && ':' !in token[..i] && (i == 0 || i == |token| - 1))
    ensures MeaningOf(token) == Literal
  {
    if !Contains(token, "://") && ':' in token {
      assert token[i..i + 1] == ":" && At(token, ":", i);
      forall k | 0 <= k < i ensures !At(token, ":", k) {
        assert token[k..k + 1][0] == token[..i][k];
      }
    } else if ':' !in token {
      forall k: nat ensures !At(token, ":", k) {
        assert k + 1 <= |token| ==> token[k..k + 1][0] == token[k];
      }
    }
  }

  // ---------- which of several tokens counts ----------

  /** The last group token decides ... */
  lemma {:induction false} LastGroupWins(tokens: seq<string>, k: nat)
    requires k < |tokens| && MeaningOf(tokens[k]).Group?
    requires forall j :: k < j < |tokens| ==> !MeaningOf(tokens[j]).Group?
    ensures GroupIn(tokens) == Some(MeaningOf(tokens[k]).name)
  {
    if k < |tokens| - 1 { LastGroupWins(tokens[..|tokens| - 1], k); }
  }

  /** ... and the last known type token, ... */
  lemma {:induction false} LastTypeWins(tokens: seq<string>, k: nat)
    requires k < |tokens| && MeaningOf(tokens[k]).Type?
    requires forall j :: k < j < |tokens| ==> !MeaningOf(tokens[j]).Type?
    ensures TypeIn(tokens) == Some(MeaningOf(tokens[k]).name)
  {
    if k < |tokens| - 1 { LastTypeWins(tokens[..|tokens| - 1], k); }
  }

  /** ... and without one there is no such filter. */
  lemma {:induction false} NoneNamed(tokens: seq<string>)
    ensures (forall j :: 0 <= j < |tokens| ==> !MeaningOf(tokens[j]).Group?) ==> GroupIn(tokens).None?
    ensures (forall j :: 0 <= j < |tokens| ==> !MeaningOf(tokens[j]).Type?) ==> TypeIn(tokens).None?
  {
    if tokens != [] { NoneNamed(tokens[..|tokens| - 1]); }
  }

  lemma LiteralsNext(tokens: seq<string>, token: string)
    ensures LiteralsOf(tokens + [token]) ==
            if MeaningOf(token).Literal? then LiteralsOf(tokens) + [token] else LiteralsOf(tokens)
  {
    assert (tokens + [token])[..|tokens|] == tokens;
    assert LiteralsOf(tokens) + [] == LiteralsOf(tokens);
  }

  lemma LiteralsInOrderNext(a: seq<string>, b: seq<string>, token: string)
    requires LiteralsOf(a + b) == LiteralsOf(a) + LiteralsOf(b)
    ensures LiteralsOf(a + b + [token]) == LiteralsOf(a) + LiteralsOf(b + [token])
  {
    LiteralsNext(a + b, token);
    LiteralsNext(b, token);
    RegroupTokens(LiteralsOf(a), LiteralsOf(b), token);
  }

  lemma CutLast(b: seq<string>)
    requires b != []
    ensures b == b[..|b| - 1] + [b[|b| - 1]]
  {
  }

  /** The literal tokens are kept in order, ... */
  lemma {:induction false} LiteralsInOrder(a: seq<string>, b: seq<string>)
    ensures LiteralsOf(a + b) == LiteralsOf(a) + LiteralsOf(b)
    decreases |b|
  {
    if b == [] {
      assert a + b == a && LiteralsOf(a) + [] == LiteralsOf(a);
    } else {
      LiteralsInOrder(a, b[..|b| - 1]);
      LiteralsInOrderNext(a, b[..|b| - 1], b[|b| - 1]);
      CutLast(b);
      RegroupTokens(a, b[..|b| - 1], b[|b| - 1]);
    }
  }

  lemma RegroupTokens(a: seq<string>, b: seq<string>, t: string)
    ensures a + b + [t] == a + (b + [t])
  {
  }

  /** ... exactly those. */
  lemma {:induction false} LiteralsExact(tokens: seq<string>, t: string)
    ensures t in LiteralsOf(tokens) <==> t in tokens && MeaningOf(t).Literal?
  {
    if tokens != [] {
      LiteralsExact(tokens[..|tokens| - 1], t);
      LiteralsNext(tokens[..|tokens| - 1], tokens[|tokens| - 1]);
      CutLast(tokens);
    }
  }
}
