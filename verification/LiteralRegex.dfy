/** "Never store this": the text a user picked becomes a regular expression that must match
  * exactly the captures containing that text. Patterns are read by a small regular
  * expression semantics: literals, `.`, the anchors, escapes, and the postfix operators.
  */
module LiteralRegex {

  import opened Wrappers
  import opened Text

  /** REGEX_META */
  predicate IsMeta(c: char) {
    || c == '\\' || c == '^' || c == '$' || c == '.' || c == '*' || c == '+' || c == '?'
    || c == '(' || c == ')' || c == '[' || c == ']' || c == '{' || c == '}' || c == '|'
  }

  function Escaped(s: string): string {
    if s == "" then ""
    else (if IsMeta(s[0]) then ['\\', s[0]] else [s[0]]) + Escaped(s[1..])
  }

  function EscapedChar(c: char): string {
    if IsMeta(c) then ['\\', c] else [c]
  }

  lemma EscapedStep(out: string, s: string, i: nat)
    requires i < |s|
    ensures out + EscapedChar(s[i]) + Escaped(s[i + 1..]) == out + Escaped(s[i..])
  {
    assert s[i..][1..] == s[i + 1..];
  }

  method ToLiteralRegex(s: string) returns (out: string)
    ensures out == Escaped(s)
  {
    out := "";
    for i := 0 to |s|
      invariant out + Escaped(s[i..]) == Escaped(s)
    {
      EscapedStep(out, s, i);
      ghost var before := out;
      if IsMeta(s[i]) {
        out := out + ['\\'];
      }
      out := out + [s[i]];
      assert out == before + EscapedChar(s[i]);
    }
    assert s[|s|..] == "";
  }

  // ---------- reading a pattern ----------

  datatype Atom = Lit(c: char) | Any | Start | End
  datatype Quantifier = One | Star | Plus | Opt
  datatype Item = Item(atom: Atom, q: Quantifier)

  /** What is made of a pattern: it is read, it does not compile, or it lies outside this semantics. */
  datatype Reading = Compiled(items: seq<Item>) | Malformed | Unread

  datatype Head = Head(atom: Atom, width: nat) | BadHead | UnreadHead

  /** The atom at the head of a pattern and how many characters it takes. A lone backslash at the end and an
    * operator with nothing before it do not compile; groups, classes, repetition counts, alternatives,
    * doubled operators and class escapes are not read. */
  function HeadAtom(pattern: string, first: bool): (r: Head)
    requires pattern != ""
    ensures r.Head? ==> 1 <= r.width <= |pattern|
  {
    var c := pattern[0];
    if c == '\\' then
      if |pattern| == 1 then BadHead else if IsMeta(pattern[1]) then Head(Lit(pattern[1]), 2) else UnreadHead
    else if c == '.' then Head(Any, 1)
    else if c == '^' then Head(Start, 1)
    else if c == '$' then Head(End, 1)
    else if c == '*' || c == '+' || c == '?' then if first then BadHead else UnreadHead
    else if IsMeta(c) then UnreadHead
    else Head(Lit(c), 1)
  }

  function HeadQuantifier(rest: string): Quantifier {
    if rest == "" then One
    else if rest[0] == '*' then Star
    else if rest[0] == '+' then Plus
    else if rest[0] == '?' then Opt
    else One
  }

  /** An unread part leaves the whole unread, wherever it stands; what is read so far cannot tell. */
  function ReadFrom(pattern: string, first: bool): Reading
    decreases |pattern|
  {
    if pattern == "" then Compiled([]) else
    match HeadAtom(pattern, first)
    case BadHead => Malformed
    case UnreadHead => Unread
    case Head(atom, width) =>
      var q := HeadQuantifier(pattern[width..]);
      if q != One && (atom.Start? || atom.End?) then Unread else
      match ReadFrom(pattern[if q == One then width else width + 1..], false)
      case Compiled(items) => Compiled([Item(atom, q)] + items)
      case other => other
  }

  function Read(pattern: string): Reading {
    ReadFrom(pattern, true)
  }

  // ---------- matching ----------

  predicate Takes(atom: Atom, text: string, i: nat) {
    i < |text| && (atom == Lit(text[i]) || (atom.Any? && text[i] != '\n'))
  }

  predicate MatchHere(items: seq<Item>, text: string, i: nat)
    requires i <= |text|
    decreases |text| - i, |items|
  {
    if items == [] then true else
    var Item(atom, q) := items[0];
    if atom.Start? then i == 0 && MatchHere(items[1..], text, i)
    else if atom.End? then i == |text| && MatchHere(items[1..], text, i)
    else match q
      case One => Takes(atom, text, i) && MatchHere(items[1..], text, i + 1)
      case Opt => MatchHere(items[1..], text, i) || (Takes(atom, text, i) && MatchHere(items[1..], text, i + 1))
      case Plus => Takes(atom, text, i) && MatchHere([Item(atom, Star)] + items[1..], text, i + 1)
      case Star => MatchHere(items[1..], text, i) || (Takes(atom, text, i) && MatchHere(items, text, i + 1))
  }

  /** is_match: the pattern may start anywhere. */
  predicate IsMatch(items: seq<Item>, text: string) {
    exists i :: 0 <= i <= |text| && MatchHere(items, text, i)
  }

  predicate TakesRun(atom: Atom, text: string, i: nat, k: nat) {
    i + k <= |text| && forall j :: i <= j < i + k ==> Takes(atom, text, j)
  }

  predicate Allows(q: Quantifier, k: nat) {
    match q
    case One => k == 1
    case Opt => k <= 1
    case Plus => k >= 1
    case Star => true
  }

  /** A quantified atom and the rest of the pattern match the characters from i as k of the atom and then the rest. */
  ghost predicate Divides(atom: Atom, rest: seq<Item>, text: string, i: nat, k: nat) {
    TakesRun(atom, text, i, k) && MatchHere(rest, text, i + k)
  }

  lemma DividesLater(atom: Atom, rest: seq<Item>, text: string, i: nat, k: nat)
    requires Takes(atom, text, i)
    ensures Divides(atom, rest, text, i, k + 1) <==> Divides(atom, rest, text, i + 1, k)
  {
  }

  lemma {:induction false} StarExact(atom: Atom, rest: seq<Item>, text: string, i: nat)
    requires i <= |text| && !atom.Start? && !atom.End?
    ensures MatchHere([Item(atom, Star)] + rest, text, i) <==> exists k: nat :: Divides(atom, rest, text, i, k)
    decreases |text| - i
  {
    var items := [Item(atom, Star)] + rest;
    assert items[1..] == rest;
    assert MatchHere(rest, text, i) <==> Divides(atom, rest, text, i, 0);
    if Takes(atom, text, i) {
      var next := i + 1;
      StarExact(atom, rest, text, next);
      if k: nat :| Divides(atom, rest, text, i, k) {
        if k > 0 { DividesLater(atom, rest, text, i, k - 1); }
      }
      if k: nat :| Divides(atom, rest, text, next, k) {
        DividesLater(atom, rest, text, i, k);
      }
    } else {
      forall k: nat | Divides(atom, rest, text, i, k) ensures k == 0 {
      }
    }
  }

  /** The postfix operators: a pattern goes on after any number of characters of its first atom that the operator
    * allows, one without an operator, and after no other number. */
  lemma QuantifierExact(atom: Atom, q: Quantifier, rest: seq<Item>, text: string, i: nat)
    requires i <= |text| && !atom.Start? && !atom.End?
    ensures MatchHere([Item(atom, q)] + rest, text, i) <==>
            exists k: nat :: Allows(q, k) && Divides(atom, rest, text, i, k)
  {
    var items := [Item(atom, q)] + rest;
    assert items[1..] == rest;
    assert MatchHere(rest, text, i) <==> Divides(atom, rest, text, i, 0);
    assert Takes(atom, text, i) && MatchHere(rest, text, i + 1) <==> Divides(atom, rest, text, i, 1);
    if q.Star? {
      StarExact(atom, rest, text, i);
    } else if q.Plus? {
      PlusExact(atom, rest, text, i);
    }
  }

  lemma PlusExact(atom: Atom, rest: seq<Item>, text: string, i: nat)
    requires i <= |text| && !atom.Start? && !atom.End?
    ensures MatchHere([Item(atom, Plus)] + rest, text, i) <==>
            exists k: nat :: k >= 1 && Divides(atom, rest, text, i, k)
  {
    assert ([Item(atom, Plus)] + rest)[1..] == rest;
    if Takes(atom, text, i) {
      var next := i + 1;
      StarExact(atom, rest, text, next);
      if k: nat :| k >= 1 && Divides(atom, rest, text, i, k) {
        DividesLater(atom, rest, text, i, k - 1);
      }
      if k: nat :| Divides(atom, rest, text, next, k) {
        DividesLater(atom, rest, text, i, k);
      }
    } else {
      forall k: nat | Divides(atom, rest, text, i, k) ensures k == 0 {
      }
    }
  }

  // ---------- escaping ----------

  /** Drop one backslash before each escaped character. */
  function Unescaped(pattern: string): string
    decreases |pattern|
  {
    if pattern == "" then ""
    else if pattern[0] == '\\' && |pattern| > 1 then [pattern[1]] + Unescaped(pattern[2..])
    else [pattern[0]] + Unescaped(pattern[1..])
  }

  lemma {:induction false} UnescapeInverts(s: string)
    ensures Unescaped(Escaped(s)) == s
  {
    if s != "" {
      UnescapeInverts(s[1..]);
      if IsMeta(s[0]) {
        assert Escaped(s)[2..] == Escaped(s[1..]);
      } else {
        assert Escaped(s)[1..] == Escaped(s[1..]);
      }
    }
  }

  lemma EscapeInjective(s: string, t: string)
    requires Escaped(s) == Escaped(t)
    ensures s == t
  {
    UnescapeInverts(s);
    UnescapeInverts(t);
  }

  function Literals(s: string): (items: seq<Item>)
    ensures |items| == |s| && forall i :: 0 <= i < |s| ==> items[i] == Item(Lit(s[i]), One)
  {
    seq(|s|, i requires 0 <= i < |s| => Item(Lit(s[i]), One))
  }

  lemma EscapedHead(s: string)
    requires s != ""
    ensures HeadQuantifier(Escaped(s)) == One
    ensures var width := if IsMeta(s[0]) then 2 else 1;
            && (forall first :: HeadAtom(Escaped(s), first) == Head(Lit(s[0]), width))
            && Escaped(s)[width..] == Escaped(s[1..])
  {
    if IsMeta(s[0]) {
      assert Escaped(s) == ['\\', s[0]] + Escaped(s[1..]);
    } else {
      assert Escaped(s) == [s[0]] + Escaped(s[1..]);
    }
  }

  /** An escaped text compiles, to its own characters and nothing else: no bare metacharacter. */
  lemma {:induction false} EscapedCompilesToLiterals(s: string, first: bool)
    ensures ReadFrom(Escaped(s), first) == Compiled(Literals(s))
    decreases |s|
  {
    if s != "" {
      EscapedHead(s);
      EscapedCompilesToLiterals(s[1..], false);
      if s[1..] != "" { EscapedHead(s[1..]); }
      assert Literals(s) == [Item(Lit(s[0]), One)] + Literals(s[1..]);
    }
  }

  lemma {:induction false} LiteralsMatchHere(s: string, text: string, i: nat)
    requires i <= |text|
    ensures MatchHere(Literals(s), text, i) <==> At(text, s, i)
    decreases |s|
  {
    if s != "" {
      assert Literals(s)[1..] == Literals(s[1..]);
      if i < |text| && text[i] == s[0] {
        LiteralsMatchHere(s[1..], text, i + 1);
        if i + |s| <= |text| {
          assert text[i..i + |s|] == [text[i]] + text[i + 1..i + |s|];
        }
      } else if i + |s| <= |text| {
        assert text[i..i + |s|][0] == text[i];
      }
    }
  }

  /** The rule built from s matches exactly the texts that contain s. */
  lemma EscapedMatchesIffContains(s: string, text: string)
    ensures Read(Escaped(s)).Compiled?
    ensures IsMatch(Read(Escaped(s)).items, text) <==> Contains(text, s)
  {
    EscapedCompilesToLiterals(s, true);
    forall i: nat | i <= |text| ensures MatchHere(Literals(s), text, i) <==> At(text, s, i) {
      LiteralsMatchHere(s, text, i);
    }
  }

  // ---------- the content gate ----------

  /** Whether the engine finds the pattern in the text; for a pattern that is not read here, `unreadHits` are
    * those it finds. */
  predicate Finds(pattern: string, text: string, unreadHits: set<string>) {
    match Read(pattern)
    case Compiled(items) => IsMatch(items, text)
    case Malformed => false
    case Unread => pattern in unreadHits
  }

  /** `block_reason`: the first rule that compiles and matches. A rule that does not compile
    * is skipped. */
  function BlockReason(patterns: seq<string>, text: string, unreadHits: set<string>): Option<string> {
    if patterns == [] then None
    else if Finds(patterns[0], text, unreadHits) then Some(patterns[0])
    else BlockReason(patterns[1..], text, unreadHits)
  }

  function RulesOf(picked: seq<string>): seq<string> {
    if picked == [] then [] else [Escaped(picked[0])] + RulesOf(picked[1..])
  }

  /** With rules built from picked texts, a capture is blocked exactly when it contains one of
    * them ... */
  lemma {:induction false} BlocksIffContains(picked: seq<string>, text: string, unreadHits: set<string>)
    ensures BlockReason(RulesOf(picked), text, unreadHits).Some? <==> exists s :: s in picked && Contains(text, s)
  {
    if picked != [] {
      EscapedMatchesIffContains(picked[0], text);
      BlocksIffContains(picked[1..], text, unreadHits);
      assert RulesOf(picked)[1..] == RulesOf(picked[1..]);
      assert forall s :: s in picked <==> s == picked[0] || s in picked[1..];
    }
  }

  /** ... and the reported rule is that of the first one it contains. */
  lemma {:induction false} BlocksWithFirst(picked: seq<string>, text: string, unreadHits: set<string>, k: nat)
    requires k < |picked| && Contains(text, picked[k])
    requires forall j :: 0 <= j < k ==> !Contains(text, picked[j])
    ensures BlockReason(RulesOf(picked), text, unreadHits) == Some(Escaped(picked[k]))
  {
    EscapedMatchesIffContains(picked[0], text);
    assert RulesOf(picked)[1..] == RulesOf(picked[1..]);
    if k > 0 { BlocksWithFirst(picked[1..], text, unreadHits, k - 1); }
  }

  /** A rule that does not compile only cancels itself, whatever the others are. */
  lemma {:induction false} BadRuleOnlyCancelsItself(
      before: seq<string>, bad: string, after: seq<string>, text: string, unreadHits: set<string>)
    requires Read(bad).Malformed?
    ensures BlockReason(before + [bad] + after, text, unreadHits) == BlockReason(before + after, text, unreadHits)
  {
    if before == [] {
      assert [] + [bad] + after == [bad] + after && [] + after == after;
    } else {
      BadRuleOnlyCancelsItself(before[1..], bad, after, text, unreadHits);
      assert (before + [bad] + after)[1..] == before[1..] + [bad] + after;
      assert (before + after)[1..] == before[1..] + after;
    }
  }

  lemma SameHead(pattern: string, first: bool, c: char)
    requires pattern != "" && HeadAtom(pattern, first).Head?
    ensures HeadAtom(pattern + [c], first) == HeadAtom(pattern, first)
  {
  }

  lemma SameQuantifier(rest: string, c: char)
    requires c != '*' && c != '+' && c != '?'
    ensures HeadQuantifier(rest + [c]) == HeadQuantifier(rest)
  {
  }

  lemma DropAppend(s: string, c: char, n: nat)
    requires n <= |s|
    ensures (s + [c])[n..] == s[n..] + [c]
  {
  }

  lemma {:induction false} LoneBackslash(pattern: string, first: bool, c: char)
    requires ReadFrom(pattern, first).Compiled? && c == '\\'
    ensures ReadFrom(pattern + [c], first).Malformed?
    decreases |pattern|
  {
    if pattern == "" {
      assert pattern + [c] == [c];
    } else {
      var Head(_, width) := HeadAtom(pattern, first);
      var next := if HeadQuantifier(pattern[width..]) == One then width else width + 1;
      SameHead(pattern, first, c);
      SameQuantifier(pattern[width..], c);
      DropAppend(pattern, c, width);
      DropAppend(pattern, c, next);
      LoneBackslash(pattern[next..], false, c);
    }
  }

  /** The rules that do not compile here: an operator with nothing before it, and whatever is read followed by
    * a backslash with nothing after it. */
  lemma MalformedRules(pattern: string)
    ensures Read("*" + pattern).Malformed? && Read("+" + pattern).Malformed? && Read("?" + pattern).Malformed?
    ensures Read(pattern).Compiled? ==> Read(pattern + ['\\']).Malformed?
  {
    if Read(pattern).Compiled? { LoneBackslash(pattern, true, '\\'); }
  }
}
