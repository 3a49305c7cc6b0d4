/** The string operations several models share. */
module Text {

  import opened Wrappers

  /** The Unicode White_Space characters. */
  predicate IsWhitespace(c: char) {
    || '\U{9}' <= c <= '\U{D}'
    || c == ' ' || c == '\U{85}' || c == '\U{A0}' || c == '\U{1680}' || c == '\U{2028}' || c == '\U{2029}'
    || c == '\U{202F}' || c == '\U{205F}' || c == '\U{3000}'
    || '\U{2000}' <= c <= '\U{200A}'
  }

  predicate IsDigit(c: char) {
    '0' <= c <= '9'
  }

  predicate AllDigits(s: string) {
    forall i :: 0 <= i < |s| ==> IsDigit(s[i])
  }

  function Decimal(n: nat): string {
    if n < 10 then ['0' + n as char] else Decimal(n / 10) + ['0' + (n % 10) as char]
  }

  /** The number a run of digits stands for. */
  function DecimalValue(digits: string): nat {
    if digits == "" then 0
    else
      var c := digits[|digits| - 1];
      10 * DecimalValue(digits[..|digits| - 1]) + if IsDigit(c) then c as int - '0' as int else 0
  }

  lemma OneDigitReads(c: char)
    requires IsDigit(c)
    ensures DecimalValue([c]) == c as int - '0' as int
  {
    assert [c][..0] == "";
    assert DecimalValue([c][..0]) == 0;
  }

  lemma {:induction false} DecimalReadsBack(n: nat)
    ensures Decimal(n) != "" && AllDigits(Decimal(n)) && DecimalValue(Decimal(n)) == n
  {
    if n < 10 {
      OneDigitReads('0' + n as char);
    } else {
      DecimalReadsBack(n / 10);
      DigitAppends(Decimal(n / 10), n % 10);
    }
  }

  lemma DigitAppends(s: string, d: nat)
    requires AllDigits(s) && d < 10
    ensures AllDigits(s + ['0' + d as char]) && DecimalValue(s + ['0' + d as char]) == 10 * DecimalValue(s) + d
  {
    assert (s + ['0' + d as char])[..|s|] == s;
  }

  function TrimStart(s: string): (t: string)
    ensures |t| <= |s| && t == s[|s| - |t|..]
    ensures t != "" ==> !IsWhitespace(t[0])
  {
    if s != "" && IsWhitespace(s[0]) then TrimStart(s[1..]) else s
  }

  function TrimEnd(s: string): (t: string)
    ensures t <= s
    ensures t != "" ==> !IsWhitespace(t[|t| - 1])
  {
    if s != "" && IsWhitespace(s[|s| - 1]) then TrimEnd(s[..|s| - 1]) else s
  }

  function Trim(s: string): string {
    TrimEnd(TrimStart(s))
  }

  ghost predicate Blank(s: string) {
    forall i :: 0 <= i < |s| ==> IsWhitespace(s[i])
  }

  lemma {:induction false} TrimStartStrips(s: string)
    ensures Blank(s[..|s| - |TrimStart(s)|])
  {
    var n := |s| - |TrimStart(s)|;
    if n > 0 {
      var rest := s[1..];
      TrimStartStrips(rest);
      assert s[..n][1..] == rest[..n - 1];
      BlankCons(s[..n]);
    }
  }

  lemma BlankCons(s: string)
    requires s != "" && IsWhitespace(s[0]) && Blank(s[1..])
    ensures Blank(s)
  {
    forall i | 0 <= i < |s| ensures IsWhitespace(s[i]) {
      if i > 0 { assert s[i] == s[1..][i - 1]; }
    }
  }

  lemma {:induction false} TrimEndStrips(s: string)
    ensures Blank(s[|TrimEnd(s)|..])
  {
    var k := |TrimEnd(s)|;
    if k < |s| {
      var rest := s[..|s| - 1];
      TrimEndStrips(rest);
      assert s[k..] == rest[k..] + [s[|s| - 1]];
      BlankSnoc(rest[k..], s[|s| - 1]);
    }
  }

  lemma BlankSnoc(s: string, c: char)
    requires Blank(s) && IsWhitespace(c)
    ensures Blank(s + [c])
  {
  }

  /** Nothing is left of a text exactly when it is all white space. */
  lemma TrimsToNothingIff(s: string)
    ensures Trim(s) == "" <==> Blank(s)
  {
    var t := TrimStart(s);
    var n := |s| - |t|;
    TrimStartStrips(s);
    TrimEndStrips(t);
    assert t[0..] == t;
    if t == "" {
      assert s[..n] == s;
    } else {
      assert s[n] == t[0];
    }
  }

  lemma TrimTwice(s: string)
    ensures Trim(Trim(s)) == Trim(s)
  {
    var t := Trim(s);
    if t != "" { assert TrimStart(s)[0] == t[0]; }
  }

  /** `pattern` stands in `s` at index i. */
  predicate At(s: string, pattern: string, i: nat) {
    i + |pattern| <= |s| && s[i..i + |pattern|] == pattern
  }

  ghost predicate Contains(s: string, pattern: string) {
    exists i :: At(s, pattern, i)
  }

  /** The first index at which `pattern` stands in `s`. */
  function Find(s: string, pattern: string): (r: Option<nat>)
    ensures r.Some? ==> At(s, pattern, r.value) && forall j :: 0 <= j < r.value ==> !At(s, pattern, j)
    ensures r.None? ==> forall j :: !At(s, pattern, j)
  {
    FindFrom(s, pattern, 0)
  }

  function FindFrom(s: string, pattern: string, from: nat): (r: Option<nat>)
    requires from <= |s| + 1
    ensures r.Some? ==> from <= r.value && At(s, pattern, r.value)
    ensures r.Some? ==> forall j :: from <= j < r.value ==> !At(s, pattern, j)
    ensures r.None? ==> forall j :: from <= j ==> !At(s, pattern, j)
    decreases |s| + 1 - from
  {
    if from > |s| then None
    else if At(s, pattern, from) then Some(from)
    else FindFrom(s, pattern, from + 1)
  }
}
