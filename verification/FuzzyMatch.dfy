/** Launcher scoring: greedy subsequence matching with a prefix / word-start bonus. Case
  * folding and character classes are those of a `CharClass`, whatever Unicode tables it holds.
  */
module FuzzyMatch {

  import opened Wrappers

  /** `lower` may map one character to several, as Unicode does. */
  datatype CharClass = CharClass(
    lower: char -> string, upper: char -> bool, alphanumeric: char -> bool, alphabetic: char -> bool)

  datatype FuzzyHit = FuzzyHit(prefix: real, contiguity: real) {
    function Total(freq: real): real {
      0.5 * prefix + 0.3 * contiguity + 0.2 * freq
    }
  }

  function Fold(cc: CharClass, s: string): string {
    if s == "" then "" else Fold(cc, s[..|s| - 1]) + cc.lower(s[|s| - 1])
  }

  // ---------- subsequences ----------

  /** `at` is an increasing choice of positions of n that spells q. */
  ghost predicate Embeds(q: string, n: string, at: seq<nat>) {
    && |at| == |q|
    && (forall i, j :: 0 <= i < j < |at| ==> at[i] < at[j])
    && (forall i :: 0 <= i < |at| ==> at[i] < |n| && n[at[i]] == q[i])
  }

  ghost predicate Subsequence(q: string, n: string) {
    exists at :: Embeds(q, n, at)
  }

  lemma SubsequenceInside(q: string, a: string, b: string)
    ensures Subsequence(q, a + q + b)
  {
    assert Embeds(q, a + q + b, seq(|q|, i requires 0 <= i < |q| => |a| + i));
  }

  lemma SubsequenceSkips(q: string, n: string, more: string)
    requires Subsequence(q, n)
    ensures Subsequence(q, n + more)
  {
    var at :| Embeds(q, n, at);
    assert Embeds(q, n + more, at);
  }

  lemma SubsequenceExtends(q: string, n: string, more: string)
    requires Subsequence(q, n)
    ensures Subsequence(q + more, n + more)
  {
    var at :| Embeds(q, n, at);
    assert Embeds(q + more, n + more, at + seq(|more|, i requires 0 <= i < |more| => |n| + i));
  }

  lemma SubsequencePrefix(q: string, p: string, n: string)
    requires Subsequence(q, n) && p <= q
    ensures Subsequence(p, n)
  {
    var at :| Embeds(q, n, at);
    assert Embeds(p, n, at[..|p|]);
  }

  // ---------- the greedy scan ----------

  /** How many query characters are matched, the length of the current run, the longest run. */
  datatype Scan = Scan(qi: nat, run: nat, best: nat)

  function Max(a: nat, b: nat): nat {
    if a < b then b else a
  }

  predicate Takes(q: string, s: Scan, c: char) {
    s.qi < |q| && c == q[s.qi]
  }

  function Step(q: string, s: Scan, c: char): Scan {
    if Takes(q, s, c) then Scan(s.qi + 1, s.run + 1, Max(s.best, s.run + 1))
    else Scan(s.qi, 0, s.best)
  }

  function Scanned(q: string, n: string): Scan {
    if n == "" then Scan(0, 0, 0) else Step(q, Scanned(q, n[..|n| - 1]), n[|n| - 1])
  }

  /** The positions of n the scan takes. */
  function Alignment(q: string, n: string): seq<nat> {
    if n == "" then []
    else
      var init := n[..|n| - 1];
      if Takes(q, Scanned(q, init), n[|n| - 1]) then Alignment(q, init) + [|n| - 1] else Alignment(q, init)
  }

  lemma EmbedsOneMore(q: string, n: string, at: seq<nat>)
    requires q != "" && n != "" && q[|q| - 1] == n[|n| - 1]
    requires Embeds(q[..|q| - 1], n[..|n| - 1], at)
    ensures Embeds(q, n, at + [|n| - 1])
  {
  }

  lemma {:induction false} ScanEmbeds(q: string, n: string)
    ensures Scanned(q, n).qi <= |q|
    ensures Embeds(q[..Scanned(q, n).qi], n, Alignment(q, n))
  {
    if n != "" {
      ScanEmbeds(q, n[..|n| - 1]);
      var k := Scanned(q, n[..|n| - 1]).qi;
      if k < |q| && n[|n| - 1] == q[k] {
        assert q[..k + 1][..k] == q[..k];
        EmbedsOneMore(q[..k + 1], n, Alignment(q, n[..|n| - 1]));
      }
    }
  }

  /** No embedding gets further than the greedy scan. */
  lemma {:induction false} ScanIsFurthest(q: string, n: string, m: nat, at: seq<nat>)
    requires m <= |q| && Embeds(q[..m], n, at)
    ensures m <= Scanned(q, n).qi
  {
    if m > 0 {
      assert at[m - 1] < |n|;
      var init := n[..|n| - 1];
      assert forall i :: 0 <= i < m - 1 ==> at[i] < at[m - 1];
      if at[m - 1] == |n| - 1 {
        assert Embeds(q[..m - 1], init, at[..m - 1]);
        ScanIsFurthest(q, init, m - 1, at[..m - 1]);
        assert n[at[m - 1]] == q[..m][m - 1];
      } else {
        assert Embeds(q[..m], init, at);
        ScanIsFurthest(q, init, m, at);
      }
    }
  }

  /** The greedy scan is complete: it exhausts the query exactly when the query is a subsequence. */
  lemma ScanFindsSubsequence(q: string, n: string)
    ensures Scanned(q, n).qi == |q| <==> Subsequence(q, n)
  {
    ScanEmbeds(q, n);
    if Subsequence(q, n) {
      var at :| Embeds(q, n, at);
      assert q[..|q|] == q;
      ScanIsFurthest(q, n, |q|, at);
    }
    if Scanned(q, n).qi == |q| { assert q[..|q|] == q; }
  }

  // ---------- runs ----------

  ghost predicate Increasing(at: seq<nat>, read: nat) {
    && (forall i, j :: 0 <= i < j < |at| ==> at[i] < at[j])
    && (forall i :: 0 <= i < |at| ==> at[i] < read)
  }

  ghost predicate Consecutive(at: seq<nat>, from: nat, len: nat) {
    from + len <= |at| && forall k :: from <= k < from + len ==> at[k] == at[from] + (k - from)
  }

  /** `run` is the stretch of consecutive positions that ends at the last character read. */
  ghost predicate RunExact(at: seq<nat>, run: nat, read: nat) {
    && run <= |at|
    && Consecutive(at, |at| - run, run)
    && (run > 0 ==> at[|at| - 1] == read - 1)
    && (|at| > run ==> at[|at| - run - 1] + run + 1 < read)
  }

  ghost predicate BestExact(at: seq<nat>, best: nat) {
    && (exists from: nat :: Consecutive(at, from, best))
    && forall from: nat, len: nat :: Consecutive(at, from, len) ==> len <= best
  }

  lemma RunTaken(at: seq<nat>, run: nat, read: nat)
    requires RunExact(at, run, read)
    ensures RunExact(at + [read], run + 1, read + 1)
  {
    RunGrows(at, run, read);
  }

  lemma RunBroken(at: seq<nat>, run: nat, read: nat)
    requires RunExact(at, run, read) && Increasing(at, read)
    ensures RunExact(at, 0, read + 1)
  {
  }

  lemma AlignmentIncreases(q: string, n: string)
    ensures Increasing(Alignment(q, n), |n|)
  {
    ScanEmbeds(q, n);
  }

  lemma RunStep(at: seq<nat>, at': seq<nat>, run: nat, run': nat, taken: bool, read: nat)
    requires RunExact(at, run, read) && Increasing(at, read)
    requires at' == (if taken then at + [read] else at) && run' == if taken then run + 1 else 0
    ensures RunExact(at', run', read + 1)
  {
    if taken { RunTaken(at, run, read); } else { RunBroken(at, run, read); }
  }

  lemma {:induction false} RunIsExact(q: string, n: string)
    ensures RunExact(Alignment(q, n), Scanned(q, n).run, |n|)
  {
    if n != "" {
      var init, c := n[..|n| - 1], n[|n| - 1];
      RunIsExact(q, init);
      AlignmentIncreases(q, init);
      RunStep(Alignment(q, init), Alignment(q, n), Scanned(q, init).run, Scanned(q, n).run,
              Takes(q, Scanned(q, init), c), |init|);
    }
  }

  lemma BestIsNext(at: seq<nat>, at': seq<nat>, s: Scan, best': nat, taken: bool, read: nat)
    requires RunExact(at, s.run, read) && BestExact(at, s.best)
    requires at' == (if taken then at + [read] else at) && best' == if taken then Max(s.best, s.run + 1) else s.best
    ensures BestExact(at', best')
  {
    if taken { BestStep(at, s.run, s.best, read); }
  }

  /** The best run is the longest stretch of consecutive positions in the greedy alignment. */
  lemma {:induction false} BestIsExact(q: string, n: string)
    ensures BestExact(Alignment(q, n), Scanned(q, n).best)
  {
    if n == "" {
      assert Consecutive([], 0, 0);
    } else {
      var init, c := n[..|n| - 1], n[|n| - 1];
      BestIsExact(q, init);
      RunIsExact(q, init);
      BestIsNext(Alignment(q, init), Alignment(q, n), Scanned(q, init), Scanned(q, n).best,
                 Takes(q, Scanned(q, init), c), |init|);
    }
  }

  lemma BestStep(at: seq<nat>, run: nat, best: nat, read: nat)
    requires RunExact(at, run, read) && BestExact(at, best)
    ensures BestExact(at + [read], Max(best, run + 1))
  {
    var at' := at + [read];
    if best < run + 1 {
      RunGrows(at, run, read);
    } else {
      var from: nat :| Consecutive(at, from, best);
      ConsecutiveAppend(at, from, best, read);
    }
    forall from: nat, len: nat | Consecutive(at', from, len) ensures len <= Max(best, run + 1) {
      if from + len <= |at| {
        ConsecutiveAppend(at, from, len, read);
      } else if len > run + 1 {
        RunIsMaximal(at, run, read, from, len);
      }
    }
  }

  lemma ConsecutiveAppend(at: seq<nat>, from: nat, len: nat, next: nat)
    requires from + len <= |at|
    ensures Consecutive(at, from, len) <==> Consecutive(at + [next], from, len)
  {
    assert forall k :: from <= k < from + len ==> (at + [next])[k] == at[k];
  }

  lemma RunGrows(at: seq<nat>, run: nat, read: nat)
    requires RunExact(at, run, read)
    ensures Consecutive(at + [read], |at| - run, run + 1)
  {
    var at' := at + [read];
    var from: nat := |at| - run;
    forall k | from <= k < from + run + 1 ensures at'[k] == at'[from] + (k - from) {
      if k == |at| && run > 0 { assert at[|at| - 1] == at[from] + (|at| - 1 - from); }
    }
  }

  lemma RunIsMaximal(at: seq<nat>, run: nat, read: nat, from: nat, len: nat)
    requires RunExact(at, run, read) && from + len == |at| + 1 && len > run + 1
    ensures !Consecutive(at + [read], from, len)
  {
    var at' := at + [read];
    var k := |at| - run - 1;
    assert at'[k] + (|at| - k) < at'[|at|];
  }

  ghost predicate SharedBlock(q: string, n: string, i: nat, j: nat, len: nat) {
    i + len <= |q| && j + len <= |n| && q[i..i + len] == n[j..j + len]
  }

  lemma ConsecutiveIsBlock(q: string, n: string, at: seq<nat>, from: nat, len: nat)
    requires Embeds(q, n, at) && Consecutive(at, from, len) && len > 0
    ensures SharedBlock(q, n, from, at[from], len)
  {
    var j := at[from];
    assert at[from + len - 1] == j + (len - 1);
    var u, v := q[from..from + len], n[j..j + len];
    forall k | 0 <= k < len ensures u[k] == v[k] {
      assert at[from + k] == j + k;
    }
  }

  /** best_run is the length of a query block that occurs contiguously in the name. */
  lemma BestIsContiguousBlock(q: string, n: string)
    ensures Scanned(q, n).best <= |q|
    ensures exists i: nat, j: nat :: SharedBlock(q, n, i, j, Scanned(q, n).best)
  {
    BestIsExact(q, n);
    ScanEmbeds(q, n);
    var at, best, m := Alignment(q, n), Scanned(q, n).best, Scanned(q, n).qi;
    var from: nat :| Consecutive(at, from, best);
    if best > 0 {
      ConsecutiveIsBlock(q[..m], n, at, from, best);
      assert q[..m][from..from + best] == q[from..from + best];
      assert SharedBlock(q, n, from, at[from], best);
    } else {
      assert SharedBlock(q, n, 0, 0, best);
    }
  }

  /** The query stands in the name where its first character first does. */
  ghost predicate StandsAtFirst(q: string, n: string, p: nat) {
    q != "" && p + |q| <= |n| && n[p..p + |q|] == q && q[0] !in n[..p]
  }

  ghost predicate StandsWhereItStarts(q: string, n: string) {
    exists p: nat :: StandsAtFirst(q, n, p)
  }

  lemma {:induction false} NothingTakenYet(q: string, n: string)
    requires q != "" && q[0] !in n
    ensures Scanned(q, n) == Scan(0, 0, 0)
  {
    if n != "" { NothingTakenYet(q, n[..|n| - 1]); }
  }

  lemma {:induction false} BlockScan(q: string, n: string, p: nat, k: nat)
    requires StandsAtFirst(q, n, p) && k <= |q|
    ensures Scanned(q, n[..p + k]) == Scan(k, k, k)
  {
    if k == 0 {
      NothingTakenYet(q, n[..p]);
    } else {
      assert n[..p + k][..p + k - 1] == n[..p + (k - 1)];
      assert n[p + (k - 1)] == n[p..p + |q|][k - 1];
      BlockScan(q, n, p, k - 1);
    }
  }

  lemma {:induction false} BestOnlyGrows(q: string, n: string, k: nat)
    requires k <= |n|
    ensures Scanned(q, n[..k]).best <= Scanned(q, n).best
  {
    if k == |n| {
      assert n[..k] == n;
    } else {
      assert n[..|n| - 1][..k] == n[..k];
      BestOnlyGrows(q, n[..|n| - 1], k);
    }
  }

  lemma {:induction false} AlignmentOnlyGrows(q: string, n: string, k: nat)
    requires k <= |n|
    ensures Alignment(q, n[..k]) <= Alignment(q, n)
  {
    if k == |n| {
      assert n[..k] == n;
    } else {
      assert n[..|n| - 1][..k] == n[..k];
      AlignmentOnlyGrows(q, n[..|n| - 1], k);
    }
  }

  /** The first position taken is no later than any at which the first query character stands. */
  lemma FirstTakenIsFirst(q: string, n: string, i: nat)
    requires q != "" && i < |n| && n[i] == q[0]
    ensures Alignment(q, n) != [] && Alignment(q, n)[0] <= i
  {
    var front := n[..i + 1];
    assert Embeds(q[..1], front, [i]);
    ScanIsFurthest(q, front, 1, [i]);
    ScanEmbeds(q, front);
    AlignmentOnlyGrows(q, n, i + 1);
    assert Alignment(q, front)[0] == Alignment(q, n)[0] && Alignment(q, front)[0] < |front|;
  }

  lemma WholeRunStandsAtFirst(q: string, n: string)
    requires q != "" && Scanned(q, n).best == |q|
    ensures Alignment(q, n) != [] && StandsAtFirst(q, n, Alignment(q, n)[0])
  {
    var at := Alignment(q, n);
    ScanEmbeds(q, n);
    BestIsExact(q, n);
    var from: nat :| Consecutive(at, from, |q|);
    assert from == 0 && |at| == |q| && q[..|q|] == q;
    ConsecutiveIsBlock(q, n, at, 0, |q|);
    forall i | 0 <= i < at[0] ensures n[..at[0]][i] != q[0] {
      if n[i] == q[0] { FirstTakenIsFirst(q, n, i); }
    }
  }

  /** The whole query counts as one run exactly when it stands where its first character first does. */
  lemma WholeRunIff(q: string, n: string)
    requires q != ""
    ensures Scanned(q, n).best == |q| <==> StandsWhereItStarts(q, n)
  {
    if Scanned(q, n).best == |q| {
      WholeRunStandsAtFirst(q, n);
    }
    if p: nat :| StandsAtFirst(q, n, p) {
      BlockScan(q, n, p, |q|);
      BestOnlyGrows(q, n, p + |q|);
      BestIsContiguousBlock(q, n);
    }
  }

  // ---------- word starts ----------

  predicate IsBoundary(cc: CharClass, name: string, i: nat)
    requires i < |name|
  {
    i == 0 || name[i - 1] in [' ', '-', '_', '.'] || cc.upper(name[i])
  }

  ghost predicate BoundaryStart(cc: CharClass, q: string, name: string) {
    exists i :: 0 <= i < |name| && IsBoundary(cc, name, i) && q <= Fold(cc, name[i..])
  }

  method IsBoundaryStart(cc: CharClass, q: string, name: string) returns (found: bool)
    ensures found <==> BoundaryStart(cc, q, name)
  {
    for i := 0 to |name|
      invariant forall k :: 0 <= k < i && IsBoundary(cc, name, k) ==> !(q <= Fold(cc, name[k..]))
    {
      if IsBoundary(cc, name, i) {
        var rest := Fold(cc, name[i..]);
        if q <= rest {
          return true;
        }
      }
    }
    return false;
  }

  datatype Acronym = Acronym(firsts: string, prevIsSep: bool, prevUpper: bool)

  function AcronymOf(cc: CharClass, name: string): Acronym {
    if name == "" then Acronym("", true, false) else
    var a := AcronymOf(cc, name[..|name| - 1]);
    var c := name[|name| - 1];
    if !cc.alphanumeric(c) then Acronym(a.firsts, true, false) else
    var boundary := a.prevIsSep || (cc.upper(c) && !a.prevUpper);
    Acronym(if boundary && cc.alphabetic(c) then a.firsts + cc.lower(c) else a.firsts, false, cc.upper(c))
  }

  method IsAcronymPrefix(cc: CharClass, q: string, name: string) returns (found: bool)
    ensures found <==> q <= AcronymOf(cc, name).firsts
  {
    var firsts, prevIsSep, prevUpper := "", true, false;
    for i := 0 to |name|
      invariant Acronym(firsts, prevIsSep, prevUpper) == AcronymOf(cc, name[..i])
    {
      assert name[..i + 1][..i] == name[..i];
      var c := name[i];
      if !cc.alphanumeric(c) {
        prevIsSep, prevUpper := true, false;
      } else {
        var boundary := prevIsSep || (cc.upper(c) && !prevUpper);
        if boundary && cc.alphabetic(c) {
          firsts := firsts + cc.lower(c);
        }
        prevIsSep := false;
        prevUpper := cc.upper(c);
      }
    }
    assert name[..|name|] == name;
    found := q <= firsts;
  }

  lemma {:induction false} FoldConcat(cc: CharClass, a: string, b: string)
    ensures Fold(cc, a + b) == Fold(cc, a) + Fold(cc, b)
  {
    if b == "" {
      assert a + b == a;
    } else {
      assert (a + b)[..|a + b| - 1] == a + b[..|b| - 1];
      FoldConcat(cc, a, b[..|b| - 1]);
    }
  }

  lemma {:induction false} FirstsAreSubsequence(cc: CharClass, name: string)
    ensures Subsequence(AcronymOf(cc, name).firsts, Fold(cc, name))
  {
    if name == "" {
      assert Embeds("", "", []);
    } else {
      var init := name[..|name| - 1];
      FirstsAreSubsequence(cc, init);
      SubsequenceSkips(AcronymOf(cc, init).firsts, Fold(cc, init), cc.lower(name[|name| - 1]));
      SubsequenceExtends(AcronymOf(cc, init).firsts, Fold(cc, init), cc.lower(name[|name| - 1]));
    }
  }

  lemma TailIsSubsequence(cc: CharClass, q: string, name: string, i: nat)
    requires i < |name| && q <= Fold(cc, name[i..])
    ensures Subsequence(q, Fold(cc, name))
  {
    var a, rest := Fold(cc, name[..i]), Fold(cc, name[i..]);
    FoldConcat(cc, name[..i], name[i..]);
    assert name[..i] + name[i..] == name;
    SubsequenceInside(q, a, rest[|q|..]);
    assert a + q + rest[|q|..] == a + rest;
  }

  /** A word-start hit, by boundary or by acronym, is always a subsequence of the folded name. */
  lemma WordStartIsSubsequence(cc: CharClass, q: string, name: string)
    requires BoundaryStart(cc, q, name) || q <= AcronymOf(cc, name).firsts
    ensures Subsequence(q, Fold(cc, name))
  {
    if BoundaryStart(cc, q, name) {
      var i :| 0 <= i < |name| && IsBoundary(cc, name, i) && q <= Fold(cc, name[i..]);
      TailIsSubsequence(cc, q, name, i);
    } else {
      FirstsAreSubsequence(cc, name);
      SubsequencePrefix(AcronymOf(cc, name).firsts, q, Fold(cc, name));
    }
  }

  // ---------- the match ----------

  ghost predicate FullPrefix(cc: CharClass, query: string, name: string) {
    Fold(cc, query) <= Fold(cc, name)
  }

  ghost function PrefixScore(cc: CharClass, q: string, name: string): real {
    if q <= Fold(cc, name) then 1.0
    else if BoundaryStart(cc, q, name) || q <= AcronymOf(cc, name).firsts then 0.8
    else 0.0
  }

  /** The prefix / word-start half of the match. */
  method ScorePrefix(cc: CharClass, q: string, name: string) returns (prefix: real)
    ensures prefix == PrefixScore(cc, q, name)
  {
    var n := Fold(cc, name);
    if |n| >= |q| && n[..|q|] == q {
      return 1.0;
    }
    var wordStart := IsBoundaryStart(cc, q, name);
    if !wordStart {
      wordStart := IsAcronymPrefix(cc, q, name);
    }
    prefix := if wordStart then 0.8 else 0.0;
  }

  /** The subsequence half of the match. */
  method ScanName(q: string, n: string) returns (qi: nat, bestRun: nat)
    ensures qi == Scanned(q, n).qi && bestRun == Scanned(q, n).best
  {
    var run := 0;
    qi, bestRun := 0, 0;
    for i := 0 to |n|
      invariant Scan(qi, run, bestRun) == Scanned(q, n[..i])
    {
      assert n[..i + 1][..i] == n[..i];
      if qi < |q| && n[i] == q[qi] {
        qi := qi + 1;
        run := run + 1;
        bestRun := if bestRun < run then run else bestRun;
      } else {
        run := 0;
      }
    }
    assert n[..|n|] == n;
  }

  method FuzzyMatch(cc: CharClass, query: string, name: string) returns (hit: Option<FuzzyHit>)
    ensures hit.Some? <==> Subsequence(Fold(cc, query), Fold(cc, name))
    ensures hit.Some? ==> hit.value == HitOf(cc, query, name)
  {
    var q := Fold(cc, query);
    var n := Fold(cc, name);
    ScanFindsSubsequence(q, n);
    ScanEmbeds(q, n);
    if q == "" {
      return Some(FuzzyHit(0.0, 1.0));
    }
    if n == "" {
      return None;
    }
    var prefix := ScorePrefix(cc, q, name);
    var qi, bestRun := ScanName(q, n);
    if qi < |q| {
      return None;
    }
    return Some(FuzzyHit(prefix, bestRun as real / |q| as real));
  }

  ghost function HitOf(cc: CharClass, query: string, name: string): FuzzyHit {
    var q, n := Fold(cc, query), Fold(cc, name);
    if q == "" then FuzzyHit(0.0, 1.0)
    else FuzzyHit(PrefixScore(cc, q, name), Scanned(q, n).best as real / |q| as real)
  }

  lemma ContiguityAtMostOne(cc: CharClass, query: string, name: string)
    ensures HitOf(cc, query, name).contiguity <= 1.0
  {
    var q, n := Fold(cc, query), Fold(cc, name);
    BestIsContiguousBlock(q, n);
    if q != "" { Ratio(Scanned(q, n).best, |q|); }
  }

  lemma Ratio(a: nat, b: nat)
    requires a <= b && b > 0
    ensures a as real / b as real <= 1.0
    ensures a == b <==> a as real / b as real == 1.0
  {
    if a < b { ProperFraction(a as real, b as real); }
  }

  lemma ProperFraction(x: real, y: real)
    requires x < y && 0.0 < y
    ensures x / y < 1.0
  {
    var r := x / y;
    assert r * y == x;
    if r >= 1.0 { AtLeastOnce(r, y); }
  }

  lemma AtLeastOnce(r: real, y: real)
    requires 1.0 <= r && 0.0 < y
    ensures y <= r * y
  {
    assert 0.0 <= (r - 1.0) * y;
  }

  /** Contiguity is 1 exactly when the folded query stands in the folded name where its first character
    * first does; the query may well stand further on. */
  lemma ContiguityOneIff(cc: CharClass, query: string, name: string)
    requires Fold(cc, query) != ""
    ensures HitOf(cc, query, name).contiguity == 1.0 <==> StandsWhereItStarts(Fold(cc, query), Fold(cc, name))
  {
    var q, n := Fold(cc, query), Fold(cc, name);
    BestIsContiguousBlock(q, n);
    Ratio(Scanned(q, n).best, |q|);
    WholeRunIff(q, n);
  }

  /** A full-prefix hit has contiguity 1. */
  lemma FullPrefixIsContiguous(cc: CharClass, query: string, name: string)
    requires FullPrefix(cc, query, name)
    ensures HitOf(cc, query, name).contiguity == 1.0
  {
    if Fold(cc, query) != "" {
      assert StandsAtFirst(Fold(cc, query), Fold(cc, name), 0);
      ContiguityOneIff(cc, query, name);
    }
  }

  /** A full-prefix hit outranks every hit that is not one, for the same query and frequency. */
  lemma FullPrefixOutranks(cc: CharClass, query: string, name: string, other: string, freq: real)
    requires FullPrefix(cc, query, name) && !FullPrefix(cc, query, other)
    ensures HitOf(cc, query, name).Total(freq) > HitOf(cc, query, other).Total(freq)
  {
    FullPrefixIsContiguous(cc, query, name);
    ContiguityAtMostOne(cc, query, other);
  }

  /** The greedy run can miss a longer block: "ab" stands in "axab", yet the scan takes the first
    * a and the last b. */
  lemma GreedyMayMissTheBlock()
    ensures Scanned("ab", "axab") == Scan(2, 1, 1) && "axab"[2..4] == "ab"
  {
    assert "axab"[..3] == "axa" && "axa"[..2] == "ax" && "ax"[..1] == "a" && "a"[..0] == "";
    assert Scanned("ab", "a") == Scan(1, 1, 1);
    assert Scanned("ab", "ax") == Scan(1, 0, 1);
    assert Scanned("ab", "axa") == Scan(1, 0, 1);
  }

  // ---------- what the score rewards ----------

  /** More use, more contiguity or a better prefix never cost anything, and more use always helps. */
  lemma TotalGrows(a: FuzzyHit, b: FuzzyHit, f: real, g: real)
    requires a.prefix <= b.prefix && a.contiguity <= b.contiguity && f <= g
    ensures a.Total(f) <= b.Total(g)
    ensures f < g || a.prefix < b.prefix || a.contiguity < b.contiguity ==> a.Total(f) < b.Total(g)
  {
  }

  ghost predicate WordStart(cc: CharClass, query: string, name: string) {
    BoundaryStart(cc, Fold(cc, query), name) || Fold(cc, query) <= AcronymOf(cc, name).firsts
  }

  /** A hit at a word start outranks every hit that is neither that nor a full prefix, however contiguous, for the
    * same query and frequency. */
  lemma WordStartOutranks(cc: CharClass, query: string, name: string, other: string, freq: real)
    requires Fold(cc, query) != "" && WordStart(cc, query, name)
    requires !WordStart(cc, query, other) && !FullPrefix(cc, query, other)
    ensures HitOf(cc, query, name).Total(freq) > HitOf(cc, query, other).Total(freq)
  {
    ContiguityAtMostOne(cc, query, other);
    ContiguityNotNegative(cc, query, name);
  }

  lemma ContiguityNotNegative(cc: CharClass, query: string, name: string)
    ensures HitOf(cc, query, name).contiguity >= 0.0
  {
  }

  /** The beginning of a name, what follows a space, a hyphen, an underscore or a dot, and a capital start a word. */
  lemma WordsStartThere(cc: CharClass, q: string, a: string, c: char, b: string)
    requires q <= Fold(cc, [c] + b)
    requires a == "" || cc.upper(c) || a[|a| - 1] == ' ' || a[|a| - 1] == '-' || a[|a| - 1] == '_' || a[|a| - 1] == '.'
    ensures BoundaryStart(cc, q, a + [c] + b)
  {
    var name := a + [c] + b;
    assert name[|a|..] == [c] + b;
    assert IsBoundary(cc, name, |a|);
  }

  // ---------- the acronym without the scan's memory ----------

  /** A letter that starts a word: the first, one after a separator, or a capital after a small letter. */
  predicate StartsWord(cc: CharClass, name: string, i: nat)
    requires i < |name|
  {
    && cc.alphanumeric(name[i]) && cc.alphabetic(name[i])
    && (i == 0 || !cc.alphanumeric(name[i - 1]) || (cc.upper(name[i]) && !cc.upper(name[i - 1])))
  }

  function Initials(cc: CharClass, name: string, n: nat): string
    requires n <= |name|
  {
    if n == 0 then ""
    else Initials(cc, name, n - 1) + if StartsWord(cc, name, n - 1) then cc.lower(name[n - 1]) else ""
  }

  /** The acronym is made of the letters that start a word, in order. */
  lemma {:induction false} AcronymIsInitials(cc: CharClass, name: string, n: nat)
    requires n <= |name|
    ensures var a := AcronymOf(cc, name[..n]);
            && a.firsts == Initials(cc, name, n)
            && (a.prevIsSep <==> n == 0 || !cc.alphanumeric(name[n - 1]))
            && (a.prevUpper <==> n > 0 && cc.alphanumeric(name[n - 1]) && cc.upper(name[n - 1]))
  {
    if n > 0 {
      AcronymIsInitials(cc, name, n - 1);
      assert name[..n][..n - 1] == name[..n - 1];
      assert Initials(cc, name, n - 1) + "" == Initials(cc, name, n - 1);
    }
  }
}
