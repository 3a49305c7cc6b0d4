/** The two check-digit tests behind secret detection: the Luhn sum for card numbers and the
  * resident-identity check character.
  */
module CheckDigits {

  import opened Text

  /** to_digit(10).unwrap_or(0) */
  function Digit(c: char): (d: nat)
    ensures d <= 9
  {
    if IsDigit(c) then c as int - '0' as int else 0
  }

  // ---------- Luhn ----------

  /** Annex B of ISO/IEC 7812-1: a doubled digit counts with the digit sum of its double. */
  function Weighted(d: nat, doubled: bool): nat {
    if doubled then 2 * d / 10 + 2 * d % 10 else d
  }

  /** Every second digit is doubled, counting from the right and starting with the digit left
    * of the check digit: `rest` digits stand from here to the end, this one included. */
  predicate Doubled(rest: nat) {
    rest % 2 == 0
  }

  function LuhnSum(s: string): nat {
    if s == "" then 0 else Weighted(Digit(s[0]), Doubled(|s|)) + LuhnSum(s[1..])
  }

  ghost predicate LuhnHolds(s: string) {
    |s| >= 13 && AllDigits(s) && LuhnSum(s) % 10 == 0
  }

  lemma Excess(d: nat)
    requires d <= 9
    ensures Weighted(d, true) - d == if d <= 4 then d else d - 9
  {
  }

  method LuhnValid(digits: string) returns (valid: bool)
    ensures valid <==> LuhnHolds(digits)
    ensures valid ==> |digits| >= 13
  {
    if |digits| < 13 {
      return false;
    }
    var sum, dbl := 0, false;
    var i := |digits|;
    while i > 0
      invariant 0 <= i <= |digits|
      invariant AllDigits(digits[i..])
      invariant dbl <==> (|digits| - i) % 2 == 1
      invariant sum == LuhnSum(digits[i..])
    {
      i := i - 1;
      assert digits[i..][1..] == digits[i + 1..];
      if !IsDigit(digits[i]) {
        return false;
      }
      var d := Digit(digits[i]);
      if dbl {
        d := d * 2;
        if d > 9 {
          d := d - 9;
        }
      }
      Excess(Digit(digits[i]));
      sum := sum + d;
      dbl := !dbl;
    }
    assert digits[0..] == digits;
    valid := sum % 10 == 0;
  }

  /** The same sum read from the right: the last digit counts as it is, the next is doubled, and so on. */
  function SumFromRight(s: string, doubled: bool): nat {
    if s == "" then 0
    else Weighted(Digit(s[|s| - 1]), doubled) + SumFromRight(s[..|s| - 1], !doubled)
  }

  lemma SumFromRightAppend(s: string, c: char, doubled: bool)
    ensures SumFromRight(s + [c], doubled) == Weighted(Digit(c), doubled) + SumFromRight(s, !doubled)
  {
    assert (s + [c])[..|s|] == s;
  }

  lemma {:induction false} SumFromRightCons(c: char, s: string, doubled: bool, first: bool)
    requires first == if |s| % 2 == 0 then doubled else !doubled
    ensures SumFromRight([c] + s, doubled) == Weighted(Digit(c), first) + SumFromRight(s, doubled)
  {
    if s == "" {
      SumFromRightAppend("", c, doubled);
      assert "" + [c] == [c] + s;
    } else {
      var init, last := s[..|s| - 1], s[|s| - 1];
      SumFromRightCons(c, init, !doubled, first);
      SumFromRightAppend([c] + init, last, doubled);
      assert [c] + s == [c] + init + [last];
    }
  }

  lemma LuhnSumCons(c: char, s: string)
    ensures LuhnSum([c] + s) == Weighted(Digit(c), Doubled(|s| + 1)) + LuhnSum(s)
  {
    assert ([c] + s)[1..] == s;
  }

  /** The check digit is not doubled, its left neighbour is, and so on alternating. */
  lemma {:induction false} LuhnSumFromRight(s: string)
    ensures LuhnSum(s) == SumFromRight(s, false)
  {
    if s != "" {
      LuhnSumFromRight(s[1..]);
      LuhnSumCons(s[0], s[1..]);
      SumFromRightCons(s[0], s[1..], false, Doubled(|s|));
      assert s == [s[0]] + s[1..];
    }
  }

  lemma {:induction false} LuhnOneChange(s: string, k: nat, c: char)
    requires k < |s|
    ensures LuhnSum(s[k := c]) - LuhnSum(s) ==
            Weighted(Digit(c), Doubled(|s| - k)) - Weighted(Digit(s[k]), Doubled(|s| - k))
  {
    if k == 0 {
      assert s[k := c][1..] == s[1..];
    } else {
      assert s[k := c][1..] == s[1..][k - 1 := c];
      LuhnOneChange(s[1..], k - 1, c);
    }
  }

  lemma WeightedSeparates(a: nat, b: nat, doubled: bool)
    requires a <= 9 && b <= 9 && a != b
    ensures (Weighted(b, doubled) - Weighted(a, doubled)) % 10 != 0
  {
    if doubled {
      Excess(a);
      Excess(b);
    }
  }

  lemma Shifted(s: int, t: int, delta: int)
    requires s % 10 == 0 && t - s == delta
    ensures t % 10 == 0 <==> delta % 10 == 0
  {
  }

  /** Changing one character of a valid number is always rejected. */
  lemma LuhnRejectsOneChange(s: string, k: nat, c: char)
    requires LuhnHolds(s) && k < |s| && c != s[k]
    ensures !LuhnHolds(s[k := c])
  {
    var t := s[k := c];
    if AllDigits(t) {
      assert t[k] == c && IsDigit(s[k]);
      LuhnOneChange(s, k, c);
      var doubled := Doubled(|s| - k);
      WeightedSeparates(Digit(s[k]), Digit(c), doubled);
      Shifted(LuhnSum(s), LuhnSum(t), Weighted(Digit(c), doubled) - Weighted(Digit(s[k]), doubled));
    }
  }

  ghost function Swapped(s: string, k: nat): string
    requires k + 1 < |s|
  {
    s[k := s[k + 1]][k + 1 := s[k]]
  }

  ghost predicate ZeroAndNine(a: char, b: char) {
    (a == '0' && b == '9') || (a == '9' && b == '0')
  }

  /** How far exchanging neighbours a, b moves the sum; `doubled` tells whether a was doubled. */
  ghost function SwapShift(a: nat, b: nat, doubled: bool): int {
    Weighted(b, doubled) + Weighted(a, !doubled) - Weighted(a, doubled) - Weighted(b, !doubled)
  }

  lemma SwapShiftVanishesIff(a: nat, b: nat, doubled: bool)
    requires a <= 9 && b <= 9
    ensures SwapShift(a, b, doubled) % 10 == 0 <==> a == b || (a == 0 && b == 9) || (a == 9 && b == 0)
  {
    assert SwapShift(a, b, true) == (Weighted(b, true) - b) - (Weighted(a, true) - a);
    assert SwapShift(a, b, false) == (Weighted(a, true) - a) - (Weighted(b, true) - b);
    Excess(a);
    Excess(b);
  }

  /** Exchanging two neighbours of a valid number is rejected, unless they are equal or 0 and 9. */
  lemma LuhnSwapAcceptedIff(s: string, k: nat)
    requires LuhnHolds(s) && k + 1 < |s|
    ensures LuhnHolds(Swapped(s, k)) <==> s[k] == s[k + 1] || ZeroAndNine(s[k], s[k + 1])
  {
    var a, b := s[k], s[k + 1];
    var doubled := Doubled(|s| - k);
    assert IsDigit(a) && IsDigit(b);
    LuhnSwapMoves(s, k);
    SwapShiftVanishesIff(Digit(a), Digit(b), doubled);
    Shifted(LuhnSum(s), LuhnSum(Swapped(s, k)), SwapShift(Digit(a), Digit(b), doubled));
    assert AllDigits(Swapped(s, k));
  }

  lemma ParityFlips(rest: nat)
    requires rest > 0
    ensures Doubled(rest) <==> !Doubled(rest - 1)
  {
  }

  lemma LuhnTwoChanges(s: string, k: nat, a: char, b: char, doubled: bool)
    requires k + 1 < |s| && doubled == Doubled(|s| - k)
    ensures LuhnSum(s[k := a][k + 1 := b]) - LuhnSum(s) ==
            (Weighted(Digit(a), doubled) - Weighted(Digit(s[k]), doubled))
            + (Weighted(Digit(b), !doubled) - Weighted(Digit(s[k + 1]), !doubled))
  {
    LuhnOneChange(s, k, a);
    LuhnOneChange(s[k := a], k + 1, b);
    ParityFlips(|s| - k);
  }

  lemma LuhnSwapMoves(s: string, k: nat)
    requires k + 1 < |s|
    ensures LuhnSum(Swapped(s, k)) - LuhnSum(s) ==
            SwapShift(Digit(s[k]), Digit(s[k + 1]), Doubled(|s| - k))
  {
    LuhnTwoChanges(s, k, s[k + 1], s[k], Doubled(|s| - k));
  }

  /** For every payload some digit completes it ... */
  lemma LuhnCheckDigitExists(payload: string) returns (c: char)
    requires |payload| >= 12 && AllDigits(payload)
    ensures LuhnHolds(payload + [c])
  {
    var base := payload + ['0'];
    var digit := (10 - LuhnSum(base) % 10) % 10;
    c := ('0' as int + digit) as char;
    LuhnOneChange(base, |payload|, c);
    assert base[|payload| := c] == payload + [c];
    Completes(LuhnSum(base), digit);
  }

  lemma Completes(s: nat, digit: nat)
    requires digit == (10 - s % 10) % 10
    ensures (s + digit) % 10 == 0
  {
  }

  /** ... and only that one. */
  lemma LuhnCheckDigitUnique(payload: string, c: char, d: char)
    requires LuhnHolds(payload + [c]) && LuhnHolds(payload + [d])
    ensures c == d
  {
    if c != d {
      assert (payload + [c])[|payload| := d] == payload + [d];
      LuhnRejectsOneChange(payload + [c], |payload|, d);
    }
  }

  // ---------- ISO/IEC 7064 MOD 11-2 ----------

  const WEIGHTS: seq<int> := [7, 9, 10, 5, 8, 4, 2, 1, 6, 3, 7, 9, 10, 5, 8, 4, 2]
  const CHECK: string := "10X98765432"

  function IdSum(id: string, n: nat): int
    requires n <= 17 && n <= |id|
  {
    if n == 0 then 0 else IdSum(id, n - 1) + Digit(id[n - 1]) * WEIGHTS[n - 1]
  }

  function AsciiUpper(c: char): char {
    if 'a' <= c <= 'z' then (c as int - 32) as char else c
  }

  predicate IdChecksumValid(id: string) {
    |id| == 18 && AsciiUpper(CHECK[IdSum(id, 17) % 11]) == AsciiUpper(id[17])
  }

  /** An identity number in ASCII: 17 digits, then a digit or X. The detection rule lets more through,
    * because its digit class holds the digits of every script. */
  predicate IdShape(id: string) {
    |id| == 18 && AllDigits(id[..17]) && IsCheckChar(id[17])
  }

  predicate IsCheckChar(c: char) {
    IsDigit(c) || c == 'X' || c == 'x'
  }

  function CheckValue(c: char): nat {
    if c == 'X' || c == 'x' then 10 else Digit(c)
  }

  function Pow2(n: nat): nat {
    if n == 0 then 1 else 2 * Pow2(n - 1)
  }

  /** The first n characters, each weighted by the power of two of its distance to the end. */
  function IsoSum(id: string, n: nat): int
    requires n <= 17 && n <= |id|
  {
    if n == 0 then 0 else IsoSum(id, n - 1) + Digit(id[n - 1]) * Pow2(18 - n)
  }

  lemma WeightsArePowers(i: nat)
    requires i < 17
    ensures Pow2(17 - i) % 11 == WEIGHTS[i]
  {
    assert Pow2(4) == 16;
    assert Pow2(8) == 256;
    assert Pow2(12) == 4096;
    assert Pow2(16) == 65536;
  }

  lemma ProductModulo(d: int, p: int, w: int)
    requires p % 11 == w
    ensures d * p % 11 == d * w % 11
  {
    var q := p / 11;
    assert d * p == d * w + 11 * (d * q) by {
      assert p == w + 11 * q;
    }
    EqualModulo(d * p, d * w, d * q);
  }

  lemma SumModulo(a: int, b: int, x: int, y: int)
    requires a % 11 == b % 11 && x % 11 == y % 11
    ensures (a + x) % 11 == (b + y) % 11
  {
    EqualModulo(a + x, b + y, a / 11 - b / 11 + x / 11 - y / 11);
  }

  lemma EqualModulo(u: int, v: int, q: int)
    requires u == v + 11 * q
    ensures u % 11 == v % 11
  {
  }

  lemma {:induction false} SumsAgree(id: string, n: nat)
    requires n <= 17 && n <= |id|
    ensures IsoSum(id, n) % 11 == IdSum(id, n) % 11
  {
    if n > 0 {
      SumsAgree(id, n - 1);
      WeightsArePowers(n - 1);
      var d: int, p: int, w: int := Digit(id[n - 1]), Pow2(18 - n), WEIGHTS[n - 1];
      ProductModulo(d, p, w);
      SumModulo(IsoSum(id, n - 1), IdSum(id, n - 1), d * p, d * w);
    }
  }

  lemma CheckCharOf(r: int, c: char)
    requires 0 <= r < 11
    ensures AsciiUpper(CHECK[r]) == AsciiUpper(c) <==> IsCheckChar(c) && (r + CheckValue(c)) % 11 == 1
  {
  }

  lemma ChecksumIff(id: string)
    requires |id| == 18
    ensures IdChecksumValid(id) <==> IsCheckChar(id[17]) && (IdSum(id, 17) % 11 + CheckValue(id[17])) % 11 == 1
  {
    CheckCharOf(IdSum(id, 17) % 11, id[17]);
  }

  /** The test is the MOD 11-2 congruence: with weights 2^17 .. 2^0 the sum is 1 modulo 11. */
  lemma IdIsMod11Two(id: string)
    requires |id| == 18
    ensures IdChecksumValid(id) <==>
            IsCheckChar(id[17]) && (IsoSum(id, 17) + CheckValue(id[17])) % 11 == 1
  {
    SumsAgree(id, 17);
    ChecksumIff(id);
  }

  lemma {:induction false} IdOneChange(id: string, k: nat, c: char, n: nat)
    requires k < n <= 17 && n <= |id|
    ensures IdSum(id[k := c], n) == IdSum(id, n) + (Digit(c) - Digit(id[k])) * WEIGHTS[k]
  {
    if k == n - 1 {
      IdSumPrefix(id, k, c, n - 1);
    } else {
      IdOneChange(id, k, c, n - 1);
    }
  }

  lemma {:induction false} IdSumPrefix(id: string, k: nat, c: char, n: nat)
    requires n <= k < |id| && n <= 17
    ensures IdSum(id[k := c], n) == IdSum(id, n)
  {
    if n > 0 { IdSumPrefix(id, k, c, n - 1); }
  }

  lemma WeightSeparates(w: int, x: int)
    requires 1 <= w <= 10 && -10 <= x <= 10 && x != 0
    ensures x * w % 11 != 0
  {
    if w <= 5 {
      assert w == 1 || w == 2 || w == 3 || w == 4 || w == 5;
    } else {
      assert w == 6 || w == 7 || w == 8 || w == 9 || w == 10;
    }
  }

  lemma IdSameDigitPasses(id: string, k: nat, c: char)
    requires IdChecksumValid(id) && k < 17 && Digit(c) == Digit(id[k])
    ensures IdChecksumValid(id[k := c])
  {
    IdOneChange(id, k, c, 17);
    assert IdSum(id[k := c], 17) == IdSum(id, 17);
  }

  lemma IdOtherDigitFails(id: string, k: nat, c: char)
    requires IdChecksumValid(id) && k < 17 && Digit(c) != Digit(id[k])
    ensures !IdChecksumValid(id[k := c])
  {
    IdOneChange(id, k, c, 17);
    WeightSeparates(WEIGHTS[k], Digit(c) - Digit(id[k]));
    SameCheckSameSum(id, id[k := c]);
  }

  /** Changing one character of a valid number is accepted exactly when it counts the same: among the first
    * 17 when the digit value is the same, at the end when it is the same character up to case. */
  lemma IdOneChangeIff(id: string, k: nat, c: char)
    requires IdChecksumValid(id) && k < 18
    ensures IdChecksumValid(id[k := c]) <==>
            if k < 17 then Digit(c) == Digit(id[k]) else AsciiUpper(c) == AsciiUpper(id[17])
  {
    if k == 17 {
      IdSumPrefix(id, 17, c, 17);
    } else {
      if Digit(c) == Digit(id[k]) { IdSameDigitPasses(id, k, c); } else { IdOtherDigitFails(id, k, c); }
    }
  }

  /** So changing one digit of an ASCII number into another is always rejected ... */
  lemma IdRejectsOneChange(id: string, k: nat, c: char)
    requires IdShape(id) && IdChecksumValid(id) && k < 18
    requires IdShape(id[k := c]) && AsciiUpper(c) != AsciiUpper(id[k])
    ensures !IdChecksumValid(id[k := c])
  {
    IdOneChangeIff(id, k, c);
    if k < 17 { assert IsDigit(id[..17][k]) && IsDigit(id[k := c][..17][k]); }
  }

  lemma {:induction false} ZeroSum(id: string, n: nat)
    requires n <= 17 && n <= |id| && forall i :: 0 <= i < n ==> Digit(id[i]) == 0
    ensures IdSum(id, n) == 0
  {
    if n > 0 { ZeroSum(id, n - 1); }
  }

  /** ... but a 0 may become a digit of another script, which counts as 0 here and which the detection rule
    * lets through. */
  lemma ForeignDigitPasses()
    ensures var id := "000000000000000001";
            IdChecksumValid(id) && IdChecksumValid(id[0 := '\U{665}']) && !IsDigit('\U{665}')
  {
    var id := "000000000000000001";
    ZeroSum(id, 17);
    IdOneChangeIff(id, 0, '\U{665}');
  }

  /** With the check character kept, acceptance depends on the sum modulo 11 only. */
  lemma SameCheckSameSum(id: string, t: string)
    requires |id| == |t| == 18 && id[17] == t[17] && IdChecksumValid(id)
    ensures IdChecksumValid(t) ==> (IdSum(t, 17) - IdSum(id, 17)) % 11 == 0
  {
    ChecksumIff(id);
    ChecksumIff(t);
    if IdChecksumValid(t) { SameResidue(IdSum(id, 17), IdSum(t, 17), CheckValue(id[17])); }
  }

  lemma SameResidue(s: int, t: int, c: int)
    requires (s % 11 + c) % 11 == 1 && (t % 11 + c) % 11 == 1
    ensures (t - s) % 11 == 0
  {
  }

  /** Exchanging two neighbours among the first 17 is accepted exactly when their digit values are equal. */
  lemma IdSwapAcceptedIff(id: string, k: nat)
    requires IdChecksumValid(id) && k < 16
    ensures IdChecksumValid(Swapped(id, k)) <==> Digit(id[k]) == Digit(id[k + 1])
  {
    var x := Digit(id[k + 1]) - Digit(id[k]);
    IdSwapMoves(id, k, 17);
    SameCheckSameSum(id, Swapped(id, k));
    if x != 0 { NeighbourWeights(k, x); }
  }

  lemma IdSwapMoves(id: string, k: nat, n: nat)
    requires k + 1 < n <= 17 && n <= |id|
    ensures IdSum(Swapped(id, k), n) - IdSum(id, n) ==
            (Digit(id[k + 1]) - Digit(id[k])) * (WEIGHTS[k] - WEIGHTS[k + 1])
  {
    var mid := id[k := id[k + 1]];
    IdOneChange(id, k, id[k + 1], n);
    IdOneChange(mid, k + 1, id[k], n);
    Regroup(IdSum(id, n), IdSum(mid, n), IdSum(Swapped(id, k), n),
            Digit(id[k]), Digit(id[k + 1]), WEIGHTS[k], WEIGHTS[k + 1]);
  }

  lemma Regroup(s: int, t: int, u: int, a: int, b: int, w: int, v: int)
    requires t == s + (b - a) * w && u == t + (a - b) * v
    ensures u - s == (b - a) * (w - v)
  {
    Gather(a, b, w, v);
  }

  lemma Gather(a: int, b: int, w: int, v: int)
    ensures (b - a) * w + (a - b) * v == (b - a) * (w - v)
  {
  }

  lemma NeighbourWeights(k: nat, x: int)
    requires k < 16 && -9 <= x <= 9 && x != 0
    ensures x * (WEIGHTS[k] - WEIGHTS[k + 1]) % 11 != 0
  {
    var d: int := WEIGHTS[k] - WEIGHTS[k + 1];
    assert d != 0 && -10 <= d <= 10;
    if d > 0 {
      WeightSeparates(d, x);
    } else {
      WeightSeparates(-d, -x);
      assert -x * -d == x * d;
    }
  }

  lemma LastSwapMoves(id: string)
    requires |id| == 18
    ensures IdSum(Swapped(id, 16), 17) - IdSum(id, 17) == (Digit(id[17]) - Digit(id[16])) * 2
  {
    IdOneChange(id, 16, id[17], 17);
    IdSumPrefix(id[16 := id[17]], 17, id[16], 17);
  }

  lemma LastSwapValidIff(id: string)
    requires IdChecksumValid(id) && IsDigit(id[16])
    ensures IdChecksumValid(Swapped(id, 16)) <==>
            if CheckValue(id[17]) == 10 then Digit(id[16]) == 1 else Digit(id[16]) == CheckValue(id[17])
  {
    var t := Swapped(id, 16);
    LastSwapMoves(id);
    ChecksumIff(id);
    ChecksumIff(t);
    LastPair(IdSum(id, 17), IdSum(t, 17), Digit(id[16]), CheckValue(id[17]), Digit(id[17]));
  }

  lemma LastPair(s: int, t: int, a: nat, c: nat, moved: nat)
    requires (s % 11 + c) % 11 == 1 && t - s == (moved - a) * 2
    requires a <= 9 && (c == moved <= 9 || (c == 10 && moved == 0))
    ensures (t % 11 + a) % 11 == 1 <==> if c == 10 then a == 1 else a == c
  {
  }

  /** Exchanging the last digit with the check character: rejected when both are unequal digits;
    * with the check character X it is accepted exactly when that digit is 1, because the moved X
    * counts as 0. The detection rule's shape test is what keeps that case out. */
  lemma IdLastSwap(id: string)
    requires IdShape(id) && IdChecksumValid(id)
    ensures IsDigit(id[17]) && id[16] != id[17] ==> !IdChecksumValid(Swapped(id, 16))
    ensures !IsDigit(id[17]) ==>
            (IdChecksumValid(Swapped(id, 16)) <==> id[16] == '1') && !IdShape(Swapped(id, 16))
  {
    assert IsDigit(id[..17][16]) && Swapped(id, 16)[..17][16] == id[17];
    LastSwapValidIff(id);
  }
}
