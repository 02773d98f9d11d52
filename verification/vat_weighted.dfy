/**
 The VAT routines that are one weighted digit sum: either the whole sum
 must be divisible by a modulus, or a check digit computed from the sum
 must equal the last digit.  Each routine receives the whole value,
 country prefix included, and first matches its regular expression.
 */
module VatWeighted {
  import opened Chars
  import opened VatSums

  // ----- Sums that must vanish -----

  const DkWeights: seq<int> := [2, 7, 6, 5, 4, 3, 2, 1]

  /** `_dk`: `^DK[0-9]{8}$`, and the weighted sum is a multiple of 11. */
  predicate DkValid(v: string) {
    ZeroSum(v, "DK", DkWeights, 11)
  }

  /** Any digit put in place of one character of an accepted Danish number is rejected. */
  lemma DkSubstitutionDetected(v: string, i: nat, c: char)
    requires DkValid(v) && i < |v| && IsDigit(c) && c != v[i]
    ensures !DkValid(v[i := c])
  {
    assert NoZeroMultiple(2, 11, 9) && NoZeroMultiple(7, 11, 9) && NoZeroMultiple(6, 11, 9) && NoZeroMultiple(5, 11, 9);
    assert NoZeroMultiple(4, 11, 9) && NoZeroMultiple(3, 11, 9) && NoZeroMultiple(1, 11, 9);
    assert Separating(DkWeights, 11, 8);
    ZeroSumSubstitution(v, "DK", DkWeights, 11, i, c);
  }

  const EeWeights: seq<int> := [3, 7, 1, 3, 7, 1, 3, 7, 1]

  /** `_ee`: `^EE[0-9]{9}$`, and the weighted sum is a multiple of 10. */
  predicate EeValid(v: string) {
    ZeroSum(v, "EE", EeWeights, 10)
  }

  lemma EeSubstitutionDetected(v: string, i: nat, c: char)
    requires EeValid(v) && i < |v| && IsDigit(c) && c != v[i]
    ensures !EeValid(v[i := c])
  {
    assert Separating(EeWeights, 10, 9);
    ZeroSumSubstitution(v, "EE", EeWeights, 10, i, c);
  }

  const FiWeights: seq<int> := [7, 9, 10, 5, 8, 4, 2, 1]

  /** `_fi`: `^FI[0-9]{8}$`, and the weighted sum is a multiple of 11. */
  predicate FiValid(v: string) {
    ZeroSum(v, "FI", FiWeights, 11)
  }

  lemma FiSubstitutionDetected(v: string, i: nat, c: char)
    requires FiValid(v) && i < |v| && IsDigit(c) && c != v[i]
    ensures !FiValid(v[i := c])
  {
    assert NoZeroMultiple(10, 11, 9) && NoZeroMultiple(9, 11, 9) && NoZeroMultiple(8, 11, 9) && NoZeroMultiple(7, 11, 9);
    assert NoZeroMultiple(5, 11, 9) && NoZeroMultiple(4, 11, 9) && NoZeroMultiple(2, 11, 9) && NoZeroMultiple(1, 11, 9);
    assert Separating(FiWeights, 11, 8);
    ZeroSumSubstitution(v, "FI", FiWeights, 11, i, c);
  }

  const HuWeights: seq<int> := [9, 7, 3, 1, 9, 7, 3, 1]

  /** `_hu`: `^HU[0-9]{8}$`, and the weighted sum is a multiple of 10. */
  predicate HuValid(v: string) {
    ZeroSum(v, "HU", HuWeights, 10)
  }

  lemma HuSubstitutionDetected(v: string, i: nat, c: char)
    requires HuValid(v) && i < |v| && IsDigit(c) && c != v[i]
    ensures !HuValid(v[i := c])
  {
    assert Separating(HuWeights, 10, 8);
    ZeroSumSubstitution(v, "HU", HuWeights, 10, i, c);
  }

  const MtWeights: seq<int> := [3, 4, 6, 7, 8, 9, 10, 1]

  /** `_mt`: `^MT[0-9]{8}$`, and the weighted sum is a multiple of 37. */
  predicate MtValid(v: string) {
    ZeroSum(v, "MT", MtWeights, 37)
  }

  lemma MtSubstitutionDetected(v: string, i: nat, c: char)
    requires MtValid(v) && i < |v| && IsDigit(c) && c != v[i]
    ensures !MtValid(v[i := c])
  {
    assert NoZeroMultiple(3, 37, 9) && NoZeroMultiple(4, 37, 9) && NoZeroMultiple(6, 37, 9) && NoZeroMultiple(7, 37, 9);
    assert NoZeroMultiple(8, 37, 9) && NoZeroMultiple(9, 37, 9) && NoZeroMultiple(10, 37, 9) && NoZeroMultiple(1, 37, 9);
    assert Separating(MtWeights, 37, 8);
    ZeroSumSubstitution(v, "MT", MtWeights, 37, i, c);
  }

  /** The Polish weights; the last digit counts negatively. */
  const PlWeights: seq<int> := [6, 5, 7, 2, 3, 4, 5, 6, 7, -1]

  /** `_pl`: `^PL[0-9]{10}$`, and `sum % 11 == 0` with JavaScript's `%`;
      the sum is negative when the last digit outweighs the rest. */
  predicate PlValid(v: string) {
    Prefixed(v, "PL", 10) && JsRem(Weighted(v[2..], PlWeights), 11) == 0
  }

  lemma PlSubstitutionDetected(v: string, i: nat, c: char)
    requires PlValid(v) && i < |v| && IsDigit(c) && c != v[i]
    ensures !PlValid(v[i := c])
  {
    JsRemZero(Weighted(v[2..], PlWeights), 11);
    assert ZeroSum(v, "PL", PlWeights, 11);
    assert NoZeroMultiple(6, 11, 9) && NoZeroMultiple(5, 11, 9) && NoZeroMultiple(7, 11, 9) && NoZeroMultiple(2, 11, 9);
    assert NoZeroMultiple(3, 11, 9) && NoZeroMultiple(4, 11, 9) && NoZeroMultiple(-1, 11, 9);
    assert Separating(PlWeights, 11, 10);
    ZeroSumSubstitution(v, "PL", PlWeights, 11, i, c);
    var w := v[i := c];
    if Prefixed(w, "PL", 10) {
      JsRemZero(Weighted(w[2..], PlWeights), 11);
    }
  }

  /** The third digit of a Slovak number: `[(2-4)|(6-9)]` is a character
      class, so besides the digits 2-4 and 6-9 it admits `(`, `)` and `|`. */
  predicate SkThird(c: char) {
    '2' <= c <= '4' || '6' <= c <= '9' || c == '(' || c == ')' || c == '|'
  }

  /** `_sk`: `^SK[1-9][0-9][(2-4)|(6-9)][0-9]{7}$`, then `value % 11 == 0`
      on the ten characters; a punctuation character makes the value NaN,
      and NaN is never zero. */
  predicate SkValid(v: string) {
    |v| == 12 && v[..2] == "SK" && '1' <= v[2] <= '9' && IsDigit(v[3]) && SkThird(v[4]) && AllDigits(v[5..])
    && AllDigits(v[2..]) && NumberOf(v[2..]) % 11 == 0
  }

  /** The punctuation the class lets through is always rejected. */
  lemma SkPunctuationRejected(v: string)
    requires |v| == 12 && (v[4] == '(' || v[4] == ')' || v[4] == '|')
    ensures !SkValid(v)
  {
    assert v[2..][2] == v[4];
  }

  /** The last digit of an accepted Slovak number is the only one accepted there. */
  lemma SkCheckUnique(v: string, c: char)
    requires SkValid(v) && IsDigit(c) && c != v[11]
    ensures !SkValid(v[11 := c])
  {
    var w := v[11 := c];
    var d, e := v[2..], w[2..];
    assert e == d[9 := c];
    assert w[..2] == v[..2] && w[2] == v[2] && w[3] == v[3] && w[4] == v[4];
    assert AllDigits(e);
    assert d[..9] == e[..9];
    assert NumberOf(d) == 10 * NumberOf(d[..9]) + DigitVal(d[9]);
    assert NumberOf(e) == 10 * NumberOf(d[..9]) + DigitVal(c);
    assert NoZeroMultiple(1, 11, 9);
    ResidueMoves(NumberOf(d), DigitVal(c) - DigitVal(d[9]), 1, 11);
  }

  // ----- Check digits -----

  const AtWeights: seq<nat> := [1, 2, 1, 2, 1, 2, 1]

  /** `temp = digit * weight`, its two digits added when it exceeds nine. */
  function AtTerm(d: nat, w: nat): (r: nat)
    requires d < 10 && (w == 1 || w == 2)
    ensures r < 10
    ensures r == if w == 1 || d < 5 then d * w else 2 * d - 9
  {
    var t := d * w;
    if t > 9 then
      ModUnique(t, 10, 1, t - 10);
      t / 10 + t % 10
    else t
  }

  /** The Austrian sum over the first `k` digits. */
  function AtSum(d: string, k: nat): nat
    requires k <= 7 && k <= |d| && AllDigits(d)
  {
    if k == 0 then 0 else AtSum(d, k - 1) + AtTerm(DigitVal(d[k - 1]), AtWeights[k - 1])
  }

  /** `10 - (sum + 4) % 10`, ten written as zero. */
  function AtCheck(d: string): (r: nat)
    requires |d| >= 7 && AllDigits(d)
    ensures r < 10
  {
    var c := 10 - (AtSum(d, 7) + 4) % 10;
    if c == 10 then 0 else c
  }

  /** `_at`: `^ATU[0-9]{8}$`, and the last digit is the check digit of the seven before it. */
  predicate AtValid(v: string) {
    Prefixed(v, "ATU", 8) && DigitIs(AtCheck(v[3..]), v[10])
  }

  lemma AtTermInjective(a: nat, b: nat, w: nat)
    requires a < 10 && b < 10 && a != b && (w == 1 || w == 2)
    ensures AtTerm(a, w) != AtTerm(b, w)
  {
  }

  lemma {:induction false} AtSumReplace(d: string, k: nat, i: nat, c: char)
    requires k <= 7 && k <= |d| && AllDigits(d) && i < |d| && IsDigit(c)
    ensures AllDigits(d[i := c])
    ensures AtSum(d[i := c], k) == AtSum(d, k)
      + (if i < k then AtTerm(DigitVal(c), AtWeights[i]) - AtTerm(DigitVal(d[i]), AtWeights[i]) else 0)
  {
    if k > 0 {
      AtSumReplace(d, k - 1, i, c);
    }
  }

  /** Any digit put in place of one character of an accepted Austrian number is rejected. */
  lemma AtSubstitutionDetected(v: string, i: nat, c: char)
    requires AtValid(v) && i < |v| && IsDigit(c) && c != v[i]
    ensures !AtValid(v[i := c])
  {
    var w := v[i := c];
    if i < 3 {
      PrefixBroken(v, "ATU", 8, i, c);
    } else {
      PrefixedReplace(v, "ATU", 8, i, c);
      var d, e := v[3..], w[3..];
      AtSumReplace(d, 7, i - 3, c);
      if i < 10 {
        assert w[10] == v[10];
        var x, y := AtTerm(DigitVal(d[i - 3]), AtWeights[i - 3]), AtTerm(DigitVal(c), AtWeights[i - 3]);
        AtTermInjective(DigitVal(d[i - 3]), DigitVal(c), AtWeights[i - 3]);
        assert NoZeroMultiple(1, 10, 9);
        ResidueMoves(AtSum(d, 7) + 4, y as int - x as int, 1, 10);
        assert AtSum(e, 7) + 4 == AtSum(d, 7) + 4 + (y as int - x as int) * 1;
      }
    }
  }

  const ChWeights: seq<int> := [5, 4, 3, 2, 7, 6, 5, 4]

  /** `^CHE[0-9]{9}(MWST)?$`. */
  predicate ChShape(v: string) {
    (|v| == 12 || (|v| == 16 && v[12..] == "MWST")) && Prefixed(v[..12], "CHE", 9)
  }

  /** `11 - sum % 11`: ten is no check digit at all, eleven is written zero. */
  predicate ChCheck(d: string)
    requires |d| == 9 && AllDigits(d)
  {
    var c := 11 - Weighted(d, ChWeights) % 11;
    c != 10 && DigitIs(if c == 11 then 0 else c, d[8])
  }

  /** `_ch`. */
  predicate ChValid(v: string) {
    ChShape(v) && ChCheck(v[3..12])
  }

  /** The optional `MWST` suffix does not change the verdict. */
  lemma ChSuffixIgnored(v: string)
    requires |v| == 12
    ensures ChValid(v + "MWST") <==> ChValid(v)
  {
    var w := v + "MWST";
    assert w[..12] == v && w[12..] == "MWST" && w[3..12] == v[3..12];
    assert v[..12] == v;
  }

  lemma ChCheckUnique(v: string, c: char)
    requires ChValid(v) && IsDigit(c) && c != v[11]
    ensures !ChValid(v[11 := c])
  {
    var w := v[11 := c];
    assert w[..12] == v[..12][11 := c];
    PrefixedReplace(v[..12], "CHE", 9, 11, c);
    assert w[3..12] == v[3..12][8 := c];
    TailIgnored(v[3..12], ChWeights, 8, c);
    if |v| == 16 {
      assert w[12..] == v[12..];
    }
  }

  /** `_de`: `^DE[0-9]{9}$`; the ISO/IEC 7064 MOD 11,10 carry of the first
      eight digits gives the check digit `11 - carry`, ten written zero. */
  predicate DeValid(v: string) {
    Prefixed(v, "DE", 9) && (var p := Carry(v[2..], 8); DigitIs(if 11 - p == 10 then 0 else 11 - p, v[10]))
  }

  /** Any digit put in place of one character of an accepted German number is rejected. */
  lemma DeSubstitutionDetected(v: string, i: nat, c: char)
    requires DeValid(v) && i < |v| && IsDigit(c) && c != v[i]
    ensures !DeValid(v[i := c])
  {
    var w := v[i := c];
    if i < 2 {
      PrefixBroken(v, "DE", 9, i, c);
    } else {
      PrefixedReplace(v, "DE", 9, i, c);
      if i < 10 {
        CarryMoves(v[2..], 8, i - 2, c);
        assert w[10] == v[10];
      } else {
        CarryTail(v[2..], 8, 8, c);
      }
    }
  }

  /** `_hr`: `^HR[0-9]{11}$` and ISO/IEC 7064 MOD 11,10 over all eleven digits. */
  predicate HrValid(v: string) {
    Prefixed(v, "HR", 11) && Mod1110(v[2..], 10)
  }

  lemma HrSubstitutionDetected(v: string, i: nat, c: char)
    requires HrValid(v) && i < |v| && IsDigit(c) && c != v[i]
    ensures !HrValid(v[i := c])
  {
    if i < 2 {
      PrefixBroken(v, "HR", 11, i, c);
    } else {
      PrefixedReplace(v, "HR", 11, i, c);
      Mod1110Substitution(v[2..], 10, i - 2, c);
    }
  }

  /** `_rs`: `^RS[0-9]{9}$` and ISO/IEC 7064 MOD 11,10 over all nine digits. */
  predicate RsValid(v: string) {
    Prefixed(v, "RS", 9) && Mod1110(v[2..], 8)
  }

  lemma RsSubstitutionDetected(v: string, i: nat, c: char)
    requires RsValid(v) && i < |v| && IsDigit(c) && c != v[i]
    ensures !RsValid(v[i := c])
  {
    if i < 2 {
      PrefixBroken(v, "RS", 9, i, c);
    } else {
      PrefixedReplace(v, "RS", 9, i, c);
      Mod1110Substitution(v[2..], 8, i - 2, c);
    }
  }

  const GrWeights: seq<int> := [256, 128, 64, 32, 16, 8, 4, 2]

  /** `(sum % 11) % 10`. */
  function GrCheck(d: string): (r: int)
    requires |d| == 9 && AllDigits(d)
    ensures 0 <= r < 10
  {
    (Weighted(d, GrWeights) % 11) % 10
  }

  /** `_gr`: `^GR[0-9]{9}$`, and the last digit is the check digit.  The
      branch for eight digits cannot be reached after that expression. */
  predicate GrValid(v: string) {
    Prefixed(v, "GR", 9) && DigitIs(GrCheck(v[2..]), v[10])
  }

  lemma GrCheckUnique(v: string, c: char)
    requires GrValid(v) && IsDigit(c) && c != v[10]
    ensures !GrValid(v[10 := c])
  {
    PrefixedReplace(v, "GR", 9, 10, c);
    TailIgnored(v[2..], GrWeights, 8, c);
  }

  /** `_el`: `^EL[0-9]{9}$`, then `_gr` on the same digits behind `GR`. */
  predicate ElValid(v: string) {
    Prefixed(v, "EL", 9) && GrValid("GR" + v[2..])
  }

  /** The Greek prefix `EL` accepts the same digits as `GR`. */
  lemma ElIsGr(d: string)
    ensures ElValid("EL" + d) <==> GrValid("GR" + d)
  {
    assert ("EL" + d)[..2] == "EL" && ("EL" + d)[2..] == d;
    assert ("GR" + d)[..2] == "GR" && ("GR" + d)[2..] == d;
  }

  const NlWeights: seq<int> := [9, 8, 7, 6, 5, 4, 3, 2]

  /** `^NL[0-9]{9}B[0-9]{2}$`. */
  predicate NlShape(v: string) {
    |v| == 14 && Prefixed(v[..11], "NL", 9) && v[11] == 'B' && AllDigits(v[12..])
  }

  /** `_nl`: `sum % 11`, above nine written zero, is the ninth digit. */
  predicate NlValid(v: string) {
    NlShape(v) && (var s := Weighted(v[2..11], NlWeights) % 11; DigitIs(if s > 9 then 0 else s, v[10]))
  }

  lemma NlCheckUnique(v: string, c: char)
    requires NlValid(v) && IsDigit(c) && c != v[10]
    ensures !NlValid(v[10 := c])
  {
    var w := v[10 := c];
    assert w[..11] == v[..11][10 := c] && w[11] == v[11] && w[12..] == v[12..];
    PrefixedReplace(v[..11], "NL", 9, 10, c);
    assert w[2..11] == v[2..11][8 := c];
    TailIgnored(v[2..11], NlWeights, 8, c);
  }

  const NoWeights: seq<int> := [3, 2, 7, 6, 5, 4, 3, 2]

  /** `_no`: `^NO[0-9]{9}$`; `11 - sum % 11`, eleven written zero; ten never matches a digit. */
  predicate NoValid(v: string) {
    Prefixed(v, "NO", 9) && (var s := 11 - Weighted(v[2..], NoWeights) % 11; DigitIs(if s == 11 then 0 else s, v[10]))
  }

  lemma NoCheckUnique(v: string, c: char)
    requires NoValid(v) && IsDigit(c) && c != v[10]
    ensures !NoValid(v[10 := c])
  {
    PrefixedReplace(v, "NO", 9, 10, c);
    TailIgnored(v[2..], NoWeights, 8, c);
  }

  const PtWeights: seq<int> := [9, 8, 7, 6, 5, 4, 3, 2]

  /** `_pt`: `^PT[0-9]{9}$`; `11 - sum % 11`, above nine written zero. */
  predicate PtValid(v: string) {
    Prefixed(v, "PT", 9) && (var s := 11 - Weighted(v[2..], PtWeights) % 11; DigitIs(if s > 9 then 0 else s, v[10]))
  }

  lemma PtCheckUnique(v: string, c: char)
    requires PtValid(v) && IsDigit(c) && c != v[10]
    ensures !PtValid(v[10 := c])
  {
    PrefixedReplace(v, "PT", 9, 10, c);
    TailIgnored(v[2..], PtWeights, 8, c);
  }

  const SiWeights: seq<int> := [8, 7, 6, 5, 4, 3, 2]

  /** `_si`: `^SI[0-9]{8}$`; `11 - sum % 11`, ten written zero; eleven never matches a digit. */
  predicate SiValid(v: string) {
    Prefixed(v, "SI", 8) && (var s := 11 - Weighted(v[2..], SiWeights) % 11; DigitIs(if s == 10 then 0 else s, v[9]))
  }

  lemma SiCheckUnique(v: string, c: char)
    requires SiValid(v) && IsDigit(c) && c != v[9]
    ensures !SiValid(v[9 := c])
  {
    PrefixedReplace(v, "SI", 8, 9, c);
    TailIgnored(v[2..], SiWeights, 7, c);
  }

  /** A Slovenian body whose sum is a multiple of 11 has no check digit. */
  lemma SiElevenRejected(v: string)
    requires Prefixed(v, "SI", 8) && Weighted(v[2..], SiWeights) % 11 == 0
    ensures !SiValid(v)
  {
  }

  const RoWeights: seq<int> := [7, 5, 3, 2, 1, 7, 5, 3, 2]

  /** `^RO[1-9][0-9]{1,9}$`. */
  predicate RoShape(v: string) {
    4 <= |v| <= 12 && v[..2] == "RO" && AllDigits(v[2..]) && v[2] != '0'
  }

  /** `_ro`: the last `n - 1` weights for `n` digits; `(10 * sum) % 11 % 10` is the last digit. */
  predicate RoValid(v: string) {
    RoShape(v)
    && (var d := v[2..]; var w := RoWeights[10 - |d|..];
        DigitIs((10 * Weighted(d, w)) % 11 % 10, d[|d| - 1]))
  }

  lemma RoCheckUnique(v: string, c: char)
    requires RoValid(v) && IsDigit(c) && c != v[|v| - 1]
    ensures !RoValid(v[|v| - 1 := c])
  {
    var k := |v| - 1;
    var w := v[k := c];
    assert w[..2] == v[..2] && w[2] == v[2];
    assert w[2..] == v[2..][k - 2 := c];
    TailIgnored(v[2..], RoWeights[10 - (|v| - 2)..], k - 2, c);
  }

  /** `_lu`: `^LU[0-9]{8}$`, and the first six digits modulo 89 are the last two. */
  predicate LuValid(v: string) {
    Prefixed(v, "LU", 8) && NumberOf(v[2..8]) % 89 == NumberOf(v[8..])
  }

  /** Two Luxembourg numbers with the same first six digits are not both
      accepted unless their last two digits agree too. */
  lemma LuCheckUnique(v: string, t: string)
    requires LuValid(v) && |t| == 2 && AllDigits(t) && t != v[8..]
    ensures !LuValid(v[..8] + t)
  {
    var w := v[..8] + t;
    assert w[..2] == v[..2] && w[2..8] == v[2..8] && w[8..] == t;
    var u := v[8..];
    assert u[..1] == [u[0]] && t[..1] == [t[0]];
    assert NumberOf(u) == 10 * DigitVal(u[0]) + DigitVal(u[1]);
    assert NumberOf(t) == 10 * DigitVal(t[0]) + DigitVal(t[1]);
    assert t[0] != u[0] || t[1] != u[1];
  }

  /** `^BE[0]{0,1}[0-9]{9}$`. */
  predicate BeShape(v: string) {
    (|v| == 11 && Prefixed(v, "BE", 9)) || (|v| == 12 && Prefixed(v, "BE", 10) && v[2] == '0')
  }

  /** `_be`: nine digits get a leading zero; the second digit must not be
      zero; the first eight digits plus the last two make a multiple of 97. */
  predicate BeValid(v: string) {
    BeShape(v)
    && (var d := if |v| == 11 then "0" + v[2..] else v[2..];
        AllDigits(d) && |d| == 10 && d[1] != '0' && (NumberOf(d[..8]) + NumberOf(d[8..])) % 97 == 0)
  }

  /** The nine-digit form and the form with the leading zero written are judged alike. */
  lemma BeShortForm(d: string)
    requires |d| == 9 && AllDigits(d)
    ensures BeValid("BE" + d) <==> BeValid("BE0" + d)
  {
    var s, l := "BE" + d, "BE0" + d;
    assert s[..2] == "BE" && s[2..] == d;
    assert l[..2] == "BE" && l[2..] == "0" + d && l[2] == '0';
  }
}
