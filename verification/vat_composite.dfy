/**
 The VAT routines with more than one rule: a choice among number kinds
 (Bulgaria, the Czech Republic, Spain, the United Kingdom, Ireland, Latvia),
 a letter computed from the digits (Cyprus, Spain, Ireland), or a check
 that delegates to the Luhn test (France, Italy, Sweden).
 */
module VatComposite {
  import opened Chars
  import opened VatSums
  import Luhn

  /** `[0-9A-Z]`. */
  predicate DigitOrUpper(c: char) {
    IsDigit(c) || IsUpper(c)
  }

  /** Residues modulo `m` of two numbers closer than `m` differ. */
  lemma NearResidues(a: int, b: int, m: int)
    requires m > 0 && a != b && -m < a - b < m
    ensures a % m != b % m
  {
    if a % m == b % m {
      var k := a / m - b / m;
      assert a - b == m * (a / m) - m * (b / m);
      MulDiff(m, a / m, b / m);
      if k >= 1 {
        MulAtLeast(m, k);
      } else if k <= -1 {
        MulAtLeast(m, -k);
      }
    }
  }

  // ----- Bulgaria -----

  const BgLegalWeights: seq<int> := [1, 2, 3, 4, 5, 6, 7, 8]
  const BgLegalFallback: seq<int> := [3, 4, 5, 6, 7, 8, 9, 10]

  /** The check digit of a legal entity: the sum modulo 11, or, when that is
      ten, a second sum with weights shifted by two, modulo 10. */
  function BgLegalCheck(d: string): (r: int)
    requires |d| == 9 && AllDigits(d)
    ensures 0 <= r < 10
  {
    var s := Weighted(d, BgLegalWeights) % 11;
    if s == 10 then Weighted(d, BgLegalFallback) % 10 else s
  }

  const BgEgnWeights: seq<int> := [2, 4, 8, 5, 10, 9, 7, 3, 6]
  const BgPnfWeights: seq<int> := [21, 19, 17, 13, 11, 9, 7, 3, 1]
  const BgVatWeights: seq<int> := [4, 3, 2, 7, 6, 5, 4, 3, 2]

  /** A national identification number: `(sum % 11) % 10`.  The birth date
      it decodes is passed to `new Date`, which never throws, so it is not
      checked. */
  predicate BgEgn(d: string)
    requires |d| == 10 && AllDigits(d)
  {
    DigitIs(Weighted(d, BgEgnWeights) % 11 % 10, d[9])
  }

  /** A foreigner's personal number: `sum % 10`. */
  predicate BgPnf(d: string)
    requires |d| == 10 && AllDigits(d)
  {
    DigitIs(Weighted(d, BgPnfWeights) % 10, d[9])
  }

  /** Any other ten-digit number: `11 - sum % 11`, ten refused, eleven written zero. */
  predicate BgVat(d: string)
    requires |d| == 10 && AllDigits(d)
  {
    var s := 11 - Weighted(d, BgVatWeights) % 11;
    s != 10 && DigitIs(if s == 11 then 0 else s, d[9])
  }

  /** `_bg`: `^BG[0-9]{9,10}$`; nine digits are a legal entity, ten are
      accepted by any of the three personal rules. */
  predicate BgValid(v: string) {
    (Prefixed(v, "BG", 9) || Prefixed(v, "BG", 10))
    && (var d := v[2..]; if |d| == 9 then DigitIs(BgLegalCheck(d), d[8]) else BgEgn(d) || BgPnf(d) || BgVat(d))
  }

  /** The last digit of an accepted legal entity is the only one accepted there. */
  lemma BgLegalCheckUnique(v: string, c: char)
    requires BgValid(v) && |v| == 11 && IsDigit(c) && c != v[10]
    ensures !BgValid(v[10 := c])
  {
    PrefixedReplace(v, "BG", 9, 10, c);
    TailIgnored(v[2..], BgLegalWeights, 8, c);
    TailIgnored(v[2..], BgLegalFallback, 8, c);
  }

  /** Each personal rule fixes the last digit: a ten-digit number accepted
      by a rule is no longer accepted by that rule once its last digit changes. */
  lemma BgPersonalCheckUnique(d: string, c: char)
    requires |d| == 10 && AllDigits(d) && IsDigit(c) && c != d[9]
    ensures AllDigits(d[9 := c])
    ensures BgEgn(d) ==> !BgEgn(d[9 := c])
    ensures BgPnf(d) ==> !BgPnf(d[9 := c])
    ensures BgVat(d) ==> !BgVat(d[9 := c])
  {
    TailIgnored(d, BgEgnWeights, 9, c);
    TailIgnored(d, BgPnfWeights, 9, c);
    TailIgnored(d, BgVatWeights, 9, c);
  }

  // ----- Cyprus -----

  /** `^CY[0-5|9]{1}[0-9]{7}[A-Z]{1}$`: the class also admits `|`. */
  predicate CyShape(v: string) {
    |v| == 11 && v[..2] == "CY" && ('0' <= v[2] <= '5' || v[2] == '9' || v[2] == '|')
    && AllDigits(v[3..10]) && IsUpper(v[10])
  }

  /** What a digit in an even position counts for. */
  const CyTranslation: seq<nat> := [1, 0, 5, 7, 9, 13, 15, 17, 19, 21]

  function CyTerm(d: string, i: nat): (r: nat)
    requires i < |d| && AllDigits(d)
    ensures r <= 21
  {
    if i % 2 == 0 then CyTranslation[DigitVal(d[i])] else DigitVal(d[i])
  }

  /** The sum over the first `k` digits. */
  function CySum(d: string, k: nat): nat
    requires k <= |d| && AllDigits(d)
  {
    if k == 0 then 0 else CySum(d, k - 1) + CyTerm(d, k - 1)
  }

  /** `'ABCDEFGHIJKLMNOPQRSTUVWXYZ'[sum % 26]`. */
  function CyLetter(n: nat): (c: char)
    ensures IsUpper(c)
  {
    ('A' as int + n % 26) as char
  }

  /** `_cy`: numbers starting `12` are refused; a `|` makes the sum NaN, and
      NaN selects no letter; otherwise the letter of the sum is the last character. */
  predicate CyValid(v: string) {
    CyShape(v) && v[2..4] != "12" && AllDigits(v[2..10]) && CyLetter(CySum(v[2..10], 8)) == v[10]
  }

  /** The `|` the class lets through is always rejected. */
  lemma CyPipeRejected(v: string)
    requires |v| >= 3 && v[2] == '|'
    ensures !CyValid(v)
  {
    if |v| >= 10 {
      assert v[2..10][0] == '|';
    }
  }

  lemma {:induction false} CySumReplace(d: string, k: nat, i: nat, c: char)
    requires k <= |d| && AllDigits(d) && i < |d| && IsDigit(c)
    ensures AllDigits(d[i := c])
    ensures CySum(d[i := c], k) == CySum(d, k) + (if i < k then CyTerm(d[i := c], i) - CyTerm(d, i) else 0)
  {
    if k > 0 {
      CySumReplace(d, k - 1, i, c);
      if k - 1 != i {
        assert CyTerm(d[i := c], k - 1) == CyTerm(d, k - 1);
      }
    }
  }

  /** Any digit put in place of one character of an accepted Cypriot number is rejected. */
  lemma CySubstitutionDetected(v: string, i: nat, c: char)
    requires CyValid(v) && i < |v| && IsDigit(c) && c != v[i]
    ensures !CyValid(v[i := c])
  {
    var w := v[i := c];
    if i < 2 {
      assert w[..2] != "CY" by {
        assert w[..2][i] == c;
      }
    } else if i < 10 {
      var d := v[2..10];
      assert w[2..10] == d[i - 2 := c];
      CySumReplace(d, 8, i - 2, c);
      var x, y := CyTerm(d, i - 2), CyTerm(d[i - 2 := c], i - 2);
      assert x != y by {
        assert d[i - 2 := c][i - 2] == c;
      }
      NearResidues(CySum(d, 8) + (y as int - x as int), CySum(d, 8), 26);
      assert CySum(w[2..10], 8) == CySum(d, 8) + (y as int - x as int);
      assert w[10] == v[10];
    }
  }

  // ----- Czech Republic -----

  const CzWeights: seq<int> := [8, 7, 6, 5, 4, 3, 2]

  /** `11 - sum % 11`, ten written zero and eleven written one. */
  function CzCheck(s: int): (r: int)
    ensures 0 <= r < 10
  {
    var c := 11 - s % 11;
    if c == 10 then 0 else if c == 11 then 1 else c
  }

  /** Where the check of an individual without a birth number points. */
  const CzIndividual: seq<int> := [8, 7, 6, 5, 4, 3, 2, 1, 0, 9, 10]

  /**
   `_cz`: `^CZ[0-9]{8,10}$`.  Eight digits are a legal entity, which must
   not start with 9; nine digits starting with 6 are an individual without a
   birth number, whose check zero indexes before the table and so matches
   nothing.  Every other number is refused: the routine for birth numbers
   is defined but never called.
   */
  predicate CzValid(v: string) {
    (Prefixed(v, "CZ", 8) || Prefixed(v, "CZ", 9) || Prefixed(v, "CZ", 10))
    && (var d := v[2..];
        if |d| == 8 then d[0] != '9' && DigitIs(CzCheck(Weighted(d, CzWeights)), d[7])
        else if |d| == 9 && d[0] == '6' then
          var c := CzCheck(Weighted(d[1..], CzWeights));
          c != 0 && DigitIs(CzIndividual[c - 1], d[8])
        else false)
  }

  /** Birth numbers, nine digits not starting with 6 or ten digits, are all refused. */
  lemma CzBirthNumbersRejected(v: string)
    requires |v| == 12 || (|v| == 11 && v[2] != '6')
    ensures !CzValid(v)
  {
    if |v| == 11 {
      assert v[2..][0] == v[2];
    }
  }

  /** An individual whose seven digits sum to one modulo 11 has no accepted check digit. */
  lemma CzIndividualGap(v: string)
    requires Prefixed(v, "CZ", 9) && v[2] == '6' && Weighted(v[3..], CzWeights) % 11 == 1
    ensures !CzValid(v)
  {
    assert v[2..][1..] == v[3..];
  }

  /** The last digit of an accepted legal entity is the only one accepted there. */
  lemma CzLegalCheckUnique(v: string, c: char)
    requires CzValid(v) && |v| == 10 && IsDigit(c) && c != v[9]
    ensures !CzValid(v[9 := c])
  {
    PrefixedReplace(v, "CZ", 8, 9, c);
    TailIgnored(v[2..], CzWeights, 7, c);
    assert v[9 := c][2..][0] == v[2];
  }

  /** The last digit of an accepted individual is the only one accepted there. */
  lemma CzIndividualCheckUnique(v: string, c: char)
    requires CzValid(v) && |v| == 11 && IsDigit(c) && c != v[10]
    ensures !CzValid(v[10 := c])
  {
    var w := v[10 := c];
    PrefixedReplace(v, "CZ", 9, 10, c);
    assert w[2..][0] == v[2];
    assert w[2..][1..] == v[2..][1..][7 := c];
    TailIgnored(v[2..][1..], CzWeights, 7, c);
  }

  // ----- Spain -----

  /** `^ES[0-9A-Z][0-9]{7}[0-9A-Z]$`. */
  predicate EsShape(v: string) {
    |v| == 11 && v[..2] == "ES" && DigitOrUpper(v[2]) && AllDigits(v[3..10]) && DigitOrUpper(v[10])
  }

  const EsLetters: string := "TRWAGMYFPDXBNJZSQVHLCKE"

  /** The control letter of a number: `'TRWAGMYFPDXBNJZSQVHLCKE'[n % 23]`. */
  function EsLetter(n: nat): (c: char)
    ensures IsUpper(c)
  {
    EsLetters[n % 23]
  }

  /** A national identity number: the letter of the first eight digits. */
  predicate EsDni(d: string)
    requires |d| == 9
  {
    AllDigits(d[..8]) && EsLetter(NumberOf(d[..8])) == d[8]
  }

  /** A foreigner's number: `X`, `Y` or `Z` stands for 0, 1 or 2, and
      `parseInt` reads the digits that follow, the last character too when
      it is a digit. */
  predicate EsNie(d: string)
    requires |d| == 9 && IndexOf("XYZ", d[0]) >= 0
  {
    match ParseIntPrefix([DigitChar(IndexOf("XYZ", d[0]))] + d[1..])
    case None => false
    case Some(n) => EsLetter(n) == d[8]
  }

  const EsCifWeights: seq<nat> := [2, 1, 2, 1, 2, 1, 2]

  /** The digit sum of a company number over the first `k` of its seven digits,
      a doubled digit above nine counting as the sum of its two digits. */
  function EsCifSum(e: string, k: nat): nat
    requires k <= 7 && k <= |e| && AllDigits(e)
  {
    if k == 0 then 0
    else
      var d, w := DigitVal(e[k - 1]), EsCifWeights[k - 1];
      EsCifSum(e, k - 1) + (if d * w > 9 then d * w / 10 + d * w % 10 else d * w)
  }

  const EsCifControl: string := "JABCDEFGHI"

  /** The first letters of company numbers with a computed control. */
  const EsCifLetters: string := "ABCDEFGHJNPQRSUVW"

  /** A company number.  `K`, `L` and `M` take a letter as a foreigner's
      number does; the other company letters take `10 - sum % 10` as a digit
      or as a letter of `JABCDEFGHI`.  When the sum is a multiple of ten
      that is ten, which is neither. */
  predicate EsCif(d: string)
    requires |d| == 9 && AllDigits(d[1..8])
  {
    if d[0] in "KLM" then
      match ParseIntPrefix(d[1..9])
      case None => false
      case Some(n) => EsLetter(n) == d[8]
    else if d[0] in EsCifLetters then
      var c := 10 - EsCifSum(d[1..8], 7) % 10;
      DigitIs(c, d[8]) || (c < 10 && EsCifControl[c] == d[8])
    else false
  }

  /** `_es`: the first character chooses the kind of number. */
  predicate EsValid(v: string) {
    EsShape(v)
    && (var d := v[2..];
        assert d[1..8] == v[3..10];
        if IsDigit(d[0]) then EsDni(d)
        else if d[0] in "XYZ" then EsNie(d)
        else EsCif(d))
  }

  /** The letter of an accepted identity number is the only one accepted there. */
  lemma EsDniLetterUnique(v: string, c: char)
    requires EsValid(v) && IsDigit(v[2]) && c != v[10]
    ensures !EsValid(v[10 := c])
  {
    var w := v[10 := c];
    assert w[..2] == v[..2] && w[3..10] == v[3..10] && w[2..][..8] == v[2..][..8];
  }

  /** A company number whose sum is a multiple of ten is refused whatever its last character. */
  lemma EsCifTenRejected(v: string)
    requires |v| == 11 && AllDigits(v[3..10]) && v[2] in EsCifLetters
    requires EsCifSum(v[3..10], 7) % 10 == 0
    ensures !EsValid(v)
  {
    var d := v[2..];
    assert d[1..8] == v[3..10];
    assert d[0] !in "KLM" && !IsDigit(d[0]) && d[0] !in "XYZ";
  }

  /** How a company number with a computed control is judged. */
  lemma EsCifRule(v: string)
    requires |v| == 11 && v[..2] == "ES" && AllDigits(v[3..10]) && v[2] in EsCifLetters && DigitOrUpper(v[10])
    ensures EsValid(v) <==>
      var c := 10 - EsCifSum(v[3..10], 7) % 10;
      DigitIs(c, v[10]) || (c < 10 && EsCifControl[c] == v[10])
  {
    assert v[2] !in "KLM" && !IsDigit(v[2]) && v[2] !in "XYZ";
    assert v[2..][1..8] == v[3..10];
  }

  /** The letters that spell a company control. */
  lemma EsCifControlLetters(c: nat)
    requires c < 10
    ensures IsUpper(EsCifControl[c])
  {
  }

  /** Otherwise the control may be written as a digit or as a letter, and both are accepted. */
  lemma EsCifTwoSpellings(v: string)
    requires |v| == 11 && v[..2] == "ES" && AllDigits(v[3..10]) && v[2] in EsCifLetters
    requires EsCifSum(v[3..10], 7) % 10 != 0
    ensures var c := 10 - EsCifSum(v[3..10], 7) % 10;
      EsValid(v[10 := DigitChar(c)]) && EsValid(v[10 := EsCifControl[c]])
  {
    var e := v[3..10];
    var c := 10 - EsCifSum(e, 7) % 10;
    var a := v[10 := DigitChar(c)];
    assert a[..2] == v[..2] && a[3..10] == e && a[2] == v[2];
    EsCifRule(a);
    var b := v[10 := EsCifControl[c]];
    assert b[..2] == v[..2] && b[3..10] == e && b[2] == v[2];
    EsCifControlLetters(c);
    EsCifRule(b);
  }

  // ----- France -----

  /** `^FR[0-9A-Z]{2}[0-9]{9}$`: two key characters and a SIREN number. */
  predicate FrShape(v: string) {
    |v| == 13 && v[..2] == "FR" && DigitOrUpper(v[2]) && DigitOrUpper(v[3]) && AllDigits(v[4..])
  }

  /** The key alphabet, without `I` and `O`. */
  const FrAlphabet: string := "0123456789ABCDEFGHJKLMNPQRSTUVWXYZ"

  /** The key against the SIREN number `n`.  Two digits must equal
      `(n * 100 + 12) % 97`; otherwise the key characters are mapped to a
      number `check`, and `(n + 1 + floor(check / 11)) % 11 == check % 11`
      with JavaScript's `%`. */
  predicate FrKey(a: char, b: char, n: nat) {
    if IsDigit(a) && IsDigit(b) then 10 * DigitVal(a) + DigitVal(b) == (n * 100 + 12) % 97
    else
      var check := if IsDigit(a) then IndexOf(FrAlphabet, a) * 24 + IndexOf(FrAlphabet, b) - 10
                   else IndexOf(FrAlphabet, a) * 34 + IndexOf(FrAlphabet, b) - 100;
      JsRem(n + 1 + check / 11, 11) == JsRem(check, 11)
  }

  /** `_fr`: the SIREN number must pass the Luhn test, and the key must match it. */
  predicate FrValid(v: string) {
    FrShape(v) && Luhn.Valid(v[4..]) && FrKey(v[2], v[3], NumberOf(v[4..]))
  }

  /** Any digit put in place of a digit of the SIREN number of an accepted number is rejected. */
  lemma FrSirenSubstitutionDetected(v: string, i: nat, c: char)
    requires FrValid(v) && 4 <= i < |v| && IsDigit(c) && c != v[i]
    ensures !FrValid(v[i := c])
  {
    var w := v[i := c];
    assert w[4..] == v[4..][i - 4 := c];
    Luhn.SingleDigitErrorDetected(v[4..], i - 4, c);
  }

  /** A SIREN number has one numeric key. */
  lemma FrNumericKeyUnique(v: string, a: char, b: char)
    requires FrValid(v) && IsDigit(v[2]) && IsDigit(v[3]) && IsDigit(a) && IsDigit(b) && (a != v[2] || b != v[3])
    ensures !FrValid(v[2 := a][3 := b])
  {
    var w := v[2 := a][3 := b];
    assert w[4..] == v[4..];
  }

  // ----- United Kingdom -----

  /** The five expressions: standard, branch, government department, health
      authority, and the `8888` forms of the last two. */
  predicate GbShape(v: string) {
    Prefixed(v, "GB", 9) || Prefixed(v, "GB", 12) || Prefixed(v, "GBGD", 3) || Prefixed(v, "GBHA", 3)
    || Prefixed(v, "GBGD8888", 5) || Prefixed(v, "GBHA8888", 5)
  }

  const GbWeights: seq<int> := [8, 7, 6, 5, 4, 3, 2, 10, 1]

  /** The standard check on the first nine digits: the sum modulo 97 is 0,
      or also 42 or 55 when the first three digits are 100 or more. */
  predicate GbStandard(d: string)
    requires |d| >= 9 && AllDigits(d)
  {
    var s := Weighted(d, GbWeights) % 97;
    if NumberOf(d[..3]) >= 100 then s == 0 || s == 42 || s == 55 else s == 0
  }

  /** `_gb`, on what follows `GB`; the digit tests repeat what the shape already fixed. */
  predicate GbRule(d: string) {
    if |d| == 5 then
      AllDigits(d[2..]) && ((d[..2] == "GD" && NumberOf(d[2..]) < 500) || (d[..2] == "HA" && NumberOf(d[2..]) >= 500))
    else if |d| == 11 && (d[..6] == "GD8888" || d[..6] == "HA8888") then
      AllDigits(d[6..])
      && (var n := NumberOf(d[6..9]);
          !((d[..2] == "GD" && n >= 500) || (d[..2] == "HA" && n < 500)) && n % 97 == NumberOf(d[9..]))
    else if |d| == 9 || |d| == 12 then
      AllDigits(d) && GbStandard(d)
    else true
  }

  predicate GbValid(v: string) {
    GbShape(v) && GbRule(v[2..])
  }

  /** A branch number is judged by its first nine digits. */
  lemma GbBranchIgnored(d: string)
    requires |d| == 12 && AllDigits(d)
    ensures GbValid("GB" + d) <==> GbValid("GB" + d[..9])
  {
    var l, s := "GB" + d, "GB" + d[..9];
    assert l[..2] == "GB" && l[2..] == d;
    assert s[..2] == "GB" && s[2..] == d[..9];
    PartialPrefix(d, GbWeights, 9, 9);
    assert d[..9][..3] == d[..3];
  }

  /** Every three-digit number is a government department or a health
      authority, never both. */
  lemma GbDepartmentOrAuthority(t: string)
    requires |t| == 3 && AllDigits(t)
    ensures GbValid("GBGD" + t) != GbValid("GBHA" + t)
  {
    var g, h := "GBGD" + t, "GBHA" + t;
    assert g[..4] == "GBGD" && g[4..] == t && g[2..][2..] == t && g[2..][..2] == "GD";
    assert h[..4] == "GBHA" && h[4..] == t && h[2..][2..] == t && h[2..][..2] == "HA";
  }

  // ----- Ireland -----

  /** `^IE[0-9]{1}[0-9A-Z\*\+]{1}[0-9]{5}[A-Z]{1,2}$`. */
  predicate IeShape(v: string) {
    (|v| == 10 || |v| == 11) && v[..2] == "IE" && IsDigit(v[2])
    && (DigitOrUpper(v[3]) || v[3] == '*' || v[3] == '+')
    && AllDigits(v[4..9]) && IsUpper(v[9]) && (|v| == 11 ==> IsUpper(v[10]))
  }

  /** The `while` loop of `getCheckDigit`: zeros in front up to seven characters. */
  function Pad7(t: string): (r: string)
    decreases 7 - |t|
    ensures |r| == if |t| < 7 then 7 else |t|
    ensures r[|r| - |t|..] == t
    ensures forall k :: 0 <= k < |r| - |t| ==> r[k] == '0'
  {
    if |t| < 7 then
      var r := Pad7("0" + t);
      assert r[|r| - |t|..] == ("0" + t)[1..];
      r
    else t
  }

  /** `s.indexOf(p)` for a string `p`: the first position where it occurs, or -1. */
  function Find(s: string, p: string): (r: int)
    ensures -1 <= r <= |s|
    ensures r >= 0 ==> r + |p| <= |s| && s[r..r + |p|] == p
  {
    if |p| > |s| then -1
    else if s[..|p|] == p then 0
    else
      var r := Find(s[1..], p);
      if r == -1 then -1 else r + 1
  }

  const IeAlphabet: string := "WABCDEFGHIJKLMNOPQRSTUV"
  const IeWeights: seq<int> := [8, 7, 6, 5, 4, 3, 2]

  /** `getCheckDigit` on an already padded string: seven digits weighted 8
      down to 2, plus nine times the place of the rest in the alphabet
      (zero for nothing, -1 when it is missing), and the letter at the
      remainder.  A non-digit makes the sum NaN and a negative remainder
      indexes nothing: `None` is `undefined`. */
  function IeCheckChar(t: string): Option<char> {
    if |t| < 7 || !AllDigits(t[..7]) then None
    else
      var s := Weighted(t[..7], IeWeights) + 9 * Find(IeAlphabet, t[7..]);
      var r := JsRem(s, 23);
      if r < 0 then None else Some(IeAlphabet[r])
  }

  /** `_ie`.  When the first seven characters are digits the number is of
      the new kind, checked with its second letter; otherwise the second
      character is a letter, `*` or `+` and the number is of the old kind,
      checked on its digits with the first one moved behind. */
  predicate IeValid(v: string) {
    IeShape(v)
    && (var d := v[2..];
        if AllDigits(d[..7]) then Some(d[7]) == IeCheckChar(Pad7(d[..7] + d[8..]))
        else if d[1] in "ABCDEFGHIJKLMNOPQRSTUVWXYZ+*" then Some(d[7]) == IeCheckChar(Pad7(d[2..7] + d[..1]))
        else true)
  }

  /** Every input of the right shape is of the new kind or the old kind. */
  lemma IeNewOrOld(v: string)
    requires IeShape(v)
    ensures AllDigits(v[2..9]) || v[3] in "ABCDEFGHIJKLMNOPQRSTUVWXYZ+*"
  {
    if !AllDigits(v[2..9]) {
      var k :| 0 <= k < 7 && !IsDigit(v[2..9][k]);
      assert k == 1;
    }
  }

  /** The check letter of an accepted Irish number is the only one accepted there. */
  lemma IeCheckLetterUnique(v: string, c: char)
    requires IeValid(v) && IsUpper(c) && c != v[9]
    ensures !IeValid(v[9 := c])
  {
    var w := v[9 := c];
    assert w[..2] == v[..2] && w[4..9] == v[4..9];
    var d, e := v[2..], w[2..];
    assert e[..7] == d[..7] && e[8..] == d[8..] && e[1] == d[1] && e[7] == c;
    if AllDigits(d[..7]) {
      assert IeCheckChar(Pad7(e[..7] + e[8..])) == IeCheckChar(Pad7(d[..7] + d[8..]));
    } else {
      IeNewOrOld(v);
      assert d[..7] == v[2..9] && d[1] == v[3];
      assert e[2..7] == d[2..7] && e[..1] == d[..1];
    }
  }

  // ----- Italy -----

  /** `_it`: `^IT[0-9]{11}$`; the company part must not be zero, the office
      code must be 1 to 201, 888 or 999, and the digits must pass the Luhn test. */
  predicate ItValid(v: string) {
    Prefixed(v, "IT", 11)
    && NumberOf(v[2..9]) != 0
    && (var office := NumberOf(v[9..12]); !(office < 1 || (office > 201 && office != 999 && office != 888)))
    && Luhn.Valid(v[2..])
  }

  /** Any digit put in place of one character of an accepted Italian number is rejected. */
  lemma ItSubstitutionDetected(v: string, i: nat, c: char)
    requires ItValid(v) && i < |v| && IsDigit(c) && c != v[i]
    ensures !ItValid(v[i := c])
  {
    if i < 2 {
      PrefixBroken(v, "IT", 11, i, c);
    } else {
      PrefixedReplace(v, "IT", 11, i, c);
      Luhn.SingleDigitErrorDetected(v[2..], i - 2, c);
    }
  }

  // ----- Lithuania -----

  /** `^LT([0-9]{7}1[0-9]{1}|[0-9]{10}1[0-9]{1})$`: nine or twelve digits, a 1 before the last. */
  predicate LtShape(v: string) {
    (Prefixed(v, "LT", 9) && v[9] == '1') || (Prefixed(v, "LT", 12) && v[12] == '1')
  }

  /** `1 + i % 9`. */
  const LtWeights: seq<int> := [1, 2, 3, 4, 5, 6, 7, 8, 9, 1, 2]

  /** The remainder of all digits but the last, weighted. */
  function LtRemainder(d: string): (r: int)
    requires 2 <= |d| <= 12 && AllDigits(d)
    ensures 0 <= r < 11
  {
    Weighted(d, LtWeights[..|d| - 1]) % 11
  }

  /** `_lt`: the last digit is `check % 11 % 10`.  When the remainder is ten
      the routine computes a second sum with weights shifted by two, but
      never reads it, so `check` is still the first remainder. */
  predicate LtValid(v: string) {
    LtShape(v) && DigitIs(LtRemainder(v[2..]) % 11 % 10, v[|v| - 1])
  }

  /** A remainder of ten always asks for a last digit of zero. */
  lemma LtStaleCheck(v: string)
    requires LtShape(v) && LtRemainder(v[2..]) == 10
    ensures LtValid(v) <==> v[|v| - 1] == '0'
  {
  }

  lemma LtCheckUnique(v: string, c: char)
    requires LtValid(v) && IsDigit(c) && c != v[|v| - 1]
    ensures !LtValid(v[|v| - 1 := c])
  {
    var k := |v| - 1;
    var w := v[k := c];
    if |v| == 11 {
      PrefixedReplace(v, "LT", 9, k, c);
    } else {
      PrefixedReplace(v, "LT", 12, k, c);
    }
    TailIgnored(v[2..], LtWeights[..|v| - 3], k - 2, c);
  }

  // ----- Latvia -----

  const LvLegalWeights: seq<int> := [9, 1, 4, 8, 3, 10, 2, 5, 7, 6, 1]
  const LvPersonWeights: seq<int> := [10, 5, 8, 4, 2, 1, 6, 3, 7, 9]

  /** `_lv`: `^LV[0-9]{11}$`.  A first digit above 3 marks a legal entity,
      whose weighted sum is 3 modulo 11; otherwise the last digit is
      `(sum + 1) % 11 % 10`.  The birth date goes to `new Date`, which never
      throws, so it is not checked. */
  predicate LvValid(v: string) {
    Prefixed(v, "LV", 11)
    && (var d := v[2..];
        if DigitVal(d[0]) > 3 then Weighted(d, LvLegalWeights) % 11 == 3
        else DigitIs((Weighted(d, LvPersonWeights) + 1) % 11 % 10, d[10]))
  }

  /** Any digit put in place of one character of an accepted legal entity,
      keeping it a legal entity, is rejected. */
  lemma LvLegalSubstitutionDetected(v: string, i: nat, c: char)
    requires LvValid(v) && DigitVal(v[2]) > 3 && i < |v| && IsDigit(c) && c != v[i]
    requires i == 2 ==> DigitVal(c) > 3
    ensures !LvValid(v[i := c])
  {
    if i < 2 {
      PrefixBroken(v, "LV", 11, i, c);
    } else {
      PrefixedReplace(v, "LV", 11, i, c);
      var d := v[2..];
      assert NoZeroMultiple(9, 11, 9) && NoZeroMultiple(1, 11, 9) && NoZeroMultiple(4, 11, 9) && NoZeroMultiple(8, 11, 9);
      assert NoZeroMultiple(3, 11, 9) && NoZeroMultiple(10, 11, 9) && NoZeroMultiple(2, 11, 9) && NoZeroMultiple(5, 11, 9);
      assert NoZeroMultiple(7, 11, 9) && NoZeroMultiple(6, 11, 9);
      assert Separating(LvLegalWeights, 11, 11);
      SeparatingAt(LvLegalWeights, 11, 11, i - 2);
      SubstitutionMoves(d, LvLegalWeights, 11, i - 2, c);
      assert v[i := c][2..][0] == if i == 2 then c else v[2];
    }
  }

  /** The last digit of an accepted person's code is the only one accepted there. */
  lemma LvPersonCheckUnique(v: string, c: char)
    requires LvValid(v) && DigitVal(v[2]) <= 3 && IsDigit(c) && c != v[12]
    ensures !LvValid(v[12 := c])
  {
    PrefixedReplace(v, "LV", 11, 12, c);
    TailIgnored(v[2..], LvPersonWeights, 10, c);
    assert v[12 := c][2..][0] == v[2];
  }

  // ----- Sweden -----

  /** `_se`: `^SE[0-9]{10}01$`, and the ten digits pass the Luhn test. */
  predicate SeValid(v: string) {
    |v| == 14 && Prefixed(v[..12], "SE", 10) && v[12..] == "01" && Luhn.Valid(v[2..12])
  }

  /** Any digit put in place of one character of an accepted Swedish number is rejected. */
  lemma SeSubstitutionDetected(v: string, i: nat, c: char)
    requires SeValid(v) && i < |v| && IsDigit(c) && c != v[i]
    ensures !SeValid(v[i := c])
  {
    var w := v[i := c];
    if i < 2 {
      assert w[..12][..2] != "SE" by {
        assert w[..12][..2][i] == c;
      }
    } else if i < 12 {
      assert w[2..12] == v[2..12][i - 2 := c];
      Luhn.SingleDigitErrorDetected(v[2..12], i - 2, c);
    } else {
      assert w[12..][i - 12] == c && v[12..][i - 12] == v[i];
    }
  }
}
