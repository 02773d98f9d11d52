/**
 The `iban` validator: the input, stripped to letters and digits and upper
 cased, must have the layout the IBAN registry gives its country (ISO 13616),
 and pass the MOD 97-10 check of ISO/IEC 7064 once the first four characters
 are moved to the end and letters are replaced by 10 to 35.
 */
module Iban {
  import opened Chars

  /** The character classes of the layouts: `[0-9]`, `[A-Z]`, `[A-Z0-9]`, `[0]`. */
  datatype Class = Digit | Alpha | AlphaNum | Zero

  /** A layout piece: fixed text, or a run of `count` characters of a class. */
  datatype Seg = Lit(text: string) | Run(cls: Class, count: nat)

  predicate InClass(c: char, k: Class) {
    match k
    case Digit => IsDigit(c)
    case Alpha => IsUpper(c)
    case AlphaNum => IsUpper(c) || IsDigit(c)
    case Zero => c == '0'
  }

  /** `new RegExp('^' + layout + '$').test(v)`. */
  function Matches(v: string, p: seq<Seg>): bool
    decreases |p|
  {
    if p == [] then v == []
    else
      match p[0]
      case Lit(t) => |t| <= |v| && v[..|t|] == t && Matches(v[|t|..], p[1..])
      case Run(k, n) => n <= |v| && (forall i :: 0 <= i < n ==> InClass(v[i], k)) && Matches(v[n..], p[1..])
  }

  /** The layouts, by country code. */
  const Layouts: map<string, seq<Seg>> :=
    map[
      "AD" := [Lit("AD"), Run(Digit, 2), Run(Digit, 4), Run(Digit, 4), Run(AlphaNum, 12)],
      "AE" := [Lit("AE"), Run(Digit, 2), Run(Digit, 3), Run(Digit, 16)],
      "AL" := [Lit("AL"), Run(Digit, 2), Run(Digit, 8), Run(AlphaNum, 16)],
      "AO" := [Lit("AO"), Run(Digit, 2), Run(Digit, 21)],
      "AT" := [Lit("AT"), Run(Digit, 2), Run(Digit, 5), Run(Digit, 11)],
      "AZ" := [Lit("AZ"), Run(Digit, 2), Run(Alpha, 4), Run(AlphaNum, 20)],
      "BA" := [Lit("BA"), Run(Digit, 2), Run(Digit, 3), Run(Digit, 3), Run(Digit, 8), Run(Digit, 2)],
      "BE" := [Lit("BE"), Run(Digit, 2), Run(Digit, 3), Run(Digit, 7), Run(Digit, 2)],
      "BF" := [Lit("BF"), Run(Digit, 2), Run(Digit, 23)],
      "BG" := [Lit("BG"), Run(Digit, 2), Run(Alpha, 4), Run(Digit, 4), Run(Digit, 2), Run(AlphaNum, 8)],
      "BH" := [Lit("BH"), Run(Digit, 2), Run(Alpha, 4), Run(AlphaNum, 14)],
      "BI" := [Lit("BI"), Run(Digit, 2), Run(Digit, 12)],
      "BJ" := [Lit("BJ"), Run(Digit, 2), Run(Alpha, 1), Run(Digit, 23)],
      "BR" := [Lit("BR"), Run(Digit, 2), Run(Digit, 8), Run(Digit, 5), Run(Digit, 10), Run(Alpha, 1), Run(AlphaNum, 1)],
      "CH" := [Lit("CH"), Run(Digit, 2), Run(Digit, 5), Run(AlphaNum, 12)],
      "CI" := [Lit("CI"), Run(Digit, 2), Run(Alpha, 1), Run(Digit, 23)],
      "CM" := [Lit("CM"), Run(Digit, 2), Run(Digit, 23)],
      "CR" := [Lit("CR"), Run(Digit, 2), Run(Digit, 3), Run(Digit, 14)],
      "CV" := [Lit("CV"), Run(Digit, 2), Run(Digit, 21)],
      "CY" := [Lit("CY"), Run(Digit, 2), Run(Digit, 3), Run(Digit, 5), Run(AlphaNum, 16)],
      "CZ" := [Lit("CZ"), Run(Digit, 2), Run(Digit, 20)],
      "DE" := [Lit("DE"), Run(Digit, 2), Run(Digit, 8), Run(Digit, 10)],
      "DK" := [Lit("DK"), Run(Digit, 2), Run(Digit, 14)],
      "DO" := [Lit("DO"), Run(Digit, 2), Run(AlphaNum, 4), Run(Digit, 20)],
      "DZ" := [Lit("DZ"), Run(Digit, 2), Run(Digit, 20)],
      "EE" := [Lit("EE"), Run(Digit, 2), Run(Digit, 2), Run(Digit, 2), Run(Digit, 11), Run(Digit, 1)],
      "ES" := [Lit("ES"), Run(Digit, 2), Run(Digit, 4), Run(Digit, 4), Run(Digit, 1), Run(Digit, 1), Run(Digit, 10)],
      "FI" := [Lit("FI"), Run(Digit, 2), Run(Digit, 6), Run(Digit, 7), Run(Digit, 1)],
      "FO" := [Lit("FO"), Run(Digit, 2), Run(Digit, 4), Run(Digit, 9), Run(Digit, 1)],
      "FR" := [Lit("FR"), Run(Digit, 2), Run(Digit, 5), Run(Digit, 5), Run(AlphaNum, 11), Run(Digit, 2)],
      "GB" := [Lit("GB"), Run(Digit, 2), Run(Alpha, 4), Run(Digit, 6), Run(Digit, 8)],
      "GE" := [Lit("GE"), Run(Digit, 2), Run(Alpha, 2), Run(Digit, 16)],
      "GI" := [Lit("GI"), Run(Digit, 2), Run(Alpha, 4), Run(AlphaNum, 15)],
      "GL" := [Lit("GL"), Run(Digit, 2), Run(Digit, 4), Run(Digit, 9), Run(Digit, 1)],
      "GR" := [Lit("GR"), Run(Digit, 2), Run(Digit, 3), Run(Digit, 4), Run(AlphaNum, 16)],
      "GT" := [Lit("GT"), Run(Digit, 2), Run(AlphaNum, 4), Run(AlphaNum, 20)],
      "HR" := [Lit("HR"), Run(Digit, 2), Run(Digit, 7), Run(Digit, 10)],
      "HU" := [Lit("HU"), Run(Digit, 2), Run(Digit, 3), Run(Digit, 4), Run(Digit, 1), Run(Digit, 15), Run(Digit, 1)],
      "IE" := [Lit("IE"), Run(Digit, 2), Run(Alpha, 4), Run(Digit, 6), Run(Digit, 8)],
      "IL" := [Lit("IL"), Run(Digit, 2), Run(Digit, 3), Run(Digit, 3), Run(Digit, 13)],
      "IR" := [Lit("IR"), Run(Digit, 2), Run(Digit, 22)],
      "IS" := [Lit("IS"), Run(Digit, 2), Run(Digit, 4), Run(Digit, 2), Run(Digit, 6), Run(Digit, 10)],
      "IT" := [Lit("IT"), Run(Digit, 2), Run(Alpha, 1), Run(Digit, 5), Run(Digit, 5), Run(AlphaNum, 12)],
      "JO" := [Lit("JO"), Run(Digit, 2), Run(Alpha, 4), Run(Digit, 4), Run(Zero, 8), Run(AlphaNum, 10)],
      "KW" := [Lit("KW"), Run(Digit, 2), Run(Alpha, 4), Run(Digit, 22)],
      "KZ" := [Lit("KZ"), Run(Digit, 2), Run(Digit, 3), Run(AlphaNum, 13)],
      "LB" := [Lit("LB"), Run(Digit, 2), Run(Digit, 4), Run(AlphaNum, 20)],
      "LI" := [Lit("LI"), Run(Digit, 2), Run(Digit, 5), Run(AlphaNum, 12)],
      "LT" := [Lit("LT"), Run(Digit, 2), Run(Digit, 5), Run(Digit, 11)],
      "LU" := [Lit("LU"), Run(Digit, 2), Run(Digit, 3), Run(AlphaNum, 13)],
      "LV" := [Lit("LV"), Run(Digit, 2), Run(Alpha, 4), Run(AlphaNum, 13)],
      "MC" := [Lit("MC"), Run(Digit, 2), Run(Digit, 5), Run(Digit, 5), Run(AlphaNum, 11), Run(Digit, 2)],
      "MD" := [Lit("MD"), Run(Digit, 2), Run(AlphaNum, 20)],
      "ME" := [Lit("ME"), Run(Digit, 2), Run(Digit, 3), Run(Digit, 13), Run(Digit, 2)],
      "MG" := [Lit("MG"), Run(Digit, 2), Run(Digit, 23)],
      "MK" := [Lit("MK"), Run(Digit, 2), Run(Digit, 3), Run(AlphaNum, 10), Run(Digit, 2)],
      "ML" := [Lit("ML"), Run(Digit, 2), Run(Alpha, 1), Run(Digit, 23)],
      "MR" := [Lit("MR13"), Run(Digit, 5), Run(Digit, 5), Run(Digit, 11), Run(Digit, 2)],
      "MT" := [Lit("MT"), Run(Digit, 2), Run(Alpha, 4), Run(Digit, 5), Run(AlphaNum, 18)],
      "MU" := [Lit("MU"), Run(Digit, 2), Run(Alpha, 4), Run(Digit, 2), Run(Digit, 2), Run(Digit, 12), Run(Digit, 3), Run(Alpha, 3)],
      "MZ" := [Lit("MZ"), Run(Digit, 2), Run(Digit, 21)],
      "NL" := [Lit("NL"), Run(Digit, 2), Run(Alpha, 4), Run(Digit, 10)],
      "NO" := [Lit("NO"), Run(Digit, 2), Run(Digit, 4), Run(Digit, 6), Run(Digit, 1)],
      "PK" := [Lit("PK"), Run(Digit, 2), Run(Alpha, 4), Run(AlphaNum, 16)],
      "PL" := [Lit("PL"), Run(Digit, 2), Run(Digit, 8), Run(Digit, 16)],
      "PS" := [Lit("PS"), Run(Digit, 2), Run(Alpha, 4), Run(AlphaNum, 21)],
      "PT" := [Lit("PT"), Run(Digit, 2), Run(Digit, 4), Run(Digit, 4), Run(Digit, 11), Run(Digit, 2)],
      "QA" := [Lit("QA"), Run(Digit, 2), Run(Alpha, 4), Run(AlphaNum, 21)],
      "RO" := [Lit("RO"), Run(Digit, 2), Run(Alpha, 4), Run(AlphaNum, 16)],
      "RS" := [Lit("RS"), Run(Digit, 2), Run(Digit, 3), Run(Digit, 13), Run(Digit, 2)],
      "SA" := [Lit("SA"), Run(Digit, 2), Run(Digit, 2), Run(AlphaNum, 18)],
      "SE" := [Lit("SE"), Run(Digit, 2), Run(Digit, 3), Run(Digit, 16), Run(Digit, 1)],
      "SI" := [Lit("SI"), Run(Digit, 2), Run(Digit, 5), Run(Digit, 8), Run(Digit, 2)],
      "SK" := [Lit("SK"), Run(Digit, 2), Run(Digit, 4), Run(Digit, 6), Run(Digit, 10)],
      "SM" := [Lit("SM"), Run(Digit, 2), Run(Alpha, 1), Run(Digit, 5), Run(Digit, 5), Run(AlphaNum, 12)],
      "SN" := [Lit("SN"), Run(Digit, 2), Run(Alpha, 1), Run(Digit, 23)],
      "TN" := [Lit("TN59"), Run(Digit, 2), Run(Digit, 3), Run(Digit, 13), Run(Digit, 2)],
      "TR" := [Lit("TR"), Run(Digit, 2), Run(Digit, 5), Run(AlphaNum, 1), Run(AlphaNum, 16)],
      "VG" := [Lit("VG"), Run(Digit, 2), Run(Alpha, 4), Run(Digit, 16)]
    ]

  /** `replace(/[^a-zA-Z0-9]/g, '').toUpperCase()`. */
  function Normalize(value: string): (r: string)
    ensures forall i :: 0 <= i < |r| ==> IsUpper(r[i]) || IsDigit(r[i])
  {
    var a := Filter(value, IsAlnum);
    UpperStr(a)
  }

  /** `v.substr(4) + v.substr(0, 4)`: the country code and check digits go last. */
  function Rotate(v: string): string {
    if |v| >= 4 then v[4..] + v[..4] else v
  }

  /** A letter becomes its number, 10 for `A` to 35 for `Z`; a digit stays. */
  function Code(c: char): (r: string)
    ensures IsUpper(c) ==> |r| == 2 && AllDigits(r) && NumberOf(r) == c as int - 'A' as int + 10
    ensures !IsUpper(c) ==> r == [c]
  {
    if IsUpper(c) then
      var n := c as int - 'A' as int + 10;
      var r := [DigitChar(n / 10), DigitChar(n % 10)];
      TwoDigits(r);
      r
    else [c]
  }

  /** The value of two digits. */
  lemma TwoDigits(s: string)
    requires |s| == 2 && AllDigits(s)
    ensures NumberOf(s) == 10 * DigitVal(s[0]) + DigitVal(s[1])
  {
    var h := s[..1];
    assert h[..0] == [] && h[0] == s[0];
    assert NumberOf(h) == DigitVal(s[0]);
    assert s[..|s| - 1] == h;
  }

  /** Two digits appended multiply the value by a hundred and add theirs. */
  lemma AppendTwo(e: string, d: string)
    requires AllDigits(e) && AllDigits(d) && |d| == 2
    ensures AllDigits(e + d) && NumberOf(e + d) == 100 * NumberOf(e) + NumberOf(d)
  {
    NumberOfConcat(e, d);
    assert Pow10(2) == 100;
  }

  /** The `split('').map(...).join('')` that replaces every letter. */
  function Expand(v: string): string {
    if v == [] then [] else Code(v[0]) + Expand(v[1..])
  }

  lemma {:induction false} ExpandConcat(a: string, b: string)
    ensures Expand(a + b) == Expand(a) + Expand(b)
  {
    if a != [] {
      assert (a + b)[1..] == a[1..] + b;
      ExpandConcat(a[1..], b);
    } else {
      assert a + b == b;
    }
  }

  lemma {:induction false} ExpandDigits(v: string)
    requires forall i :: 0 <= i < |v| ==> IsUpper(v[i]) || IsDigit(v[i])
    ensures AllDigits(Expand(v))
  {
    if v != [] {
      ExpandDigits(v[1..]);
      var c, e := Code(v[0]), Expand(v[1..]);
      assert forall i :: 0 <= i < |c + e| ==> (c + e)[i] == if i < |c| then c[i] else e[i - |c|];
    }
  }

  lemma {:induction false} ExpandKeepsDigits(v: string)
    requires AllDigits(v)
    ensures Expand(v) == v
  {
    if v != [] {
      ExpandKeepsDigits(v[1..]);
    }
  }

  /**
   The loop of the validator: `temp` starts at the first digit and every
   further digit is shifted in modulo 97, so that numbers of any length are
   reduced without overflow.
   */
  method Mod97(e: string) returns (t: nat)
    requires AllDigits(e) && |e| >= 1
    ensures t == NumberOf(e) % 97
  {
    t := DigitVal(e[0]);
    assert e[..1] == [e[0]];
    assert NumberOf(e[..1]) == t by {
      assert e[..1][..0] == [];
    }
    var i := 1;
    while i < |e|
      invariant 1 <= i <= |e|
      invariant t == NumberOf(e[..i]) % 97
    {
      var d := DigitVal(e[i]);
      assert e[..i + 1][..i] == e[..i];
      var n := NumberOf(e[..i]);
      assert NumberOf(e[..i + 1]) == 10 * n + d;
      ShiftMod(n, d);
      t := (t * 10 + d) % 97;
      i := i + 1;
    }
    assert e[..i] == e;
  }

  lemma ShiftMod(n: nat, d: nat)
    ensures (10 * (n % 97) + d) % 97 == (10 * n + d) % 97
  {
    var q := n / 97;
    ModUnique(10 * n + d, 97, 10 * q + (10 * (n % 97) + d) / 97, (10 * (n % 97) + d) % 97);
  }

  /** The validator's value, written with the country option (`""` when it is not set). */
  function IbanValid(value: string, country: string): bool {
    value == [] || CleanValid(Normalize(value), country)
  }

  /** The tests on the cleaned number: the country, from the option or else
      from the first two characters, has a layout; the number has that
      layout; the checksum holds. */
  predicate CleanValid(v: string, country: string)
    requires forall i :: 0 <= i < |v| ==> IsUpper(v[i]) || IsDigit(v[i])
  {
    var cc := if country != [] then country else v[..if |v| < 2 then |v| else 2];
    cc in Layouts && Matches(v, Layouts[cc]) && Checksum(v)
  }

  /** The MOD 97-10 test on the rearranged, letter-expanded number. */
  predicate Checksum(v: string)
    requires forall i :: 0 <= i < |v| ==> IsUpper(v[i]) || IsDigit(v[i])
  {
    var e := Expand(Rotate(v));
    ExpandDigits(Rotate(v));
    |e| >= 1 && NumberOf(e) % 97 == 1
  }

  /** The `iban` validator, with its loop. */
  method IbanCheck(value: string, country: string) returns (ok: bool)
    ensures ok == IbanValid(value, country)
  {
    if value == [] {
      return true;
    }
    var v := Normalize(value);
    var cc := if country != [] then country else v[..if |v| < 2 then |v| else 2];
    if cc !in Layouts || !Matches(v, Layouts[cc]) {
      return false;
    }
    var e := Expand(Rotate(v));
    ExpandDigits(Rotate(v));
    if |e| == 0 {
      return false;
    }
    var t := Mod97(e);
    ok := t == 1;
  }

  /** The two check digits of ISO/IEC 7064 MOD 97-10 for an account number
      and country code: 98 minus the remainder of the number followed by 00. */
  function CheckDigits(bban: string, cc: string): (r: string)
    requires forall i :: 0 <= i < |bban + cc| ==> IsUpper((bban + cc)[i]) || IsDigit((bban + cc)[i])
    ensures |r| == 2 && AllDigits(r)
  {
    ExpandDigits(bban + cc);
    var ck := 98 - (100 * NumberOf(Expand(bban + cc))) % 97;
    [DigitChar(ck / 10), DigitChar(ck % 10)]
  }

  /**
   The check digits complete the number: with them last, as the validator
   rearranges an IBAN, the remainder modulo 97 is 1.
   */
  lemma CheckDigitsPass(bban: string, cc: string)
    requires forall i :: 0 <= i < |bban + cc| ==> IsUpper((bban + cc)[i]) || IsDigit((bban + cc)[i])
    ensures AllDigits(Expand(bban + cc + CheckDigits(bban, cc)))
    ensures NumberOf(Expand(bban + cc + CheckDigits(bban, cc))) % 97 == 1
  {
    var x := bban + cc;
    ExpandDigits(x);
    var e := Expand(x);
    var ckd := CheckDigits(bban, cc);
    TwoDigits(ckd);
    assert Expand(x + ckd) == e + ckd by {
      ExpandConcat(x, ckd);
      ExpandKeepsDigits(ckd);
    }
    Completed(e, ckd);
  }

  /** The arithmetic step: two digits appended as the check digits. */
  lemma Completed(e: string, ckd: string)
    requires AllDigits(e) && AllDigits(ckd) && |ckd| == 2
    requires NumberOf(ckd) == 98 - (100 * NumberOf(e)) % 97
    ensures AllDigits(e + ckd) && NumberOf(e + ckd) % 97 == 1
  {
    AppendTwo(e, ckd);
    CompleteMod97(100 * NumberOf(e), NumberOf(ckd));
  }

  /** Adding 98 less the remainder of `100 * n` leaves remainder 1. */
  lemma CompleteMod97(a: int, ck: int)
    requires a >= 0 && ck == 98 - a % 97
    ensures (a + ck) % 97 == 1
  {
    ModUnique(a, 97, a / 97, a % 97);
    ModUnique(a + ck, 97, a / 97 + 1, 1);
  }

  /** Letters and digits, upper case, go through the clean-up unchanged. */
  lemma NormalizeKeeps(v: string)
    requires forall i :: 0 <= i < |v| ==> IsUpper(v[i]) || IsDigit(v[i])
    ensures Normalize(v) == v
  {
    FilterKeepsAll(v, IsAlnum);
    assert UpperStr(v) == v;
  }

  /**
   An IBAN built the way ISO 13616 builds one -- country code, the MOD 97-10
   check digits, then the account number -- is accepted when it has its
   country's layout, whether the country comes from the option or from the
   number itself.
   */
  lemma GeneratedAccepted(cc: string, bban: string)
    requires |cc| == 2 && IsUpper(cc[0]) && IsUpper(cc[1])
    requires forall i :: 0 <= i < |bban| ==> IsUpper(bban[i]) || IsDigit(bban[i])
    requires cc in Layouts
    ensures forall i :: 0 <= i < |bban + cc| ==> IsUpper((bban + cc)[i]) || IsDigit((bban + cc)[i])
    ensures Matches(cc + CheckDigits(bban, cc) + bban, Layouts[cc]) ==>
      IbanValid(cc + CheckDigits(bban, cc) + bban, "") && IbanValid(cc + CheckDigits(bban, cc) + bban, cc)
  {
    TwoParts(bban, cc);
    var v := cc + CheckDigits(bban, cc) + bban;
    GeneratedChecksum(cc, bban);
    NormalizeKeeps(v);
    assert v[..2] == cc;
  }

  /** The built number passes the checksum. */
  lemma GeneratedChecksum(cc: string, bban: string)
    requires |cc| == 2 && IsUpper(cc[0]) && IsUpper(cc[1])
    requires forall i :: 0 <= i < |bban + cc| ==> IsUpper((bban + cc)[i]) || IsDigit((bban + cc)[i])
    requires forall i :: 0 <= i < |bban| ==> IsUpper(bban[i]) || IsDigit(bban[i])
    ensures forall i :: 0 <= i < |cc + CheckDigits(bban, cc) + bban| ==>
      IsUpper((cc + CheckDigits(bban, cc) + bban)[i]) || IsDigit((cc + CheckDigits(bban, cc) + bban)[i])
    ensures Checksum(cc + CheckDigits(bban, cc) + bban)
  {
    var ckd := CheckDigits(bban, cc);
    var v := cc + ckd + bban;
    ThreeParts(cc, ckd, bban);
    assert Rotate(v) == bban + cc + ckd;
    CheckDigitsPass(bban, cc);
  }

  lemma TwoParts(a: string, b: string)
    requires forall i :: 0 <= i < |a| ==> IsUpper(a[i]) || IsDigit(a[i])
    requires forall i :: 0 <= i < |b| ==> IsUpper(b[i]) || IsDigit(b[i])
    ensures forall i :: 0 <= i < |a + b| ==> IsUpper((a + b)[i]) || IsDigit((a + b)[i])
  {
    ThreeParts(a, b, []);
    assert a + b + [] == a + b;
  }

  lemma ThreeParts(a: string, b: string, c: string)
    requires forall i :: 0 <= i < |a| ==> IsUpper(a[i]) || IsDigit(a[i])
    requires forall i :: 0 <= i < |b| ==> IsUpper(b[i]) || IsDigit(b[i])
    requires forall i :: 0 <= i < |c| ==> IsUpper(c[i]) || IsDigit(c[i])
    ensures forall i :: 0 <= i < |a + b + c| ==> IsUpper((a + b + c)[i]) || IsDigit((a + b + c)[i])
  {
    var v := a + b + c;
    forall i | 0 <= i < |v|
      ensures IsUpper(v[i]) || IsDigit(v[i])
    {
      if i < |a| {
        assert v[i] == a[i];
      } else if i < |a| + |b| {
        assert v[i] == b[i - |a|];
      } else {
        assert v[i] == c[i - |a| - |b|];
      }
    }
  }

  /**
   Among the check digits 02 to 98, the ones ISO/IEC 7064 allows, only the
   computed pair completes the number; the validator would also take 00 or
   01 when they happen to leave remainder 1.
   */
  lemma CheckDigitsUnique(e: string, d: string)
    requires AllDigits(e) && AllDigits(d) && |d| == 2
    requires 2 <= NumberOf(d) <= 98
    requires NumberOf(e + d) % 97 == 1
    ensures NumberOf(d) == 98 - (100 * NumberOf(e)) % 97
  {
    AppendTwo(e, d);
    CompletionUnique(100 * NumberOf(e), NumberOf(d));
  }

  /** Adding a number from 2 to 98 leaves remainder 1 by 97 only when it is `98 - a % 97`. */
  lemma CompletionUnique(a: int, k: int)
    requires a >= 0 && 2 <= k <= 98 && (a + k) % 97 == 1
    ensures k == 98 - a % 97
  {
    ModUnique(a, 97, a / 97, a % 97);
    var r := a % 97;
    var q := a / 97;
    if r + k < 97 {
      ModUnique(a + k, 97, q, r + k);
    } else if r + k < 194 {
      ModUnique(a + k, 97, q + 1, r + k - 97);
    } else {
      ModUnique(a + k, 97, q + 2, r + k - 194);
    }
  }
}
