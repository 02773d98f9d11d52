/**
 The Luhn formula (ISO/IEC 7812-1, Annex B) as `helpers.luhn` computes it:
 from the rightmost digit leftwards, every second digit is doubled and
 reduced to a single digit, and the number is accepted when the total is a
 positive multiple of ten.
 */
module Luhn {
  import opened Chars

  /** A digit's contribution: itself, or its double with digits added. */
  function Prod(dbl: bool, d: nat): (r: nat)
    requires d < 10
    ensures r < 10
    ensures r == 0 <==> d == 0
  {
    if !dbl then d else if d < 5 then 2 * d else 2 * d - 9
  }

  /** Distinct digits contribute distinct amounts, doubled or not. */
  lemma ProdInjective(dbl: bool, a: nat, b: nat)
    requires a < 10 && b < 10 && a != b
    ensures Prod(dbl, a) != Prod(dbl, b)
  {
  }

  /** The weighted sum, from the right; `dbl` says whether the last digit is doubled. */
  function Sum(s: string, dbl: bool): nat
    requires AllDigits(s)
  {
    if s == [] then 0 else Prod(dbl, DigitVal(s[|s| - 1])) + Sum(s[..|s| - 1], !dbl)
  }

  /** Reference definition of the accepted strings. */
  predicate Valid(s: string) {
    AllDigits(s) && Sum(s, false) % 10 == 0 && Sum(s, false) > 0
  }

  /** Whether the digit `i` places left of the end is doubled. */
  function Doubled(dbl: bool, fromRight: nat): bool {
    dbl != (fromRight % 2 == 1)
  }

  /** Prepending a digit adds its contribution at its distance from the right. */
  lemma {:induction false} SumCons(c: char, t: string, dbl: bool)
    requires IsDigit(c) && AllDigits(t)
    ensures AllDigits([c] + t)
    ensures Sum([c] + t, dbl) == Sum(t, dbl) + Prod(Doubled(dbl, |t|), DigitVal(c))
  {
    var s := [c] + t;
    if t != [] {
      assert s[..|s| - 1] == [c] + t[..|t| - 1];
      assert s[|s| - 1] == t[|t| - 1];
      SumCons(c, t[..|t| - 1], !dbl);
    } else {
      assert s[..|s| - 1] == [];
    }
  }

  /**
   `helpers.luhn`, with its loop: the string is read from the end, `mul`
   alternates between the plain and the doubling table, and a character that
   is not a digit makes the sum NaN (`None`), which fails the final test.
   */
  method LuhnCheck(value: string) returns (ok: bool)
    ensures ok <==> Valid(value)
  {
    var length := |value|;
    var mul := false;
    var sum: Option<nat> := Some(0);
    while length > 0
      invariant 0 <= length <= |value|
      invariant mul == ((|value| - length) % 2 == 1)
      invariant sum.Some? <==> AllDigits(value[length..])
      invariant sum.Some? ==> sum.value == Sum(value[length..], false)
    {
      length := length - 1;
      var c := value[length];
      assert value[length..] == [c] + value[length + 1..];
      if sum.Some? && IsDigit(c) {
        SumCons(c, value[length + 1..], false);
        sum := Some(sum.value + Prod(mul, DigitVal(c)));
      } else {
        sum := None;
      }
      mul := !mul;
    }
    assert value[0..] == value;
    ok := sum.Some? && sum.value % 10 == 0 && sum.value > 0;
  }

  /** The sum is zero exactly for strings of zeros. */
  lemma {:induction false} SumZero(s: string, dbl: bool)
    requires AllDigits(s)
    ensures Sum(s, dbl) == 0 <==> forall i :: 0 <= i < |s| ==> s[i] == '0'
  {
    if s != [] {
      SumZero(s[..|s| - 1], !dbl);
      assert forall i :: 0 <= i < |s| - 1 ==> s[..|s| - 1][i] == s[i];
    }
  }

  /** A string of zeros, including the empty string, is rejected. */
  lemma ZerosRejected(s: string)
    requires forall i :: 0 <= i < |s| ==> s[i] == '0'
    ensures !Valid(s)
  {
    SumZero(s, false);
  }

  /** Replacing the digit at `i` changes only that digit's contribution. */
  lemma {:induction false} SumReplace(s: string, i: nat, c: char, dbl: bool)
    requires AllDigits(s) && i < |s| && IsDigit(c)
    ensures AllDigits(s[i := c])
    ensures Sum(s[i := c], dbl) + Prod(Doubled(dbl, |s| - 1 - i), DigitVal(s[i]))
         == Sum(s, dbl) + Prod(Doubled(dbl, |s| - 1 - i), DigitVal(c))
  {
    var s' := s[i := c];
    var init := s[..|s| - 1];
    assert AllDigits(s');
    if i == |s| - 1 {
      assert s'[..|s'| - 1] == init;
      assert Sum(s', dbl) == Prod(dbl, DigitVal(c)) + Sum(init, !dbl);
    } else {
      assert s'[..|s'| - 1] == init[i := c];
      assert s'[|s'| - 1] == s[|s| - 1];
      SumReplace(init, i, c, !dbl);
      assert Doubled(!dbl, |init| - 1 - i) == Doubled(dbl, |s| - 1 - i);
    }
  }

  /** Luhn detects every single-digit error: changing one digit of an accepted
      number gives a rejected one. */
  lemma SingleDigitErrorDetected(s: string, i: nat, c: char)
    requires Valid(s) && i < |s| && IsDigit(c) && c != s[i]
    ensures !Valid(s[i := c])
  {
    var p := Doubled(false, |s| - 1 - i);
    SumReplace(s, i, c, false);
    ProdInjective(p, DigitVal(c), DigitVal(s[i]));
    OffByLess(Sum(s[i := c], false), Sum(s, false), Prod(p, DigitVal(s[i])), Prod(p, DigitVal(c)));
  }

  /** Two sums that differ by less than ten, and not by zero, are not both
      multiples of ten. */
  lemma OffByLess(a: nat, b: nat, x: nat, y: nat)
    requires a + x == b + y && x < 10 && y < 10 && x != y && b % 10 == 0
    ensures a % 10 != 0
  {
  }

  /** The check digit that completes a digit string. */
  function CheckDigit(t: string): (c: char)
    requires AllDigits(t)
    ensures IsDigit(c)
  {
    DigitChar((10 - Sum(t, true) % 10) % 10)
  }

  /** Appending a digit accepts exactly when it is the check digit (and the
      result is not all zeros). */
  lemma CheckDigitCompletes(t: string, c: char)
    requires AllDigits(t) && IsDigit(c)
    ensures Valid(t + [c]) <==> c == CheckDigit(t) && Sum(t + [c], false) > 0
  {
    SumSnoc(t, c);
    ModComplete(DigitVal(c), Sum(t, true), 10);
    var n := (10 - Sum(t, true) % 10) % 10;
    assert c == DigitChar(n) <==> DigitVal(c) == n;
  }

  /** Appending a digit: it is the undoubled last one, the rest shift. */
  lemma SumSnoc(t: string, c: char)
    requires AllDigits(t) && IsDigit(c)
    ensures AllDigits(t + [c])
    ensures Sum(t + [c], false) == DigitVal(c) + Sum(t, true)
  {
    var s := t + [c];
    assert s[..|s| - 1] == t;
  }
}
