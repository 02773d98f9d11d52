/**
 The French business identifiers: SIREN (nine digits under the Luhn
 formula) and SIRET (SIREN plus a five-digit establishment number, the
 fourteen digits doubled from the left).
 */
module Sirene {
  import opened Chars
  import Luhn

  /**
   The `siren` validator: empty is accepted; otherwise nine ASCII digits
   that pass `helpers.luhn`.
   */
  method SirenCheck(value: string) returns (ok: bool)
    ensures ok <==> value == [] || (|value| == 9 && Luhn.Valid(value))
  {
    if value == [] {
      return true;
    }
    if !(|value| == 9 && AllDigits(value)) {
      return false;
    }
    ok := Luhn.LuhnCheck(value);
  }

  /** A SIREN number with one digit mistyped is rejected. */
  lemma SirenTypoRejected(value: string, i: nat, c: char)
    requires |value| == 9 && Luhn.Valid(value)
    requires i < 9 && IsDigit(c) && c != value[i]
    ensures !(|value[i := c]| == 9 && Luhn.Valid(value[i := c]))
  {
    Luhn.SingleDigitErrorDetected(value, i, c);
  }

  /** The sum `siret` forms: digits at even positions from the left are
      doubled, with nine taken off a two-digit product. */
  function SiretSum(s: string): nat
    requires AllDigits(s)
  {
    if s == [] then 0
    else SiretSum(s[..|s| - 1]) + Luhn.Prod((|s| - 1) % 2 == 0, DigitVal(s[|s| - 1]))
  }

  /**
   The `siret` validator: empty is accepted; a character that is not a digit
   makes `parseInt` NaN and the sum with it, which fails; otherwise the sum
   must be a multiple of ten.  The length is not checked.
   */
  method SiretCheck(value: string) returns (ok: bool)
    ensures ok <==> value == [] || (AllDigits(value) && SiretSum(value) % 10 == 0)
  {
    if value == [] {
      return true;
    }
    var sum: Option<nat> := Some(0);
    var i := 0;
    while i < |value|
      invariant 0 <= i <= |value|
      invariant sum.Some? <==> AllDigits(value[..i])
      invariant sum.Some? ==> sum.value == SiretSum(value[..i])
    {
      var c := value[i];
      assert value[..i + 1][..i] == value[..i];
      if sum.Some? && IsDigit(c) {
        sum := Some(sum.value + Luhn.Prod(i % 2 == 0, DigitVal(c)));
      } else {
        sum := None;
      }
      i := i + 1;
    }
    assert value[..i] == value;
    ok := sum.Some? && sum.value % 10 == 0;
  }

  /** Doubling from the left is the Luhn sum with the parity the length gives. */
  lemma {:induction false} SiretSumIsLuhnSum(s: string)
    requires AllDigits(s)
    ensures SiretSum(s) == Luhn.Sum(s, |s| % 2 == 1)
  {
    if s != [] {
      SiretSumIsLuhnSum(s[..|s| - 1]);
    }
  }

  /**
   On an even number of digits, SIRET's 14 among them, the `siret` sum is
   the Luhn sum, so `siret` accepts exactly what Luhn accepts plus the
   strings of zeros, which Luhn rejects.
   */
  lemma SiretIsLuhnOrZeros(s: string)
    requires AllDigits(s) && s != [] && |s| % 2 == 0
    ensures SiretSum(s) % 10 == 0 <==> Luhn.Valid(s) || forall i :: 0 <= i < |s| ==> s[i] == '0'
  {
    SiretSumIsLuhnSum(s);
    Luhn.SumZero(s, false);
  }

  /** A string of zeros of any length is a SIRET number as written. */
  lemma {:induction false} ZerosPassSiret(s: string)
    requires forall i :: 0 <= i < |s| ==> s[i] == '0'
    ensures AllDigits(s) && SiretSum(s) == 0
  {
    if s != [] {
      ZerosPassSiret(s[..|s| - 1]);
    }
  }
}
