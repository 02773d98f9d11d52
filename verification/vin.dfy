/**
 The `vin` validator: a North American Vehicle Identification Number has
 seventeen characters without I, O or Q, and its ninth character is the
 check digit -- the weighted sum of the transliterated characters modulo
 11, with ten written `X`.
 */
module Vin {
  import opened Chars

  /** `[a-hj-npr-z0-9]` under the `i` flag: a digit or a letter other than I, O and Q. */
  predicate VinChar(c: char) {
    IsDigit(c) || (IsLetter(c) && Upper(c) != 'I' && Upper(c) != 'O' && Upper(c) != 'Q')
  }

  /** `/^[a-hj-npr-z0-9]{8}[0-9xX][a-hj-npr-z0-9]{8}$/i`. */
  predicate Shape(v: string) {
    |v| == 17
    && (forall i :: 0 <= i < 17 && i != 8 ==> VinChar(v[i]))
    && (IsDigit(v[8]) || v[8] == 'x' || v[8] == 'X')
  }

  /** The `chars` table: a digit is itself, a letter its transliteration
      (I, O and Q, which the shape excludes, have none and count 0 here). */
  function Value(c: char): (r: nat)
    ensures r <= 9
  {
    if IsDigit(c) then DigitVal(c)
    else if IsUpper(c) then Letters[c as int - 'A' as int]
    else 0
  }

  /** The transliteration of `A` to `Z`. */
  const Letters: seq<nat> :=
    [1, 2, 3, 4, 5, 6, 7, 8, 0, 1, 2, 3, 4, 5, 0, 7, 0, 9, 2, 3, 4, 5, 6, 7, 8, 9]

  /** The position weights; the check digit itself has weight 0. */
  const Weights: seq<nat> := [8, 7, 6, 5, 4, 3, 2, 10, 0, 9, 8, 7, 6, 5, 4, 3, 2]

  /** The weighted sum of the first `k` characters. */
  function Sum(u: string, k: nat): nat
    requires k <= |u| && k <= 17
  {
    if k == 0 then 0 else Sum(u, k - 1) + Value(u[k - 1]) * Weights[k - 1]
  }

  /** `reminder == value.charAt(8)`: a remainder below ten equals a digit
      character of that value; ten, written `'X'`, equals `X`. */
  predicate CheckMatches(r: nat, c: char) {
    if r == 10 then c == 'X' else IsDigit(c) && DigitVal(c) == r
  }

  /** What the `vin` validator accepts. */
  predicate VinValid(value: string) {
    value == [] || (Shape(value) && var u := UpperStr(value); CheckMatches(Sum(u, 17) % 11, u[8]))
  }

  /** The `vin` validator, with its loop over the characters. */
  method VinCheck(value: string) returns (ok: bool)
    ensures ok <==> VinValid(value)
  {
    if value == [] {
      return true;
    }
    if !Shape(value) {
      return false;
    }
    var u := UpperStr(value);
    var sum := 0;
    var i := 0;
    while i < |u|
      invariant 0 <= i <= 17
      invariant sum == Sum(u, i)
    {
      sum := sum + Value(u[i]) * Weights[i];
      i := i + 1;
    }
    var r := sum % 11;
    ok := CheckMatches(r, u[8]);
  }

  /** The character that completes a remainder: its digit, or `X` for ten. */
  function CheckChar(r: nat): (c: char)
    requires r < 11
    ensures CheckMatches(r, c)
    ensures VinChar(c) || c == 'X'
  {
    if r == 10 then 'X' else DigitChar(r)
  }

  /** The ninth character carries no weight: changing it leaves the sum alone. */
  lemma {:induction false} SumIgnoresCheck(u: string, c: char, k: nat)
    requires |u| == 17 && k <= 17
    ensures Sum(u[8 := c], k) == Sum(u, k)
  {
    if k > 0 {
      SumIgnoresCheck(u, c, k - 1);
      if k - 1 == 8 {
        assert Weights[8] == 0;
      } else {
        assert u[8 := c][k - 1] == u[k - 1];
      }
    }
  }

  /**
   For any sixteen other characters there is exactly one check character:
   putting it in ninth place is accepted, and so is no other character
   apart from the lower-case `x` standing for `X`.
   */
  lemma CheckCharUnique(v: string, c: char)
    requires Shape(v)
    requires IsDigit(c) || c == 'X'
    ensures VinValid(v[8 := c]) <==> c == CheckChar(Sum(UpperStr(v), 17) % 11)
  {
    var u := UpperStr(v);
    UpperAtCheck(v, c);
    ShapeAtCheck(v, c);
    SumIgnoresCheck(u, c, 17);
    assert u[8 := c][8] == c;
    CheckMatchesUnique(Sum(u, 17) % 11, c);
  }

  /** Upper-casing commutes with putting a digit or `X` in ninth place. */
  lemma UpperAtCheck(v: string, c: char)
    requires |v| == 17 && (IsDigit(c) || c == 'X')
    ensures UpperStr(v[8 := c]) == UpperStr(v)[8 := c]
  {
    assert Upper(c) == c;
  }

  /** A digit or `X` in ninth place keeps the shape. */
  lemma ShapeAtCheck(v: string, c: char)
    requires Shape(v) && (IsDigit(c) || c == 'X')
    ensures Shape(v[8 := c])
  {
  }

  /** A digit or `X` matches a remainder exactly when it is that remainder's check character. */
  lemma CheckMatchesUnique(r: nat, c: char)
    requires r < 11 && (IsDigit(c) || c == 'X')
    ensures CheckMatches(r, c) <==> c == CheckChar(r)
  {
    if r < 10 && IsDigit(c) {
      assert DigitVal(c) == r <==> c == DigitChar(r);
    }
  }

  /** Case does not matter: the input and its upper-case form are judged alike. */
  lemma CaseIgnored(v: string)
    ensures VinValid(v) <==> VinValid(UpperStr(v))
  {
    var u := UpperStr(v);
    assert UpperStr(u) == u;
    if Shape(v) {
      assert Shape(u);
    }
    if Shape(u) {
      forall i | 0 <= i < 17 && i != 8
        ensures VinChar(v[i])
      {
        assert VinChar(u[i]);
      }
    }
  }

  /** The check digit of the VIN 1M8GDM9AXKP042788 is ten, written `X`. */
  lemma CheckTenExample()
    ensures Sum("1M8GDM9AXKP042788", 17) % 11 == 10
    ensures CheckMatches(Sum("1M8GDM9AXKP042788", 17) % 11, "1M8GDM9AXKP042788"[8])
  {
    var u := "1M8GDM9AXKP042788";
    assert Sum(u, 4) == 119;
    assert Sum(u, 8) == 175;
    assert Sum(u, 12) == 249;
    assert Sum(u, 17) == 351;
  }
}
