/**
 The validators that only look at the shape of the input: `digits`,
 `integer`, `hex`, `hexColor`, `mac` and `uuid`.  Each accepts the empty
 input.
 */
module Formats {
  import opened Chars

  /** `[0-9a-fA-F]`. */
  predicate IsHex(c: char) {
    IsDigit(c) || 'a' <= c <= 'f' || 'A' <= c <= 'F'
  }

  /** `[0-9A-F]` without the `i` flag. */
  predicate IsUpperHex(c: char) {
    IsDigit(c) || 'A' <= c <= 'F'
  }

  /** `[0-9A-F]` under the `i` flag: a character whose upper case is in the class. */
  predicate IsHexI(c: char) {
    IsUpperHex(Upper(c))
  }

  // ----- digits -----

  /** The `digits` validator: `^\d+$`. */
  predicate DigitsValid(v: string) {
    v == [] || AllDigits(v)
  }

  /** `digits` accepts exactly the inputs that stripping non-digits leaves unchanged. */
  lemma DigitsAreStripFixpoints(v: string)
    ensures DigitsValid(v) <==> StripNonDigits(v) == v
  {
    if AllDigits(v) {
      StripKeepsDigits(v);
    }
  }

  // ----- integer -----

  /** `0|[1-9][0-9]*`: a decimal numeral without leading zeros. */
  predicate Numeral(b: string) {
    b == "0" || (b != [] && b[0] != '0' && AllDigits(b))
  }

  /** The `integer` validator: `^(?:-?(?:0|[1-9][0-9]*))$`. */
  predicate IntegerValid(v: string) {
    v == [] || Numeral(v) || (v[0] == '-' && Numeral(v[1..]))
  }

  /** The canonical decimal of a natural number. */
  function ShowNat(n: nat): (r: string)
    ensures r != [] && AllDigits(r)
    ensures Numeral(r)
    ensures NumberOf(r) == n
  {
    if n < 10 then
      var r := [DigitChar(n)];
      assert r[..0] == [];
      r
    else
      var p := ShowNat(n / 10);
      var r := p + [DigitChar(n % 10)];
      assert r[..|r| - 1] == p;
      assert r[0] == p[0];
      r
  }

  /** The canonical decimal of an integer, `-` in front of a negative one. */
  function Show(n: int): string {
    if n < 0 then "-" + ShowNat(-n) else ShowNat(n)
  }

  /** The integer a numeral accepted by `integer` denotes. */
  function Parse(v: string): int
    requires v != [] && IntegerValid(v)
  {
    if v[0] == '-' then -(NumberOf(v[1..]) as int) else NumberOf(v)
  }

  /** A numeral without leading zeros is at least a power of ten below its length. */
  lemma {:induction false} NumeralLarge(b: string)
    requires b != [] && b[0] != '0' && AllDigits(b)
    ensures NumberOf(b) >= Pow10(|b| - 1)
  {
    if |b| > 1 {
      var p := b[..|b| - 1];
      assert p[0] == b[0];
      NumeralLarge(p);
    }
  }

  /** Rendering a number of two or more digits renders its leading part, then its last digit. */
  lemma ShowNatStep(x: nat, d: nat)
    requires x >= 1 && d < 10
    ensures ShowNat(10 * x + d) == ShowNat(x) + [DigitChar(d)]
  {
    ModUnique(10 * x + d, 10, x, d);
  }

  /** A numeral is the canonical decimal of its value. */
  lemma {:induction false} ShowNumeral(b: string)
    requires Numeral(b)
    ensures ShowNat(NumberOf(b)) == b
  {
    if |b| > 1 {
      var k := |b| - 1;
      var p := b[..k];
      assert p[0] == b[0];
      assert AllDigits(p);
      var d := DigitVal(b[k]);
      var x := NumberOf(p);
      assert NumberOf(b) == 10 * x + d;
      NumeralLarge(p);
      ShowNatStep(x, d);
      ShowNumeral(p);
      assert DigitChar(d) == b[k];
      assert b == p + [b[k]];
    } else if b != "0" {
      assert b == [b[0]];
      assert b[..0] == [];
    }
  }

  /** Every integer's canonical decimal is accepted and parses back to it. */
  lemma ShowAccepted(n: int)
    ensures Show(n) != [] && IntegerValid(Show(n)) && Parse(Show(n)) == n
  {
    if n < 0 {
      assert Show(n)[1..] == ShowNat(-n);
    }
  }

  /**
   Every input `integer` accepts is the canonical decimal of the integer it
   denotes, except `-0`, which it also accepts.
   */
  lemma AcceptedIsCanonical(v: string)
    requires v != [] && IntegerValid(v)
    ensures v == Show(Parse(v)) || v == "-0"
  {
    if v[0] == '-' {
      var b := v[1..];
      assert !Numeral(v);
      ShowNumeral(b);
      if b != "0" {
        assert NumberOf(b) > 0 by {
          NumeralLarge(b);
        }
        assert v == "-" + b;
      } else {
        assert v == "-" + "0";
      }
    } else {
      ShowNumeral(v);
    }
  }

  /** The rendering of every natural number is accepted by `digits` and reads back as it. */
  lemma DigitsShowNat(n: nat)
    ensures DigitsValid(ShowNat(n)) && NumberOf(ShowNat(n)) == n
  {
  }

  /**
   Without a sign, `integer` accepts exactly the `digits` inputs that have no
   leading zero, `0` itself aside.
   */
  lemma UnsignedIntegerIsDigits(v: string)
    requires v != [] && v[0] != '-'
    ensures IntegerValid(v) <==> DigitsValid(v) && (v == "0" || v[0] != '0')
  {
  }

  /** `digits` takes the leading zeros `integer` refuses, and `integer` the sign. */
  lemma DigitsAndInteger()
    ensures DigitsValid("007") && !IntegerValid("007")
    ensures IntegerValid("-7") && !DigitsValid("-7")
  {
    assert "-7"[1..] == "7";
  }

  // ----- hex and hexColor -----

  /** The `hex` validator: `^[0-9a-fA-F]+$`. */
  predicate HexValid(v: string) {
    v == [] || forall i :: 0 <= i < |v| ==> IsHex(v[i])
  }

  /** The class `[0-9a-fA-F]` is `[0-9A-F]` under the `i` flag. */
  lemma HexIsCaseless(c: char)
    ensures IsHex(c) <==> IsHexI(c)
  {
  }

  /**
   `hex` does not depend on letter case: it accepts an input exactly when it
   accepts the input in upper case, exactly when every upper-cased character
   is in `[0-9A-F]`.
   */
  lemma HexValidUpper(v: string)
    ensures HexValid(v) <==> HexValid(UpperStr(v))
    ensures HexValid(v) <==> v == [] || forall i :: 0 <= i < |v| ==> IsUpperHex(UpperStr(v)[i])
  {
    var u := UpperStr(v);
    forall i | 0 <= i < |v|
      ensures IsHex(v[i]) <==> IsHex(u[i])
      ensures IsHex(v[i]) <==> IsUpperHex(u[i])
    {
      HexIsCaseless(v[i]);
    }
  }

  /** `#` followed by `n` characters of `[0-9A-F]` under the `i` flag. */
  predicate HashHex(v: string, n: nat) {
    |v| == n + 1 && v[0] == '#' && forall i :: 1 <= i < |v| ==> IsHexI(v[i])
  }

  /** The `hexColor` validator: `(^#[0-9A-F]{6}$)|(^#[0-9A-F]{3}$)` under the `i` flag. */
  predicate HexColorValid(v: string) {
    v == [] || HashHex(v, 6) || HashHex(v, 3)
  }

  /** A colour is `#` and three or six characters that `hex` accepts. */
  lemma HexColorIsHashHex(v: string)
    ensures HexColorValid(v) <==> v == [] || ((|v| == 4 || |v| == 7) && v[0] == '#' && HexValid(v[1..]))
  {
    if v != [] && (|v| == 4 || |v| == 7) && v[0] == '#' {
      var t := v[1..];
      assert forall i :: 1 <= i < |v| ==> v[i] == t[i - 1];
      assert forall i :: 0 <= i < |t| ==> t[i] == v[i + 1];
    }
  }

  // ----- mac -----

  /** `k` groups `[0-9A-F]{2}[:-]` and then the last two hex digits. */
  predicate MacGroups(v: string, k: nat)
    decreases k
  {
    if k == 0 then |v| == 2 && IsUpperHex(v[0]) && IsUpperHex(v[1])
    else |v| >= 3 && IsUpperHex(v[0]) && IsUpperHex(v[1]) && (v[2] == ':' || v[2] == '-') && MacGroups(v[3..], k - 1)
  }

  /** The `mac` validator: `^([0-9A-F]{2}[:-]){5}([0-9A-F]{2})$`. */
  predicate MacValid(v: string) {
    v == [] || MacGroups(v, 5)
  }

  /** Seventeen characters; every third is a separator, the rest upper-case hex digits. */
  predicate MacLayout(v: string, k: nat) {
    |v| == 3 * k + 2 && forall i :: 0 <= i < |v| ==> if i % 3 == 2 then v[i] == ':' || v[i] == '-' else IsUpperHex(v[i])
  }

  /** The groups of the regular expression are the positional layout; the
      two separators need not agree. */
  lemma {:induction false} MacGroupsLayout(v: string, k: nat)
    ensures MacGroups(v, k) <==> MacLayout(v, k)
  {
    if k > 0 && |v| >= 3 {
      var t := v[3..];
      MacGroupsLayout(t, k - 1);
      if MacLayout(t, k - 1) && IsUpperHex(v[0]) && IsUpperHex(v[1]) && (v[2] == ':' || v[2] == '-') {
        forall i | 3 <= i < |v|
          ensures if i % 3 == 2 then v[i] == ':' || v[i] == '-' else IsUpperHex(v[i])
        {
          assert v[i] == t[i - 3] && (i - 3) % 3 == i % 3;
        }
      }
      if MacLayout(v, k) {
        forall i | 0 <= i < |t|
          ensures if i % 3 == 2 then t[i] == ':' || t[i] == '-' else IsUpperHex(t[i])
        {
          assert t[i] == v[i + 3] && (i + 3) % 3 == i % 3;
        }
      }
    }
  }

  // ----- uuid -----

  /** What a position of a UUID pattern admits. */
  datatype Slot = Hex | Dash | Fixed(d: char) | Variant

  function SlotOk(s: Slot, c: char): bool {
    match s
    case Hex => IsHexI(c)
    case Dash => c == '-'
    case Fixed(d) => c == d
    case Variant => Upper(c) == '8' || Upper(c) == '9' || Upper(c) == 'A' || Upper(c) == 'B'
  }

  function Hexes(n: nat): (r: seq<Slot>)
    ensures |r| == n && forall i :: 0 <= i < n ==> r[i] == Hex
  {
    if n == 0 then [] else [Hex] + Hexes(n - 1)
  }

  /** The pattern of the `patterns` entry: `x` the version digit for 3, 4 and
      5, and `[89AB]` the variant for 4 and 5. */
  function UuidPattern(version: string): (r: Option<seq<Slot>>)
    ensures r.Some? ==> |r.value| == 36
  {
    if version == "all" then Some(Hexes(8) + [Dash] + Hexes(4) + [Dash] + Hexes(4) + [Dash] + Hexes(4) + [Dash] + Hexes(12))
    else if version == "3" then Some(Hexes(8) + [Dash] + Hexes(4) + [Dash, Fixed('3')] + Hexes(3) + [Dash] + Hexes(4) + [Dash] + Hexes(12))
    else if version == "4" || version == "5" then
      Some(Hexes(8) + [Dash] + Hexes(4) + [Dash, Fixed(version[0])] + Hexes(3) + [Dash, Variant] + Hexes(3) + [Dash] + Hexes(12))
    else None
  }

  predicate Fits(p: seq<Slot>, v: string) {
    |v| == |p| && forall i :: 0 <= i < |p| ==> SlotOk(p[i], v[i])
  }

  /**
   The `uuid` validator.  `version` is the option as a string, `""` when it
   is not set, which selects `all`; a version without a pattern accepts
   everything.
   */
  predicate UuidValid(v: string, version: string) {
    v == []
    || match UuidPattern(if version == [] then "all" else version)
       case None => true
       case Some(p) => Fits(p, v)
  }

  /** The positions of the dashes, and what the general pattern asks elsewhere. */
  lemma AllPattern()
    ensures UuidPattern("all").Some?
    ensures var p := UuidPattern("all").value;
      forall i :: 0 <= i < 36 ==> p[i] == if i == 8 || i == 13 || i == 18 || i == 23 then Dash else Hex
  {
  }

  /** A UUID of version 3, 4 or 5 is a UUID. */
  lemma VersionedIsUuid(v: string, version: string)
    requires version == "3" || version == "4" || version == "5"
    requires UuidValid(v, version)
    ensures UuidValid(v, "all")
  {
    if v != [] {
      var p := UuidPattern(version).value;
      var q := UuidPattern("all").value;
      AllPattern();
      forall i | 0 <= i < 36
        ensures SlotOk(q[i], v[i])
      {
        assert SlotOk(p[i], v[i]);
      }
    }
  }

  /** The version digit tells the versions apart: no input is of two of them. */
  lemma VersionsExclusive(v: string, a: string, b: string)
    requires a == "3" || a == "4" || a == "5"
    requires b == "3" || b == "4" || b == "5"
    requires v != [] && UuidValid(v, a) && UuidValid(v, b)
    ensures a == b
  {
    var p := UuidPattern(a).value;
    var q := UuidPattern(b).value;
    assert p[14] == Fixed(a[0]) && q[14] == Fixed(b[0]);
    assert SlotOk(p[14], v[14]) && SlotOk(q[14], v[14]);
    assert |a| == 1 && |b| == 1;
  }
}
