/**
 The `zipCode` and `phone` validators: postal codes of the United States,
 Canada, Denmark and Sweden, and ten-digit United States telephone numbers.
 */
module Postal {
  import opened Chars

  // ----- zipCode -----

  /** The letters Canadian postal codes use, in either case. */
  predicate CaLetter(c: char) {
    var u := Upper(c);
    u == 'A' || u == 'B' || u == 'C' || u == 'E' || u == 'G' || u == 'J' || u == 'K' || u == 'L' || u == 'M'
    || u == 'N' || u == 'P' || u == 'R' || u == 'S' || u == 'T' || u == 'V' || u == 'X' || u == 'Y'
  }

  /** `L[0-9]L\s?[0-9]L[0-9]` matched at position `i`. */
  predicate CaAt(v: string, i: nat) {
    i + 6 <= |v| && CaLetter(v[i]) && IsDigit(v[i + 1]) && CaLetter(v[i + 2])
    && ((IsDigit(v[i + 3]) && CaLetter(v[i + 4]) && IsDigit(v[i + 5]))
        || (i + 7 <= |v| && IsSpace(v[i + 3]) && IsDigit(v[i + 4]) && CaLetter(v[i + 5]) && IsDigit(v[i + 6])))
  }

  /** The Canadian test: the expression has no anchors, so it matches anywhere in the input. */
  predicate CaValid(v: string) {
    exists i :: 0 <= i < |v| && CaAt(v, i)
  }

  /** `RegExp.test` for the Canadian expression: a search from the left. */
  method CaSearch(v: string) returns (found: bool)
    ensures found <==> CaValid(v)
  {
    var i := 0;
    while i < |v|
      invariant 0 <= i <= |v|
      invariant forall j :: 0 <= j < i ==> !CaAt(v, j)
    {
      if CaAt(v, i) {
        return true;
      }
      i := i + 1;
    }
    return false;
  }

  /** Whatever surrounds it, an input holding a Canadian postal code passes. */
  lemma CaEmbedded(a: string, code: string, b: string)
    requires CaAt(code, 0)
    ensures CaValid(a + code + b)
  {
    var v := a + code + b;
    assert forall k :: 0 <= k < |code| ==> v[|a| + k] == code[k];
    assert CaAt(v, |a|);
  }

  /** `^(DK(-|\s)?)?\d{4}$` under the `i` flag. */
  predicate DkValid(v: string) {
    (|v| == 4 && AllDigits(v))
    || (|v| >= 6 && SameLetter(v[0], 'D') && SameLetter(v[1], 'K')
        && ((|v| == 6 && AllDigits(v[2..])) || (|v| == 7 && (v[2] == '-' || IsSpace(v[2])) && AllDigits(v[3..]))))
  }

  /** `^(S-)?\d{3}\s?\d{2}$` under the `i` flag. */
  predicate SeValid(v: string) {
    var b := if |v| >= 2 && SameLetter(v[0], 'S') && v[1] == '-' then v[2..] else v;
    (|b| == 5 && AllDigits(b)) || (|b| == 6 && AllDigits(b[..3]) && IsSpace(b[3]) && AllDigits(b[4..]))
  }

  /** `^\d{4,5}([\-]\d{4})?$`, read from the left: the first run of digits
      has four or five, then either the end or a dash and four digits. */
  predicate UsValid(v: string) {
    var n := DigitPrefix(v);
    4 <= n <= 5 && (n == |v| || (v[n] == '-' && |v| == n + 5 && AllDigits(v[n + 1..])))
  }

  /** The same expression as the union of its four spellings. */
  ghost predicate UsReference(v: string) {
    exists k :: (k == 4 || k == 5) && |v| >= k && AllDigits(v[..k])
      && (|v| == k || (|v| == k + 5 && v[k] == '-' && AllDigits(v[k + 1..])))
  }

  lemma UsMatchesReference(v: string)
    ensures UsValid(v) <==> UsReference(v)
  {
    var n := DigitPrefix(v);
    if UsValid(v) {
      assert (n == 4 || n == 5) && |v| >= n && AllDigits(v[..n]);
    }
    if UsReference(v) {
      var k :| (k == 4 || k == 5) && |v| >= k && AllDigits(v[..k])
        && (|v| == k || (|v| == k + 5 && v[k] == '-' && AllDigits(v[k + 1..])));
      assert n == k;
    }
  }

  /**
   The `zipCode` validator.  `country` is the option, `""` when it is not
   set, in which case every input passes; it is compared in upper case, and
   a country other than CA, DK and SE gets the United States rule.
   */
  predicate ZipValid(value: string, country: string) {
    if value == [] || country == [] then true
    else
      var c := UpperStr(country);
      if c == "CA" then CaValid(value)
      else if c == "DK" then DkValid(value)
      else if c == "SE" then SeValid(value)
      else UsValid(value)
  }

  /** `zipCode` as written, with the search for the Canadian expression. */
  method ZipCheck(value: string, country: string) returns (ok: bool)
    ensures ok <==> ZipValid(value, country)
  {
    if value == [] || country == [] {
      return true;
    }
    var c := UpperStr(country);
    if c == "CA" {
      ok := CaSearch(value);
    } else if c == "DK" {
      ok := DkValid(value);
    } else if c == "SE" {
      ok := SeValid(value);
    } else {
      ok := UsValid(value);
    }
  }

  // ----- phone -----

  /** `\d{4}$`. */
  predicate Four(w: string) {
    |w| == 4 && AllDigits(w)
  }

  /** `[\-\.]?\d{4}$`. */
  predicate Last(w: string) {
    (|w| > 0 && (w[0] == '-' || w[0] == '.') && Four(w[1..])) || Four(w)
  }

  /** `\d{3}[\-\.]?\d{4}$`. */
  predicate Exchange(t: string) {
    |t| >= 3 && AllDigits(t[..3]) && Last(t[3..])
  }

  /** `[\)\-\.]?\d{3}[\-\.]?\d{4}$`. */
  predicate AfterArea(t: string) {
    (|t| > 0 && (t[0] == ')' || t[0] == '-' || t[0] == '.') && Exchange(t[1..])) || Exchange(t)
  }

  /** `\(?\d{3}[\)\-\.]?\d{3}[\-\.]?\d{4}$`. */
  predicate National(s: string) {
    var b := if |s| > 0 && s[0] == '(' then s[1..] else s;
    (|b| >= 3 && AllDigits(b[..3]) && AfterArea(b[3..]))
    || (|s| >= 3 && AllDigits(s[..3]) && AfterArea(s[3..]))
  }

  function StartsWith(s: string, p: string): bool {
    |p| <= |s| && s[..|p|] == p
  }

  /** `^(?:(1\-?)|(\+1 ?))?` followed by the national number. */
  predicate PhonePattern(s: string) {
    National(s)
    || (StartsWith(s, "1") && National(s[1..]))
    || (StartsWith(s, "1-") && National(s[2..]))
    || (StartsWith(s, "+1") && National(s[2..]))
    || (StartsWith(s, "+1 ") && National(s[3..]))
  }

  /** On a string of digits the pattern can only use its digit parts: ten
      digits, or `1` and ten digits. */
  lemma PatternOnDigits(d: string)
    requires AllDigits(d)
    ensures PhonePattern(d) <==> |d| == 10 || (|d| == 11 && d[0] == '1')
  {
    if |d| == 10 {
      assert d[3..][3..] == d[6..];
      assert Exchange(d[3..]);
      assert National(d);
    } else if |d| == 11 && d[0] == '1' {
      assert d[..1] == "1";
      var t := d[1..];
      assert t[3..][3..] == t[6..];
      assert National(t);
    }
  }

  /** The `phone` validator as written: the pattern on the digits, and ten of them. */
  predicate PhoneValid(value: string) {
    value == [] || (PhonePattern(StripNonDigits(value)) && |StripNonDigits(value)| == 10)
  }

  /** As written, an input is accepted exactly when it holds ten digits. */
  lemma PhoneTenDigits(value: string)
    requires value != []
    ensures PhoneValid(value) <==> |StripNonDigits(value)| == 10
  {
    PatternOnDigits(StripNonDigits(value));
  }

  /** A number written with the country code `+1`, as the pattern allows, is
      rejected: eleven digits fail the length test. */
  lemma CountryCodeRejected(n: string)
    requires |n| == 10 && AllDigits(n)
    ensures !PhoneValid("+1 " + n)
  {
    var v := "+1 " + n;
    FilterConcat("+1 ", n, IsDigit);
    FilterKeepsAll(n, IsDigit);
    assert Filter("+1 ", IsDigit) == "1" by {
      assert "+1 "[1..] == "1 ";
      assert "1 "[1..] == " ";
      assert " "[1..] == [];
    }
  }

  /** The test the comments describe: ten digits, after a leading `1`,
      `+1` or `1-` is discarded. */
  predicate PhoneValidIntended(value: string) {
    value == [] || PhonePattern(StripNonDigits(value))
  }

  /** With the length test dropped, a number is accepted with or without the country code. */
  lemma IntendedAcceptsCountryCode(value: string)
    requires value != []
    ensures PhoneValidIntended(value) <==>
      |StripNonDigits(value)| == 10 || (|StripNonDigits(value)| == 11 && StripNonDigits(value)[0] == '1')
  {
    PatternOnDigits(StripNonDigits(value));
  }
}
