/**
 The `isbn` validator: the form of the input decides between ISBN-10 and
 ISBN-13 (ISO 2108), then the check character is recomputed from the other
 digits.
 */
module Isbn {
  import opened Chars

  datatype Kind = Isbn10 | Isbn13

  /** `[\dX]`: a digit, or the ISBN-10 check character ten. */
  predicate IsbnChar(c: char) {
    IsDigit(c) || c == 'X'
  }

  /** How many `(\d+)` groups, each pair split by one separator, make up `u`
      (`None` when it is not of that form). */
  function GroupCount(u: string, sep: char -> bool): (r: Option<nat>)
    ensures r.Some? ==> r.value >= 1
    decreases |u|
  {
    var n := DigitPrefix(u);
    if n == 0 then None
    else if n == |u| then Some(1)
    else if sep(u[n]) then
      match GroupCount(u[n + 1..], sep)
      case None => None
      case Some(k) => Some(k + 1)
    else None
  }

  predicate IsHyphen(c: char) {
    c == '-'
  }

  /** `978` or `979`, the EAN prefixes of ISBN-13. */
  predicate Bookland(v: string)
    requires |v| >= 3
  {
    v[..3] == "978" || v[..3] == "979"
  }

  /** `^\d{9}[\dX]$`. */
  predicate Plain10(v: string) {
    |v| == 10 && AllDigits(v[..9]) && IsbnChar(v[9])
  }

  /** The 13-character forms `^(\d+)-(\d+)-(\d+)-([\dX])$` and the same with `\s`. */
  predicate Grouped10(v: string, sep: char -> bool) {
    |v| == 13 && GroupCount(v[..11], sep) == Some(3) && sep(v[11]) && IsbnChar(v[12])
  }

  /** `^(978|979)\d{9}[\dX]$`. */
  predicate Plain13(v: string) {
    |v| == 13 && Bookland(v) && AllDigits(v[3..12]) && IsbnChar(v[12])
  }

  /** The 17-character forms `^(978|979)-(\d+)-(\d+)-(\d+)-([\dX])$` and the same with `\s`. */
  predicate Grouped13(v: string, sep: char -> bool) {
    |v| == 17 && Bookland(v) && sep(v[3]) && GroupCount(v[4..15], sep) == Some(3) && sep(v[15]) && IsbnChar(v[16])
  }

  /** The `switch (true)`: the ISBN-10 forms are tried first. */
  function Detect(v: string): (r: Option<Kind>)
    ensures Plain10(v) ==> r == Some(Isbn10)
    ensures r == Some(Isbn13) ==> Plain13(v) || Grouped13(v, IsHyphen) || Grouped13(v, IsSpace)
  {
    if Plain10(v) || Grouped10(v, IsHyphen) || Grouped10(v, IsSpace) then Some(Isbn10)
    else if Plain13(v) || Grouped13(v, IsHyphen) || Grouped13(v, IsSpace) then Some(Isbn13)
    else None
  }

  predicate Kept(c: char) {
    IsDigit(c) || c == 'X' || c == 'x'
  }

  /** `replace(/[^0-9X]/gi, '')`. */
  function Clean(v: string): string {
    Filter(v, Kept)
  }

  /** `parseInt` of one character: NaN (`None`) unless it is a digit. */
  function DigitOf(c: char): (r: Option<nat>)
    ensures r.Some? <==> IsDigit(c)
    ensures r.Some? ==> r.value == DigitVal(c)
  {
    if IsDigit(c) then Some(DigitVal(c)) else None
  }

  /** `sum += (10 - i) * parseInt(chars[i])` for `i < k`; NaN is `None`. */
  function Sum10(c: string, k: nat): (r: Option<int>)
    requires k <= |c|
    ensures r.Some? <==> AllDigits(c[..k])
  {
    if k == 0 then Some(0)
    else
      var prev := Sum10(c, k - 1);
      assert c[..k][..k - 1] == c[..k - 1];
      match (prev, DigitOf(c[k - 1]))
      case (Some(s), Some(d)) => Some(s + (10 - (k - 1)) * d)
      case _ => None
  }

  /** `sum += (i % 2 == 0) ? d : 3 * d` for `i < k`; NaN is `None`. */
  function Sum13(c: string, k: nat): (r: Option<int>)
    requires k <= |c|
    ensures r.Some? <==> AllDigits(c[..k])
  {
    if k == 0 then Some(0)
    else
      var prev := Sum13(c, k - 1);
      assert c[..k][..k - 1] == c[..k - 1];
      match (prev, DigitOf(c[k - 1]))
      case (Some(s), Some(d)) => Some(s + (if (k - 1) % 2 == 0 then d else 3 * d))
      case _ => None
  }

  /** `11 - (sum % 11)`, written `0` for eleven and `X` for ten; `None` when
      it would print as two characters. */
  function CheckChar10(s: int): Option<char> {
    var cs := 11 - JsRem(s, 11);
    if cs == 11 then Some('0')
    else if cs == 10 then Some('X')
    else if 0 <= cs <= 9 then Some(DigitChar(cs))
    else None
  }

  /** `10 - (sum % 10)`, written `0` for ten. */
  function CheckChar13(s: int): Option<char> {
    var cs := 10 - JsRem(s, 10);
    if cs == 10 then Some('0')
    else if 0 <= cs <= 9 then Some(DigitChar(cs))
    else None
  }

  /** The ISBN-10 branch on the cleaned characters. */
  predicate Check10(c: string) {
    |c| > 0 && Sum10(c, |c| - 1).Some? && CheckChar10(Sum10(c, |c| - 1).value) == Some(c[|c| - 1])
  }

  /** The ISBN-13 branch on the cleaned characters. */
  predicate Check13(c: string) {
    |c| > 0 && Sum13(c, |c| - 1).Some? && CheckChar13(Sum13(c, |c| - 1).value) == Some(c[|c| - 1])
  }

  /** The `isbn` validator. */
  function IsbnValid(v: string): (r: bool)
    ensures v == [] ==> r
    ensures v != [] && r ==> Detect(v).Some?
  {
    if v == [] then true
    else
      match Detect(v)
      case None => false
      case Some(Isbn10) => Check10(Clean(v))
      case Some(Isbn13) => Check13(Clean(v))
  }

  /** The value of an ISBN-10 character: `X` stands for ten. */
  function Value10(c: char): (r: nat)
    requires IsbnChar(c)
    ensures r <= 10
  {
    if c == 'X' then 10 else DigitVal(c)
  }

  /**
   The ISBN-10 check of ISO 2108: the ten characters weighted 10 down to 1
   sum to a multiple of 11.  The validator's check-character computation
   agrees with it on every ten-character candidate.
   */
  lemma Isbn10Reference(s: string)
    requires |s| == 10 && AllDigits(s[..9]) && IsbnChar(s[9])
    ensures Sum10(s, 9).Some?
    ensures Check10(s) <==> (Sum10(s, 9).value + Value10(s[9])) % 11 == 0
  {
    var t := Sum10(s, 9).value;
    Sum10NonNegative(s, 9);
    CheckChar10Value(t, s[9]);
    ModComplete(Value10(s[9]), t, 11);
  }

  /** The check character of a non-negative sum, read as a value. */
  lemma CheckChar10Value(t: int, c: char)
    requires t >= 0 && IsbnChar(c)
    ensures CheckChar10(t) == Some(c) <==> Value10(c) == (11 - t % 11) % 11
  {
    var cs := 11 - t % 11;
    if 1 <= cs <= 9 {
      assert DigitVal(DigitChar(cs)) == cs;
    }
  }

  lemma {:induction false} Sum10NonNegative(c: string, k: nat)
    requires k <= |c| && k <= 11 && AllDigits(c[..k])
    ensures Sum10(c, k).value >= 0
  {
    if k > 0 {
      assert c[..k][..k - 1] == c[..k - 1];
      Sum10NonNegative(c, k - 1);
    }
  }

  lemma {:induction false} Sum13NonNegative(c: string, k: nat)
    requires k <= |c| && AllDigits(c[..k])
    ensures Sum13(c, k).value >= 0
  {
    if k > 0 {
      assert c[..k][..k - 1] == c[..k - 1];
      Sum13NonNegative(c, k - 1);
    }
  }

  /**
   The ISBN-13 (EAN-13) check: the thirteen digits weighted 1, 3, 1, … sum
   to a multiple of 10; a check character `X` is never accepted.
   */
  lemma Isbn13Reference(s: string)
    requires |s| == 13 && AllDigits(s[..12]) && IsbnChar(s[12])
    ensures Check13(s) <==> AllDigits(s) && Sum13(s, 13).value % 10 == 0
  {
    var t := Sum13(s, 12).value;
    Sum13NonNegative(s, 12);
    assert s[..13] == s;
    if IsDigit(s[12]) {
      var d := DigitVal(s[12]);
      assert Sum13(s, 13).value == t + d;
      ModComplete(d, t, 10);
      var cs := 10 - t % 10;
      assert CheckChar13(t) == Some(s[12]) <==> d == cs % 10 by {
        if 1 <= cs <= 9 {
          assert DigitVal(DigitChar(cs)) == cs;
        }
      }
    } else {
      assert !AllDigits(s);
    }
  }

  /** Written without separators, an ISBN-10 is accepted exactly by the ISO 2108 check. */
  lemma PlainIsbn10(v: string)
    requires Plain10(v)
    ensures IsbnValid(v) <==> (Sum10(v, 9).value + Value10(v[9])) % 11 == 0
  {
    FilterKeepsAll(v, Kept);
    Isbn10Reference(v);
  }

  /** Written without separators, an ISBN-13 is accepted exactly by the EAN-13 check. */
  lemma PlainIsbn13(v: string)
    requires Plain13(v)
    ensures IsbnValid(v) <==> AllDigits(v) && Sum13(v, 13).value % 10 == 0
  {
    assert v[3..12][8] == v[11];
    assert Detect(v) == Some(Isbn13);
    assert AllDigits(v[..12]) by {
      assert forall i :: 0 <= i < 3 ==> v[..12][i] == v[..3][i];
      assert forall i :: 3 <= i < 12 ==> v[..12][i] == v[3..12][i - 3];
    }
    FilterKeepsAll(v, Kept);
    Isbn13Reference(v);
  }

  /** Cleaning drops a character that is neither a digit nor `X`. */
  lemma CleanSkips(a: string, x: char, b: string)
    requires !Kept(x)
    ensures Clean(a + [x] + b) == Clean(a) + Clean(b)
  {
    assert a + [x] + b == a + ([x] + b);
    FilterConcat(a, [x] + b, Kept);
    assert ([x] + b)[1..] == b;
  }

  /** Cleaning keeps a character that is a digit or `X`. */
  lemma CleanKeeps(a: string, x: char, b: string)
    requires Kept(x)
    ensures Clean(a + [x] + b) == Clean(a) + [x] + Clean(b)
  {
    assert a + [x] + b == a + ([x] + b);
    FilterConcat(a, [x] + b, Kept);
    assert ([x] + b)[1..] == b;
  }

  /** Cleaning a string of digits gives it back. */
  lemma CleanDigits(a: string)
    requires AllDigits(a)
    ensures Clean(a) == a
  {
    FilterKeepsAll(a, Kept);
  }

  lemma AllDigitsConcat(a: string, b: string)
    requires AllDigits(a) && AllDigits(b)
    ensures AllDigits(a + b)
  {
    assert forall i :: 0 <= i < |a| ==> (a + b)[i] == a[i];
    assert forall i :: |a| <= i < |a + b| ==> (a + b)[i] == b[i - |a|];
  }

  /** Cleaning a run of digit groups keeps their digits and drops the one
      separator between each pair of groups. */
  lemma {:induction false} CleanGroups(u: string, sep: char -> bool, k: nat)
    requires GroupCount(u, sep) == Some(k)
    requires forall c :: sep(c) ==> !Kept(c)
    decreases |u|
    ensures AllDigits(Clean(u)) && |Clean(u)| + k - 1 == |u|
  {
    var n := DigitPrefix(u);
    var head := u[..n];
    CleanDigits(head);
    if n == |u| {
      assert head == u;
    } else {
      var rest := u[n + 1..];
      assert GroupCount(rest, sep) == Some(k - 1);
      assert u == head + [u[n]] + rest;
      CleanSkips(head, u[n], rest);
      CleanGroups(rest, sep, k - 1);
      AllDigitsConcat(head, Clean(rest));
    }
  }

  /** The cleaned characters of an ISBN-10 with separators are of the plain form. */
  lemma Grouped10Clean(v: string, sep: char -> bool)
    requires Grouped10(v, sep)
    requires forall c :: sep(c) ==> !Kept(c)
    ensures Plain10(Clean(v))
  {
    var g := v[..11];
    CleanGroups(g, sep, 3);
    assert v == g + [v[11]] + [v[12]];
    CleanSkips(g, v[11], [v[12]]);
    CleanKeeps([], v[12], []);
    assert [] + [v[12]] + [] == [v[12]];
    assert Clean(v) == Clean(g) + [v[12]];
    assert Clean(v)[..9] == Clean(g);
  }

  /** A plain form is its own cleaning, so it is judged by the check of its kind. */
  lemma PlainSelfJudged(c: string)
    requires Plain10(c) || Plain13(c)
    ensures Plain10(c) ==> (IsbnValid(c) <==> Check10(c))
    ensures Plain13(c) ==> (IsbnValid(c) <==> Check13(c))
  {
    assert forall i :: 0 <= i < |c| ==> Kept(c[i]) by {
      forall i | 0 <= i < |c| ensures Kept(c[i]) {
        if Plain10(c) {
          if i < 9 { assert c[i] == c[..9][i]; }
        } else if i < 3 {
          assert c[i] == c[..3][i];
        } else if i < 12 {
          assert c[i] == c[3..12][i - 3];
        }
      }
    }
    FilterKeepsAll(c, Kept);
    if Plain13(c) {
      assert c[3..12][8] == c[11];
      assert Detect(c) == Some(Isbn13);
    }
  }

  /** The ISBN-10 forms with separators: the cleaned characters are of the
      plain form, and the verdict is the ISO 2108 check on them. */
  lemma GroupedIsbn10(v: string)
    requires Grouped10(v, IsHyphen) || Grouped10(v, IsSpace)
    ensures Plain10(Clean(v))
    ensures IsbnValid(v) <==> IsbnValid(Clean(v))
    ensures IsbnValid(v) <==> (Sum10(Clean(v), 9).value + Value10(Clean(v)[9])) % 11 == 0
  {
    if Grouped10(v, IsHyphen) {
      Grouped10Clean(v, IsHyphen);
    } else {
      Grouped10Clean(v, IsSpace);
    }
    var c := Clean(v);
    assert Detect(v) == Some(Isbn10);
    assert IsbnValid(v) == Check10(c);
    PlainIsbn10(c);
    PlainSelfJudged(c);
  }

  /** The cleaned characters of an ISBN-13 with separators are of the plain form. */
  lemma Grouped13Clean(v: string, sep: char -> bool)
    requires Grouped13(v, sep)
    requires forall c :: sep(c) ==> !Kept(c)
    ensures Plain13(Clean(v))
  {
    var g := v[4..15];
    var p := v[..3];
    CleanGroups(g, sep, 3);
    assert AllDigits(p);
    CleanDigits(p);
    assert v == p + [v[3]] + (g + [v[15]] + [v[16]]);
    CleanSkips(p, v[3], g + [v[15]] + [v[16]]);
    CleanSkips(g, v[15], [v[16]]);
    CleanKeeps([], v[16], []);
    assert [] + [v[16]] + [] == [v[16]];
    var c := Clean(v);
    assert c == p + Clean(g) + [v[16]];
    assert c[..3] == p && c[3..12] == Clean(g);
  }

  /** The ISBN-13 forms with separators: the cleaned characters are of the
      plain form, and the verdict is the EAN-13 check on them. */
  lemma GroupedIsbn13(v: string)
    requires Grouped13(v, IsHyphen) || Grouped13(v, IsSpace)
    ensures Plain13(Clean(v))
    ensures IsbnValid(v) <==> IsbnValid(Clean(v))
    ensures IsbnValid(v) <==> AllDigits(Clean(v)) && Sum13(Clean(v), 13).value % 10 == 0
  {
    if Grouped13(v, IsHyphen) {
      Grouped13Clean(v, IsHyphen);
    } else {
      Grouped13Clean(v, IsSpace);
    }
    var c := Clean(v);
    assert Detect(v) == Some(Isbn13);
    assert IsbnValid(v) == Check13(c);
    PlainIsbn13(c);
    PlainSelfJudged(c);
  }

  /** The documented ISBN-10 99921-58-10-7, once its separators are removed, passes. */
  lemma DocumentedCheck10()
    ensures Check10("9992158107")
  {
    var v := "9992158107";
    assert Sum10(v, 5) == Some(263);
    assert Sum10(v, 9) == Some(323);
  }

  /** 99921-58-10-6, the same number with a wrong check digit, fails. */
  lemma DocumentedCheck10Fails()
    ensures !Check10("9992158106")
  {
    var w := "9992158106";
    assert Sum10(w, 5) == Some(263);
    assert Sum10(w, 9) == Some(323);
  }

  /** The documented ISBN-10 0-8044-2957-X, whose check character is ten. */
  lemma DocumentedCheck10X()
    ensures Check10("080442957X")
  {
    var v := "080442957X";
    assert Sum10(v, 5) == Some(124);
    assert Sum10(v, 9) == Some(199);
  }

  /** The ISBN-13 check on the documented example 978-0-306-40615-7, which passes. */
  lemma DocumentedCheck13()
    ensures Check13("9780306406157")
  {
    var v := "9780306406157";
    assert Sum13(v, 3) == Some(38);
    assert Sum13(v, 6) == Some(41);
    assert Sum13(v, 9) == Some(59);
    assert Sum13(v, 12) == Some(93);
  }

  /** The ISBN-13 check on 978-0-306-40615-6, documented as invalid. */
  lemma DocumentedCheck13Fails()
    ensures !Check13("9780306406156")
  {
    var v, w := "9780306406157", "9780306406156";
    DocumentedCheck13();
    assert v[..12] == w[..12];
    Sum13Prefix(v, w, 12);
  }

  /** The ISBN-13 sum over the first `k` characters depends on those characters only. */
  lemma {:induction false} Sum13Prefix(a: string, b: string, k: nat)
    requires k <= |a| && k <= |b| && a[..k] == b[..k]
    ensures Sum13(a, k) == Sum13(b, k)
  {
    if k > 0 {
      assert a[k - 1] == a[..k][k - 1] && b[k - 1] == b[..k][k - 1];
      assert a[..k - 1] == a[..k][..k - 1] && b[..k - 1] == b[..k][..k - 1];
      Sum13Prefix(a, b, k - 1);
    }
  }
}
