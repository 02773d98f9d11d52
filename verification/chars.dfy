/**
 Character classes and small number conversions shared by the validators,
 with JavaScript's meaning: `\d` and `parseInt` know ASCII digits only, `\s`
 is ECMAScript white space plus line terminators, `%` truncates toward zero.
 */
module Chars {

  predicate IsDigit(c: char) {
    '0' <= c <= '9'
  }

  function DigitVal(c: char): (r: nat)
    requires IsDigit(c)
    ensures r < 10
  {
    c as int - '0' as int
  }

  /** The digit character of a value below ten. */
  function DigitChar(n: nat): (c: char)
    requires n < 10
    ensures IsDigit(c) && DigitVal(c) == n
  {
    (n + '0' as int) as char
  }

  predicate AllDigits(s: string) {
    forall i :: 0 <= i < |s| ==> IsDigit(s[i])
  }

  /** The value of a string of decimal digits, most significant first. */
  function NumberOf(s: string): nat
    requires AllDigits(s)
  {
    if s == [] then 0 else 10 * NumberOf(s[..|s| - 1]) + DigitVal(s[|s| - 1])
  }

  lemma {:induction false} NumberOfBound(s: string)
    requires AllDigits(s)
    ensures NumberOf(s) < Pow10(|s|)
  {
    if s != [] {
      NumberOfBound(s[..|s| - 1]);
    }
  }

  function Pow10(n: nat): (r: nat)
    ensures r >= 1
  {
    if n == 0 then 1 else 10 * Pow10(n - 1)
  }

  /** Splitting a digit string splits its value. */
  lemma {:induction false} NumberOfConcat(a: string, b: string)
    requires AllDigits(a) && AllDigits(b)
    ensures AllDigits(a + b)
    ensures NumberOf(a + b) == NumberOf(a) * Pow10(|b|) + NumberOf(b)
  {
    if b == [] {
      assert a + b == a;
    } else {
      var b' := b[..|b| - 1];
      assert (a + b)[..|a + b| - 1] == a + b';
      NumberOfConcat(a, b');
      assert (a + b)[|a + b| - 1] == b[|b| - 1];
      MulShift(NumberOf(a), Pow10(|b'|));
    }
  }

  /** The value of `s[lo..hi]`, as `parseInt(value.substr(lo, hi - lo), 10)` yields it. */
  function Num(s: string, lo: nat, hi: nat): nat
    requires lo <= hi <= |s| && AllDigits(s)
  {
    NumberOf(s[lo..hi])
  }

  /** `parseInt(s, 10)`: the value of the longest digit prefix, NaN (None)
      when there is none.  Leading white space and signs do not occur where
      the validators call it. */
  function ParseIntPrefix(s: string): (r: Option<nat>)
    ensures r.None? <==> (s == [] || !IsDigit(s[0]))
  {
    var n := DigitPrefix(s);
    if n == 0 then None else Some(NumberOf(s[..n]))
  }

  datatype Option<+T> = None | Some(value: T)

  /** The length of the longest all-digit prefix. */
  function DigitPrefix(s: string): (n: nat)
    ensures n <= |s| && AllDigits(s[..n])
    ensures n < |s| ==> !IsDigit(s[n])
  {
    if s == [] || !IsDigit(s[0]) then 0
    else
      var n := 1 + DigitPrefix(s[1..]);
      assert s[..n] == [s[0]] + s[1..][..n - 1];
      n
  }

  predicate IsUpper(c: char) {
    'A' <= c <= 'Z'
  }

  predicate IsLower(c: char) {
    'a' <= c <= 'z'
  }

  predicate IsLetter(c: char) {
    IsUpper(c) || IsLower(c)
  }

  predicate IsAlnum(c: char) {
    IsDigit(c) || IsLetter(c)
  }

  /** `toUpperCase` on ASCII letters; other characters unchanged. */
  function Upper(c: char): (r: char)
    ensures IsLower(c) ==> IsUpper(r) && r as int == c as int - 32
    ensures !IsLower(c) ==> r == c
  {
    if IsLower(c) then (c as int - 32) as char else c
  }

  function UpperStr(s: string): (r: string)
    ensures |r| == |s| && forall i :: 0 <= i < |s| ==> r[i] == Upper(s[i])
  {
    if s == [] then [] else [Upper(s[0])] + UpperStr(s[1..])
  }

  function Lower(c: char): (r: char)
    ensures IsUpper(c) ==> IsLower(r) && r as int == c as int + 32
    ensures !IsUpper(c) ==> r == c
  {
    if IsUpper(c) then (c as int + 32) as char else c
  }

  function LowerStr(s: string): (r: string)
    ensures |r| == |s| && forall i :: 0 <= i < |s| ==> r[i] == Lower(s[i])
  {
    if s == [] then [] else [Lower(s[0])] + LowerStr(s[1..])
  }

  /** Case-insensitive character equality, for regular expressions with the `i` flag. */
  predicate SameLetter(a: char, b: char) {
    Upper(a) == Upper(b)
  }

  /** `\s`: white space and line terminators. */
  predicate IsSpace(c: char) {
    var n := c as int;
    (0x09 <= n <= 0x0D) || n == 0x20 || n == 0xA0 || n == 0x1680 || (0x2000 <= n <= 0x200A)
    || n == 0x2028 || n == 0x2029 || n == 0x202F || n == 0x205F || n == 0x3000 || n == 0xFEFF
  }

  /** `$.trim`: white space removed at both ends. */
  function Trim(s: string): (r: string)
    ensures |r| <= |s|
    ensures r != [] ==> !IsSpace(r[0]) && !IsSpace(r[|r| - 1])
  {
    TrimEnd(TrimStart(s))
  }

  function TrimStart(s: string): (r: string)
    ensures |r| <= |s| && r == s[|s| - |r|..]
    ensures r != [] ==> !IsSpace(r[0])
    ensures forall i :: 0 <= i < |s| - |r| ==> IsSpace(s[i])
  {
    if s != [] && IsSpace(s[0]) then TrimStart(s[1..]) else s
  }

  function TrimEnd(s: string): (r: string)
    ensures |r| <= |s| && r == s[..|r|]
    ensures r != [] ==> !IsSpace(r[|r| - 1])
    ensures forall i :: |r| <= i < |s| ==> IsSpace(s[i])
  {
    if s != [] && IsSpace(s[|s| - 1]) then TrimEnd(s[..|s| - 1]) else s
  }

  /** JavaScript's `%`: the remainder takes the sign of the dividend. */
  function JsRem(a: int, b: int): (r: int)
    requires b > 0
    ensures a >= 0 ==> r == a % b
    ensures -b < r < b
    ensures a < 0 ==> r <= 0 && r == -((-a) % b)
  {
    if a >= 0 then a % b else -((-a) % b)
  }

  /** The characters of `s` that satisfy `keep`, in order (`replace(/[^…]/g, '')`). */
  function Filter(s: string, keep: char -> bool): (r: string)
    ensures |r| <= |s|
    ensures forall i :: 0 <= i < |r| ==> keep(r[i])
  {
    if s == [] then [] else (if keep(s[0]) then [s[0]] else []) + Filter(s[1..], keep)
  }

  /** Filtering a string that only holds kept characters changes nothing. */
  lemma {:induction false} FilterKeepsAll(s: string, keep: char -> bool)
    requires forall i :: 0 <= i < |s| ==> keep(s[i])
    ensures Filter(s, keep) == s
  {
    if s != [] {
      FilterKeepsAll(s[1..], keep);
    }
  }

  /** `replace(/\D/g, '')`: the digits of the input, in order. */
  function StripNonDigits(s: string): (r: string)
    ensures AllDigits(r) && |r| <= |s|
  {
    Filter(s, IsDigit)
  }

  /** Stripping a string of digits gives it back. */
  lemma StripKeepsDigits(s: string)
    requires AllDigits(s)
    ensures StripNonDigits(s) == s
  {
    FilterKeepsAll(s, IsDigit);
  }

  /** Filtering distributes over concatenation. */
  lemma {:induction false} FilterConcat(a: string, b: string, keep: char -> bool)
    ensures Filter(a + b, keep) == Filter(a, keep) + Filter(b, keep)
  {
    if a == [] {
      assert a + b == b;
    } else {
      assert (a + b)[1..] == a[1..] + b;
      FilterConcat(a[1..], b, keep);
    }
  }

  /** Every character filtering keeps comes from the input. */
  lemma {:induction false} FilterFrom(s: string, keep: char -> bool, i: nat)
    requires i < |Filter(s, keep)|
    ensures Filter(s, keep)[i] in s
  {
    if keep(s[0]) {
      if i > 0 {
        FilterFrom(s[1..], keep, i - 1);
      }
    } else {
      FilterFrom(s[1..], keep, i);
    }
  }

  /** The one amount below `m` that brings `n` to a multiple of `m`. */
  lemma ModComplete(d: int, n: int, m: int)
    requires m > 0 && 0 <= d < m
    ensures (d + n) % m == 0 <==> d == (m - n % m) % m
  {
    var x := n % m;
    ModUnique(n, m, n / m, x);
    if x == 0 {
      ModUnique(m - x, m, 1, 0);
      ModUnique(d + n, m, n / m, d);
    } else {
      ModUnique(m - x, m, 0, m - x);
      if d + x < m {
        ModUnique(d + n, m, n / m, d + x);
      } else {
        ModUnique(d + n, m, n / m + 1, d + x - m);
      }
    }
  }

  /** A remainder is the only one below the divisor. */
  lemma ModUnique(a: int, m: int, k: int, r: int)
    requires m > 0 && 0 <= r < m && a == m * k + r
    ensures a % m == r && a / m == k
  {
    var k', r' := a / m, a % m;
    assert m * k' + r' == m * k + r;
    MulDiff(m, k', k);
    if k' > k {
      MulAtLeast(m, k' - k);
    } else if k' < k {
      MulAtLeast(m, k - k');
    }
  }

  lemma MulShift(x: int, p: int)
    ensures 10 * (x * p) == x * (10 * p)
  {
  }

  lemma MulDiff(m: int, a: int, b: int)
    ensures m * a - m * b == m * (a - b)
  {
  }

  lemma MulAtLeast(m: int, t: int)
    requires m > 0 && t >= 1
    ensures m * t >= m
  {
    assert m * t == m + m * (t - 1);
  }
}
