/**
 The arithmetic the per-country VAT routines share: the shape
 `^XX[0-9]{n}$`, the loop `sum += parseInt(value.charAt(i)) * weight[i]`,
 the comparison of a computed number with a digit of the input, and the
 ISO/IEC 7064 MOD 11,10 carry of the German, Croatian and Serbian numbers.
 */
module VatSums {
  import opened Chars

  /** `^P[0-9]{n}$`: the literal prefix `p`, then exactly `n` digits. */
  predicate Prefixed(v: string, p: string, n: nat) {
    |v| == |p| + n && v[..|p|] == p && AllDigits(v[|p|..])
  }

  /** `n == value.substr(k, 1)`: loose equality turns the one-digit string into its number. */
  predicate DigitIs(n: int, c: char) {
    IsDigit(c) && DigitVal(c) == n
  }

  /** `s.indexOf(c)`: the first position of `c`, or -1. */
  function IndexOf(s: string, c: char): (r: int)
    ensures -1 <= r < |s|
    ensures r >= 0 ==> s[r] == c && forall k :: 0 <= k < r ==> s[k] != c
    ensures r == -1 ==> forall k :: 0 <= k < |s| ==> s[k] != c
  {
    if s == [] then -1
    else if s[0] == c then 0
    else
      var r := IndexOf(s[1..], c);
      if r == -1 then -1 else r + 1
  }

  /** The sum of `digit(s[i]) * w[i]` over the first `k` positions. */
  function Partial(s: string, w: seq<int>, k: nat): int
    requires k <= |w| && k <= |s| && AllDigits(s)
  {
    if k == 0 then 0 else Partial(s, w, k - 1) + DigitVal(s[k - 1]) * w[k - 1]
  }

  /** The weighted digit sum over as many positions as there are weights. */
  function Weighted(s: string, w: seq<int>): int
    requires |w| <= |s| && AllDigits(s)
  {
    Partial(s, w, |w|)
  }

  /** Changing one digit moves the sum by the change times that position's
      weight, and not at all when the position is not summed. */
  lemma {:induction false} PartialReplace(s: string, w: seq<int>, k: nat, i: nat, c: char)
    requires k <= |w| && k <= |s| && AllDigits(s) && i < |s| && IsDigit(c)
    ensures AllDigits(s[i := c])
    ensures Partial(s[i := c], w, k) == Partial(s, w, k) + (if i < k then (DigitVal(c) - DigitVal(s[i])) * w[i] else 0)
  {
    if k > 0 {
      PartialReplace(s, w, k - 1, i, c);
    }
  }

  /** No multiple `j * w` with `1 <= j <= k` is divisible by `m`. */
  predicate NoZeroMultiple(w: int, m: int, k: nat)
    requires m > 0
  {
    k == 0 || ((k * w) % m != 0 && NoZeroMultiple(w, m, k - 1))
  }

  lemma {:induction false} NoZeroMultipleAt(w: int, m: int, k: nat, j: nat)
    requires m > 0 && NoZeroMultiple(w, m, k) && 1 <= j <= k
    ensures (j * w) % m != 0
  {
    if j < k {
      NoZeroMultipleAt(w, m, k - 1, j);
    }
  }

  /** Every one of the first `k` weights separates the ten digits modulo `m`. */
  predicate Separating(w: seq<int>, m: int, k: nat)
    requires m > 0 && k <= |w|
  {
    k == 0 || (NoZeroMultiple(w[k - 1], m, 9) && Separating(w, m, k - 1))
  }

  lemma {:induction false} SeparatingAt(w: seq<int>, m: int, k: nat, i: nat)
    requires m > 0 && k <= |w| && Separating(w, m, k) && i < k
    ensures NoZeroMultiple(w[i], m, 9)
  {
    if i < k - 1 {
      SeparatingAt(w, m, k - 1, i);
    }
  }

  /** Adding `j * w`, for a digit difference `j`, moves the residue modulo `m`. */
  lemma ResidueMoves(a: int, j: int, w: int, m: int)
    requires m > 0 && j != 0 && -9 <= j <= 9 && NoZeroMultiple(w, m, 9)
    ensures (a + j * w) % m != a % m
  {
    var n := if j > 0 then j else -j;
    NoZeroMultipleAt(w, m, 9, n);
    if (a + j * w) % m == a % m {
      var q1, q2 := (a + j * w) / m, a / m;
      MulDiff(m, q1, q2);
      assert j * w == m * (q1 - q2);
      var q := if j > 0 then q1 - q2 else q2 - q1;
      assert n * w == m * q;
      ModUnique(n * w, m, q, 0);
    }
  }

  /** A single substituted digit changes the weighted sum's residue. */
  lemma SubstitutionMoves(s: string, w: seq<int>, m: int, i: nat, c: char)
    requires AllDigits(s) && |w| <= |s| && i < |w| && IsDigit(c) && c != s[i]
    requires m > 0 && NoZeroMultiple(w[i], m, 9)
    ensures AllDigits(s[i := c])
    ensures Weighted(s[i := c], w) % m != Weighted(s, w) % m
  {
    PartialReplace(s, w, |w|, i, c);
    ResidueMoves(Weighted(s, w), DigitVal(c) - DigitVal(s[i]), w[i], m);
  }

  /** `sum % m == 0` with JavaScript's `%` holds exactly when the sum is a multiple of `m`. */
  lemma JsRemZero(a: int, m: int)
    requires m > 0
    ensures JsRem(a, m) == 0 <==> a % m == 0
  {
    if a < 0 {
      if a % m == 0 {
        ModUnique(-a, m, -(a / m), 0);
      }
      if (-a) % m == 0 {
        ModUnique(a, m, -((-a) / m), 0);
      }
    }
  }

  /** Changing a position past the weights leaves the sum alone. */
  lemma TailIgnored(s: string, w: seq<int>, i: nat, c: char)
    requires AllDigits(s) && |w| <= i < |s| && IsDigit(c)
    ensures AllDigits(s[i := c])
    ensures Weighted(s[i := c], w) == Weighted(s, w)
  {
    PartialReplace(s, w, |w|, i, c);
  }

  /** The sum only reads the first `k` digits, so a longer input gives the same sum. */
  lemma {:induction false} PartialPrefix(s: string, w: seq<int>, k: nat, n: nat)
    requires k <= |w| && k <= n <= |s| && AllDigits(s)
    ensures AllDigits(s[..n])
    ensures Partial(s[..n], w, k) == Partial(s, w, k)
  {
    if k > 0 {
      PartialPrefix(s, w, k - 1, n);
      assert s[..n][k - 1] == s[k - 1];
    }
  }

  /** A digit put in place of a digit after the prefix keeps the shape. */
  lemma PrefixedReplace(v: string, p: string, n: nat, i: nat, c: char)
    requires Prefixed(v, p, n) && |p| <= i < |v| && IsDigit(c)
    ensures Prefixed(v[i := c], p, n)
    ensures v[i := c][|p|..] == v[|p|..][i - |p| := c]
  {
    assert v[i := c][..|p|] == v[..|p|];
  }

  /** A digit put in place of a prefix character without digits breaks the shape. */
  lemma PrefixBroken(v: string, p: string, n: nat, i: nat, c: char)
    requires i < |p| && |p| <= |v| && !IsDigit(p[i]) && IsDigit(c)
    ensures v[i := c][..|p|] != p
  {
    assert v[i := c][..|p|][i] == c;
  }

  /** `^P[0-9]{n}$` with a weighted sum divisible by `m`: the rule of the
      Danish, Estonian, Finnish, Hungarian and Maltese numbers. */
  predicate ZeroSum(v: string, p: string, w: seq<int>, m: int)
    requires m > 0
  {
    Prefixed(v, p, |w|) && Weighted(v[|p|..], w) % m == 0
  }

  /** When every weight separates the digits, any digit substituted for one
      character of an accepted number is rejected. */
  lemma ZeroSumSubstitution(v: string, p: string, w: seq<int>, m: int, i: nat, c: char)
    requires m > 0 && ZeroSum(v, p, w, m) && Separating(w, m, |w|)
    requires forall k :: 0 <= k < |p| ==> !IsDigit(p[k])
    requires i < |v| && IsDigit(c) && c != v[i]
    ensures !ZeroSum(v[i := c], p, w, m)
  {
    if i < |p| {
      PrefixBroken(v, p, |w|, i, c);
    } else {
      PrefixedReplace(v, p, |w|, i, c);
      SeparatingAt(w, m, |w|, i - |p|);
      SubstitutionMoves(v[|p|..], w, m, i - |p|, c);
    }
  }

  // ----- ISO/IEC 7064 MOD 11,10 -----

  /** One step: `t = (digit + carry) % 10`, zero read as ten, and the new
      carry `(2 * t) % 11`. */
  function Step(p: int, d: nat): (r: int)
    requires d < 10
    ensures 1 <= r <= 10
  {
    var t := (d + p) % 10;
    ((if t == 0 then 10 else t) * 2) % 11
  }

  /** The carry after the first `k` digits, starting from ten. */
  function Carry(s: string, k: nat): (r: int)
    requires k <= |s| && AllDigits(s)
    ensures 1 <= r <= 10
  {
    if k == 0 then 10 else Step(Carry(s, k - 1), DigitVal(s[k - 1]))
  }

  /** Distinct carries give distinct next carries, and so do distinct digits. */
  lemma StepInjective(p: int, q: int, d: nat, e: nat)
    requires 1 <= p <= 10 && 1 <= q <= 10 && d < 10 && e < 10
    requires p != q || d != e
    requires p == q || d == e
    ensures Step(p, d) != Step(q, e)
  {
    assert NoZeroMultiple(1, 10, 9) && NoZeroMultiple(2, 11, 9);
    var a, b := d + p, e + q;
    ResidueMoves(b, a - b, 1, 10);
    var t, u := a % 10, b % 10;
    var t', u' := (if t == 0 then 10 else t), (if u == 0 then 10 else u);
    ResidueMoves(u' * 2, t' - u', 2, 11);
    assert u' * 2 + (t' - u') * 2 == t' * 2;
    assert Step(p, d) == (t' * 2) % 11 && Step(q, e) == (u' * 2) % 11;
  }

  /** The carry only depends on the digits read so far. */
  lemma {:induction false} CarryTail(s: string, k: nat, i: nat, c: char)
    requires k <= |s| && AllDigits(s) && k <= i < |s| && IsDigit(c)
    ensures AllDigits(s[i := c])
    ensures Carry(s[i := c], k) == Carry(s, k)
  {
    if k > 0 {
      CarryTail(s, k - 1, i, c);
    }
  }

  /** A single substituted digit among the first `k` changes the carry. */
  lemma {:induction false} CarryMoves(s: string, k: nat, i: nat, c: char)
    requires k <= |s| && AllDigits(s) && i < k && IsDigit(c) && c != s[i]
    ensures AllDigits(s[i := c])
    ensures Carry(s[i := c], k) != Carry(s, k)
  {
    var t := s[i := c];
    if i == k - 1 {
      CarryTail(s, k - 1, i, c);
      StepInjective(Carry(s, k - 1), Carry(s, k - 1), DigitVal(s[i]), DigitVal(c));
    } else {
      CarryMoves(s, k - 1, i, c);
      assert t[k - 1] == s[k - 1];
      StepInjective(Carry(s, k - 1), Carry(t, k - 1), DigitVal(s[k - 1]), DigitVal(s[k - 1]));
    }
  }

  /** `(carry + last) % 10 == 1` after `n` digits: the Croatian and Serbian rule. */
  predicate Mod1110(d: string, n: nat)
    requires n < |d| && AllDigits(d)
  {
    (Carry(d, n) + DigitVal(d[n])) % 10 == 1
  }

  /** ISO/IEC 7064 MOD 11,10 detects every single substituted digit. */
  lemma Mod1110Substitution(d: string, n: nat, i: nat, c: char)
    requires n < |d| && AllDigits(d) && Mod1110(d, n)
    requires i <= n && IsDigit(c) && c != d[i]
    ensures AllDigits(d[i := c])
    ensures !Mod1110(d[i := c], n)
  {
    var t := d[i := c];
    assert NoZeroMultiple(1, 10, 9);
    var x := DigitVal(d[n]);
    if i < n {
      CarryMoves(d, n, i, c);
      assert t[n] == d[n];
      ResidueMoves(Carry(d, n) + x, Carry(t, n) - Carry(d, n), 1, 10);
      assert Carry(d, n) + x + (Carry(t, n) - Carry(d, n)) * 1 == Carry(t, n) + x;
    } else {
      CarryTail(d, n, i, c);
      ResidueMoves(Carry(d, n) + x, DigitVal(c) - x, 1, 10);
      assert Carry(d, n) + x + (DigitVal(c) - x) * 1 == Carry(t, n) + DigitVal(t[n]);
    }
  }
}
